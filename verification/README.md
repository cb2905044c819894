# rutter, modelled and proved

rutter supervises a browser for agents. Its difficult code is concurrent bookkeeping around an engine
that may die, hang or lose an answer at any moment, plus one matching algorithm. This project models
that code in Dafny and proves what it is for. `dafny verify dfyconfig.toml` checks all of it.

The parts, and how each is modelled:

- `Pattern`, `Rules`, `Supervision`: URL patterns (the matcher as the loop it is), first-match review,
  and the gate a session puts in front of every operation. Text is a sequence of bytes; URL
  canonicalization is a function parameter.
- `Broker`: parked approvals, as one object and as a state machine over every interleaving of its callers.
- `Preparation`: the idempotent install of the ref-scope minter on one browser target. Each call may reach
  the browser or not and may be acknowledged or not; page script and navigations come in between.
- `Ring`, `Backbone`, `Dashboard`, `Client`: bounded per-session history, the numbering of events, the
  broadcast bus, and the dashboard connection that stitches replay, live events and refills together.
- `Backoff`, `Restarts`, `Supervisor`, `BringUp`: capped doubling, the sliding-window breaker, the phase
  machine with its replacement ticket, and the restart loop itself. Time is a natural number.
- `Recovery`: the recovery watcher racing `close_session`.
- `Pages`: the page registry as an object.
- `Tabs`, `TabGuarantees`, `TabHistory`, `TabFailures`, `TabCalls`: what a session's calls do to the registry and to the
  engine's tabs when every lock and engine round trip is a step of its own. Page ids are numbered as the
  engines number them, so they come again after a replacement.
- `Storage`, `Persistence`, `Capture`: the atomic write of a session's state, the persist-on-change
  bookkeeping above it, and the grouped localStorage capture.
- `Cache`, `Extract`, `Install`: names in the engine cache, archive extraction under caps, and concurrent
  installation of one version.
- `Pending`: the bounded table of unanswered requests, and capture spacing.
- `Options`, `Numbers`, `Search`, `Runs`: small shared definitions, and the one notion of a state machine's run
  all the protocols share.

A protocol is a total step function `Apply`; a theorem about it speaks of every finite sequence of events.
Where the environment is restricted, the restriction is a predicate on a state and its next event. An
imperative object is a class whose methods are proved against functions on values, and the machines use
those same functions.

## What the proofs turned up

Each of these is a property the code does not have as one might first state it. The code is kept as it
is; a lemma shows the failing case and another says when the property holds, exactly where it says so.

- A dashboard drain reads the rings one session at a time. A publish between two of those reads can leave an
  envelope of an already read session below the new watermark, where it is never sent although its ring
  still holds it (`RacingDrainLosesAnEnvelope`); one drain loses exactly such envelopes (`DrainLosesExactly`),
  and with atomic drains none is ever lost (`OpenSessionsAreAccountedFor`).
- A session opened on a replacement engine before the recovery watcher takes its snapshot is rebuilt on
  the engine it already lives on, and its first context stays open there after the session is closed
  (`RebuildOnTheSameEngineLeaksAContext`). Live contexts are left behind exactly by such rebuilds
  (`OrphansDeadExactly`).
- A call still in flight on a closed session publishes after the session was forgotten and re-creates its
  ring, which nothing then removes (`LateCallRevivesTheRing`). Once close and recovery are done the ring is
  there exactly if a call published after the last forget (`ClosedSessionIsTornDown`).
- A document that loads without its document-start registration costs one of the two preparation
  guarantees exactly if it loads under an attempt that is about to trust what it finds: at the check of the
  lock or of the claimed minter an `Ok` can be answered for a minter the page planted, and at the define a
  document can receive a second one (`UncoveredLoadBreaksExactly`, `TrustIsReached`). Uncovered loads anywhere
  else are harmless (`PreparationIsSafe`).
- A claim whose define never landed keeps every later attempt from succeeding until the document goes
  (`StrandedStays`), and so does a page that fixed the property, as a locked function or as anything else. An
  undisturbed attempt succeeds exactly on a preparable document (`UndisturbedAttempt`).
- At the deadline of an approval a grant can be acknowledged while the wait reports a timeout
  (`GrantAtTheDeadlineIsLost`, `AnswersAreFaithful`); a receiver dropped before `wait` is first polled leaves
  its slot parked (`AbandonedSlotStaysParked`).
- `load_storage` reads the file before it takes the persist lock. A save in between leaves a loaded state
  marked persisted that the file does not hold, and saving that state again writes nothing
  (`StaleLoadLeavesTheFileBehind`). That happens exactly when the flag is up and the last write fell between
  the load's two halves and wrote something else (`LoadKeepsClaimExactly`, `ClaimHoldsThroughout`).
- Page ids come again: every engine counts its contexts from one and every context its pages from zero. Two tabs
  of one id are on different engines (`IdsRepeatAcrossEngines`), but a call can carry an id from one to the other.
  - A lookup can register its page behind another of the same id, and a `tabs_open` then activates both
    (`TwoPagesBecomeActive`). No id is tracked twice exactly if no lookup registers a tracked id
    (`DistinctIdsExactly`), one page is active exactly if no id tracked twice is activated (`OneActiveExactly`).
  - A close that meets a rebuild can untrack the live page restored under the same id
    (`CloseUntracksALiveTab`). A live tab has someone answering for it exactly if no step lets go of it: such
    an untracking, a refused page the engine will not close, an adoption a rebuild refuses, or the end of a
    rebuild that is abandoned after reopening it (`NoTabIsLost`).
  - A close of an id tracked twice can have the new engine's page closed and the dead engine's slot removed, so
    that the closed page stays listed (`ClosedPageStaysListed`).
  - As long as no call reads the list or the context before a swap and ends after it, no rebuild is abandoned
    and the engine closes what the registry refused, all three guarantees hold for the pages the session
    opens (`QuietSwapsKeepEverything`).
- A window adopted through the new context while the rebuild still owns the list is refused, but stays in that
  context's page map, so that no later listing offers it (`RefusedAdoptionLosesAWindow`).
- A page closed while a rebuild takes the list over comes back although its close is reported, on a replacement
  engine possibly under the very id (`ClosedPageComesBack`). A take-over includes a closed page exactly if the
  closing call has yet to untrack it, the page entered the list after it was closed, or the closing call has
  untracked another page of its id (`TakeOverMeetsClosedPages`).
- Outside a rebuild a page is listed in a replaced context (`LateRegistrationIsStale`) exactly if the call that
  listed it had read its context before a swap, or a rebuild was abandoned after its swap and left the page in
  the list (`TrackedPagesAreCurrent`). Such a rebuild also leaves what it has reopened in nobody's hands
  (`AbandonedRebuildLosesItsPages`).
- Activating a page makes one page active exactly when its id is tracked at most once (`ActivationExactly`);
  a `clear` in the middle of a rebuild loses a page admitted after it (`ClearMidRebuildLosesAPage`).
- The grouped capture equals the one-by-one walk as a map (`CaptureIsTheWalk`). As a sequence it does exactly
  when, of any two origins that answer, the one appearing first also answers first
  (`CaptureIsInWalkOrderExactly`, `OrderIsTheCapturesOwn`).

Where the code and its own documentation disagree, the model follows the code:

- `crates/engine/src/backoff.rs:23-25` says huge attempt counts return `max`. A zero base does not, nor does a
  doubling that overflows (`HugeAttemptsFallShort`); `HugeAttemptReturnsMaxExactly` gives the condition.
- `crates/session/src/storage.rs:251-255` says Unix failures carry no OS code. They do (an I/O error is 5), so
  such a failure is retried there too.
- `crates/policy/src/broker.rs:82-85` says dropping the wait reclaims the slot; see above for a wait that was
  never polled.

## Model

| member | source | states |
|---|---|---|
| Pattern.WildcardMatch | crates/policy/src/pattern.rs:106-129 | the in-place matcher terminates and answers true exactly when the text splits so that literals match and each star takes some run |
| Pattern.MatchesIffMatchAt | crates/policy/src/pattern.rs:104-106 | splitting along the pattern and reading pattern and text left to right are the same notion of a match |
| Pattern.NewStarTakesOver | crates/policy/src/pattern.rs:110-113 | committing to a new star and forgetting the previous one keeps every match that existed |
| Pattern.BacktrackingLosesNothing | crates/policy/src/pattern.rs:117-120 | a mismatch rules out only the last star's present run, so backtracking to that star alone loses no match |
| Pattern.TextExhausted | crates/policy/src/pattern.rs:125-128 | at the end of the text there is a match exactly when only stars remain |
| Pattern.UnanchoredMatchesAnySplice | crates/policy/src/pattern.rs:81-102 | a pattern whose host a star cuts off, with no slash behind it, matches every text spliced in at that star with the other stars erased, and no slash follows the splice |
| Pattern.RefusedExactly | crates/policy/src/pattern.rs:37-47 | for a scheme, a host without slash or star, and a star behind it: the pattern is refused exactly when that star with all that follows it can match without ever meeting a slash |
| Pattern.ParseExactly | crates/policy/src/pattern.rs:37-47 | from the text alone: blank exactly when all white space; refused exactly when it reads as scheme, the first `://`, a host without slash or star, a star, and no slash after it; otherwise taken as it is |
| Pattern.BlankExactly | crates/policy/src/pattern.rs:38-40 | a text is blank exactly when it is the UTF-8 encoding of characters with the Unicode property White_Space |
| Pattern.WhitespaceExactly | crates/policy/src/pattern.rs:38-40 | each character of the basic plane is recognized as white space, whole, exactly when it has that property |
| Pattern.LiteralPrefix | crates/policy/src/pattern.rs:104-129 | up to its first star a pattern is an exact prefix of everything it matches |
| Pattern.HostIsPinned | crates/policy/src/pattern.rs:89-102 | a pattern of a scheme and a host without stars and a slash behind them matches only URLs starting with that text, slash included, and is not refused |
| Pattern.PrefixStar | crates/policy/src/pattern.rs:104-129 | a literal prefix followed by one star matches exactly the texts that start with the prefix |
| Rules.JudgeAnswers | crates/policy/src/rules.rs:186-211 | the judged verdict is that of the least-index rule that applies by pattern meaning, and the default exactly when none applies |
| Rules.ReviewExactly | crates/policy/src/rules.rs:158-182 | an operation is allowed exactly when a canonical judgment URL exists and the first applicable rule or the default allows there; denied exactly when they deny |
| Rules.BriefTellsTheTruth | crates/policy/src/rules.rs:165-181 | the brief carries the effect, its class and judgment URL, and its basis names the one-based first applicable rule, or the default, or a missing URL that would otherwise have been allowed |
| Rules.NavigationIsJudgedAtItsTarget | crates/policy/src/rules.rs:159-163 | whatever URL a caller pairs with a navigation, its own target is judged |
| Rules.JudgedAtExactly | crates/policy/src/brief.rs:72-80 | reviewing again at another URL gives the very same brief exactly when the brief was judged there, and always for a navigation |
| Rules.ShadowedRulesAreDead | crates/policy/src/rules.rs:187-208 | rules behind one that applies can be replaced by any others without changing the judgment |
| Rules.DefaultSetExactly | crates/policy/src/rules.rs:88-121 | the built-in set never denies and asks exactly for operations without a canonical URL, for setting input files, for cookie writes, and for navigate, back, forward and reload under file:/// |
| Rules.OneClassRule | crates/policy/src/class.rs:53-68 | for each of the seven classes, a rule for that class alone decides exactly the operations listed for it, by name, and leaves all others to the default |
| Rules.JudgmentUrlExactly | crates/policy/src/rules.rs:158-163 | the judgment URL is the canonical form of a navigation's target, else of the page's URL, and without either there is none |
| Supervision.Enforce | crates/session/src/session/mod.rs:136-163 | the review-and-park loop computes the gate's answer and the number of questions asked, for every sequence of human answers and page moves |
| Supervision.EnforceExactly | crates/session/src/session/mod.rs:136-230 | the gate gives an answer after so many questions exactly when all earlier ones were granted for a page that moved and then the rules allow, deny, or still ask with nobody left, or the last human answer stands, denies or times out |
| Supervision.ProceedIsWarranted | crates/session/src/session/mod.rs:136-230 | an operation that passes is, at the page's URL as last read, allowed by the rules or granted by a human who was shown exactly the brief the rules still produce there |
| Supervision.EveryQuestionButTheLastMoved | crates/session/src/session/mod.rs:154-159 | a human is asked again only after granting for a page that has moved since |
| Supervision.GrantsNeverOverrideDenial | crates/session/src/session/mod.rs:144-163 | if the rules deny the operation at the page's URL as last read, no answer lets it through |
| Supervision.NavigationIsAskedOnce | crates/session/src/session/mod.rs:206-208 | a navigation is put to a human at most once |
| Broker.IdsAreDistinct | crates/policy/src/broker.rs:74-80 | printed approval ids of different serials differ |
| Broker.ApprovalBroker.Open | crates/policy/src/broker.rs:74-80 | an id never parked before is parked with a live receiver, and nothing else changes |
| Broker.ApprovalBroker.Decide | crates/policy/src/broker.rs:123-128 | true exactly when the id was parked and someone still listens; the slot is gone either way and the decision is in the channel when true |
| Broker.ApprovalBroker.Reclaim | crates/policy/src/broker.rs:100-107 | the guard's drop removes the slot, and only it |
| Broker.AnswersAreFaithful | crates/policy/src/broker.rs:74-128 | in every interleaving at most one decision per id is delivered, a granted or refused wait carries exactly that decision, a wait reports otherwise only when it had made up its mind first, and a new question's id is unused |
| Broker.OverIsFinal | crates/policy/src/broker.rs:82-128 | once a question is over nothing later changes its delivered decision or outcome, and a question that was waited on is not parked any more |
| Broker.DecideAfterTheEndIsRefused | crates/policy/src/broker.rs:121-128 | a decide that starts after the wait ended delivers nothing |
| Broker.DecideIsTwoSteps | crates/policy/src/broker.rs:123-128 | undisturbed, the machine's two halves of a decide answer as the broker object does |
| Broker.QuestionEndsAsAnswered | crates/policy/src/broker.rs:74-129 | a question left alone waits; a decision that comes first is delivered and is its outcome, the end of the window is a timeout, and either way its slot is free |
| Broker.GrantAtTheDeadlineIsLost | crates/policy/src/broker.rs:112-128 | a reachable state in which a grant was acknowledged and the wait reported a timeout |
| Broker.AbandonedSlotStaysParked | crates/policy/src/broker.rs:86-111 | a receiver dropped before the first poll leaves the slot parked until a decide, never delivered, takes it |
| Preparation.PreparationIsSafe | crates/engine-cdp/src/context.rs:151-228 | over every sequence of attempts on a target, acknowledgements lost and covered or uncovered loads in between except uncovered ones under a trusting attempt, no define meets a document on which an earlier define landed, and every success is for a document with an engine-installed minter |
| Preparation.UndisturbedAttempt | crates/engine-cdp/src/context.rs:151-228 | an undisturbed attempt succeeds exactly on a document covered from its start, carrying an engine define, or whose property can still be replaced with no claim standing in; it keeps an engine install it finds, and issues no define on a covered or defined document |
| Preparation.MintAndDefine | crates/engine-cdp/src/context.rs:197-227 | from the mint on, the define lands and is verified exactly if the property can still be replaced; otherwise it is refused and the previous record is restored |
| Preparation.LoadedDocumentIsPrepared | crates/engine-cdp/src/context.rs:151-228 | an undisturbed attempt on a document just loaded succeeds without a define if it was covered from its start, with one if it was not covered, and fails if only its main world was |
| Preparation.LostAnswerFailsTheAttempt | crates/engine-cdp/src/context.rs:151-228 | a call whose answer is lost fails the attempt and leaves the record as it is, except the look at the lock, which counts as finding none |
| Preparation.LostDefineIsRecognized | crates/engine-cdp/src/context.rs:200-216 | a define that ran although its answer was lost is recognized by the next attempt, which succeeds and defines nothing again |
| Preparation.StrandedStays | crates/engine-cdp/src/context.rs:170-189 | with the remembered claim on a document where no define landed, or a property the page has fixed, no retry succeeds until the document is replaced |
| Preparation.UncoveredLoadBreaksExactly | crates/engine-cdp/src/context.rs:154-227 | a document that loads without its registration can cost one of the two guarantees exactly when the attempt is about to read the lock, to read a claimed minter whose scope the page may know, or to define |
| Preparation.LoadAtLockCheckBreaks | crates/engine-cdp/src/context.rs:159-169 | an uncovered load before the lock is read leads to a success for a minter the page planted |
| Preparation.LoadAtMinterCheckBreaks | crates/engine-cdp/src/page.rs:648-755 | an uncovered load before the claimed minter is read leads to a success for a planted minter that answers the scope the page has read |
| Preparation.LoadAtDefineBreaks | crates/engine-cdp/src/context.rs:197-200 | an uncovered load between a claim and its define leads to a second define on a document where one landed |
| Preparation.TrustIsReached | crates/engine-cdp/src/context.rs:151-227 | all three of these moments occur in runs that respect every assumption |
| Preparation.ForgettingALiveTargetRedefines | crates/engine-cdp/src/context.rs:258-286 | forgetting the record of a target whose define is still in place makes the next attempt define there again and fail |
| Ring.RingBuffer.Push | crates/events/src/ring.rs:23-29 | the ring afterwards is the last capacity entries of what it held with the new one |
| Ring.LastExactly | crates/events/src/ring.rs:22-29 | a bounded history keeps as many entries as fit, and they are the end of all that was pushed |
| Ring.RingBuffer.HistoryAfter | crates/events/src/ring.rs:36-50 | exactly the entries past the mark, in order |
| Ring.PastMarkIsSuffix | crates/events/src/ring.rs:40-50 | of an increasing history the entries past a mark are a suffix |
| Backbone.RememberedExactly | crates/events/src/backbone.rs:83-127 | a session's remembered envelopes are exactly those published to it with no later forget |
| Backbone.RememberedIsOrdered | crates/events/src/backbone.rs:38-51 | they are the log's own entries of that session in increasing sequence order |
| Backbone.GoneStaysGone | crates/events/src/backbone.rs:83-127 | an envelope evicted or forgotten never returns to its ring |
| Backbone.RecordTells | crates/events/src/backbone.rs:38-51 | recording one envelope keeps rings, counter and bus in agreement with the unbounded log |
| Backbone.ForgetTells | crates/events/src/backbone.rs:121-127 | dropping a ring keeps them in agreement with the log after the forget |
| Backbone.Backbone.Record | crates/events/src/backbone.rs:38-51 | numbers the event, pushes it into its session's ring, and touches no other ring |
| Backbone.Backbone.Publish | crates/events/src/backbone.rs:83-92 | the object's rings, counter and bus refine the log with this publish added |
| Backbone.Backbone.Replay | crates/events/src/backbone.rs:99-106 | exactly the last capacity envelopes published to the session since its last forget |
| Backbone.Backbone.ReplayAfter | crates/events/src/backbone.rs:108-119 | exactly the part of them past the mark |
| Backbone.Backbone.Forget | crates/events/src/backbone.rs:121-127 | the session has no ring and the rest refines the log with this forget added |
| Dashboard.SortOrders | crates/dashboard/src/ws.rs:291 | sorting a drain's batch yields the same envelopes in strictly increasing order |
| Dashboard.SentIsIncreasing | crates/dashboard/src/ws.rs:154-180 | whatever is published or closed between any two steps, what one client is sent is strictly increasing over replay, live events and refills, each the log's own envelope |
| Dashboard.LiveAccountsForEverything | crates/dashboard/src/ws.rs:56-67 | every envelope is sent, queued past the watermark, gone from its ring, or was passed over by a drain that did not list its session or had read its ring already |
| Dashboard.DrainLosesExactly | crates/dashboard/src/ws.rs:281-296 | of the listed sessions a drain loses an envelope still in its ring exactly when it was published after that ring was read and below the batch's newest |
| Dashboard.OpenSessionsAreAccountedFor | crates/dashboard/src/ws.rs:154-180 | with atomic drains, at every moment of a connection an envelope of a session open at each drain is sent, gone from its ring, in the batch collected or being written, queued past the watermark, or past the watermark with a drain due |
| Dashboard.OpenSessionsMissNothing | crates/dashboard/src/ws.rs:281-296 | with atomic drains a caught-up client has every envelope of a session open at each drain, except what left its ring |
| Dashboard.SentWasRemembered | crates/dashboard/src/ws.rs:54-76 | whatever happens, a connection is never sent an envelope that had left its ring, evicted or forgotten, before it subscribed |
| Dashboard.RacingDrainLosesAnEnvelope | crates/dashboard/src/ws.rs:287-295 | a reachable caught-up client that never received an envelope its open session's ring still holds |
| Client.Connection.DrainHistory | crates/dashboard/src/ws.rs:281-296 | writes all listed history past the watermark in sequence order and moves the watermark to the last one; a failed write leaves a proper prefix and the watermark |
| Client.Connection.ForwardLiveEvent | crates/dashboard/src/ws.rs:154-180 | drops duplicates, writes and advances on new envelopes, refills on a lag, ends on a closed stream; a refill that fails leaves a proper prefix written and the watermark where it was |
| Client.ReceiveForwards | crates/dashboard/src/ws.rs:161-176 | the machine's receive does to what is sent and to the watermark what that method does, and takes a lagging receiver to a drain |
| Client.DrainIsARun | crates/dashboard/src/ws.rs:281-296 | a drain nothing interleaves with does to the machine what the connection's method does |
| Backoff.Backoff.ComputeDelay | crates/engine/src/backoff.rs:26-38 | the doubling loop computes the clamped delay |
| Backoff.DelayIsClampedPower | crates/engine/src/backoff.rs:23-38 | the delay is base times two to the attempt, clamped to max, exactly when no doubling overflows and 64 of them suffice, or the base is zero |
| Backoff.HugeAttemptReturnsMaxExactly | crates/engine/src/backoff.rs:23-38 | from 64 attempts on the delay is max exactly when no doubling overflows and 64 of them reach it |
| Backoff.HugeAttemptsFallShort | crates/engine/src/backoff.rs:23-38 | a zero base and an overflowing doubling each keep a thousandth attempt below max |
| Backoff.DelayIsMonotone | crates/engine/src/backoff.rs:26-38 | later attempts never wait less, and never more than max |
| Restarts.RestartHistory.Prune | crates/engine/src/supervisor/policy.rs:35-39 | keeps exactly the attempts still inside the window |
| Restarts.PrunedIsRecentSuffix | crates/engine/src/supervisor/policy.rs:35-45 | of a chronological record pruning keeps a suffix |
| Restarts.NewPolicy | crates/engine/src/supervisor/policy.rs:57-85 | a policy's budget is at least one, so that an empty window always allows an attempt at once |
| Restarts.RestartPolicy.Decide | crates/engine/src/supervisor/policy.rs:87-99 | prunes the record in place and answers by how many attempts remain in the window |
| Restarts.JudgeExactly | crates/engine/src/supervisor/policy.rs:88-105 | the breaker opens exactly on a full window, the first attempt runs at once, and retry k waits the base doubled k - 1 times, clamped, as far as the doubling loop gets there |
| Supervisor.OneLaunchAtATime | crates/engine/src/supervisor/mod.rs:278-371 | at most one launch is in flight, none while an engine lives, and the restart counter moves once for each engine the heartbeat installs |
| Supervisor.BreakerBoundsAttempts | crates/engine/src/supervisor/mod.rs:292-320 | between history resets any max_restarts+1 consecutive recorded attempts span the window, across calls, prunings, mournings and open breakers; consecutive ones keep the first backoff or the window apart |
| Supervisor.EngineLostOnlyToItsProbe | crates/engine/src/supervisor/mod.rs:145-153 | a live engine is never overwritten; it is lost only to the heartbeat whose probe of that very engine failed, and the record survives |
| Supervisor.ProbedEngineIsKeptOrReplaced | crates/engine/src/supervisor/mod.rs:335-369 | from any reachable state with a probe out: a healthy answer leaves the engine running with a clean record; any other has it mourned with its record kept, and with the ticket free the heartbeat ends with a new engine and one more restart counted, or with the breaker reported open |
| Supervisor.StartLaunches | crates/engine/src/supervisor/mod.rs:213-236 | a first start left alone brings an engine up, or reports the breaker open, and leaves the heartbeat asleep with nothing counted as a restart |
| Supervisor.LaterStartLeaves | crates/engine/src/supervisor/mod.rs:213-217 | a start that finds the heartbeat changes nothing |
| Supervisor.HeartbeatLooks | crates/engine/src/supervisor/mod.rs:332-361 | a beat probes the engine that runs, and with none running goes on to bring one up |
| Supervisor.QueuedCallUsesTheEngine | crates/engine/src/supervisor/mod.rs:285-289 | a call that gets the ticket after another has brought an engine up uses that one |
| Supervisor.PruningKeepsRecentEnd | crates/engine/src/supervisor/policy.rs:35-45 | what a record lacks of all attempts stays older than the window under pruning |
| BringUp.Supervised.BringUp | crates/engine/src/supervisor/mod.rs:278-321 | the restart loop leaves a running engine alone and otherwise ends in the phase and answer its script of clock readings and launches determines |
| BringUp.FailingLauncherIsBounded | crates/engine/src/supervisor/mod.rs:292-320 | from an empty record an always failing launcher is tried exactly max_restarts times and the call ends in Terminated, if those attempts fit the window |
| BringUp.SparseAttemptsKeepGoing | crates/engine/src/supervisor/mod.rs:292-320 | failures spaced wider than the window never open the breaker |
| BringUp.BringUpIsARun | crates/engine/src/supervisor/mod.rs:278-321 | the loop's outcome is one the supervisor machine reaches by its own steps |
| Recovery.ClosedSessionIsTornDown | crates/session/src/manager.rs:200-221 | once close and watcher are done with a session it has a ring exactly if a call published to it after its last forget, and of its contexts exactly those are closed that no rebuild left behind, also when the close lands mid-rebuild |
| Recovery.ClosedSessionLeavesNothingAlive | crates/session/src/manager.rs:387-416 | as long as no rebuild leaves a live context behind, every context of a closed session is closed or died with its engine |
| Recovery.OrphansDeadExactly | crates/session/src/manager.rs:387-416 | every context left behind is dead, all along a history, exactly when no rebuild in it replaces, on its live engine, a context nobody has closed or is about to |
| Recovery.LateCallRevivesTheRing | crates/session/src/session/mod.rs:322-341 | a reachable state with close and watcher done in which the session's ring is back |
| Recovery.RebuildOnTheSameEngineLeaksAContext | crates/session/src/manager.rs:359-410 | a reachable torn-down session whose first context is open in the live engine |
| Recovery.CapacityHolds | crates/session/src/manager.rs:154-167 | the number of open sessions never exceeds the configured maximum |
| Recovery.SessionOpensExactly | crates/session/src/manager.rs:154-195 | a session opens exactly when its id is new, an engine runs and fewer than the cap are open, with a context of its own on that engine |
| Recovery.PassLosesNoSession | crates/session/src/manager.rs:380-428 | every session a recovery pass found ends up rebuilt, found closed, or still listed as unrecovered |
| Recovery.UndisturbedPass | crates/session/src/manager.rs:345-437 | from any reachable state with a bump unseen and an engine running, the watcher left alone rebuilds every open session in a new context on that engine and parks |
| Recovery.FailingPassKeepsSessions | crates/session/src/manager.rs:376-436 | with an engine that creates no context the watcher gives up after three rounds with every session as it was and still listed |
| Recovery.RoundNeedsAnEngine | crates/session/src/manager.rs:378-385 | a round that finds no engine leaves its sessions listed for the next bump |
| Recovery.ParkedWaitsForABump | crates/session/src/manager.rs:343-348 | the parked watcher moves exactly on a bump it has not seen |
| Recovery.RebuildOfAClosedSessionIsUndone | crates/session/src/manager.rs:401-410 | a rebuild finishing on a session closed meanwhile brings its ring back, and the watcher then closes the context it built and forgets the session |
| Recovery.UndisturbedClose | crates/session/src/manager.rs:200-221 | a close left alone closes the session's context and leaves it neither open nor with a ring |
| Pages.PageRegistry.Active | crates/session/src/pages.rs:103-116 | the first active slot, and nothing during a rebuild |
| Pages.PageRegistry.AdmitActive | crates/session/src/pages.rs:125-142 | admits exactly when no slot is active and no rebuild is under way, as the active page |
| Pages.PageRegistry.Admit | crates/session/src/pages.rs:144-157 | admits exactly when the id is new and no rebuild is under way |
| Pages.PageRegistry.SetUrl | crates/session/src/pages.rs:159-168 | changes the URL of every slot with the id and of no other |
| Pages.PageRegistry.Activate | crates/session/src/pages.rs:188-204 | a tracked id alone is active afterwards; an untracked one changes nothing |
| Pages.PageRegistry.Remove | crates/session/src/pages.rs:206-225 | takes out the first slot with the id and promotes the first remaining one if it was active |
| Pages.PageRegistry.FinishRecovery | crates/session/src/pages.rs:260-279 | installs the rebuilt list with its first slot promoted if none is active, and reopens |
| Pages.PageRegistry.DropGate | crates/session/src/pages.rs:80-84 | dropping the gate reopens the registry and touches no slot |
| Pages.RemovingKeepsOneActive | crates/session/src/pages.rs:206-225 | removal keeps at most one active page, and removing the active one leaves exactly one if any remain |
| Pages.RemovingKeepsTheRest | crates/session/src/pages.rs:206-225 | only the page removed leaves the list |
| Pages.ActivationExactly | crates/session/src/pages.rs:188-204 | activation leaves at most one active page exactly when the id is tracked at most once |
| Pages.RebuiltHasOneActive | crates/session/src/pages.rs:260-275 | a rebuilt list with at most one active page comes up with exactly one unless empty |
| Pages.ClearMidRebuildLosesAPage | crates/session/src/pages.rs:281-286 | a clear between the two ends of a rebuild lets a page be admitted that the write-back then drops |
| TabGuarantees.IdsRepeatAcrossEngines | crates/engine-cdp/src/context.rs:358-359 | two tabs of one page id were opened on different engines |
| TabGuarantees.DistinctIdsExactly | crates/session/src/pages.rs:118-157 | over all interleavings no id is ever tracked twice exactly when no lookup registers a page whose id is tracked |
| TabGuarantees.OneActiveExactly | crates/session/src/pages.rs:186-225 | over all interleavings at most one page is ever active exactly when no id that is tracked twice is activated |
| TabGuarantees.NoTabIsLost | crates/session/src/session/mod.rs:240-601 | over all interleavings a live tab driven by the current context is always listed, held by a call that will register or close it, or being restored, exactly when no untracking takes it away, no rebuild refuses its adoption, no discard of it fails and no rebuild that restored it is abandoned |
| TabGuarantees.QuietSwapsKeepEverything | crates/session/src/session/mod.rs:712-767 | when no call reads the list or the context before a swap and ends after it, no rebuild is abandoned and no discard fails, ids are distinct, one page is active, no opened tab is lost and every listed page is in the current context |
| TabGuarantees.RebuildOwnsTheList | crates/session/src/pages.rs:237-279 | in every interleaving the registry refuses work exactly during a rebuild, a rebuild writes over no tab it did not take over, no tab is listed twice, and only abandoned rebuilds strand tabs |
| TabGuarantees.RebuildRestoresThePages | crates/session/src/session/mod.rs:712-767 | the list after the write-back has exactly the pages of the list as it was at the take-over that were not blank and that the engine reopened, in order at their URLs; the page that was active then is the one active page if it is among them, else the first is |
| TabHistory.TrackedPagesAreCurrent | crates/session/src/session/mod.rs:240-275 | after any events, outside a rebuild, a listed page is in the current context exactly unless the call that last listed it had read its context before a swap, or a rebuild abandoned after its swap left it in the list |
| TabHistory.TakeOverMeetsClosedPages | crates/session/src/session/mod.rs:574-601 | after any events, a rebuild takes over a page closed by a close_page exactly when that call has yet to untrack it, the page entered the list after it was closed, or the call has untracked another page of the same id since |
| TabCalls.LookupOpensAPage | crates/session/src/session/mod.rs:240-265 | a lookup left alone uses the active page, and without one opens a page in the current context that is listed as the active one |
| TabCalls.OpenTabOpensAPage | crates/session/src/session/mod.rs:489-519 | tabs_open left alone lists a new page as the only active one |
| TabCalls.AdoptionListsAWindow | crates/session/src/session/mod.rs:434-462 | a live window of the current context's isolation, or outside all isolation on its engine, that the context does not drive is adopted and listed, not active |
| TabCalls.AdoptionPassesOver | crates/engine-cdp/src/context.rs:540-562 | any other window is passed over, one the context drives already included |
| TabCalls.CloseClosesAPage | crates/session/src/session/mod.rs:573-601 | close_page left alone closes a listed page in the current context and untracks it, and changes nothing for an id that is not listed |
| TabCalls.ClosedPageLeavesTheList | crates/session/src/pages.rs:206-225 | then only its tab leaves the list, and if a page was active and one remains, exactly one is |
| TabCalls.ClosedTabIsGone | crates/engine-cdp/src/context.rs:490-535 | its context drives it no more, and it is dead exactly if it was the context's to close |
| TabCalls.FailedCallChangesNothing | crates/session/src/session/mod.rs:588-594 | a page that would not close stays listed, a page that would not open or be adopted leaves no trace |
| TabCalls.RefusedPageIsClosed | crates/session/src/session/mod.rs:266-274 | a page the registry refuses is closed in its own context by the call that opened it, and the list is as it was |
| TabFailures.TwoPagesBecomeActive | crates/session/src/pages.rs:118-142 | a reachable list with two active pages of one id, one on the dead engine and one on its replacement |
| TabFailures.CloseUntracksALiveTab | crates/session/src/session/mod.rs:584-601 | a reachable state at rest whose one live tab, restored under the id a close carried, nobody lists |
| TabFailures.ClosedPageStaysListed | crates/session/src/session/mod.rs:588-601 | a reachable state at rest listing a page its close_page has closed and reported, because the untracking took another page of its id |
| TabFailures.AbandonedRebuildLosesItsPages | crates/session/src/pages.rs:67-84 | a reachable state after an abandoned rebuild that lists a page of the replaced context and not the live one it reopened |
| TabFailures.ClosedPageComesBack | crates/session/src/session/mod.rs:574-601 | a reachable state at rest listing, under the very id whose close was reported, the page a rebuild reopened |
| TabFailures.LateRegistrationIsStale | crates/session/src/session/mod.rs:240-275 | a reachable state at rest listing a page of the replaced context |
| TabFailures.RefusedAdoptionLosesAWindow | crates/session/src/session/mod.rs:434-462 | a reachable state at rest in which the current context drives a live window that nobody lists |
| Storage.Publish | crates/session/src/storage.rs:235-249 | retries exactly the transient refusals, at most five attempts, sleeping 1, 2, 4, 8 ms in between, and answers with the last attempt |
| Storage.FileIsNeverTorn | crates/session/src/storage.rs:142-186 | with any number of writers and a failure or crash at any step the file is what was there first or one writer's complete flushed state, never disappears, and a write succeeds exactly when its own state was put in place |
| Storage.UndisturbedWrite | crates/session/src/storage.rs:142-199 | a write left alone puts its whole state in place, flushed, and leaves nothing staged |
| Storage.FailedWriteCleansUp | crates/session/src/storage.rs:142-199 | a write that fails before its rename worked answers failure, leaves the real file as it was and removes what it staged |
| Storage.PublishIsARun | crates/session/src/storage.rs:179-185 | the retry loop is a sequence of its writer's steps in that machine |
| Persistence.LoadKeepsClaimExactly | crates/session/src/session/mod.rs:684-701 | after any history the end of a load leaves "a state marked persisted is the one in the file" true exactly unless the flag is up and the last write fell between the load's halves and wrote something else |
| Persistence.ClaimHoldsThroughout | crates/session/src/session/mod.rs:64-79 | that claim holds at every point of a history exactly when no load in it is overtaken in this way |
| Persistence.FileFollowsTheCaptures | crates/session/src/session/mod.rs:805-841 | while no load is overtaken, leaving out a write loses nothing: after a save with a working disk the file holds what was captured |
| Persistence.SaveWritesExactly | crates/session/src/session/mod.rs:818-840 | a save writes exactly when the state changed or is not marked persisted; the flag is up afterwards exactly if the write landed, so that a failed write is made up for by the next save |
| Persistence.MemoryIsNewest | crates/session/src/session/mod.rs:69-78 | what recovery replays is always the state last captured or loaded, whether or not a write of it worked |
| Persistence.StaleLoadLeavesTheFileBehind | crates/session/src/session/mod.rs:684-701 | a reachable state marked persisted that the file does not hold and that saving again does not write |
| Capture.OriginsInOrder | crates/session/src/storage.rs:299-315 | one group per origin in order of first appearance, each with all its pages in registry order |
| Capture.DumpOrigins | crates/session/src/storage.rs:262-297 | each origin's entry is its first answering page's, silent origins are left out |
| Capture.CaptureIsTheWalk | crates/session/src/storage.rs:262-297 | the capture has each origin at most once and the same entries as the one-by-one walk |
| Capture.CaptureIsInWalkOrderExactly | crates/session/src/storage.rs:262-315 | as sequences capture and walk agree exactly when, of any two origins that answer, the one whose first page comes first also has the first answering page |
| Capture.OrderIsTheCapturesOwn | crates/session/src/storage.rs:265-269 | an origin whose first page is silent comes earlier in the capture than in the walk |
| Cache.SafeJoinStaysBelow | crates/engine/src/download/store.rs:358-381 | under either platform's separators an accepted archive path leads part by part strictly below the directory, and the second check never refuses |
| Cache.HostileExactly | crates/engine/src/download/store.rs:362-368 | the paths let through are exactly those without a colon that are plain components, none empty, `.` or `..`, with a separator of either kind between any two |
| Cache.SplitExactly | crates/engine/src/download/store.rs:366-368 | splitting cuts a text at every separator and nowhere else |
| Cache.VersionIsASafeName | crates/engine/src/download/store.rs:392-398 | a text that parses as a version is a safe directory name and never a staging name |
| Cache.VersionExactly | crates/engine/src/download/store.rs:393-398 | a text is a version exactly when each of its dot-separated parts parses, and its components are those parts in order |
| Cache.ParseU32Exactly | crates/engine/src/download/store.rs:396 | a part parses as n exactly when it is the decimal notation of n, perhaps behind zeros and one plus sign, and n is below two to the 32 |
| Cache.AtMostExactly | crates/engine/src/download/store.rs:95-96 | the recursive version order is: a prefix, or the smaller component at the first place where they differ |
| Cache.Installed | crates/engine/src/download/store.rs:62-116 | of the directories that name a version and hold the binary, one whose version comes before no other's: not a proper prefix of it, nor smaller at the first component in which they differ; none only when there is none |
| Extract.ExtractArchive | crates/engine/src/download/store.rs:234-340 | never writes past the total cap, an entry over its cap or a hostile path, also when it fails, and otherwise succeeds exactly when the binary came out |
| Extract.ExtractedExactly | crates/engine/src/download/store.rs:252-328 | an archive is extracted exactly when every entry is sound and all files together fit the cap, and then every file comes out complete and in order |
| Extract.FlattenedExactly | crates/engine/src/download/store.rs:271-276 | an entry without a separator keeps its path; any other loses its first folder and the separator behind it |
| Extract.EntryFailsExactly | crates/engine/src/download/store.rs:280-312 | which of the four errors a packed entry fails with |
| Extract.ByteCountNeverWraps | crates/engine/src/download/store.rs:297-311 | under the shipped caps adding an entry never wraps the 64-bit byte count |
| Install.InstallIsAtomic | crates/engine/src/download/store.rs:113-209 | with any number of installers, failures and kills the version directory is what was there before or one complete archive with the binary, and every success names a binary that is there |
| Install.UndisturbedInstall | crates/engine/src/download/store.rs:120-205 | an install left alone succeeds exactly if the version is in place or its name is free and the archive is sound, within the caps and holds the binary, with every file in place; whatever was in place stays, and nothing stays staged |
| Install.FailedExtractionIsFinal | crates/engine/src/download/store.rs:162-166 | an extraction that fails is a failed install whatever another installer has put in place |
| Install.FailedRenameLooksAgain | crates/engine/src/download/store.rs:180-203 | an install that fails at the rename succeeds exactly if the version is in place all the same |
| Install.InstalledVersionNeverChanges | crates/engine/src/download/store.rs:137-144 | once the binary is in place no later install changes the directory |
| Pending.PendingRequests.Note | crates/engine-cdp/src/page.rs:1171-1182 | behaves as an insertion-ordered dictionary of at most 256 entries whose oldest goes for a new id; the queue has exactly the map's ids once each |
| Pending.PendingRequests.Take | crates/engine-cdp/src/page.rs:1184-1190 | returns and removes the id's value |
| Pending.NotedExactly | crates/engine-cdp/src/page.rs:1171-1182 | a note sets its id, and of the others only the oldest goes and only for a new id in a full table |
| Pending.HeldExactly | crates/engine-cdp/src/page.rs:1157-1191 | after any sequence of operations a take finds the value last noted and not taken since, unless the id was pushed out as the oldest |
| Pending.BoundShowsExactly | crates/engine-cdp/src/page.rs:1157-1168 | the bound makes no difference exactly while no more than the cap is unanswered at a time |
| Pending.CapturesAreSpaced | crates/engine-cdp/src/page.rs:219-232 | however clock readings interleave no capture is due before it asked, any two are the interval apart, and a delayed one follows its predecessor by exactly the interval |

## Left out

Assumptions the theorems rest on:

- Sequence numbers, approval serials and staging counters are unbounded; their 64-bit wrap-around is not modelled.
- A rename is atomic, staging names are unique to their writer, and a leftover staging name never recurs after a process id is reused.
- Session ids are not reused after a close, and concurrent opens and closes of one id beyond that are not modelled.
- A context counts as closed once `close` was called on it; a failing disposal is not modelled.
- One rebuild owns a page registry at a time, as the recovery watcher goes through sessions one after the other; closing a session in the middle of its page rebuild is shown only by `ClearMidRebuildLosesAPage`.
- A window is adopted under its own id, which no other target ever has; a page discovered while it is being opened is not modelled, nor an engine without target creation, where `open_page` attaches to a window.
- Looking an adopted window up in the list and attaching to it are one step; the registration that follows checks the list again.
- Minted scopes are fresh, page script runs after document-start scripts and cannot intercept `defineProperty`, and every navigation creates a fresh document; which of them must carry the registration is a theorem.
- An install survives killed processes; a power cut before its unsynced files reach the disk is not modelled.
- The clock never goes backwards, and an attempt is recorded at or after its decision.

Not modelled:

- Supervisor shutdown and task abort, which would cut across every supervisor theorem.
- The event timestamps, payloads and action executor; an event is its number, session and an opaque payload.
- URL canonicalization, TOML and JSON decoding, zip decoding: library code, present only as parameters and outcomes.
- CDP, HTTP, WebSocket, stdio and MCP transports, process spawning and downloads: external effects, present only as their possible outcomes.
- Screencast frames, keepalive pings and dashboard decisions on the dashboard socket; they write no envelopes.
- Page caps, the shell's own toolbar target and the choice of a target to drive.
- Snapshot rendering, readers, key tables, error texts, the Electron shell, the CLI and the dashboard page: thin or without state.
- Token, Host and Origin gates and file modes: checks against the environment.
- The `EngineStarted` event of a first launch, which opens a ring for a session that does not exist yet; if its context is then refused, that ring stays until a session of this id is closed.
- The audit trail; that a call in flight publishes is an event of the recovery machine, what it publishes is not.
- Preparation: `prepare_once` is modelled on values, step by step, not as a class; the gate is one program counter per target.
- Recovery: the manager's map and the watcher's vectors are values of a state machine, since their interleaving is the point; a loop body is one step per lock or round trip.
- Supervision.Enforce: does not model a page that keeps moving forever; the answers are a finite sequence and the operation is still parked when they run out.
- Cache.Installed: does not model directory read errors, which end the lookup with an error.
- Extract.ExtractArchive: does not model file system errors, which `Install` allows at every step, nor two archive paths that name one file on a case-insensitive or backslash-separated file system.
