/**
 The supervision gate of a session (crates/session/src/session/mod.rs): review, park when a human has to
 be asked, and re-read the page before a grant is used. The human's answers and the page's URLs are
 inputs; when they run out the operation is still parked.
 */
module Supervision {
  import opened Options
  import opened Pattern
  import opened Rules
  import opened Broker

  /** How one park ended, and the page's URL when it was read again. */
  datatype Answer = Answer(outcome: ApprovalOutcome, current: Option<Text>)

  datatype Gate = Proceed | DeniedByPolicy | DeniedByHuman | NobodyAnswered | StillParked

  /** Whether the grant of `brief` may be used with the page now at `current`. */
  predicate GrantStands(
    canon: Text -> Option<Text>, effect: ApprovalEffect, brief: ApprovalBrief, current: Option<Text>)
  {
    effect.TargetUrl().Some? || brief.JudgedAt(canon, current)
  }

  function EnforceFrom(policy: RuleSet, canon: Text -> Option<Text>, effect: ApprovalEffect,
                       rawUrl: Option<Text>, answers: seq<Answer>): (Gate, nat)
    decreases |answers|
  {
    match Review(policy, canon, effect, rawUrl)
    case Allowed => (Proceed, 0)
    case Denied => (DeniedByPolicy, 0)
    case NeedsApproval(brief) =>
      if answers == [] then (StillParked, 0)
      else match answers[0].outcome
        case Granted =>
          if GrantStands(canon, effect, brief, answers[0].current) then (Proceed, 1)
          else
            var (gate, asked) := EnforceFrom(policy, canon, effect, answers[0].current, answers[1..]);
            (gate, asked + 1)
        case Denied => (DeniedByHuman, 1)
        case TimedOut => (NobodyAnswered, 1)
  }

  /** The URL the operation is judged at after `asked` questions: the one the page had at the last
      re-reading. */
  function RawUrlAfter(rawUrl: Option<Text>, answers: seq<Answer>, asked: nat): Option<Text>
    requires asked <= |answers|
  {
    if asked == 0 then rawUrl else answers[asked - 1].current
  }

  /** The gate answers this after so many questions: each but the last was granted for a page that moved,
      and then the rules decide at the page as it is, or the human's last answer does, or nobody is left to
      ask. */
  ghost predicate Ends(policy: RuleSet, canon: Text -> Option<Text>, effect: ApprovalEffect,
                       rawUrl: Option<Text>, answers: seq<Answer>, gate: Gate, asked: nat)
  {
    && asked <= |answers|
    && match gate
       case Proceed =>
         || (Moved(policy, canon, effect, rawUrl, answers, asked)
             && Review(policy, canon, effect, RawUrlAfter(rawUrl, answers, asked)).Allowed?)
         || (asked > 0 && Moved(policy, canon, effect, rawUrl, answers, asked - 1)
             && var last := Review(policy, canon, effect, RawUrlAfter(rawUrl, answers, asked - 1));
                last.NeedsApproval? && answers[asked - 1].outcome.Granted?
                && GrantStands(canon, effect, last.brief, answers[asked - 1].current))
       case DeniedByPolicy =>
         Moved(policy, canon, effect, rawUrl, answers, asked)
         && Review(policy, canon, effect, RawUrlAfter(rawUrl, answers, asked)).Denied?
       case StillParked =>
         Moved(policy, canon, effect, rawUrl, answers, asked) && asked == |answers|
         && Review(policy, canon, effect, RawUrlAfter(rawUrl, answers, asked)).NeedsApproval?
       case _ =>
         asked > 0 && Moved(policy, canon, effect, rawUrl, answers, asked - 1)
         && Review(policy, canon, effect, RawUrlAfter(rawUrl, answers, asked - 1)).NeedsApproval?
         && answers[asked - 1].outcome == if gate.DeniedByHuman? then ApprovalOutcome.Denied else TimedOut
  }

  /** The first `asked` questions were all granted for a page that moved. */
  ghost predicate Moved(policy: RuleSet, canon: Text -> Option<Text>, effect: ApprovalEffect,
                        rawUrl: Option<Text>, answers: seq<Answer>, asked: nat)
    requires asked <= |answers|
  {
    forall k :: 0 <= k < asked ==> GrantedButMoved(policy, canon, effect, rawUrl, answers, k)
  }

  lemma MovedOnce(policy: RuleSet, canon: Text -> Option<Text>, effect: ApprovalEffect,
                  rawUrl: Option<Text>, answers: seq<Answer>, asked: nat)
    requires 0 < asked <= |answers|
    ensures Moved(policy, canon, effect, rawUrl, answers, asked) <==>
            && GrantedButMoved(policy, canon, effect, rawUrl, answers, 0)
            && Moved(policy, canon, effect, answers[0].current, answers[1..], asked - 1)
  {
    var rest := answers[1..];
    forall k | 0 < k < asked
      ensures GrantedButMoved(policy, canon, effect, rawUrl, answers, k) <==>
              GrantedButMoved(policy, canon, effect, answers[0].current, rest, k - 1)
    {
      assert rest[k - 1] == answers[k];
    }
    if Moved(policy, canon, effect, answers[0].current, rest, asked - 1) {
      forall k | 0 < k < asked ensures GrantedButMoved(policy, canon, effect, rawUrl, answers, k) {
        assert GrantedButMoved(policy, canon, effect, answers[0].current, rest, k - 1);
      }
    }
    if Moved(policy, canon, effect, rawUrl, answers, asked) {
      forall k | 0 <= k < asked - 1 ensures GrantedButMoved(policy, canon, effect, answers[0].current, rest, k) {
        assert GrantedButMoved(policy, canon, effect, rawUrl, answers, k + 1);
      }
    }
  }

  lemma {:induction false} EndsAsComputed(policy: RuleSet, canon: Text -> Option<Text>, effect: ApprovalEffect,
                                          rawUrl: Option<Text>, answers: seq<Answer>)
    ensures var (gate, asked) := EnforceFrom(policy, canon, effect, rawUrl, answers);
            Ends(policy, canon, effect, rawUrl, answers, gate, asked)
    decreases |answers|
  {
    var review := Review(policy, canon, effect, rawUrl);
    if review.NeedsApproval? && answers != [] && answers[0].outcome.Granted?
       && !GrantStands(canon, effect, review.brief, answers[0].current) {
      EndsAsComputed(policy, canon, effect, answers[0].current, answers[1..]);
      var (gate, asked) := EnforceFrom(policy, canon, effect, rawUrl, answers);
      MovedOnce(policy, canon, effect, rawUrl, answers, asked);
      if asked > 1 { MovedOnce(policy, canon, effect, rawUrl, answers, asked - 1); }
    }
  }

  lemma {:induction false} EndsOnce(policy: RuleSet, canon: Text -> Option<Text>, effect: ApprovalEffect,
                                    rawUrl: Option<Text>, answers: seq<Answer>, gate: Gate, asked: nat)
    requires Ends(policy, canon, effect, rawUrl, answers, gate, asked)
    ensures EnforceFrom(policy, canon, effect, rawUrl, answers) == (gate, asked)
    decreases |answers|
  {
    if asked > 0 && GrantedButMoved(policy, canon, effect, rawUrl, answers, 0) {
      MovedOnce(policy, canon, effect, rawUrl, answers, asked);
      if asked > 1 { MovedOnce(policy, canon, effect, rawUrl, answers, asked - 1); }
      EndsOnce(policy, canon, effect, answers[0].current, answers[1..], gate, asked - 1);
    }
  }

  /** The gate's answer and the number of questions, for all answers. */
  lemma EnforceExactly(policy: RuleSet, canon: Text -> Option<Text>, effect: ApprovalEffect,
                       rawUrl: Option<Text>, answers: seq<Answer>, gate: Gate, asked: nat)
    ensures EnforceFrom(policy, canon, effect, rawUrl, answers) == (gate, asked) <==>
            Ends(policy, canon, effect, rawUrl, answers, gate, asked)
  {
    EndsAsComputed(policy, canon, effect, rawUrl, answers);
    if Ends(policy, canon, effect, rawUrl, answers, gate, asked) {
      EndsOnce(policy, canon, effect, rawUrl, answers, gate, asked);
    }
  }

  /** The loop: `used` counts the questions put to a human. */
  method Enforce(policy: RuleSet, canon: Text -> Option<Text>, effect: ApprovalEffect,
                 rawUrl: Option<Text>, answers: seq<Answer>)
    returns (gate: Gate, used: nat)
    ensures (gate, used) == EnforceFrom(policy, canon, effect, rawUrl, answers)
  {
    var judged := rawUrl;
    used := 0;
    while true
      invariant used <= |answers|
      invariant var rest := EnforceFrom(policy, canon, effect, judged, answers[used..]);
                EnforceFrom(policy, canon, effect, rawUrl, answers) == (rest.0, rest.1 + used)
      decreases |answers| - used
    {
      var review := Review(policy, canon, effect, judged);
      if review.Allowed? { return Proceed, used; }
      if review.Denied? { return DeniedByPolicy, used; }
      if used == |answers| { return StillParked, used; }
      var answer := answers[used];
      assert answers[used..][0] == answer && answers[used..][1..] == answers[used + 1..];
      used := used + 1;
      match answer.outcome
      case Granted =>
        if GrantStands(canon, effect, review.brief, answer.current) { return Proceed, used; }
        judged := answer.current;
      case Denied => return DeniedByHuman, used;
      case TimedOut => return NobodyAnswered, used;
    }
  }

  /** Question `k` asks about the page as it was when the previous grant failed to stand, and a human
      granted it for a page that moved. */
  ghost predicate GrantedButMoved(policy: RuleSet, canon: Text -> Option<Text>, effect: ApprovalEffect,
                                  rawUrl: Option<Text>, answers: seq<Answer>, k: nat)
    requires k < |answers|
  {
    var review := Review(policy, canon, effect, RawUrlAfter(rawUrl, answers, k));
    && review.NeedsApproval? && answers[k].outcome.Granted?
    && effect.TargetUrl().None? && !review.brief.JudgedAt(canon, answers[k].current)
  }

  lemma {:induction false} EveryQuestionButTheLastMoved(
      policy: RuleSet, canon: Text -> Option<Text>, effect: ApprovalEffect, rawUrl: Option<Text>,
      answers: seq<Answer>, k: nat)
    requires var (gate, asked) := EnforceFrom(policy, canon, effect, rawUrl, answers);
             k < asked && (k + 1 < asked || gate.DeniedByPolicy? || gate.StillParked?)
    ensures k < |answers| && GrantedButMoved(policy, canon, effect, rawUrl, answers, k)
    decreases |answers|
  {
    if k > 0 {
      EveryQuestionButTheLastMoved(policy, canon, effect, answers[0].current, answers[1..], k - 1);
    }
  }

  /** An operation that passes the gate was, at the URL the page had when it was last read, either allowed
      by the rules or granted by a human who was shown the brief the rules still produce there. */
  ghost predicate Warranted(policy: RuleSet, canon: Text -> Option<Text>, effect: ApprovalEffect,
                            rawUrl: Option<Text>, answers: seq<Answer>, asked: nat)
    requires asked <= |answers|
  {
    var here := RawUrlAfter(rawUrl, answers, asked);
    || Review(policy, canon, effect, here).Allowed?
    || (asked > 0 && answers[asked - 1].outcome.Granted?
        && var shown := Review(policy, canon, effect, RawUrlAfter(rawUrl, answers, asked - 1));
           shown.NeedsApproval? && shown.brief.effect == effect && Review(policy, canon, effect, here) == shown)
  }

  lemma {:induction false} ProceedIsWarranted(
      policy: RuleSet, canon: Text -> Option<Text>, effect: ApprovalEffect, rawUrl: Option<Text>, answers: seq<Answer>)
    requires EnforceFrom(policy, canon, effect, rawUrl, answers).0.Proceed?
    ensures var asked := EnforceFrom(policy, canon, effect, rawUrl, answers).1;
            asked <= |answers| && Warranted(policy, canon, effect, rawUrl, answers, asked)
    decreases |answers|
  {
    var review := Review(policy, canon, effect, rawUrl);
    if review.NeedsApproval? {
      var first := answers[0];
      if GrantStands(canon, effect, review.brief, first.current) {
        JudgedAtExactly(policy, canon, effect, rawUrl, first.current);
      } else {
        ProceedIsWarranted(policy, canon, effect, first.current, answers[1..]);
      }
    }
  }

  /** Nothing a human answers overrides a denial: rules that refuse the URL the page was last read at
      refuse the operation. */
  lemma GrantsNeverOverrideDenial(
      policy: RuleSet, canon: Text -> Option<Text>, effect: ApprovalEffect, rawUrl: Option<Text>, answers: seq<Answer>)
    requires var asked := EnforceFrom(policy, canon, effect, rawUrl, answers).1;
             asked <= |answers| && Review(policy, canon, effect, RawUrlAfter(rawUrl, answers, asked)).Denied?
    ensures !EnforceFrom(policy, canon, effect, rawUrl, answers).0.Proceed?
  {
    if EnforceFrom(policy, canon, effect, rawUrl, answers).0.Proceed? {
      ProceedIsWarranted(policy, canon, effect, rawUrl, answers);
    }
  }

  /** A navigation is put to a human at most once: its target cannot move. */
  lemma NavigationIsAskedOnce(
      policy: RuleSet, canon: Text -> Option<Text>, effect: ApprovalEffect, rawUrl: Option<Text>, answers: seq<Answer>)
    requires effect.TargetUrl().Some?
    ensures EnforceFrom(policy, canon, effect, rawUrl, answers).1 <= 1
  {
  }
}
