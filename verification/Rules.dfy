/**
 Policy review (crates/policy/src/rules.rs, brief.rs, class.rs): the first matching rule decides, and
 an operation without a usable URL is never allowed. `canon` stands for URL canonicalization.
 */
module Rules {
  import opened Options
  import opened Pattern

  datatype Verdict = Allow | Deny | RequireApproval

  datatype ActionClass = Navigation | Pointer | Keyboard | Selection | FileUpload | Scrolling | CookieWrites

  datatype ScrollDirection = Up | Down | Left | Right

  datatype Action =
    | Navigate(url: Text)
    | Back
    | Forward
    | Reload
    | Click(reference: Text)
    | Hover(reference: Text)
    | Type(reference: Text, text: Text)
    | PressKey(key: Text)
    | SelectOption(reference: Text, values: seq<Text>)
    | Scroll(container: Option<Text>, direction: ScrollDirection, amount: nat)
    | SetInputFiles(reference: Text, paths: seq<Text>)
  {
    function Class(): ActionClass {
      match this
      case Navigate(_) | Back | Forward | Reload => Navigation
      case Click(_) | Hover(_) => Pointer
      case Type(_, _) | PressKey(_) => Keyboard
      case SelectOption(_, _) => Selection
      case SetInputFiles(_, _) => FileUpload
      case Scroll(_, _, _) => Scrolling
    }
  }

  /** What approving authorizes. */
  datatype ApprovalEffect = Perform(action: Action) | Cookies(count: nat)
  {
    function Class(): ActionClass {
      match this
      case Perform(action) => action.Class()
      case Cookies(_) => CookieWrites
    }

    function TargetUrl(): Option<Text> {
      match this
      case Perform(Navigate(url)) => Some(url)
      case _ => None
    }
  }

  datatype VerdictBasis = Rule(index: nat, urlPattern: Option<Text>) | SetDefault | MissingUrl

  datatype ApprovalBrief = ApprovalBrief(
    actionClass: ActionClass, judgedUrl: Option<Text>, basis: VerdictBasis, effect: ApprovalEffect)
  {
    /** Canonically, `rawUrl` is the URL on the brief. */
    predicate JudgedAt(canon: Text -> Option<Text>, rawUrl: Option<Text>) {
      judgedUrl == Canonical(canon, rawUrl)
    }
  }

  datatype Outcome = Allowed | Denied | NeedsApproval(brief: ApprovalBrief)

  datatype PolicyRule = PolicyRule(actionClass: Option<ActionClass>, urlPattern: Option<Text>, verdict: Verdict)
  {
    predicate Covers(kind: ActionClass, url: Text) {
      && (actionClass.Some? ==> actionClass.value == kind)
      && (urlPattern.Some? ==> MatchAt(urlPattern.value, url, 0, 0))
    }

    /** The same, by what patterns mean. */
    ghost predicate AppliesTo(kind: ActionClass, url: Text) {
      && (actionClass.Some? ==> actionClass.value == kind)
      && (urlPattern.Some? ==> Matches(urlPattern.value, url))
    }
  }

  lemma CoversExactly(rule: PolicyRule, kind: ActionClass, url: Text)
    ensures rule.Covers(kind, url) <==> rule.AppliesTo(kind, url)
  {
    if rule.urlPattern.Some? { MatchesIffMatchAt(rule.urlPattern.value, url); }
  }

  datatype RuleSet = RuleSet(rules: seq<PolicyRule>, defaultVerdict: Verdict)

  function Canonical(canon: Text -> Option<Text>, rawUrl: Option<Text>): Option<Text> {
    if rawUrl.Some? then canon(rawUrl.value) else None
  }

  /** The URL an operation is judged at: its own target when it names one. */
  function JudgmentUrl(canon: Text -> Option<Text>, effect: ApprovalEffect, rawUrl: Option<Text>): Option<Text> {
    Canonical(canon, if effect.TargetUrl().Some? then effect.TargetUrl() else rawUrl)
  }

  function JudgeFrom(policy: RuleSet, kind: ActionClass, url: Text, position: nat): (Verdict, VerdictBasis)
    requires position <= |policy.rules|
    decreases |policy.rules| - position
  {
    if position == |policy.rules| then (policy.defaultVerdict, SetDefault)
    else if policy.rules[position].Covers(kind, url) then
      (policy.rules[position].verdict, Rule(position + 1, policy.rules[position].urlPattern))
    else JudgeFrom(policy, kind, url, position + 1)
  }

  function Judge(policy: RuleSet, kind: ActionClass, url: Text): (Verdict, VerdictBasis) {
    JudgeFrom(policy, kind, url, 0)
  }

  function Review(policy: RuleSet, canon: Text -> Option<Text>, effect: ApprovalEffect, rawUrl: Option<Text>): Outcome {
    var judgedUrl := JudgmentUrl(canon, effect, rawUrl);
    var (verdict, basis) := match judgedUrl
      case Some(url) => Judge(policy, effect.Class(), url)
      case None =>
        var blank := Judge(policy, effect.Class(), []);
        if blank.0 == Allow then (RequireApproval, MissingUrl) else blank;
    match verdict
    case Allow => Allowed
    case Deny => Denied
    case RequireApproval => NeedsApproval(ApprovalBrief(effect.Class(), judgedUrl, basis, effect))
  }

  /** The judgment URL is the canonical form of the target an operation names, or else of the page's URL;
      without either there is none. */
  lemma JudgmentUrlExactly(canon: Text -> Option<Text>, effect: ApprovalEffect, rawUrl: Option<Text>)
    ensures (exists target :: effect == Perform(Navigate(target))) ==>
              JudgmentUrl(canon, effect, rawUrl) == canon(effect.action.url)
    ensures !(exists target :: effect == Perform(Navigate(target))) ==>
              JudgmentUrl(canon, effect, rawUrl) == if rawUrl.Some? then canon(rawUrl.value) else None
  {
    if effect.TargetUrl().Some? { assert effect == Perform(Navigate(effect.TargetUrl().value)); }
  }

  // ----- who decides

  /** Rule `i` is the first that applies. */
  ghost predicate FirstToApply(rules: seq<PolicyRule>, kind: ActionClass, url: Text, i: nat) {
    && i < |rules| && rules[i].AppliesTo(kind, url)
    && forall j :: 0 <= j < i ==> !rules[j].AppliesTo(kind, url)
  }

  ghost predicate NoneApplies(rules: seq<PolicyRule>, kind: ActionClass, url: Text) {
    forall j :: 0 <= j < |rules| ==> !rules[j].AppliesTo(kind, url)
  }

  /** The rule set answers `verdict`: by its first rule that applies, or by default when none does. */
  ghost predicate Answers(policy: RuleSet, kind: ActionClass, url: Text, verdict: Verdict) {
    || (exists i: nat :: FirstToApply(policy.rules, kind, url, i) && policy.rules[i].verdict == verdict)
    || (NoneApplies(policy.rules, kind, url) && policy.defaultVerdict == verdict)
  }

  lemma {:induction false} JudgeFromNames(policy: RuleSet, kind: ActionClass, url: Text, position: nat)
    requires position <= |policy.rules|
    requires forall j :: 0 <= j < position ==> !policy.rules[j].AppliesTo(kind, url)
    ensures var (verdict, basis) := JudgeFrom(policy, kind, url, position);
            match basis
            case Rule(index, urlPattern) =>
              && 1 <= index && FirstToApply(policy.rules, kind, url, index - 1)
              && verdict == policy.rules[index - 1].verdict && urlPattern == policy.rules[index - 1].urlPattern
            case SetDefault => NoneApplies(policy.rules, kind, url) && verdict == policy.defaultVerdict
            case MissingUrl => false
    decreases |policy.rules| - position
  {
    if position < |policy.rules| {
      CoversExactly(policy.rules[position], kind, url);
      if !policy.rules[position].Covers(kind, url) { JudgeFromNames(policy, kind, url, position + 1); }
    }
  }

  lemma JudgeAnswers(policy: RuleSet, kind: ActionClass, url: Text, verdict: Verdict)
    ensures Judge(policy, kind, url).0 == verdict <==> Answers(policy, kind, url, verdict)
  {
    JudgeFromNames(policy, kind, url, 0);
    var basis := Judge(policy, kind, url).1;
    if basis.Rule? {
      forall i: nat | FirstToApply(policy.rules, kind, url, i) ensures i == basis.index - 1 {}
    }
  }

  /** All three answers, exactly. Nothing is allowed without a canonical URL. */
  lemma ReviewExactly(policy: RuleSet, canon: Text -> Option<Text>, effect: ApprovalEffect, rawUrl: Option<Text>)
    ensures var url := JudgmentUrl(canon, effect, rawUrl);
            var outcome := Review(policy, canon, effect, rawUrl);
            && (outcome.Allowed? <==> url.Some? && Answers(policy, effect.Class(), url.value, Allow))
            && (outcome.Denied? <==> Answers(policy, effect.Class(), if url.Some? then url.value else [], Deny))
  {
    var url := JudgmentUrl(canon, effect, rawUrl);
    var judged := if url.Some? then url.value else [];
    JudgeAnswers(policy, effect.Class(), judged, Allow);
    JudgeAnswers(policy, effect.Class(), judged, Deny);
  }

  /** The brief a human decides from tells the truth: the effect, its class, the URL it was judged at,
      and the rule, by its first position, that asked. */
  lemma BriefTellsTheTruth(policy: RuleSet, canon: Text -> Option<Text>, effect: ApprovalEffect, rawUrl: Option<Text>)
    requires Review(policy, canon, effect, rawUrl).NeedsApproval?
    ensures var brief := Review(policy, canon, effect, rawUrl).brief;
            var kind := effect.Class();
            var judged := if brief.judgedUrl.Some? then brief.judgedUrl.value else [];
            && brief.effect == effect && brief.actionClass == kind
            && brief.judgedUrl == JudgmentUrl(canon, effect, rawUrl)
            && match brief.basis
               case Rule(index, urlPattern) =>
                 && 1 <= index && FirstToApply(policy.rules, kind, judged, index - 1)
                 && policy.rules[index - 1].verdict == RequireApproval
                 && policy.rules[index - 1].urlPattern == urlPattern
               case SetDefault => NoneApplies(policy.rules, kind, judged) && policy.defaultVerdict == RequireApproval
               case MissingUrl => brief.judgedUrl.None? && Answers(policy, kind, [], Allow)
  {
    var brief := Review(policy, canon, effect, rawUrl).brief;
    var judged := if brief.judgedUrl.Some? then brief.judgedUrl.value else [];
    JudgeFromNames(policy, effect.Class(), judged, 0);
    JudgeAnswers(policy, effect.Class(), [], Allow);
  }

  /** Whatever URL a caller pairs with a navigation, the target it carries is the one judged. */
  lemma NavigationIsJudgedAtItsTarget(
      policy: RuleSet, canon: Text -> Option<Text>, target: Text, rawUrl: Option<Text>)
    ensures var effect := Perform(Navigate(target));
            && JudgmentUrl(canon, effect, rawUrl) == canon(target)
            && Review(policy, canon, effect, rawUrl) == Review(policy, canon, effect, Some(target))
  {
  }

  /** The re-check after a grant is sound and complete: reviewing again at another URL reaches the very
      brief that was granted exactly when the brief was judged there, a navigation always. */
  lemma JudgedAtExactly(policy: RuleSet, canon: Text -> Option<Text>, effect: ApprovalEffect,
                        rawUrl: Option<Text>, current: Option<Text>)
    requires Review(policy, canon, effect, rawUrl).NeedsApproval?
    ensures var granted := Review(policy, canon, effect, rawUrl);
            Review(policy, canon, effect, current) == granted
            <==> effect.TargetUrl().Some? || granted.brief.JudgedAt(canon, current)
  {
  }

  /** Rules behind one that applies are dead: replacing them changes no review. */
  lemma ShadowedRulesAreDead(head: seq<PolicyRule>, tail: seq<PolicyRule>, other: seq<PolicyRule>,
                             dflt: Verdict, kind: ActionClass, url: Text)
    requires !NoneApplies(head, kind, url)
    ensures Judge(RuleSet(head + tail, dflt), kind, url) == Judge(RuleSet(head + other, dflt), kind, url)
  {
    var live :| 0 <= live < |head| && head[live].AppliesTo(kind, url);
    var a, b := RuleSet(head + tail, dflt), RuleSet(head + other, dflt);
    JudgeFromNames(a, kind, url, 0);
    JudgeFromNames(b, kind, url, 0);
    assert a.rules[live] == head[live] == b.rules[live];
    assert forall i :: 0 <= i < |head| ==> a.rules[i] == head[i] == b.rules[i];
  }

  // ----- what each class covers

  /** The operations a class is for. */
  predicate Belongs(effect: ApprovalEffect, kind: ActionClass) {
    match kind
    case Navigation => effect.Perform? && (var a := effect.action; a.Navigate? || a.Back? || a.Forward? || a.Reload?)
    case Pointer => effect.Perform? && (effect.action.Click? || effect.action.Hover?)
    case Keyboard => effect.Perform? && (effect.action.Type? || effect.action.PressKey?)
    case Selection => effect.Perform? && effect.action.SelectOption?
    case FileUpload => effect.Perform? && effect.action.SetInputFiles?
    case Scrolling => effect.Perform? && effect.action.Scroll?
    case CookieWrites => effect.Cookies?
  }

  /** A rule for one class decides the operations of that class and leaves all others to the default. */
  lemma OneClassRule(kind: ActionClass, verdict: Verdict, dflt: Verdict, canon: Text -> Option<Text>,
                     effect: ApprovalEffect, rawUrl: Option<Text>)
    requires JudgmentUrl(canon, effect, rawUrl).Some?
    ensures var outcome := Review(RuleSet([PolicyRule(Some(kind), None, verdict)], dflt), canon, effect, rawUrl);
            var decided := if Belongs(effect, kind) then verdict else dflt;
            && (outcome.Allowed? <==> decided == Allow) && (outcome.Denied? <==> decided == Deny)
            && (outcome.NeedsApproval? ==> Belongs(effect, outcome.brief.actionClass))
  {
    var policy := RuleSet([PolicyRule(Some(kind), None, verdict)], dflt);
    var url := JudgmentUrl(canon, effect, rawUrl).value;
    assert effect.Class() == kind <==> Belongs(effect, kind) by {
      match effect
      case Perform(action) =>
      case Cookies(_) =>
    }
    assert JudgeFrom(policy, effect.Class(), url, 1) == (dflt, SetDefault);
  }

  // ----- the built-in rules

  const FILE_ROOT: Text := [0x66, 0x69, 0x6C, 0x65, 0x3A, 0x2F, 0x2F, 0x2F]   // "file:///"

  lemma SpecialTexts()
    ensures FILE_ROOT == Ascii("file:///") && SCHEME_SEPARATOR == Ascii("://")
    ensures [STAR] == Ascii("*") && [SLASH] == Ascii("/")
  {
  }

  function DefaultSet(): RuleSet {
    RuleSet([PolicyRule(Some(Navigation), Some(FILE_ROOT + [STAR]), RequireApproval),
             PolicyRule(Some(FileUpload), None, RequireApproval),
             PolicyRule(Some(CookieWrites), None, RequireApproval)], Allow)
  }

  /** Out of the box uploads, cookie writes, navigations under `file:///` and operations without a
      canonical URL wait for a human; everything else runs; nothing is refused. */
  lemma DefaultSetExactly(canon: Text -> Option<Text>, effect: ApprovalEffect, rawUrl: Option<Text>)
    ensures var url := JudgmentUrl(canon, effect, rawUrl);
            var outcome := Review(DefaultSet(), canon, effect, rawUrl);
            && !outcome.Denied?
            && (outcome.NeedsApproval? <==>
                  || url.None? || effect.Cookies? || effect.action.SetInputFiles?
                  || ((effect.action.Navigate? || effect.action.Back? || effect.action.Forward?
                       || effect.action.Reload?) && FILE_ROOT <= url.value))
  {
    var url := JudgmentUrl(canon, effect, rawUrl);
    var judged := if url.Some? then url.value else [];
    var policy, kind := DefaultSet(), effect.Class();
    CoversExactly(policy.rules[0], kind, judged);
    PrefixStar(FILE_ROOT, judged);
    assert Judge(policy, kind, judged) ==
           if policy.rules[0].Covers(kind, judged) then (RequireApproval, Rule(1, policy.rules[0].urlPattern))
           else if kind == FileUpload then (RequireApproval, Rule(2, None))
           else if kind == CookieWrites then (RequireApproval, Rule(3, None))
           else (Allow, SetDefault) by {
      assert JudgeFrom(policy, kind, judged, 3) == (Allow, SetDefault);
      assert JudgeFrom(policy, kind, judged, 2) ==
             if kind == CookieWrites then (RequireApproval, Rule(3, None)) else (Allow, SetDefault);
      assert JudgeFrom(policy, kind, judged, 1) ==
             if kind == FileUpload then (RequireApproval, Rule(2, None)) else JudgeFrom(policy, kind, judged, 2);
    }
  }
}
