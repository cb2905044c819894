/**
 The patterns a policy rule matches URLs with (crates/policy/src/pattern.rs). The star is their only
 special character. Text is its UTF-8 bytes, which is what the matcher compares.
 */
module Pattern {
  import opened Options

  newtype byte = x: int | 0 <= x < 256

  type Text = seq<byte>

  const STAR: byte := 0x2A
  const SLASH: byte := 0x2F
  const SCHEME_SEPARATOR: Text := [0x3A, 0x2F, 0x2F]   // "://"

  /** The bytes of a plain text. */
  function Ascii(s: string): Text
    requires forall i :: 0 <= i < |s| ==> s[i] < 128 as char
  {
    seq(|s|, i requires 0 <= i < |s| => s[i] as byte)
  }

  // ----- what a pattern means

  function Stars(p: Text): nat {
    if p == [] then 0 else (if p[0] == STAR then 1 else 0) + Stars(p[1..])
  }

  /** The pattern with each star replaced by the next run. */
  function Fill(p: Text, runs: seq<Text>): Text
    requires |runs| == Stars(p)
  {
    if p == [] then []
    else if p[0] == STAR then runs[0] + Fill(p[1..], runs[1..])
    else [p[0]] + Fill(p[1..], runs)
  }

  ghost predicate FillsTo(p: Text, t: Text, runs: seq<Text>) {
    |runs| == Stars(p) && Fill(p, runs) == t
  }

  /** The text splits so that the literals match and each star takes some run. */
  ghost predicate Matches(p: Text, t: Text) {
    exists runs: seq<Text> :: FillsTo(p, t, runs)
  }

  /** The same, read left to right from two positions. */
  predicate MatchAt(p: Text, t: Text, i: nat, j: nat)
    requires i <= |p| && j <= |t|
    decreases |p| - i + |t| - j
  {
    if i == |p| then j == |t|
    else if p[i] == STAR then MatchAt(p, t, i + 1, j) || (j < |t| && MatchAt(p, t, i, j + 1))
    else j < |t| && p[i] == t[j] && MatchAt(p, t, i + 1, j + 1)
  }

  lemma {:induction false} MatchAtFills(p: Text, t: Text, i: nat, j: nat) returns (runs: seq<Text>)
    requires i <= |p| && j <= |t| && MatchAt(p, t, i, j)
    ensures FillsTo(p[i..], t[j..], runs)
    decreases |p| - i + |t| - j
  {
    if i == |p| {
      runs := [];
    } else if p[i] != STAR {
      runs := MatchAtFills(p, t, i + 1, j + 1);
      assert p[i..][1..] == p[i + 1..];
    } else if MatchAt(p, t, i + 1, j) {
      var rest := MatchAtFills(p, t, i + 1, j);
      runs := [[]] + rest;
      assert p[i..][1..] == p[i + 1..] && runs[1..] == rest;
    } else {
      var rest := MatchAtFills(p, t, i, j + 1);
      runs := [[t[j]] + rest[0]] + rest[1..];
      assert p[i..][1..] == p[i + 1..] && runs[1..] == rest[1..];
      assert t[j..] == [t[j]] + t[j + 1..];
    }
  }

  lemma {:induction false} FillsMatchAt(p: Text, t: Text, i: nat, j: nat, runs: seq<Text>)
    requires i <= |p| && j <= |t| && FillsTo(p[i..], t[j..], runs)
    ensures MatchAt(p, t, i, j)
    decreases |p| - i + |t| - j
  {
    if i < |p| {
      assert p[i..][1..] == p[i + 1..];
      if p[i] != STAR {
        assert t[j..][1..] == t[j + 1..];
        FillsMatchAt(p, t, i + 1, j + 1, runs);
      } else if runs[0] == [] {
        FillsMatchAt(p, t, i + 1, j, runs[1..]);
      } else {
        var shorter := [runs[0][1..]] + runs[1..];
        assert shorter[1..] == runs[1..];
        assert t[j + 1..] == t[j..][1..] == Fill(p[i..], shorter);
        FillsMatchAt(p, t, i, j + 1, shorter);
      }
    }
  }

  lemma MatchesIffMatchAt(p: Text, t: Text)
    ensures Matches(p, t) <==> MatchAt(p, t, 0, 0)
  {
    assert p[0..] == p && t[0..] == t;
    if Matches(p, t) {
      var runs :| FillsTo(p, t, runs);
      FillsMatchAt(p, t, 0, 0, runs);
    }
    if MatchAt(p, t, 0, 0) {
      var runs := MatchAtFills(p, t, 0, 0);
    }
  }

  // ----- the matcher

  /** The rest of the pattern matches from some position at or after `from`. */
  ghost predicate MatchesFrom(p: Text, t: Text, i: nat, from: nat)
    requires i <= |p|
  {
    exists k :: from <= k <= |t| && MatchAt(p, t, i, k)
  }

  lemma {:induction false} StarMatchesFrom(p: Text, t: Text, i: nat, j: nat)
    requires i < |p| && p[i] == STAR && j <= |t|
    ensures MatchAt(p, t, i, j) <==> MatchesFrom(p, t, i + 1, j)
    decreases |t| - j
  {
    if j < |t| { StarMatchesFrom(p, t, i, j + 1); }
  }

  /** The literals `p[a..b]` are read off the text at `k`. */
  ghost predicate LiteralAt(p: Text, t: Text, a: nat, b: nat, k: nat)
    requires a <= b <= |p|
  {
    k + (b - a) <= |t| && forall x :: a <= x < b ==> p[x] == t[k + (x - a)]
  }

  /** A match that starts with literals reads them off the text first. */
  lemma {:induction false} LiteralsFirst(p: Text, t: Text, a: nat, b: nat, k: nat)
    requires a <= b <= |p| && k <= |t| && forall x :: a <= x < b ==> p[x] != STAR
    ensures MatchAt(p, t, a, k) <==> LiteralAt(p, t, a, b, k) && MatchAt(p, t, b, k + (b - a))
    decreases b - a
  {
    if a < b && k < |t| { LiteralsFirst(p, t, a + 1, b, k + 1); }
  }

  /** Where the matcher stands: before any star, the match so far is forced; after one, it is a match
      of the last star's tail at `starT` or later, with the literals since that star read off at
      `starT`. */
  ghost predicate Progress(pattern: Text, text: Text, p: nat, t: nat, star: Option<nat>, starT: nat) {
    && p <= |pattern| && t <= |text|
    && match star
       case None => MatchAt(pattern, text, 0, 0) <==> MatchAt(pattern, text, p, t)
       case Some(s) =>
         && s < p && starT <= t && p - (s + 1) == t - starT
         && (forall x :: s < x < p ==> pattern[x] != STAR)
         && LiteralAt(pattern, text, s + 1, p, starT)
         && (MatchAt(pattern, text, 0, 0) <==> MatchesFrom(pattern, text, s + 1, starT))
  }

  /** A new star takes over from the last one: any match of the old tail reaches it here or later. */
  lemma NewStarTakesOver(pattern: Text, text: Text, p: nat, t: nat, star: Option<nat>, starT: nat)
    requires Progress(pattern, text, p, t, star, starT) && p < |pattern| && pattern[p] == STAR
    ensures Progress(pattern, text, p + 1, t, Some(p), t)
  {
    StarMatchesFrom(pattern, text, p, t);
    if star.Some? {
      var s := star.value;
      LiteralsFirst(pattern, text, s + 1, p, starT);
      if MatchesFrom(pattern, text, s + 1, starT) {
        var k :| starT <= k <= |text| && MatchAt(pattern, text, s + 1, k);
        LiteralsFirst(pattern, text, s + 1, p, k);
        StarMatchesFrom(pattern, text, p, k + (p - (s + 1)));
      }
    }
  }

  lemma LiteralAdvances(pattern: Text, text: Text, p: nat, t: nat, star: Option<nat>, starT: nat)
    requires Progress(pattern, text, p, t, star, starT)
    requires p < |pattern| && pattern[p] != STAR && t < |text| && pattern[p] == text[t]
    ensures Progress(pattern, text, p + 1, t + 1, star, starT)
  {
  }

  /** A mismatch rules out `starT` alone: backtracking to the last star loses no match. */
  lemma BacktrackingLosesNothing(pattern: Text, text: Text, p: nat, t: nat, s: nat, starT: nat)
    requires Progress(pattern, text, p, t, Some(s), starT) && t < |text|
    requires p == |pattern| || (pattern[p] != STAR && pattern[p] != text[t])
    ensures Progress(pattern, text, s + 1, starT + 1, Some(s), starT + 1)
  {
    LiteralsFirst(pattern, text, s + 1, p, starT);
    assert !MatchAt(pattern, text, s + 1, starT);
  }

  /** At the end of the text only stars may remain. */
  lemma {:induction false} OnlyStarsRemain(p: Text, t: Text, i: nat)
    requires i <= |p|
    ensures MatchAt(p, t, i, |t|) <==> forall x :: i <= x < |p| ==> p[x] == STAR
    decreases |p| - i
  {
    if i < |p| { OnlyStarsRemain(p, t, i + 1); }
  }

  lemma TextExhausted(pattern: Text, text: Text, p: nat, star: Option<nat>, starT: nat)
    requires Progress(pattern, text, p, |text|, star, starT)
    ensures MatchAt(pattern, text, 0, 0) <==> forall x :: p <= x < |pattern| ==> pattern[x] == STAR
  {
    OnlyStarsRemain(pattern, text, p);
    if star.Some? {
      var s := star.value;
      LiteralsFirst(pattern, text, s + 1, p, starT);
      if MatchesFrom(pattern, text, s + 1, starT) {
        var k :| starT <= k <= |text| && MatchAt(pattern, text, s + 1, k);
        LiteralsFirst(pattern, text, s + 1, p, k);
      }
    }
  }

  /** The matcher backtracks to the last star only, terminates, and answers exactly whether the text
      splits along the pattern. */
  method WildcardMatch(pattern: Text, text: Text) returns (matched: bool)
    ensures matched <==> Matches(pattern, text)
  {
    MatchesIffMatchAt(pattern, text);
    var p: nat, t: nat := 0, 0;
    var star: Option<nat>, starT: nat := None, 0;
    while t < |text|
      invariant Progress(pattern, text, p, t, star, starT)
      decreases |pattern| - (if star.Some? then star.value + 1 else 0), |text| - starT, |text| - t
    {
      if p < |pattern| && pattern[p] == STAR {
        NewStarTakesOver(pattern, text, p, t, star, starT);
        star := Some(p);
        starT := t;
        p := p + 1;
      } else if p < |pattern| && pattern[p] == text[t] {
        LiteralAdvances(pattern, text, p, t, star, starT);
        p := p + 1;
        t := t + 1;
      } else if star.Some? {
        BacktrackingLosesNothing(pattern, text, p, t, star.value, starT);
        p := star.value + 1;
        starT := starT + 1;
        t := starT;
      } else {
        return false;
      }
    }
    TextExhausted(pattern, text, p, star, starT);
    ghost var rest := p;
    while p < |pattern| && pattern[p] == STAR
      invariant rest <= p <= |pattern| && forall x :: rest <= x < p ==> pattern[x] == STAR
    {
      p := p + 1;
    }
    matched := p == |pattern|;
  }

  // ----- parsing

  datatype PatternError = Blank | UnanchoredAuthorityWildcard

  datatype Parsed = Ok(pattern: Text) | Err(error: PatternError)

  /** `part` stands in `t` at this position. */
  predicate StandsAt(t: Text, part: Text, i: nat) { i + |part| <= |t| && t[i..i + |part|] == part }

  /** The first position at which `part` stands in `t`. */
  function Find(t: Text, part: Text): (at: Option<nat>)
    ensures at.Some? ==> StandsAt(t, part, at.value) && forall i :: 0 <= i < at.value ==> !StandsAt(t, part, i)
    ensures at.None? ==> forall i :: 0 <= i <= |t| ==> !StandsAt(t, part, i)
    decreases |t|
  {
    if |part| <= |t| && t[..|part|] == part then Some(0)
    else if t == [] then None
    else
      assert forall i :: 1 <= i <= |t| ==> (StandsAt(t, part, i) <==> StandsAt(t[1..], part, i - 1)) by {
        StandsFurther(t, part);
      }
      match Find(t[1..], part)
      case None => None
      case Some(at) => Some(at + 1)
  }

  lemma StandsFurther(t: Text, part: Text)
    requires t != []
    ensures forall i :: 1 <= i <= |t| ==> (StandsAt(t, part, i) <==> StandsAt(t[1..], part, i - 1))
  {
    forall i | 1 <= i <= |t| ensures StandsAt(t, part, i) <==> StandsAt(t[1..], part, i - 1) {
      if i + |part| <= |t| {
        assert forall k :: i <= k < i + |part| ==> t[k] == t[1..][k - 1];
        assert t[i..i + |part|] == t[1..][i - 1..i - 1 + |part|];
      }
    }
  }

  /** A byte stands where it is. */
  lemma ByteStands(t: Text, b: byte)
    ensures forall i :: 0 <= i < |t| ==> (StandsAt(t, [b], i) <==> t[i] == b)
    ensures Find(t, [b]).Some? <==> b in t
    ensures Find(t, [b]).Some? ==> t[Find(t, [b]).value] == b && b !in t[..Find(t, [b]).value]
  {
    forall i | 0 <= i < |t| ensures StandsAt(t, [b], i) <==> t[i] == b { assert t[i..i + 1] == [t[i]]; }
    if b in t {
      var i :| 0 <= i < |t| && t[i] == b;
      assert StandsAt(t, [b], i);
    }
  }

  /** The length of the white-space character the text starts with, 0 when it starts with none. */
  function WhitespacePrefix(t: Text): (n: nat)
    ensures n <= |t|
  {
    if |t| >= 1 && (9 <= t[0] <= 13 || t[0] == 0x20) then 1
    else if |t| >= 2 && t[0] == 0xC2 && (t[1] == 0x85 || t[1] == 0xA0) then 2
    else if |t| >= 3 && t[..3] in {[0xE1, 0x9A, 0x80], [0xE2, 0x80, 0xA8], [0xE2, 0x80, 0xA9],
                                   [0xE2, 0x80, 0xAF], [0xE2, 0x81, 0x9F], [0xE3, 0x80, 0x80]} then 3
    else if |t| >= 3 && t[0] == 0xE2 && t[1] == 0x80 && 0x80 <= t[2] <= 0x8A then 3
    else 0
  }

  /** Nothing is left after trimming. */
  predicate IsBlank(t: Text)
    decreases |t|
  {
    t == [] || (WhitespacePrefix(t) > 0 && IsBlank(t[WhitespacePrefix(t)..]))
  }

  /** A code point of the basic plane, which has all the white space there is. */
  type CodePoint = c: nat | c < 0x1_0000

  /** The code points with the Unicode property White_Space. */
  predicate WhiteSpace(c: CodePoint) {
    || 0x9 <= c <= 0xD || c in {0x20, 0x85, 0xA0, 0x1680, 0x2028, 0x2029, 0x202F, 0x205F, 0x3000}
    || 0x2000 <= c <= 0x200A
  }

  /** UTF-8, as far as white space needs it. */
  function Utf8(c: CodePoint): (t: Text)
    ensures t != []
  {
    if c < 0x80 then [c as byte]
    else if c < 0x800 then [(0xC0 + c / 0x40) as byte, (0x80 + c % 0x40) as byte]
    else [(0xE0 + c / 0x1000) as byte, (0x80 + c / 0x40 % 0x40) as byte, (0x80 + c % 0x40) as byte]
  }

  /** Exactly the white-space characters are recognized, whole. */
  lemma WhitespaceExactly(c: CodePoint, rest: Text)
    ensures WhitespacePrefix(Utf8(c) + rest) == if WhiteSpace(c) then |Utf8(c)| else 0
  {
    var t := Utf8(c) + rest;
    if c >= 0x800 {
      assert t[..3] == Utf8(c);
      assert c == (c / 0x1000) * 0x1000 + (c / 0x40 % 0x40) * 0x40 + c % 0x40;
    }
  }

  /** What stands at the front is one of them. */
  lemma WhitespaceIsACharacter(t: Text) returns (c: CodePoint)
    requires WhitespacePrefix(t) > 0
    ensures WhiteSpace(c) && t[..WhitespacePrefix(t)] == Utf8(c)
  {
    c := if WhitespacePrefix(t) == 1 then t[0] as nat
         else if WhitespacePrefix(t) == 2 then (t[0] as nat - 0xC0) * 0x40 + (t[1] as nat - 0x80)
         else (t[0] as nat - 0xE0) * 0x1000 + (t[1] as nat - 0x80) * 0x40 + (t[2] as nat - 0x80);
  }

  function Encoded(chars: seq<CodePoint>): Text {
    if chars == [] then [] else Utf8(chars[0]) + Encoded(chars[1..])
  }

  predicate AllWhiteSpace(chars: seq<CodePoint>) {
    chars == [] || (WhiteSpace(chars[0]) && AllWhiteSpace(chars[1..]))
  }

  lemma {:induction false} BlankIsWhiteSpace(t: Text) returns (chars: seq<CodePoint>)
    requires IsBlank(t)
    ensures AllWhiteSpace(chars) && Encoded(chars) == t
    decreases |t|
  {
    chars := [];
    if t != [] {
      var n := WhitespacePrefix(t);
      var c := WhitespaceIsACharacter(t);
      var rest := BlankIsWhiteSpace(t[n..]);
      chars := [c] + rest;
      assert chars[1..] == rest && t == t[..n] + t[n..];
    }
  }

  lemma {:induction false} WhiteSpaceIsBlank(chars: seq<CodePoint>)
    requires AllWhiteSpace(chars)
    ensures IsBlank(Encoded(chars))
  {
    if chars != [] {
      var first, rest := Utf8(chars[0]), Encoded(chars[1..]);
      WhitespaceExactly(chars[0], rest);
      WhiteSpaceIsBlank(chars[1..]);
      assert (first + rest)[|first|..] == rest;
    }
  }

  /** A text is blank exactly when it is white space throughout. */
  lemma BlankExactly(t: Text)
    ensures IsBlank(t) <==> exists chars :: AllWhiteSpace(chars) && Encoded(chars) == t
  {
    if IsBlank(t) { var chars := BlankIsWhiteSpace(t); }
    forall chars | AllWhiteSpace(chars) && Encoded(chars) == t ensures IsBlank(t) { WhiteSpaceIsBlank(chars); }
  }

  /** Where the authority starts, when the pattern names a scheme. */
  function AuthorityStart(p: Text): (start: Option<nat>)
    ensures start.Some? ==> start.value <= |p|
  {
    match Find(p, SCHEME_SEPARATOR)
    case None => None
    case Some(at) => Some(at + 3)
  }

  /** What stands before the first slash. */
  function Authority(rest: Text): (authority: Text)
    ensures authority <= rest
  {
    match Find(rest, [SLASH])
    case Some(offset) => rest[..offset]
    case None => rest
  }

  /** The first star of the authority. */
  function AuthorityStar(p: Text): (star: Option<nat>)
    ensures star.Some? ==> star.value < |p| && p[star.value] == STAR
  {
    match AuthorityStart(p)
    case None => None
    case Some(start) =>
      match Find(Authority(p[start..]), [STAR])
      case None => None
      case Some(at) =>
        assert Authority(p[start..])[at] == STAR by { ByteStands(Authority(p[start..]), STAR); }
        assert p[start..][at] == p[start + at];
        Some(start + at)
  }

  predicate Unanchored(p: Text) {
    AuthorityStar(p).Some? && SLASH !in p[AuthorityStar(p).value..]
  }

  function Parse(p: Text): Parsed {
    if IsBlank(p) then Err(Blank)
    else if Unanchored(p) then Err(UnanchoredAuthorityWildcard)
    else Ok(p)
  }

  // ----- what the spelling check refuses and what it leaves pinned

  /** The text reads as a scheme, its separator, and the rest; the separator stands nowhere earlier. */
  ghost predicate Schemed(p: Text, scheme: Text, rest: Text) {
    && p == scheme + SCHEME_SEPARATOR + rest
    && forall i :: 0 <= i < |scheme| ==> !StandsAt(p, SCHEME_SEPARATOR, i)
  }

  lemma SchemeIsFound(p: Text, scheme: Text, rest: Text)
    requires Schemed(p, scheme, rest)
    ensures AuthorityStart(p) == Some(|scheme| + 3) && p[|scheme| + 3..] == rest
  {
    assert p[|scheme|..|scheme| + 3] == SCHEME_SEPARATOR;
    assert StandsAt(p, SCHEME_SEPARATOR, |scheme|);
  }

  lemma SchemeIsThere(p: Text)
    requires AuthorityStart(p).Some?
    ensures var start := AuthorityStart(p).value;
            start >= 3 && Schemed(p, p[..start - 3], p[start..])
  {
    var at := Find(p, SCHEME_SEPARATOR).value;
    assert p == p[..at] + p[at..at + 3] + p[at + 3..];
  }

  /** The authority is the longest beginning without a slash. */
  lemma AuthorityExactly(rest: Text, part: Text)
    ensures part <= Authority(rest) <==> part <= rest && SLASH !in part
  {
    ByteStands(rest, SLASH);
    var authority := Authority(rest);
    assert part <= authority ==> forall b :: b in part ==> b in authority;
    if part <= rest && !(part <= authority) { assert part[|authority|] == SLASH; }
  }

  lemma FirstStar(authority: Text, host: Text)
    requires host + [STAR] <= authority && STAR !in host
    ensures Find(authority, [STAR]) == Some(|host|)
  {
    ByteStands(authority, STAR);
    assert authority[|host|] == STAR;
    assert forall i :: 0 <= i < |host| ==> authority[i] == host[i];
  }

  lemma Regroup(host: Text, tail: Text)
    ensures host + [STAR] <= host + ([STAR] + tail)
    ensures (host + ([STAR] + tail))[|host|..] == [STAR] + tail
  {
  }

  /** A host ends at a star before any slash. */
  lemma HostEndsAtStar(p: Text, scheme: Text, host: Text, tail: Text)
    requires Schemed(p, scheme, host + ([STAR] + tail)) && SLASH !in host && STAR !in host
    ensures AuthorityStar(p) == Some(|scheme| + 3 + |host|)
    ensures p[|scheme| + 3 + |host|..] == [STAR] + tail
  {
    var rest := host + ([STAR] + tail);
    SchemeIsFound(p, scheme, rest);
    Regroup(host, tail);
    AuthorityExactly(rest, host + [STAR]);
    FirstStar(Authority(rest), host);
    Beyond(p, |scheme| + 3, |host|);
  }

  lemma StarIsInAuthority(p: Text)
    requires AuthorityStar(p).Some?
    ensures AuthorityStart(p).Some? && Find(Authority(p[AuthorityStart(p).value..]), [STAR]).Some?
    ensures AuthorityStar(p).value ==
            AuthorityStart(p).value + Find(Authority(p[AuthorityStart(p).value..]), [STAR]).value
  {
  }

  lemma StarEndsHost(p: Text) returns (scheme: Text, host: Text, tail: Text)
    requires AuthorityStar(p).Some?
    ensures Schemed(p, scheme, host + ([STAR] + tail)) && SLASH !in host && STAR !in host
    ensures p[AuthorityStar(p).value..] == [STAR] + tail
  {
    StarIsInAuthority(p);
    SchemeIsThere(p);
    var start := AuthorityStart(p).value;
    var rest := p[start..];
    scheme := p[..start - 3];
    host, tail := SplitAtStar(rest);
    assert Schemed(p, scheme, rest) && p[AuthorityStar(p).value..] == rest[|host|..] by {
      Beyond(p, start, |host|);
    }
  }

  lemma Beyond(p: Text, start: nat, n: nat)
    requires start + n <= |p|
    ensures p[start..][n..] == p[start + n..]
  {
  }

  lemma SplitAtStar(rest: Text) returns (host: Text, tail: Text)
    requires Find(Authority(rest), [STAR]).Some?
    ensures rest == host + ([STAR] + tail) && SLASH !in host && STAR !in host
    ensures |host| == Find(Authority(rest), [STAR]).value
    ensures rest[|host|..] == [STAR] + tail
  {
    var at := Find(Authority(rest), [STAR]).value;
    ByteStands(Authority(rest), STAR);
    host, tail := rest[..at], rest[at + 1..];
    assert host == Authority(rest)[..at];
    AuthorityExactly(rest, host);
    assert rest[at] == STAR;
  }

  /** The check from the text alone: it refuses exactly a scheme, a host cut off by a star, and no slash
      anywhere behind that star. */
  ghost predicate CutOffHost(p: Text, scheme: Text, host: Text, tail: Text) {
    && Schemed(p, scheme, host + ([STAR] + tail))
    && SLASH !in host && STAR !in host && SLASH !in tail
  }

  lemma ParseExactly(p: Text)
    ensures Parse(p) == Err(Blank) <==> IsBlank(p)
    ensures Parse(p) == Err(UnanchoredAuthorityWildcard)
            <==> !IsBlank(p) && exists scheme, host, tail :: CutOffHost(p, scheme, host, tail)
    ensures Parse(p).Ok? ==> Parse(p).pattern == p
  {
    if Unanchored(p) {
      var scheme, host, tail := StarEndsHost(p);
      assert SLASH !in [STAR] + tail;
      assert CutOffHost(p, scheme, host, tail);
    }
    forall scheme, host, tail | CutOffHost(p, scheme, host, tail) ensures Unanchored(p) {
      HostEndsAtStar(p, scheme, host, tail);
    }
  }

  function Empties(n: nat): (runs: seq<Text>)
    ensures |runs| == n && forall i :: 0 <= i < n ==> runs[i] == []
  {
    seq(n, _ => [])
  }

  /** The pattern with its stars erased. */
  function Erased(p: Text): Text { Fill(p, Empties(Stars(p))) }

  lemma {:induction false} FillAppends(p: Text, q: Text, runs: seq<Text>, more: seq<Text>)
    requires |runs| == Stars(p) && |more| == Stars(q)
    ensures Stars(p + q) == Stars(p) + Stars(q)
    ensures Fill(p + q, runs + more) == Fill(p, runs) + Fill(q, more)
    decreases |p|
  {
    if p == [] {
      assert p + q == q && runs + more == more;
    } else {
      assert (p + q)[1..] == p[1..] + q;
      if p[0] == STAR {
        assert (runs + more)[1..] == runs[1..] + more;
        FillAppends(p[1..], q, runs[1..], more);
      } else {
        FillAppends(p[1..], q, runs, more);
      }
    }
  }

  /** A filled pattern keeps its literals. */
  lemma {:induction false} FillKeepsLiterals(p: Text, runs: seq<Text>, b: byte)
    requires |runs| == Stars(p) && b != STAR && b in p
    ensures b in Fill(p, runs)
  {
    assert p == [p[0]] + p[1..];
    if p[0] == STAR {
      FillKeepsLiterals(p[1..], runs[1..], b);
    } else if p[0] != b {
      FillKeepsLiterals(p[1..], runs, b);
    }
  }

  /** An erased pattern has nothing but the pattern's literals. */
  lemma {:induction false} ErasedHasOnlyLiterals(p: Text, b: byte)
    requires b !in p
    ensures b !in Erased(p)
  {
    if p != [] {
      assert p == [p[0]] + p[1..];
      ErasedHasOnlyLiterals(p[1..], b);
      if p[0] == STAR {
        assert Empties(Stars(p))[1..] == Empties(Stars(p[1..]));
      }
    }
  }

  /** Any text can stand for one star while the others are erased. */
  lemma SpliceAtStar(head: Text, tail: Text, w: Text)
    ensures Matches(head + ([STAR] + tail), Erased(head) + (w + Erased(tail)))
  {
    var none, rest := Empties(Stars(head)), Empties(Stars(tail));
    var starred := [STAR] + tail;
    assert starred[1..] == tail;
    assert ([w] + rest)[1..] == rest;
    assert Fill(starred, [w] + rest) == w + Fill(tail, rest);
    FillAppends(head, starred, none, [w] + rest);
    assert FillsTo(head + starred, Erased(head) + (w + Erased(tail)), none + ([w] + rest));
  }

  /** A pattern refused as unanchored matches any text spliced in at the star that cuts its host off, other
      stars erased, and no slash follows the splice: it reaches into every sibling domain. */
  lemma UnanchoredMatchesAnySplice(p: Text, scheme: Text, host: Text, tail: Text, w: Text)
    requires CutOffHost(p, scheme, host, tail)
    ensures Matches(p, Erased(scheme + SCHEME_SEPARATOR + host) + (w + Erased(tail)))
    ensures SLASH !in Erased(tail)
  {
    var head := scheme + SCHEME_SEPARATOR + host;
    assert p == head + ([STAR] + tail);
    SpliceAtStar(head, tail, w);
    ErasedHasOnlyLiterals(tail, SLASH);
  }

  /** The check refuses exactly the patterns whose authority star, with all that follows it, can match
      without ever leaving the authority. */
  lemma {:induction false} RefusedExactly(p: Text, scheme: Text, host: Text, tail: Text)
    requires !IsBlank(p) && Schemed(p, scheme, host + ([STAR] + tail)) && SLASH !in host && STAR !in host
    ensures Parse(p).Err? <==> exists t :: Matches([STAR] + tail, t) && SLASH !in t
  {
    var rest := [STAR] + tail;
    HostEndsAtStar(p, scheme, host, tail);
    if SLASH !in rest {
      ErasedHasOnlyLiterals(rest, SLASH);
      assert FillsTo(rest, Erased(rest), Empties(Stars(rest)));
      assert Matches(rest, Erased(rest));
    } else {
      forall t | Matches(rest, t) ensures SLASH in t {
        var runs :| FillsTo(rest, t, runs);
        FillKeepsLiterals(rest, runs, SLASH);
      }
    }
  }

  /** Up to its first star a pattern is an exact prefix of what it matches. */
  lemma LiteralPrefix(p: Text, t: Text, n: nat)
    requires n <= |p| && STAR !in p[..n] && Matches(p, t)
    ensures p[..n] <= t
  {
    MatchesIffMatchAt(p, t);
    assert forall x :: 0 <= x < n ==> p[x] in p[..n];
    LiteralsFirst(p, t, 0, n, 0);
  }

  /** A literal prefix with one star behind it matches exactly what starts with the prefix. */
  lemma PrefixStar(prefix: Text, t: Text)
    requires STAR !in prefix
    ensures Matches(prefix + [STAR], t) <==> prefix <= t
  {
    var p := prefix + [STAR];
    assert p[..|prefix|] == prefix;
    if Matches(p, t) {
      LiteralPrefix(p, t, |prefix|);
    }
    if prefix <= t {
      MatchesIffMatchAt(p, t);
      LiteralsFirst(p, t, 0, |prefix|, 0);
      StarMatchesFrom(p, t, |prefix|, |prefix|);
      assert MatchAt(p, t, |p|, |t|);
    }
  }

  /** A pattern with no star before the first slash of its authority matches only URLs that start with
      its scheme and host, that slash included. */
  lemma HostIsPinned(p: Text, t: Text, scheme: Text, host: Text, path: Text)
    requires Schemed(p, scheme, host + ([SLASH] + path)) && SLASH !in host
    requires STAR !in scheme && STAR !in host && Matches(p, t)
    ensures scheme + SCHEME_SEPARATOR + host + [SLASH] <= t
    ensures AuthorityStar(p).None?
  {
    var pinned, rest := scheme + SCHEME_SEPARATOR + host + [SLASH], host + ([SLASH] + path);
    assert p == pinned + path;
    LiteralPrefix(p, t, |pinned|);
    SchemeIsFound(p, scheme, rest);
    AuthorityExactly(rest, Authority(rest));
    AuthorityExactly(rest, host + [SLASH]);
    assert Authority(rest) <= host;
    ByteStands(Authority(rest), STAR);
  }
}
