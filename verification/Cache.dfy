/**
 Names in the engine cache (crates/engine/src/download/store.rs): which texts may name a directory,
 which archive paths may be written, and which installed version a lookup finds.
 */
module Cache {
  import opened Numbers
  import opened Options

  datatype Platform = Unix | Windows
  {
    function Separators(): set<char> { if Unix? then {'/'} else {'/', '\\'} }
  }

  const EITHER: set<char> := {'/', '\\'}

  function Split(t: string, separators: set<char>): (parts: seq<string>)
    ensures |parts| >= 1
  {
    if t == "" then [""]
    else
      var rest := Split(t[1..], separators);
      if t[0] in separators then [""] + rest else [[t[0]] + rest[0]] + rest[1..]
  }

  /** The parts with the separators put back between them. */
  function Interleaved(parts: seq<string>, marks: string): string
    requires |parts| == |marks| + 1
  {
    if marks == "" then parts[0] else parts[0] + [marks[0]] + Interleaved(parts[1..], marks[1..])
  }

  lemma LongerFirst(c: char, rest: seq<string>, marks: string)
    requires |rest| == |marks| + 1
    ensures Interleaved([[c] + rest[0]] + rest[1..], marks) == [c] + Interleaved(rest, marks)
  {
    assert ([[c] + rest[0]] + rest[1..])[1..] == rest[1..];
  }

  predicate Free(part: string, separators: set<char>) { forall i :: 0 <= i < |part| ==> part[i] !in separators }

  /** Splitting cuts a text at every separator and nowhere else. */
  lemma {:induction false} SplitExactly(t: string, separators: set<char>) returns (marks: string)
    ensures |Split(t, separators)| == |marks| + 1 && Interleaved(Split(t, separators), marks) == t
    ensures forall i :: 0 <= i < |marks| ==> marks[i] in separators
    ensures AllFree(Split(t, separators), separators)
  {
    if t == "" {
      marks := "";
    } else {
      var parts, rest := Split(t, separators), Split(t[1..], separators);
      var more := SplitExactly(t[1..], separators);
      assert t == [t[0]] + t[1..];
      if t[0] in separators {
        marks := [t[0]] + more;
        assert parts == [""] + rest && parts[1..] == rest && marks[1..] == more;
      } else {
        marks := more;
        LongerFirst(t[0], rest, marks);
        assert forall i :: 1 <= i < |parts| ==> parts[i] == rest[i];
      }
    }
  }

  predicate AllFree(parts: seq<string>, separators: set<char>) {
    forall i :: 0 <= i < |parts| ==> Free(parts[i], separators)
  }

  /** There is no other way to cut it. */
  lemma {:induction false} SplitIsUnique(parts: seq<string>, marks: string, separators: set<char>)
    requires |parts| == |marks| + 1 && AllFree(parts, separators)
    requires forall i :: 0 <= i < |marks| ==> marks[i] in separators
    ensures Split(Interleaved(parts, marks), separators) == parts
    decreases |marks|, |parts[0]|
  {
    var t := Interleaved(parts, marks);
    if parts[0] == "" {
      if marks != "" {
        SplitIsUnique(parts[1..], marks[1..], separators);
        assert t == [marks[0]] + Interleaved(parts[1..], marks[1..]);
        assert parts == [""] + parts[1..];
      }
    } else {
      var shorter := [parts[0][1..]] + parts[1..];
      assert shorter[1..] == parts[1..] && parts[0] == [parts[0][0]] + parts[0][1..];
      assert forall i :: 1 <= i < |shorter| ==> shorter[i] == parts[i];
      SplitIsUnique(shorter, marks, separators);
      assert t == [parts[0][0]] + Interleaved(shorter, marks);
      assert parts == [[parts[0][0]] + shorter[0]] + shorter[1..];
    }
  }

  predicate AllPlain(parts: seq<string>) {
    forall i :: 0 <= i < |parts| ==> Plain(parts[i])
  }

  predicate Plain(part: string) { part != "" && part != "." && part != ".." }

  /** A name a cache directory may have. */
  predicate SafeComponent(name: string) {
    Plain(name) && '/' !in name && '\\' !in name && ':' !in name && '\0' !in name
  }

  // ----- archive paths

  predicate Hostile(relative: string) {
    || relative == "" || relative[0] in EITHER || ':' in relative
    || !AllPlain(Split(relative, EITHER))
  }

  /** A path of plain parts with a separator of either kind between them. */
  ghost predicate PlainPath(t: string, parts: seq<string>, marks: string) {
    && |parts| == |marks| + 1 && AllPlain(parts) && AllFree(parts, EITHER)
    && (forall i :: 0 <= i < |marks| ==> marks[i] in EITHER)
    && t == Interleaved(parts, marks)
  }

  /** Accepted are exactly the plain paths without a colon. */
  lemma HostileExactly(t: string)
    ensures !Hostile(t) <==> ':' !in t && exists parts, marks :: PlainPath(t, parts, marks)
  {
    var marks := SplitExactly(t, EITHER);
    var cut := Split(t, EITHER);
    if !Hostile(t) { assert PlainPath(t, cut, marks); }
    forall parts, marks | PlainPath(t, parts, marks) ensures cut == parts && t != "" && t[0] !in EITHER {
      SplitIsUnique(parts, marks, EITHER);
      FirstPartFirst(parts, marks);
    }
  }

  lemma FirstPartFirst(parts: seq<string>, marks: string)
    requires |parts| == |marks| + 1 && parts[0] != ""
    ensures Interleaved(parts, marks) != "" && Interleaved(parts, marks)[0] == parts[0][0]
  {
  }

  /** Where a path leads from a directory, given as its components from the root. */
  function Resolve(from: seq<string>, parts: seq<string>): seq<string>
    decreases |parts|
  {
    if parts == [] then from
    else
      var next := if parts[0] == ".." then (if from == [] then [] else from[..|from| - 1])
                  else if parts[0] == "" || parts[0] == "." then from
                  else from + [parts[0]];
      Resolve(next, parts[1..])
  }

  /** The join of an archive path below `dir`; None is a refusal. */
  function SafeJoin(dir: seq<string>, relative: string, platform: Platform): Option<seq<string>> {
    if Hostile(relative) then None
    else
      var target := Resolve(dir, Split(relative, platform.Separators()));
      if dir <= target then Some(target) else None
  }

  lemma {:induction false} PlainPartsDescend(from: seq<string>, parts: seq<string>)
    requires AllPlain(parts)
    ensures Resolve(from, parts) == from + parts
    decreases |parts|
  {
    if parts != [] {
      PlainPartsDescend(from + [parts[0]], parts[1..]);
      assert from + [parts[0]] + parts[1..] == from + parts;
    }
  }

  /** A part of the coarser cut either keeps a backslash or is a part of the finer one too. */
  predicate CoarserThan(coarse: seq<string>, fine: seq<string>) {
    && coarse != [] && fine != [] && ('\\' in coarse[0] || coarse[0] == fine[0])
    && forall i :: 1 <= i < |coarse| ==> '\\' in coarse[i] || coarse[i] in fine[1..]
  }

  lemma BothCut(coarse: seq<string>, fine: seq<string>)
    requires CoarserThan(coarse, fine)
    ensures CoarserThan([""] + coarse, [""] + fine)
  {
    assert fine == [fine[0]] + fine[1..] && ([""] + fine)[1..] == fine;
  }

  lemma FineCut(coarse: seq<string>, fine: seq<string>)
    requires CoarserThan(coarse, fine)
    ensures CoarserThan([['\\'] + coarse[0]] + coarse[1..], [""] + fine)
  {
    assert fine == [fine[0]] + fine[1..] && ([""] + fine)[1..] == fine;
  }

  lemma NeitherCut(c: char, coarse: seq<string>, fine: seq<string>)
    requires CoarserThan(coarse, fine)
    ensures CoarserThan([[c] + coarse[0]] + coarse[1..], [[c] + fine[0]] + fine[1..])
  {
    assert ([[c] + fine[0]] + fine[1..])[1..] == fine[1..];
  }

  lemma {:induction false} CoarseParts(t: string)
    ensures CoarserThan(Split(t, {'/'}), Split(t, EITHER))
  {
    if t != "" {
      var coarse, fine := Split(t[1..], {'/'}), Split(t[1..], EITHER);
      CoarseParts(t[1..]);
      if t[0] == '/' {
        BothCut(coarse, fine);
      } else if t[0] == '\\' {
        FineCut(coarse, fine);
      } else {
        NeitherCut(t[0], coarse, fine);
      }
    }
  }

  lemma PartsArePlain(relative: string, platform: Platform)
    requires !Hostile(relative)
    ensures AllPlain(Split(relative, platform.Separators()))
  {
    var fine := Split(relative, EITHER);
    if platform.Unix? {
      CoarseParts(relative);
      var coarse := Split(relative, {'/'});
      forall i | 0 <= i < |coarse| ensures Plain(coarse[i]) {
        if '\\' !in coarse[i] {
          assert coarse[i] in fine;
          var j :| 0 <= j < |fine| && fine[j] == coarse[i];
        }
      }
    }
  }

  /** Under either platform's separators an accepted path leads strictly below the directory it is joined
      to, part by part, and the second, resolved check never fires. */
  lemma SafeJoinStaysBelow(dir: seq<string>, relative: string, platform: Platform)
    ensures SafeJoin(dir, relative, platform).Some? <==> !Hostile(relative)
    ensures !Hostile(relative) ==>
              var parts := Split(relative, platform.Separators());
              SafeJoin(dir, relative, platform) == Some(dir + parts) && dir < dir + parts
  {
    if !Hostile(relative) {
      PartsArePlain(relative, platform);
      PlainPartsDescend(dir, Split(relative, platform.Separators()));
    }
  }

  // ----- versions

  const MAX_U32: nat := 0xFFFF_FFFF

  predicate IsDigit(c: char) { '0' <= c <= '9' }

  function DigitValue(c: char): nat
    requires IsDigit(c)
  {
    c as int - '0' as int
  }

  predicate AllDigits(text: string) {
    forall i :: 0 <= i < |text| ==> IsDigit(text[i])
  }

  function Value(digits: string): nat
    requires AllDigits(digits)
  {
    if digits == "" then 0 else 10 * Value(digits[..|digits| - 1]) + DigitValue(digits[|digits| - 1])
  }

  lemma PrintedDigit(d: nat)
    requires d < 10
    ensures IsDigit(DIGITS[d]) && DigitValue(DIGITS[d]) == d
  {
  }

  lemma PrintStep(v: nat, c: char)
    requires IsDigit(c)
    ensures Decimal(10 * v + DigitValue(c)) == (if v == 0 then "" else Decimal(v)) + [c]
  {
    assert DIGITS[DigitValue(c)] == c;
    assert (10 * v + DigitValue(c)) / 10 == v && (10 * v + DigitValue(c)) % 10 == DigitValue(c);
  }

  lemma ReadStep(init: string, last: char)
    requires AllDigits(init) && IsDigit(last)
    ensures AllDigits(init + [last]) && Value(init + [last]) == 10 * Value(init) + DigitValue(last)
  {
    assert (init + [last])[..|init|] == init;
  }

  /** Decimal notation is read back. */
  lemma {:induction false} ValueOfDecimal(n: nat)
    ensures AllDigits(Decimal(n)) && Value(Decimal(n)) == n
  {
    PrintedDigit(n % 10);
    if n >= 10 {
      ValueOfDecimal(n / 10);
      ReadStep(Decimal(n / 10), DIGITS[n % 10]);
    } else {
      ReadStep("", DIGITS[n]);
      assert Decimal(n) == "" + [DIGITS[n]];
    }
  }

  function Zeros(k: nat): string { seq(k, _ => '0') }

  lemma {:induction false} LeadingZeros(k: nat, digits: string)
    requires AllDigits(digits)
    ensures AllDigits(Zeros(k) + digits) && Value(Zeros(k) + digits) == Value(digits)
    decreases k + |digits|
  {
    var text := Zeros(k) + digits;
    if digits == "" {
      assert text == Zeros(k);
      if k > 0 {
        LeadingZeros(k - 1, "");
        assert text[..|text| - 1] == Zeros(k - 1) + "";
      }
    } else {
      var init := digits[..|digits| - 1];
      LeadingZeros(k, init);
      assert text[..|text| - 1] == Zeros(k) + init;
    }
  }

  lemma OneMoreDigit(k: nat, v: nat, last: char) returns (zeros: nat)
    requires IsDigit(last)
    ensures Zeros(k) + Decimal(v) + [last] == Zeros(zeros) + Decimal(10 * v + DigitValue(last))
  {
    PrintStep(v, last);
    zeros := if v == 0 then k + 1 else k;
    if v == 0 { assert Zeros(k) + Decimal(0) == Zeros(k + 1); }
  }

  /** Any digits are some number's decimal notation behind zeros. */
  lemma {:induction false} DigitsAreDecimal(digits: string) returns (k: nat)
    requires digits != "" && AllDigits(digits)
    ensures digits == Zeros(k) + Decimal(Value(digits))
    decreases |digits|
  {
    var init, last := digits[..|digits| - 1], digits[|digits| - 1];
    assert digits == init + [last];
    ReadStep(init, last);
    if init == "" {
      PrintStep(0, last);
      k := 0;
    } else {
      var zeros := DigitsAreDecimal(init);
      k := OneMoreDigit(zeros, Value(init), last);
    }
  }

  /** An unsigned 32-bit number: one leading plus sign is accepted, overflow is not. */
  function ParseU32(part: string): Option<nat> {
    var digits := if |part| > 1 && part[0] == '+' then part[1..] else part;
    if digits == "" || !AllDigits(digits) then None
    else if Value(digits) > MAX_U32 then None
    else Some(Value(digits))
  }

  /** `n` in decimal notation behind `k` zeros, perhaps with a plus sign. */
  predicate Spells(part: string, n: nat, k: nat) {
    part == Zeros(k) + Decimal(n) || part == "+" + (Zeros(k) + Decimal(n))
  }

  lemma SpellingParses(part: string, n: nat, k: nat)
    requires Spells(part, n, k)
    ensures ParseU32(part) == if n < 0x1_0000_0000 then Some(n) else None
  {
    ValueOfDecimal(n);
    LeadingZeros(k, Decimal(n));
    DigitsParse(part, Zeros(k) + Decimal(n));
  }

  lemma ParsedIsSpelled(part: string) returns (k: nat)
    requires ParseU32(part).Some?
    ensures Spells(part, ParseU32(part).value, k) && ParseU32(part).value < 0x1_0000_0000
  {
    var digits := if |part| > 1 && part[0] == '+' then part[1..] else part;
    k := DigitsAreDecimal(digits);
    assert digits != part ==> part == "+" + digits;
  }

  /** What parses as `n`: its decimal notation, perhaps behind zeros and one plus sign, within 32 bits. */
  lemma ParseU32Exactly(part: string, n: nat)
    ensures ParseU32(part) == Some(n) <==> n < 0x1_0000_0000 && exists k :: Spells(part, n, k)
  {
    if ParseU32(part).Some? { var k := ParsedIsSpelled(part); }
    forall k | Spells(part, n, k) ensures n < 0x1_0000_0000 ==> ParseU32(part) == Some(n) {
      SpellingParses(part, n, k);
    }
  }

  lemma DigitsParse(part: string, digits: string)
    requires digits != "" && AllDigits(digits) && (part == digits || part == "+" + digits)
    ensures ParseU32(part) == if Value(digits) <= MAX_U32 then Some(Value(digits)) else None
  {
    if part == digits { assert IsDigit(part[0]); } else { assert part[1..] == digits; }
  }

  function ParseParts(parts: seq<string>): Option<seq<nat>> {
    if parts == [] then Some([])
    else
      match (ParseU32(parts[0]), ParseParts(parts[1..]))
      case (Some(n), Some(rest)) => Some([n] + rest)
      case _ => None
  }

  function ParseVersion(version: string): Option<seq<nat>> { ParseParts(Split(version, {'.'})) }

  /** A version reads as its components, part by part. */
  lemma {:induction false} PartsExactly(parts: seq<string>, numbers: seq<nat>)
    ensures ParseParts(parts) == Some(numbers) <==>
            |numbers| == |parts| && forall i :: 0 <= i < |parts| ==> ParseU32(parts[i]) == Some(numbers[i])
  {
    if parts != [] && numbers != [] {
      PartsExactly(parts[1..], numbers[1..]);
      assert numbers == [numbers[0]] + numbers[1..];
    }
  }

  lemma VersionExactly(version: string, numbers: seq<nat>)
    ensures ParseVersion(version) == Some(numbers) <==>
            && |numbers| == |Split(version, {'.'})|
            && forall i :: 0 <= i < |numbers| ==> ParseU32(Split(version, {'.'})[i]) == Some(numbers[i])
  {
    PartsExactly(Split(version, {'.'}), numbers);
  }

  const TMP_PREFIX: string := ".tmp-"

  lemma ParsedChars(part: string, c: char)
    requires ParseU32(part).Some? && c in part
    ensures c == '+' || IsDigit(c)
  {
    var i :| 0 <= i < |part| && part[i] == c;
    if |part| > 1 && part[0] == '+' && i > 0 { assert part[1..][i - 1] == c; }
  }

  lemma {:induction false} PartsParse(parts: seq<string>, i: nat)
    requires ParseParts(parts).Some? && i < |parts|
    ensures ParseU32(parts[i]).Some?
  {
    if i > 0 { PartsParse(parts[1..], i - 1); }
  }

  /** Every character is a separator or stands in a part. */
  lemma {:induction false} CharsOfSplit(t: string, separators: set<char>, c: char)
    requires c in t && c !in separators
    ensures exists i :: 0 <= i < |Split(t, separators)| && c in Split(t, separators)[i]
  {
    var parts := Split(t, separators);
    if t[0] == c {
      assert c in parts[0];
    } else {
      assert t == [t[0]] + t[1..];
      CharsOfSplit(t[1..], separators, c);
      var rest := Split(t[1..], separators);
      var i :| 0 <= i < |rest| && c in rest[i];
      if t[0] in separators { assert parts[i + 1] == rest[i]; }
      else if i > 0 { assert parts[i] == rest[i]; }
      else { assert parts[0] == [t[0]] + rest[0]; }
    }
  }

  /** A text that parses as a version is a safe directory name and no staging name: refusing the rest keeps
      an install and every lookup inside the cache, and staging directories out of sight. */
  lemma VersionIsASafeName(version: string)
    requires ParseVersion(version).Some?
    ensures SafeComponent(version) && !(TMP_PREFIX <= version)
    ensures version != "" && forall c :: c in version ==> c == '.' || c == '+' || IsDigit(c)
  {
    var parts := Split(version, {'.'});
    forall c | c in version ensures c == '.' || c == '+' || IsDigit(c) {
      if c != '.' {
        CharsOfSplit(version, {'.'}, c);
        var i :| 0 <= i < |parts| && c in parts[i];
        PartsParse(parts, i);
        ParsedChars(parts[i], c);
      }
    }
    PartsParse(parts, 0);
  }

  // ----- the version a lookup finds

  /** Version order: component by component, a prefix first. */
  predicate AtMost(a: seq<nat>, b: seq<nat>) {
    a == [] || (b != [] && (a[0] < b[0] || (a[0] == b[0] && AtMost(a[1..], b[1..]))))
  }

  /** The same without recursion: a prefix, or smaller at the first place where they differ. */
  ghost predicate NotAfter(a: seq<nat>, b: seq<nat>) {
    a <= b || exists i :: 0 <= i < |a| && i < |b| && a[..i] == b[..i] && a[i] < b[i]
  }

  lemma NotAfterHead(a: seq<nat>, b: seq<nat>)
    requires a != [] && b != [] && a[0] != b[0]
    ensures NotAfter(a, b) <==> a[0] < b[0]
  {
    assert a[..0] == b[..0];
    forall i | 0 < i < |a| && i < |b| ensures a[..i] != b[..i] { assert a[..i][0] == a[0] && b[..i][0] == b[0]; }
  }

  lemma PrefixTail(a: seq<nat>, b: seq<nat>, i: nat)
    requires 0 < i <= |a| && i <= |b| && a[0] == b[0]
    ensures a[..i] == b[..i] <==> a[1..][..i - 1] == b[1..][..i - 1]
  {
    assert a[..i] == [a[0]] + a[1..][..i - 1] && b[..i] == [b[0]] + b[1..][..i - 1];
    assert a[1..][..i - 1] == a[..i][1..] && b[1..][..i - 1] == b[..i][1..];
  }

  lemma NotAfterTail(a: seq<nat>, b: seq<nat>)
    requires a != [] && b != [] && a[0] == b[0]
    ensures NotAfter(a, b) <==> NotAfter(a[1..], b[1..])
  {
    var s, t := a[1..], b[1..];
    if |a| <= |b| { PrefixTail(a, b, |a|); }
    if i :| 0 <= i < |s| && i < |t| && s[..i] == t[..i] && s[i] < t[i] {
      PrefixTail(a, b, i + 1);
      assert a[i + 1] < b[i + 1];
    }
    if i :| 0 <= i < |a| && i < |b| && a[..i] == b[..i] && a[i] < b[i] {
      PrefixTail(a, b, i);
      assert s[i - 1] < t[i - 1];
    }
  }

  lemma {:induction false} AtMostExactly(a: seq<nat>, b: seq<nat>)
    ensures AtMost(a, b) <==> NotAfter(a, b)
  {
    if a != [] && b != [] {
      if a[0] == b[0] {
        AtMostExactly(a[1..], b[1..]);
        NotAfterTail(a, b);
      } else {
        NotAfterHead(a, b);
      }
    }
  }

  lemma {:induction false} AtMostTotal(a: seq<nat>, b: seq<nat>)
    ensures AtMost(a, b) || AtMost(b, a)
  {
    if a != [] && b != [] { AtMostTotal(a[1..], b[1..]); }
  }

  lemma {:induction false} AtMostTransitive(a: seq<nat>, b: seq<nat>, c: seq<nat>)
    requires AtMost(a, b) && AtMost(b, c)
    ensures AtMost(a, c)
  {
    if a != [] && b != [] && c != [] && a[0] == b[0] == c[0] { AtMostTransitive(a[1..], b[1..], c[1..]); }
  }

  predicate Candidate(name: string) { !(TMP_PREFIX <= name) && ParseVersion(name).Some? }

  /** What the directory is sorted by; a name that is no version sorts like an empty one. */
  function SortKey(name: string): seq<nat> {
    match ParseVersion(name) case Some(parts) => parts case None => []
  }

  predicate NoNewer(a: string, b: string) { AtMost(SortKey(a), SortKey(b)) }

  lemma CandidateExactly(name: string)
    ensures Candidate(name) <==> ParseVersion(name).Some?
  {
    if ParseVersion(name).Some? { VersionIsASafeName(name); }
  }

  /** The directories that name a version and hold the binary. */
  predicate Holds(entries: seq<string>, hasBinary: string -> bool, name: string) {
    name in entries && ParseVersion(name).Some? && hasBinary(name)
  }

  /** Of these the version comes before none. */
  ghost predicate Newest(entries: seq<string>, hasBinary: string -> bool, version: string) {
    && Holds(entries, hasBinary, version)
    && forall name :: Holds(entries, hasBinary, name) ==>
         NotAfter(SortKey(name), SortKey(version))
  }

  /** Newest first. */
  ghost predicate Descending(names: seq<string>) {
    names == []
    || (Candidate(names[0]) && Descending(names[1..])
        && forall name :: name in names[1..] ==> Candidate(name) && NoNewer(name, names[0]))
  }

  /** Puts one candidate in its place among the others. */
  function Insert(names: seq<string>, name: string): seq<string>
    requires Candidate(name) && forall x :: x in names ==> Candidate(x)
  {
    if names == [] || !NoNewer(name, names[0]) then [name] + names else [names[0]] + Insert(names[1..], name)
  }

  lemma {:induction false} InsertDescends(names: seq<string>, name: string)
    requires Candidate(name) && Descending(names) && forall x :: x in names ==> Candidate(x)
    ensures Descending(Insert(names, name))
    ensures forall x :: x in Insert(names, name) <==> x in names || x == name
  {
    var longer := Insert(names, name);
    if names != [] {
      assert names == [names[0]] + names[1..];
      if NoNewer(name, names[0]) {
        InsertDescends(names[1..], name);
        assert longer[1..] == Insert(names[1..], name);
      } else {
        assert longer[1..] == names;
        forall x | x in names ensures NoNewer(x, name) {
          AtMostTotal(SortKey(names[0]), SortKey(name));
          if x != names[0] { AtMostTransitive(SortKey(x), SortKey(names[0]), SortKey(name)); }
        }
      }
    }
  }

  /** The first that holds the binary is one that none is newer than. */
  lemma {:induction false} FirstIsNewest(names: seq<string>, k: nat, name: string)
    requires Descending(names) && k < |names| && name in names[k..]
    ensures Candidate(names[k]) && Candidate(name) && NoNewer(name, names[k])
  {
    if k > 0 {
      FirstIsNewest(names[1..], k - 1, name);
    } else if name == names[0] {
      AtMostTotal(SortKey(name), SortKey(name));
    } else {
      assert names == [names[0]] + names[1..];
    }
  }

  lemma InTail(names: seq<string>, i: nat, j: nat)
    requires i <= j < |names|
    ensures names[j] in names[i..]
  {
    assert names[i..][j - i] == names[j];
  }

  /** The directories that name a version, newest first. */
  method SortedVersions(entries: seq<string>) returns (versions: seq<string>)
    ensures Sorted(versions, entries)
  {
    versions := [];
    var i := 0;
    while i < |entries|
      invariant 0 <= i <= |entries| && Descending(versions)
      invariant forall name :: name in versions <==> name in entries[..i] && Candidate(name)
    {
      assert entries[..i + 1] == entries[..i] + [entries[i]];
      if Candidate(entries[i]) {
        InsertDescends(versions, entries[i]);
        versions := Insert(versions, entries[i]);
      }
      i := i + 1;
    }
    assert entries[..|entries|] == entries;
  }

  /** What stands before the first that holds the binary does not hold it; what stands behind is no newer. */
  lemma NoneBefore(versions: seq<string>, i: nat, name: string, hasBinary: string -> bool)
    requires Descending(versions) && i < |versions| && hasBinary(name)
    requires forall k :: 0 <= k < i ==> !hasBinary(versions[k])
    requires ParseVersion(name).Some? && (Candidate(name) ==> name in versions)
    ensures Candidate(versions[i]) && NotAfter(SortKey(name), SortKey(versions[i]))
  {
    CandidateExactly(name);
    var j :| 0 <= j < |versions| && versions[j] == name;
    InTail(versions, i, j);
    FirstIsNewest(versions, i, name);
    AtMostExactly(SortKey(name), SortKey(versions[i]));
  }

  ghost predicate Sorted(versions: seq<string>, entries: seq<string>) {
    Descending(versions) && forall name :: name in versions <==> name in entries && Candidate(name)
  }

  lemma FirstHolderIsNewest(entries: seq<string>, versions: seq<string>, hasBinary: string -> bool, i: nat)
    requires Sorted(versions, entries) && i < |versions| && hasBinary(versions[i])
    requires forall k :: 0 <= k < i ==> !hasBinary(versions[k])
    ensures Newest(entries, hasBinary, versions[i])
  {
    CandidateExactly(versions[i]);
    assert versions[i] in versions;
    forall name | Holds(entries, hasBinary, name)
      ensures NotAfter(SortKey(name), SortKey(versions[i]))
    {
      NoneBefore(versions, i, name, hasBinary);
    }
  }

  lemma NobodyHolds(entries: seq<string>, versions: seq<string>, hasBinary: string -> bool)
    requires Sorted(versions, entries) && forall k :: 0 <= k < |versions| ==> !hasBinary(versions[k])
    ensures forall name :: !Holds(entries, hasBinary, name)
  {
    forall name ensures !Holds(entries, hasBinary, name) { CandidateExactly(name); }
  }

  /** The lookup: of the directories that name a version and hold the binary, one that comes before none;
      nothing only when there is none. */
  method Installed(entries: seq<string>, hasBinary: string -> bool) returns (found: Option<string>)
    ensures found.Some? ==> Newest(entries, hasBinary, found.value)
    ensures found.None? ==> forall name :: !Holds(entries, hasBinary, name)
  {
    var versions := SortedVersions(entries);
    var i := 0;
    while i < |versions|
      invariant 0 <= i <= |versions|
      invariant forall k :: 0 <= k < i ==> !hasBinary(versions[k])
    {
      if hasBinary(versions[i]) {
        FirstHolderIsNewest(entries, versions, hasBinary, i);
        return Some(versions[i]);
      }
      i := i + 1;
    }
    NobodyHolds(entries, versions, hasBinary);
    found := None;
  }
}
