/** ASCII string primitives with the semantics of the Python built-ins the
    medkit code relies on: `str.lower`/`upper`, `in`, `str.replace`,
    `str.split(sep)`, `str.strip(chars)`, `str.isdigit`, `int(...)`,
    string ordering, and the regular-expression word boundary `\b`.
    Only the ASCII range is given its Python meaning; other characters
    are treated as neither letters, digits nor white space.
 */
module Text {
  import opened Wrappers

  // ---------------------------------------------------------------------
  // Character classes

  predicate IsUpper(c: char) { 'A' <= c <= 'Z' }

  predicate IsLowerLetter(c: char) { 'a' <= c <= 'z' }

  predicate IsDigit(c: char) { '0' <= c <= '9' }

  /** A character the regex engine counts as part of a word (`\w`). */
  predicate IsWordChar(c: char) { IsUpper(c) || IsLowerLetter(c) || IsDigit(c) || c == '_' }

  /** ASCII white space as `str.strip()` and `\s` see it. */
  predicate IsSpace(c: char) {
    c == ' ' || c == '\t' || c == '\n' || c == '\r' || c == '\U{000B}' || c == '\U{000C}'
    || c == '\U{001C}' || c == '\U{001D}' || c == '\U{001E}' || c == '\U{001F}'
  }

  function Lower(c: char): (r: char)
    ensures !IsUpper(r)
    ensures IsUpper(c) ==> IsLowerLetter(r)
    ensures !IsUpper(c) ==> r == c
  {
    if IsUpper(c) then (c as int + 32) as char else c
  }

  function Upper(c: char): (r: char)
    ensures !IsLowerLetter(r)
    ensures !IsLowerLetter(c) ==> r == c
  {
    if IsLowerLetter(c) then (c as int - 32) as char else c
  }

  // ---------------------------------------------------------------------
  // Case mapping of whole strings

  predicate NoUpper(s: string) { forall i :: 0 <= i < |s| ==> !IsUpper(s[i]) }

  function LowerStr(s: string): (r: string)
    ensures |r| == |s|
    ensures forall i :: 0 <= i < |s| ==> r[i] == Lower(s[i])
    ensures NoUpper(r)
  {
    if |s| == 0 then "" else [Lower(s[0])] + LowerStr(s[1..])
  }

  function UpperStr(s: string): (r: string)
    ensures |r| == |s|
    ensures forall i :: 0 <= i < |s| ==> r[i] == Upper(s[i])
  {
    if |s| == 0 then "" else [Upper(s[0])] + UpperStr(s[1..])
  }

  /** Lower-casing twice is lower-casing once. */
  lemma LowerIdempotent(s: string)
    ensures LowerStr(LowerStr(s)) == LowerStr(s)
  {
  }

  /** Lower-casing forgets any earlier upper-casing. */
  lemma LowerOfUpper(s: string)
    ensures LowerStr(UpperStr(s)) == LowerStr(s)
  {
    var u := UpperStr(s);
    assert forall i :: 0 <= i < |s| ==> Lower(u[i]) == Lower(s[i]);
  }

  lemma LowerOfNoUpper(s: string)
    requires NoUpper(s)
    ensures LowerStr(s) == s
  {
  }

  lemma UpperStrConcat(a: string, b: string)
    ensures UpperStr(a + b) == UpperStr(a) + UpperStr(b)
  {
    var ab := a + b;
    var l, ua, ub := UpperStr(ab), UpperStr(a), UpperStr(b);
    assert |l| == |ua| + |ub|;
    forall i | 0 <= i < |l| ensures l[i] == (ua + ub)[i] {
      if i < |a| {
        assert ab[i] == a[i];
      } else {
        assert ab[i] == b[i - |a|];
      }
    }
  }

  lemma LowerStrConcat(a: string, b: string)
    ensures LowerStr(a + b) == LowerStr(a) + LowerStr(b)
  {
    var ab := a + b;
    var l, la, lb := LowerStr(ab), LowerStr(a), LowerStr(b);
    assert |l| == |la| + |lb|;
    forall i | 0 <= i < |l| ensures l[i] == (la + lb)[i] {
      if i < |a| {
        assert ab[i] == a[i];
      } else {
        assert ab[i] == b[i - |a|];
      }
    }
  }

  /** A capitalised word lower-cases to its lower-case spelling. */
  lemma LowerCapitalised(c: char, rest: string)
    requires IsUpper(c) && forall i :: 0 <= i < |rest| ==> IsLowerLetter(rest[i])
    ensures LowerStr([c] + rest) == [Lower(c)] + rest
    ensures LowerStr([Lower(c)] + rest) == [Lower(c)] + rest
  {
    LowerStrConcat([c], rest);
    LowerStrConcat([Lower(c)], rest);
    LowerOfNoUpper(rest);
  }

  lemma NoUpperSlice(s: string, i: int, j: int)
    requires NoUpper(s) && 0 <= i <= j <= |s|
    ensures NoUpper(s[i..j])
  {
  }

  lemma NoUpperConcat(a: string, b: string)
    requires NoUpper(a) && NoUpper(b)
    ensures NoUpper(a + b)
  {
  }

  // ---------------------------------------------------------------------
  // Substring search (`needle in haystack`)

  /** `p` occurs in `s` starting at index `i`. */
  predicate OccursAt(s: string, p: string, i: int) {
    0 <= i && i + |p| <= |s| && s[i..i + |p|] == p
  }

  /** The first occurrence of `p` in `s` at or after `from`. */
  function FindFrom(s: string, p: string, from: nat): (r: Option<nat>)
    ensures r.Some? ==> from <= r.value && OccursAt(s, p, r.value)
    ensures r.Some? ==> forall k :: from <= k < r.value ==> !OccursAt(s, p, k)
    ensures r.None? ==> forall k :: from <= k ==> !OccursAt(s, p, k)
    decreases |s| - from
  {
    if from + |p| > |s| then None
    else if s[from..from + |p|] == p then Some(from)
    else FindFrom(s, p, from + 1)
  }

  function Find(s: string, p: string): (r: Option<nat>)
    ensures r.Some? ==> OccursAt(s, p, r.value) && forall k :: 0 <= k < r.value ==> !OccursAt(s, p, k)
    ensures r.None? ==> forall k :: !OccursAt(s, p, k)
  {
    FindFrom(s, p, 0)
  }

  /** Python's `p in s` for two strings. */
  predicate Contains(s: string, p: string) { Find(s, p).Some? }

  lemma ContainsIff(s: string, p: string)
    ensures Contains(s, p) <==> exists i :: OccursAt(s, p, i)
  {
    if !Contains(s, p) {
      assert forall k :: !OccursAt(s, p, k);
    }
  }

  lemma ContainsWitness(s: string, p: string, i: int)
    requires OccursAt(s, p, i)
    ensures Contains(s, p)
  {
    ContainsIff(s, p);
  }

  /** Some element of `ps` occurs in `s` (Python's `any(w in s for w in ps)`). */
  predicate ContainsAny(s: string, ps: seq<string>) {
    exists k :: 0 <= k < |ps| && Contains(s, ps[k])
  }

  // ---------------------------------------------------------------------
  // Prefixes

  predicate StartsWith(s: string, p: string) { |p| <= |s| && s[..|p|] == p }

  // ---------------------------------------------------------------------
  // Stripping characters from both ends (`str.strip(chars)`)

  const Whitespace: set<char> := {' ', '\t', '\n', '\r', '\U{000B}', '\U{000C}', '\U{001C}', '\U{001D}', '\U{001E}', '\U{001F}'}

  function StripLeftIndex(s: string, cs: set<char>, i: nat): (r: nat)
    requires i <= |s|
    ensures i <= r <= |s|
    ensures forall k :: i <= k < r ==> s[k] in cs
    ensures r < |s| ==> s[r] !in cs
    decreases |s| - i
  {
    if i < |s| && s[i] in cs then StripLeftIndex(s, cs, i + 1) else i
  }

  function StripRightIndex(s: string, cs: set<char>, j: nat): (r: nat)
    requires j <= |s|
    ensures r <= j
    ensures forall k :: r <= k < j ==> s[k] in cs
    ensures 0 < r ==> s[r - 1] !in cs
  {
    if 0 < j && s[j - 1] in cs then StripRightIndex(s, cs, j - 1) else j
  }

  /** Python's `s.strip(chars)`: the longest middle slice of `s` whose
      first and last characters are not in `cs`. */
  function StripSet(s: string, cs: set<char>): (r: string)
    ensures exists a, b :: (0 <= a <= b <= |s| && r == s[a..b]
                            && (forall k :: 0 <= k < a ==> s[k] in cs)
                            && (forall k :: b <= k < |s| ==> s[k] in cs))
    ensures |r| > 0 ==> r[0] !in cs && r[|r| - 1] !in cs
    ensures |r| <= |s|
  {
    var a := StripLeftIndex(s, cs, 0);
    var b := StripRightIndex(s, cs, |s|);
    if b <= a then
      assert a == |s|;
      assert "" == s[0..0];
      ""
    else
      s[a..b]
  }

  /** Python's `s.strip()`. */
  function Strip(s: string): (r: string)
    ensures |r| > 0 ==> !IsSpace(r[0]) && !IsSpace(r[|r| - 1])
  {
    WhitespaceIsSpaceAll();
    StripSet(s, Whitespace)
  }

  lemma WhitespaceIsSpaceAll()
    ensures forall c: char :: c in Whitespace <==> IsSpace(c)
  {
  }

  lemma StripSetKeepsNoUpper(s: string, cs: set<char>)
    requires NoUpper(s)
    ensures NoUpper(StripSet(s, cs))
  {
  }

  /** Stripping a string whose ends are already clean changes nothing. */
  lemma StripSetClean(s: string, cs: set<char>)
    requires |s| > 0 ==> s[0] !in cs && s[|s| - 1] !in cs
    ensures StripSet(s, cs) == s
  {
  }

  lemma StripKeepsNoUpper(s: string)
    requires NoUpper(s)
    ensures NoUpper(Strip(s))
  {
    StripSetKeepsNoUpper(s, Whitespace);
  }

  /** Stripping twice is stripping once. */
  lemma StripIdempotent(s: string)
    ensures Strip(Strip(s)) == Strip(s)
  {
    WhitespaceIsSpaceAll();
    StripSetClean(Strip(s), Whitespace);
  }

  lemma SliceOfSlice(s: string, a: int, b: int, i: int, j: int)
    requires 0 <= a <= b <= |s| && 0 <= i <= j <= b - a
    ensures s[a..b][i..j] == s[a + i..a + j]
  {
    var x, y := s[a..b][i..j], s[a + i..a + j];
    forall k | 0 <= k < |x| ensures x[k] == y[k] {
      assert x[k] == s[a..b][i + k] == s[a + i + k];
    }
  }

  /** A slice contains nothing its whole string does not. */
  lemma NotContainedInSlice(s: string, p: string, a: int, b: int)
    requires 0 <= a <= b <= |s| && !Contains(s, p)
    ensures !Contains(s[a..b], p)
  {
    ContainsIff(s, p);
    forall i | 0 <= i ensures !OccursAt(s[a..b], p, i) {
      if i + |p| <= b - a {
        SliceOfSlice(s, a, b, i, i + |p|);
        assert !OccursAt(s, p, a + i);
      }
    }
    ContainsIff(s[a..b], p);
  }

  /** The result of `StripSet` is a slice: whatever does not occur in `s`
      does not occur in it. */
  lemma NotContainedAfterStrip(s: string, cs: set<char>, p: string)
    requires !Contains(s, p)
    ensures !Contains(StripSet(s, cs), p)
  {
    var a, b :| 0 <= a <= b <= |s| && StripSet(s, cs) == s[a..b];
    NotContainedInSlice(s, p, a, b);
  }

  /** `p` is absent when no window of `s` agrees with it at both ends. */
  lemma NotContainsByEnds(s: string, p: string)
    requires |p| > 0
    requires forall i :: 0 <= i && i + |p| <= |s| ==> s[i] != p[0] || s[i + |p| - 1] != p[|p| - 1]
    ensures !Contains(s, p)
  {
    forall i | 0 <= i ensures !OccursAt(s, p, i) {
      if i + |p| <= |s| {
        assert s[i..i + |p|][0] == s[i] && s[i..i + |p|][|p| - 1] == s[i + |p| - 1];
      }
    }
    ContainsIff(s, p);
  }

  // ---------------------------------------------------------------------
  // Literal replacement (`str.replace`) and regex removal of literal
  // alternatives (`re.sub("a|b|c", "", s)`)

  /** An occurrence in a suffix is an occurrence in the whole string. */
  lemma ContainsInTail(s: string, p: string)
    requires |s| > 0 && Contains(s[1..], p)
    ensures Contains(s, p)
  {
    var i := Find(s[1..], p).value;
    assert s[1..][i..i + |p|] == s[i + 1..i + 1 + |p|];
    ContainsWitness(s, p, i + 1);
  }

  /** Python's `s.replace(target, repl)` for a non-empty `target`: every
      non-overlapping occurrence, scanning left to right. */
  function Replace(s: string, target: string, repl: string): (r: string)
    requires |target| > 0
    ensures !Contains(s, target) ==> r == s
    ensures NoUpper(s) && NoUpper(repl) ==> NoUpper(r)
  {
    if |s| < |target| then
      s
    else if s[..|target|] == target then
      assert OccursAt(s, target, 0);
      repl + Replace(s[|target|..], target, repl)
    else
      assert Contains(s[1..], target) ==> Contains(s, target) by {
        if Contains(s[1..], target) {
          ContainsInTail(s, target);
        }
      }
      [s[0]] + Replace(s[1..], target, repl)
  }

  /** The first alternative in `alts` that `s` starts with. */
  function FirstPrefix(s: string, alts: seq<string>): (r: Option<string>)
    ensures r.Some? ==> r.value in alts && StartsWith(s, r.value)
    ensures r.None? ==> forall k :: 0 <= k < |alts| ==> !StartsWith(s, alts[k])
  {
    if |alts| == 0 then None
    else if StartsWith(s, alts[0]) then Some(alts[0])
    else FirstPrefix(s, alts[1..])
  }

  predicate AllNonEmpty(alts: seq<string>) { forall k :: 0 <= k < |alts| ==> |alts[k]| > 0 }

  /** `re.sub` of a pattern that is an alternation of literals, replaced by
      the empty string: scanning left to right, at each position the first
      alternative that matches is removed and scanning resumes after it. */
  function RemoveAlternatives(s: string, alts: seq<string>): (r: string)
    requires AllNonEmpty(alts)
    ensures |r| <= |s|
    ensures NoUpper(s) ==> NoUpper(r)
    ensures (forall k :: 0 <= k < |alts| ==> !Contains(s, alts[k])) ==> r == s
    decreases |s|
  {
    if |s| == 0 then ""
    else
      match FirstPrefix(s, alts)
      case Some(a) =>
        assert OccursAt(s, a, 0);
        RemoveAlternatives(s[|a|..], alts)
      case None =>
        assert forall k :: 0 <= k < |alts| && Contains(s[1..], alts[k]) ==> Contains(s, alts[k]) by {
          forall k | 0 <= k < |alts| && Contains(s[1..], alts[k]) ensures Contains(s, alts[k]) {
            ContainsInTail(s, alts[k]);
          }
        }
        [s[0]] + RemoveAlternatives(s[1..], alts)
  }

  /** The alternative tried first among those that match at the start is
      removed, and scanning resumes right after it. */
  lemma RemoveAlternativesDropsMatch(a: string, v: string, alts: seq<string>)
    requires AllNonEmpty(alts) && FirstPrefix(a + v, alts) == Some(a)
    ensures RemoveAlternatives(a + v, alts) == RemoveAlternatives(v, alts)
  {
    var k :| 0 <= k < |alts| && alts[k] == a;
    assert |a| > 0;
    assert (a + v)[|a|..] == v;
  }

  /** Text at whose positions no alternative matches is kept as it is. */
  lemma {:induction false} RemoveAlternativesKeepsPrefix(s: string, alts: seq<string>, n: nat)
    requires AllNonEmpty(alts) && n <= |s|
    requires forall p :: 0 <= p < n ==> FirstPrefix(s[p..], alts).None?
    ensures RemoveAlternatives(s, alts) == s[..n] + RemoveAlternatives(s[n..], alts)
    decreases n
  {
    if n == 0 {
      assert s[0..] == s;
      assert s[..0] == [];
    } else {
      RemoveAlternativesKeepsPrefix(s, alts, n - 1);
      assert FirstPrefix(s[n - 1..], alts).None?;
      RemoveAlternativesKeepsOneMore(s, alts, n);
    }
  }

  /** One more unmatched position joins the kept prefix. */
  lemma RemoveAlternativesKeepsOneMore(s: string, alts: seq<string>, n: nat)
    requires AllNonEmpty(alts) && 0 < n <= |s|
    requires FirstPrefix(s[n - 1..], alts).None?
    requires RemoveAlternatives(s, alts) == s[..n - 1] + RemoveAlternatives(s[n - 1..], alts)
    ensures RemoveAlternatives(s, alts) == s[..n] + RemoveAlternatives(s[n..], alts)
  {
    var t := s[n - 1..];
    assert t[1..] == s[n..];
    RemoveAlternativesKeepsFirst(t, alts);
    ShiftIntoPrefix(s, n, RemoveAlternatives(s[n..], alts));
  }

  lemma ShiftIntoPrefix(s: string, n: nat, x: string)
    requires 0 < n <= |s|
    ensures s[..n - 1] + ([s[n - 1..][0]] + x) == s[..n] + x
  {
    assert s[..n] == s[..n - 1] + [s[n - 1]];
  }

  lemma RemoveAlternativesKeepsFirst(s: string, alts: seq<string>)
    requires AllNonEmpty(alts) && |s| > 0 && FirstPrefix(s, alts).None?
    ensures RemoveAlternatives(s, alts) == [s[0]] + RemoveAlternatives(s[1..], alts)
  {
  }

  /** The first match is removed and everything before it kept: `re.sub`
      of literal alternatives, one match at a time. */
  lemma RemoveAlternativesRemovesFirst(u: string, a: string, v: string, alts: seq<string>)
    requires AllNonEmpty(alts)
    requires forall p :: 0 <= p < |u| ==> FirstPrefix((u + a + v)[p..], alts).None?
    requires FirstPrefix(a + v, alts) == Some(a)
    ensures RemoveAlternatives(u + a + v, alts) == u + RemoveAlternatives(v, alts)
  {
    var s := u + a + v;
    assert s[..|u|] == u && s[|u|..] == a + v;
    RemoveAlternativesKeepsPrefix(s, alts, |u|);
    RemoveAlternativesDropsMatch(a, v, alts);
  }

  /** The text before the first occurrence of `p` does not contain `p`. */
  lemma FirstOccurrencePrefix(s: string, p: string, i: nat)
    requires |p| > 0 && i <= |s|
    requires forall k :: 0 <= k < i ==> !OccursAt(s, p, k)
    ensures !Contains(s[..i], p)
  {
    if Contains(s[..i], p) {
      var k := Find(s[..i], p).value;
      assert s[..i][k..k + |p|] == s[k..k + |p|];
      assert OccursAt(s, p, k) && k < i;
    }
  }

  // ---------------------------------------------------------------------
  // Decimal digits (`str.isdigit`, `int(s)`, `f"{n}"`)

  predicate AllDigits(s: string) { forall i :: 0 <= i < |s| ==> IsDigit(s[i]) }

  /** `s.isdigit()`: non-empty and digits only. */
  predicate IsDigitString(s: string) { |s| > 0 && AllDigits(s) }

  function DigitValue(c: char): nat
    requires IsDigit(c)
  {
    c as int - '0' as int
  }

  function DigitChar(d: nat): (c: char)
    requires d < 10
    ensures IsDigit(c) && DigitValue(c) == d
  {
    ('0' as int + d) as char
  }

  /** `int(s)` for a string of decimal digits. */
  function ParseNat(s: string): nat
    requires AllDigits(s)
  {
    if |s| == 0 then 0 else ParseNat(s[..|s| - 1]) * 10 + DigitValue(s[|s| - 1])
  }

  /** `f"{n}"` for a natural number. */
  function NatToString(n: nat): (r: string)
    ensures IsDigitString(r)
    ensures |r| > 1 ==> r[0] != '0'
  {
    if n < 10 then [DigitChar(n)] else NatToString(n / 10) + [DigitChar(n % 10)]
  }

  /** `str(n)` for any integer. */
  function IntToString(n: int): string {
    if n < 0 then "-" + NatToString(-n) else NatToString(n)
  }

  /** Reading back a rendered number gives the number. */
  lemma {:induction false} ParseRendered(n: nat)
    ensures ParseNat(NatToString(n)) == n
  {
    if n >= 10 {
      var s := NatToString(n);
      assert s[..|s| - 1] == NatToString(n / 10);
      ParseRendered(n / 10);
    }
  }

  // ---------------------------------------------------------------------
  // Joining

  /** `sep.join(parts)`. */
  function Join(parts: seq<string>, sep: string): string {
    if |parts| == 0 then ""
    else if |parts| == 1 then parts[0]
    else parts[0] + sep + Join(parts[1..], sep)
  }

  // ---------------------------------------------------------------------
  // Python string ordering: lexicographic by code point, a proper prefix
  // sorts first.

  predicate StrLess(a: string, b: string)
    decreases |a|
  {
    if |a| == 0 then |b| > 0
    else if |b| == 0 then false
    else if a[0] != b[0] then a[0] < b[0]
    else StrLess(a[1..], b[1..])
  }

  lemma {:induction false} StrLessIrreflexive(a: string)
    ensures !StrLess(a, a)
    decreases |a|
  {
    if |a| > 0 {
      StrLessIrreflexive(a[1..]);
    }
  }

  lemma {:induction false} StrLessAsymmetric(a: string, b: string)
    requires StrLess(a, b)
    ensures !StrLess(b, a)
    decreases |a|
  {
    if |a| > 0 && |b| > 0 && a[0] == b[0] {
      StrLessAsymmetric(a[1..], b[1..]);
    }
  }

  lemma {:induction false} StrLessTransitive(a: string, b: string, c: string)
    requires StrLess(a, b) && StrLess(b, c)
    ensures StrLess(a, c)
    decreases |a|
  {
    if |a| > 0 && |b| > 0 && |c| > 0 && a[0] == b[0] && b[0] == c[0] {
      StrLessTransitive(a[1..], b[1..], c[1..]);
    }
  }

  lemma {:induction false} StrLessTotal(a: string, b: string)
    requires a != b
    ensures StrLess(a, b) || StrLess(b, a)
    decreases |a|
  {
    if |a| > 0 && |b| > 0 && a[0] == b[0] {
      assert a == [a[0]] + a[1..] && b == [b[0]] + b[1..];
      StrLessTotal(a[1..], b[1..]);
    }
  }

  // ---------------------------------------------------------------------
  // Word-boundary search (`re.search(r"\b" + re.escape(p) + r"\b", s)`)

  /** `\b` holds between `s[i-1]` and `s[i]`: exactly one side is a word
      character, the ends of the string counting as non-word. */
  predicate Boundary(s: string, i: int)
    requires 0 <= i <= |s|
  {
    (i > 0 && IsWordChar(s[i - 1])) != (i < |s| && IsWordChar(s[i]))
  }

  predicate WordAt(s: string, p: string, i: int) {
    OccursAt(s, p, i) && Boundary(s, i) && Boundary(s, i + |p|)
  }

  function FindWordFrom(s: string, p: string, from: nat): (r: bool)
    ensures r <==> exists i :: from <= i && WordAt(s, p, i)
    decreases |s| - from
  {
    if from + |p| > |s| then
      assert forall i :: from <= i ==> !OccursAt(s, p, i);
      false
    else if WordAt(s, p, from) then true
    else
      var rest := FindWordFrom(s, p, from + 1);
      assert forall i :: from <= i && WordAt(s, p, i) ==> i == from || from + 1 <= i;
      rest
  }

  /** A whole-word occurrence of `p` in `s`. */
  function ContainsWord(s: string, p: string): (r: bool)
    ensures r <==> exists i :: WordAt(s, p, i)
  {
    FindWordFrom(s, p, 0)
  }

  // ---------------------------------------------------------------------
  // Filtering

  /** The strings that are not empty, in order (`[x for x in xs if x]`). */
  function NonEmptyStrings(xs: seq<string>): (r: seq<string>)
    ensures |r| <= |xs|
    ensures forall x :: x in r <==> x in xs && x != ""
  {
    if |xs| == 0 then [] else (if xs[0] != "" then [xs[0]] else []) + NonEmptyStrings(xs[1..])
  }
}
