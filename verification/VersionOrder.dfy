/**
 Which of two version strings is newer.  The comparison reads a vector of numbers and a
 pre-release text out of each string; `Newer` says when the source answers yes, and the
 lemmas say that this is a strict order and what it is on version numbers.
 */
module VersionOrder {
  import opened Common
  import opened Text

  // ---------- reading a part ----------

  predicate IsDigit(c: char) {
    '0' <= c <= '9'
  }

  function Digits(s: string): (d: string)
    ensures |d| <= |s| && s[..|d|] == d && forall i | 0 <= i < |d| :: IsDigit(d[i])
  {
    if s == "" || !IsDigit(s[0]) then "" else [s[0]] + Digits(s[1..])
  }

  function Value(digits: string): (n: nat)
    requires forall i | 0 <= i < |digits| :: IsDigit(digits[i])
  {
    if digits == "" then 0
    else
      assert IsDigit(digits[|digits| - 1]);
      Value(digits[..|digits| - 1]) * 10 + (digits[|digits| - 1] as int - '0' as int)
  }

  /** What Sscanf("%d") leaves in an int that was zero: blanks, then a sign, then digits; zero
      when there is no number or it does not fit. */
  function PartValue(s: string): int {
    if s != "" && s[0] in SPACES && s[0] != '\n' then PartValue(s[1..])
    else
      var negative := s != "" && s[0] == '-';
      var digits := Digits(if s != "" && s[0] in {'+', '-'} then s[1..] else s);
      var n: int := Value(digits);
      if digits == "" then 0
      else if negative then (if n <= LIMIT64 then -n else 0)
      else if n < LIMIT64 then n else 0
  }

  // ---------- numeric parts ----------

  /** Missing parts count as zero. */
  function At(parts: seq<string>, i: nat): int {
    if i < |parts| then PartValue(parts[i]) else 0
  }

  ghost predicate SameUpTo(a: seq<string>, b: seq<string>, i: nat) {
    forall j: nat | j < i :: At(a, j) == At(b, j)
  }

  /** Smaller at the first place where they differ. */
  ghost predicate PartsLess(a: seq<string>, b: seq<string>) {
    exists i: nat :: SameUpTo(a, b, i) && At(a, i) < At(b, i)
  }

  ghost predicate SameParts(a: seq<string>, b: seq<string>) {
    forall i: nat :: At(a, i) == At(b, i)
  }

  method CompareNumericParts(curr: seq<string>, late: seq<string>) returns (cmp: int)
    ensures cmp in {-1, 0, 1}
    ensures cmp == 1 <==> PartsLess(curr, late)
    ensures cmp == -1 <==> PartsLess(late, curr)
    ensures cmp == 0 <==> SameParts(curr, late)
  {
    var i := 0;
    while i < |curr| || i < |late|
      invariant 0 <= i && SameUpTo(curr, late, i)
      decreases |curr| + |late| - i
    {
      var currVal, lateVal := 0, 0;
      if i < |curr| {
        currVal := PartValue(curr[i]);
      }
      if i < |late| {
        lateVal := PartValue(late[i]);
      }
      if lateVal > currVal {
        LessIsNotMore(curr, late, i);
        return 1;
      }
      if currVal > lateVal {
        LessIsNotMore(late, curr, i);
        return -1;
      }
      i := i + 1;
    }
    SameToTheEnd(curr, late, i);
    return 0;
  }

  lemma LessIsNotMore(a: seq<string>, b: seq<string>, i: nat)
    requires SameUpTo(a, b, i) && At(a, i) < At(b, i)
    ensures PartsLess(a, b) && !PartsLess(b, a) && !SameParts(a, b)
  {
    forall k: nat | SameUpTo(b, a, k) ensures At(b, k) >= At(a, k) {
      assert i < k ==> At(b, i) == At(a, i);
    }
  }

  lemma SameToTheEnd(a: seq<string>, b: seq<string>, i: nat)
    requires SameUpTo(a, b, i) && i >= |a| && i >= |b|
    ensures SameParts(a, b) && !PartsLess(a, b) && !PartsLess(b, a)
  {
    forall k: nat ensures At(a, k) == At(b, k) {
      if k < i { assert At(a, k) == At(b, k); }
    }
  }

  lemma {:induction false} PartsTotal(a: seq<string>, b: seq<string>, n: nat)
    ensures PartsLess(a, b) || PartsLess(b, a) || SameUpTo(a, b, n)
  {
    if n > 0 {
      PartsTotal(a, b, n - 1);
      if SameUpTo(a, b, n - 1) && At(a, n - 1) != At(b, n - 1) {
        assert SameUpTo(b, a, n - 1);
      }
    }
  }

  lemma PartsTransitive(a: seq<string>, b: seq<string>, c: seq<string>)
    requires PartsLess(a, b) || SameParts(a, b)
    requires PartsLess(b, c) || SameParts(b, c)
    ensures PartsLess(a, b) || PartsLess(b, c) ==> PartsLess(a, c)
    ensures SameParts(a, b) && SameParts(b, c) ==> SameParts(a, c)
  {
    if PartsLess(a, b) {
      var i: nat :| SameUpTo(a, b, i) && At(a, i) < At(b, i);
      if PartsLess(b, c) {
        var k: nat :| SameUpTo(b, c, k) && At(b, k) < At(c, k);
        var m := if i < k then i else k;
        assert SameUpTo(a, c, m) && At(a, m) < At(c, m);
      } else {
        assert SameUpTo(a, c, i) && At(a, i) < At(c, i);
      }
    } else if PartsLess(b, c) {
      var k: nat :| SameUpTo(b, c, k) && At(b, k) < At(c, k);
      assert SameUpTo(a, c, k) && At(a, k) < At(c, k);
    }
  }

  // ---------- pre-release text ----------

  /** Go's string order. */
  predicate TextLess(a: string, b: string) {
    if b == "" then false
    else if a == "" then true
    else a[0] < b[0] || (a[0] == b[0] && TextLess(a[1..], b[1..]))
  }

  lemma {:induction false} TextIrreflexive(a: string)
    ensures !TextLess(a, a)
  {
    if a != "" { TextIrreflexive(a[1..]); }
  }

  lemma {:induction false} TextTransitive(a: string, b: string, c: string)
    requires TextLess(a, b) && TextLess(b, c)
    ensures TextLess(a, c)
  {
    if a != "" && a[0] == b[0] == c[0] {
      TextTransitive(a[1..], b[1..], c[1..]);
    }
  }

  predicate PreLess(currPre: string, latePre: string) {
    if currPre != "" && latePre == "" then true
    else if currPre == "" && latePre != "" then false
    else TextLess(currPre, latePre)
  }

  // ---------- the comparison ----------

  function SplitPreRelease(version: string): (string, string) {
    var idx := IndexOf(version, '-');
    if idx >= 0 then (version[..idx], version[idx + 1..]) else (version, "")
  }

  function TrimV(version: string): string {
    if HasPrefix(version, "v") then version[1..] else version
  }

  function PartsOf(version: string): seq<string> {
    Split(SplitPreRelease(TrimV(version)).0, '.')
  }

  function PreOf(version: string): string {
    SplitPreRelease(TrimV(version)).1
  }

  /** Numbers first; between equal numbers a pre-release comes before the release. */
  ghost predicate KeyLess(a: string, b: string) {
    PartsLess(PartsOf(a), PartsOf(b)) || (SameParts(PartsOf(a), PartsOf(b)) && PreLess(PreOf(a), PreOf(b)))
  }

  ghost predicate Newer(current: string, latest: string) {
    current != "" && latest != "" && KeyLess(current, latest)
  }

  method IsVersionNewer(current: string, latest: string) returns (newer: bool)
    ensures newer <==> Newer(current, latest)
    ensures current == "" || latest == "" ==> !newer
  {
    if current == "" || latest == "" {
      return false;
    }
    if current == latest {
      KeyIrreflexive(current);
      return false;
    }
    var curr := SplitPreRelease(TrimV(current));
    var late := SplitPreRelease(TrimV(latest));
    var cmp := CompareNumericParts(Split(curr.0, '.'), Split(late.0, '.'));
    if cmp != 0 {
      return cmp > 0;
    }
    newer := PreLess(curr.1, late.1);
  }

  lemma KeyIrreflexive(a: string)
    ensures !KeyLess(a, a)
  {
    TextIrreflexive(PreOf(a));
  }

  lemma KeyTransitive(a: string, b: string, c: string)
    requires KeyLess(a, b) && KeyLess(b, c)
    ensures KeyLess(a, c)
  {
    PartsTransitive(PartsOf(a), PartsOf(b), PartsOf(c));
    if PreOf(a) != "" && PreOf(b) != "" && PreOf(c) != "" && PreLess(PreOf(a), PreOf(b)) && PreLess(PreOf(b), PreOf(c)) {
      TextTransitive(PreOf(a), PreOf(b), PreOf(c));
    }
    if PreOf(a) == "" && PreOf(b) == "" { TextIrreflexive(""); }
  }

  /** A strict order on all strings: nothing is newer than itself, no two are each newer than
      the other, and newer than newer is newer. */
  lemma NewerIsStrictOrder(a: string, b: string, c: string)
    ensures !Newer(a, a)
    ensures Newer(a, b) ==> !Newer(b, a)
    ensures Newer(a, b) && Newer(b, c) ==> Newer(a, c)
  {
    KeyIrreflexive(a);
    if Newer(a, b) && Newer(b, a) { KeyTransitive(a, b, a); }
    if Newer(a, b) && Newer(b, c) { KeyTransitive(a, b, c); }
  }

  lemma {:induction false} TextTotal(a: string, b: string)
    ensures TextLess(a, b) || TextLess(b, a) || a == b
  {
    if a != "" && b != "" && a[0] == b[0] {
      TextTotal(a[1..], b[1..]);
      assert a == [a[0]] + a[1..] && b == [b[0]] + b[1..];
    }
  }

  /** Two versions neither of which is newer have the same numbers and pre-release. */
  lemma NeitherNewerIffSame(a: string, b: string)
    requires a != "" && b != ""
    ensures !Newer(a, b) && !Newer(b, a) <==> SameParts(PartsOf(a), PartsOf(b)) && PreOf(a) == PreOf(b)
  {
    var p, q := PartsOf(a), PartsOf(b);
    var n := |p| + |q|;
    PartsTotal(p, q, n);
    if SameUpTo(p, q, n) { SameToTheEnd(p, q, n); }
    TextTotal(PreOf(a), PreOf(b));
    if PartsLess(p, q) {
      var i: nat :| SameUpTo(p, q, i) && At(p, i) < At(q, i);
      LessIsNotMore(p, q, i);
    }
    if PartsLess(q, p) {
      var i: nat :| SameUpTo(q, p, i) && At(q, i) < At(p, i);
      LessIsNotMore(q, p, i);
    }
    TextIrreflexive(PreOf(a));
  }

  // ---------- trailing zeros ----------

  /** A base without a dash, and nothing or a dash and a pre-release behind it. */
  predicate IsSuffix(s: string) {
    s == "" || s[0] == '-'
  }

  function PreText(suffix: string): string
    requires IsSuffix(suffix)
  {
    if suffix == "" then "" else suffix[1..]
  }

  lemma SplitsAt(base: string, suffix: string)
    requires '-' !in base && IsSuffix(suffix)
    ensures SplitPreRelease(base + suffix) == (base, PreText(suffix))
  {
    if suffix == "" {
      assert base + suffix == base;
    } else {
      assert base + suffix == base + ['-'] + suffix[1..];
      IndexOfIs(base + suffix, '-', base, suffix[1..]);
    }
  }

  lemma TrimVOf(base: string, suffix: string)
    requires IsSuffix(suffix)
    ensures TrimV(base + suffix) == TrimV(base) + suffix
  {
    if base == "" {
      assert base + suffix == suffix;
      assert TrimV("") == "";
    } else {
      assert (base + suffix)[..1] == base[..1] && (base + suffix)[1..] == base[1..] + suffix;
    }
  }

  lemma KeyOf(base: string, suffix: string)
    requires '-' !in base && IsSuffix(suffix)
    ensures PartsOf(base + suffix) == Split(TrimV(base), '.') && PreOf(base + suffix) == PreText(suffix)
  {
    TrimVOf(base, suffix);
    SplitsAt(TrimV(base), suffix);
  }

  lemma {:induction false} SplitBehind(s: string, part: string)
    requires '.' !in part
    ensures Split(s + "." + part, '.') == Split(s, '.') + [part]
  {
    JoinSplit(s, '.');
    JoinBehind(Split(s, '.'), part, '.');
    SplitJoin(Split(s, '.') + [part], '.');
  }

  lemma SameWithZero(parts: seq<string>)
    ensures SameParts(parts + ["0"], parts)
  {
    ZeroPart();
    forall i: nat ensures At(parts + ["0"], i) == At(parts, i) {}
  }

  lemma ZeroPart()
    ensures PartValue("0") == 0
  {
    assert "0"[..1] == "0" && "0"[1..] == "";
  }

  lemma TrimVBehind(base: string)
    requires base != ""
    ensures TrimV(base + ".0") == TrimV(base) + ".0"
  {
    assert (base + ".0")[..1] == base[..1] && (base + ".0")[1..] == base[1..] + ".0";
  }

  /** A trailing ".0" changes no comparison, on either side. */
  lemma TrailingZeroIsNothing(base: string, suffix: string, other: string)
    requires base != "" && '-' !in base && IsSuffix(suffix)
    ensures Newer(base + ".0" + suffix, other) <==> Newer(base + suffix, other)
    ensures Newer(other, base + ".0" + suffix) <==> Newer(other, base + suffix)
  {
    ZeroBehind(base, suffix);
    SameWithZero(PartsOf(base + suffix));
    SameKeySameOrder(base + ".0" + suffix, base + suffix, other);
  }

  lemma ZeroBehind(base: string, suffix: string)
    requires base != "" && '-' !in base && IsSuffix(suffix)
    ensures PartsOf(base + ".0" + suffix) == PartsOf(base + suffix) + ["0"]
    ensures PreOf(base + ".0" + suffix) == PreOf(base + suffix)
  {
    KeyOf(base, suffix);
    NoDash(base);
    KeyOf(base + ".0", suffix);
    ZeroPartBehind(base);
  }

  lemma NoDash(base: string)
    requires '-' !in base
    ensures '-' !in base + ".0"
  {
  }

  lemma ZeroPartBehind(base: string)
    requires base != ""
    ensures Split(TrimV(base + ".0"), '.') == Split(TrimV(base), '.') + ["0"]
  {
    TrimVBehind(base);
    assert TrimV(base) + ".0" == TrimV(base) + "." + "0";
    SplitBehind(TrimV(base), "0");
  }

  lemma SameKeySameOrder(a: string, b: string, other: string)
    requires a != "" && b != "" && SameParts(PartsOf(a), PartsOf(b)) && PreOf(a) == PreOf(b)
    ensures Newer(a, other) <==> Newer(b, other)
    ensures Newer(other, a) <==> Newer(other, b)
  {
    var p, q, r := PartsOf(a), PartsOf(b), PartsOf(other);
    assert forall i: nat :: SameUpTo(p, r, i) <==> SameUpTo(q, r, i);
    assert forall i: nat :: SameUpTo(r, p, i) <==> SameUpTo(r, q, i);
    assert PartsLess(p, r) <==> PartsLess(q, r);
    assert PartsLess(r, p) <==> PartsLess(r, q);
    assert SameParts(p, r) <==> SameParts(q, r);
    assert SameParts(r, p) <==> SameParts(r, q);
  }

  // ---------- version numbers ----------

  function Decimal(n: nat): (s: string)
    ensures s != "" && forall i | 0 <= i < |s| :: IsDigit(s[i])
  {
    if n < 10 then [('0' as int + n) as char] else Decimal(n / 10) + [('0' as int + n % 10) as char]
  }

  lemma {:induction false} DecimalValue(n: nat)
    ensures Value(Decimal(n)) == n
  {
    if n >= 10 {
      DecimalValue(n / 10);
      var s := Decimal(n);
      assert s[..|s| - 1] == Decimal(n / 10);
    }
  }

  lemma {:induction false} AllDigits(s: string)
    requires forall i | 0 <= i < |s| :: IsDigit(s[i])
    ensures Digits(s) == s
  {
    if s != "" { AllDigits(s[1..]); }
  }

  lemma DigitIsPlain(c: char)
    requires IsDigit(c)
    ensures c !in SPACES && c !in {'+', '-'}
  {
  }

  /** A number is read back when it fits an int64, and as zero when it does not. */
  lemma {:induction false} DecimalPart(n: nat)
    ensures PartValue(Decimal(n)) == if n < LIMIT64 then n else 0
  {
    var s := Decimal(n);
    assert IsDigit(s[0]);
    DigitIsPlain(s[0]);
    AllDigits(s);
    DecimalValue(n);
  }

  predicate Blank(s: string) {
    forall i | 0 <= i < |s| :: s[i] in SPACES && s[i] != '\n'
  }

  lemma {:induction false} DigitsStop(d: string, rest: string)
    requires (forall i | 0 <= i < |d| :: IsDigit(d[i])) && (rest == "" || !IsDigit(rest[0]))
    ensures Digits(d + rest) == d
  {
    if d == "" {
      assert d + rest == rest;
    } else {
      assert (d + rest)[1..] == d[1..] + rest;
      DigitsStop(d[1..], rest);
    }
  }

  lemma {:induction false} BlanksSkipped(blanks: string, s: string)
    requires Blank(blanks) && (s == "" || s[0] !in SPACES || s[0] == '\n')
    ensures PartValue(blanks + s) == PartValue(s)
  {
    if blanks == "" {
      assert blanks + s == s;
    } else {
      assert (blanks + s)[1..] == blanks[1..] + s;
      BlanksSkipped(blanks[1..], s);
    }
  }

  lemma {:induction false} SignedReads(sign: string, n: nat, number: string, rest: string)
    requires sign in {"", "+", "-"} && number == Decimal(n) + rest && (rest == "" || !IsDigit(rest[0]))
    ensures PartValue(sign + number) == if sign == "-" then (if n <= LIMIT64 then 0 - n else 0) else if n < LIMIT64 then n else 0
  {
    DigitsStop(Decimal(n), rest);
    DecimalValue(n);
    assert IsDigit(number[0]);
    if sign == "" {
      assert sign + number == number;
      DigitIsPlain(number[0]);
    } else {
      assert (sign + number)[0] == sign[0] && (sign + number)[1..] == number;
    }
    NumberReads(sign + number, number, n);
  }

  lemma {:induction false} NumberReads(s: string, number: string, n: nat)
    requires s != "" && s[0] !in SPACES && number == (if s[0] in {'+', '-'} then s[1..] else s)
    requires Digits(number) == Decimal(n) && Value(Decimal(n)) == n
    ensures PartValue(s) == if s[0] == '-' then (if n <= LIMIT64 then 0 - n else 0) else if n < LIMIT64 then n else 0
  {
  }

  /** A part is blanks, a sign, a number and anything else: the number counts with its sign, and
      for zero when an int64 cannot hold it. */
  lemma {:induction false} PartReads(blanks: string, sign: string, n: nat, rest: string)
    requires Blank(blanks) && sign in {"", "+", "-"} && (rest == "" || !IsDigit(rest[0]))
    ensures sign == "-" ==>
              PartValue(blanks + (sign + (Decimal(n) + rest))) == if n <= 9223372036854775808 then 0 - n else 0
    ensures sign != "-" ==>
              PartValue(blanks + (sign + (Decimal(n) + rest))) == if n <= 9223372036854775807 then n else 0
  {
    var signed := sign + (Decimal(n) + rest);
    SignedReads(sign, n, Decimal(n) + rest, rest);
    assert IsDigit((Decimal(n) + rest)[0]);
    assert sign == "" ==> signed == Decimal(n) + rest;
    assert signed[0] !in SPACES;
    BlanksSkipped(blanks, signed);
  }

  function Base(x: nat, y: nat, z: nat): string {
    Decimal(x) + "." + Decimal(y) + "." + Decimal(z)
  }

  lemma NotIn(s: string, c: char)
    requires (forall i | 0 <= i < |s| :: IsDigit(s[i])) && !IsDigit(c)
    ensures c !in s
  {
  }

  lemma {:induction false} BaseSplits(x: nat, y: nat, z: nat)
    ensures Split(Base(x, y, z), '.') == [Decimal(x), Decimal(y), Decimal(z)]
    ensures '-' !in Base(x, y, z) && TrimV(Base(x, y, z)) == Base(x, y, z)
  {
    NotIn(Decimal(x), '.');
    NotIn(Decimal(y), '.');
    NotIn(Decimal(z), '.');
    SplitBehind(Decimal(x) + "." + Decimal(y), Decimal(z));
    SplitBehind(Decimal(x), Decimal(y));
    assert Split(Decimal(x), '.') == [Decimal(x)];
    NotIn(Decimal(x), '-');
    NotIn(Decimal(y), '-');
    NotIn(Decimal(z), '-');
    assert IsDigit(Base(x, y, z)[0]);
  }

  datatype Triple = Triple(x: nat, y: nat, z: nat)

  predicate Fits(t: Triple) {
    t.x < LIMIT64 && t.y < LIMIT64 && t.z < LIMIT64
  }

  predicate TripleLess(s: Triple, t: Triple) {
    s.x < t.x || (s.x == t.x && (s.y < t.y || (s.y == t.y && s.z < t.z)))
  }

  /** The first three parts are the numbers, and there are no others. */
  ghost predicate Holds(p: seq<string>, t: Triple) {
    At(p, 0) == t.x && At(p, 1) == t.y && At(p, 2) == t.z && forall i: nat | i > 2 :: At(p, i) == 0
  }

  lemma {:induction false} ThreeParts(a: string, b: string, c: string)
    ensures var p := [a, b, c];
      At(p, 0) == PartValue(a) && At(p, 1) == PartValue(b) && At(p, 2) == PartValue(c) && forall i: nat | i > 2 :: At(p, i) == 0
  {
  }

  lemma TripleParts(s: Triple, suffix: string)
    requires Fits(s) && IsSuffix(suffix)
    ensures Holds(PartsOf(Base(s.x, s.y, s.z) + suffix), s)
    ensures PreOf(Base(s.x, s.y, s.z) + suffix) == PreText(suffix)
  {
    BaseSplits(s.x, s.y, s.z);
    KeyOf(Base(s.x, s.y, s.z), suffix);
    ThreeParts(Decimal(s.x), Decimal(s.y), Decimal(s.z));
    DecimalPart(s.x);
    DecimalPart(s.y);
    DecimalPart(s.z);
  }

  lemma LessByTriple(p: seq<string>, q: seq<string>, s: Triple, t: Triple)
    requires Holds(p, s) && Holds(q, t) && TripleLess(s, t)
    ensures PartsLess(p, q)
  {
    var i: nat := if s.x < t.x then 0 else if s.y < t.y then 1 else 2;
    assert SameUpTo(p, q, i) && At(p, i) < At(q, i);
  }

  lemma TripleByLess(p: seq<string>, q: seq<string>, s: Triple, t: Triple)
    requires Holds(p, s) && Holds(q, t) && PartsLess(p, q)
    ensures TripleLess(s, t)
  {
    var i: nat :| SameUpTo(p, q, i) && At(p, i) < At(q, i);
    assert i <= 2;
    assert i > 0 ==> At(p, 0) == At(q, 0);
    assert i > 1 ==> At(p, 1) == At(q, 1);
  }

  lemma TripleOrder(p: seq<string>, q: seq<string>, s: Triple, t: Triple)
    requires Holds(p, s) && Holds(q, t)
    ensures PartsLess(p, q) <==> TripleLess(s, t)
    ensures SameParts(p, q) <==> s == t
  {
    if TripleLess(s, t) { LessByTriple(p, q, s, t); }
    if PartsLess(p, q) { TripleByLess(p, q, s, t); }
    TripleSame(p, q, s, t);
  }

  lemma TripleSame(p: seq<string>, q: seq<string>, s: Triple, t: Triple)
    requires Holds(p, s) && Holds(q, t)
    ensures SameParts(p, q) <==> s == t
  {
    if SameParts(p, q) {
      assert At(p, 0) == At(q, 0) && At(p, 1) == At(q, 1) && At(p, 2) == At(q, 2);
    }
    if s == t {
      forall i: nat ensures At(p, i) == At(q, i) {
        assert i <= 2 ==> i == 0 || i == 1 || i == 2;
      }
    }
  }

  /** X.Y.Z, with or without a "v" in front and a pre-release behind. */
  function Version(v: bool, t: Triple, pre: string): string {
    (if v then "v" else "") + (Base(t.x, t.y, t.z) + if pre == "" then "" else "-" + pre)
  }

  /** On X.Y.Z, released or not, the order is that of the numbers, then pre-releases before
      the release and among themselves as plain text: items 2 and 3 of section 11 of Semantic
      Versioning 2.0.0.  A "v" in front of either makes no difference. */
  lemma {:induction false} FollowsSemanticVersioning(v: bool, s: Triple, pre: string, v': bool, t: Triple, pre': string)
    requires Fits(s) && Fits(t)
    ensures Newer(Version(v, s, pre), Version(v', t, pre')) <==>
            TripleLess(s, t) || (s == t && if pre' == "" then pre != "" else pre != "" && TextLess(pre, pre'))
  {
    PlainVersions(s, pre, t, pre');
    VIsNothing(v, s, pre, Version(v', t, pre'));
    VIsNothing(v', t, pre', Version(false, s, pre));
  }

  lemma {:induction false} PlainVersions(s: Triple, pre: string, t: Triple, pre': string)
    requires Fits(s) && Fits(t)
    ensures Newer(Version(false, s, pre), Version(false, t, pre')) <==>
            TripleLess(s, t) || (s == t && if pre' == "" then pre != "" else pre != "" && TextLess(pre, pre'))
  {
    var sSuffix, tSuffix := if pre == "" then "" else "-" + pre, if pre' == "" then "" else "-" + pre';
    assert PreText(sSuffix) == pre && PreText(tSuffix) == pre';
    PlainVersion(s, pre);
    PlainVersion(t, pre');
    TripleParts(s, sSuffix);
    TripleParts(t, tSuffix);
    TripleOrder(PartsOf(Base(s.x, s.y, s.z) + sSuffix), PartsOf(Base(t.x, t.y, t.z) + tSuffix), s, t);
  }

  lemma PlainVersion(t: Triple, pre: string)
    ensures Version(false, t, pre) == Base(t.x, t.y, t.z) + if pre == "" then "" else "-" + pre
    ensures Version(false, t, pre) != "" && IsDigit(Version(false, t, pre)[0])
  {
    assert "" + (Base(t.x, t.y, t.z) + if pre == "" then "" else "-" + pre) == Base(t.x, t.y, t.z) + if pre == "" then "" else "-" + pre;
    assert IsDigit(Decimal(t.x)[0]);
  }

  lemma VIsNothing(v: bool, t: Triple, pre: string, other: string)
    ensures Newer(Version(v, t, pre), other) <==> Newer(Version(false, t, pre), other)
    ensures Newer(other, Version(v, t, pre)) <==> Newer(other, Version(false, t, pre))
  {
    PlainVersion(t, pre);
    LeadingVIsNothing(Version(false, t, pre), other);
  }

  /** One "v" in front changes no comparison, on either side. */
  lemma LeadingVIsNothing(a: string, b: string)
    requires a != "" && a[0] != 'v'
    ensures Newer("v" + a, b) <==> Newer(a, b)
    ensures Newer(b, "v" + a) <==> Newer(b, a)
  {
    assert ("v" + a)[..1] == "v" && ("v" + a)[1..] == a && a[..1] == [a[0]];
    SameKeySameOrder("v" + a, a, b);
  }

  lemma {:induction false} CommonStart(p: string, a: string, b: string)
    ensures TextLess(p + a, p + b) <==> TextLess(a, b)
  {
    if p == "" {
      assert p + a == a && p + b == b;
    } else {
      assert (p + a)[1..] == p[1..] + a && (p + b)[1..] == p[1..] + b;
      CommonStart(p[1..], a, b);
    }
  }

  // ---------- numbers in pre-releases ----------

  /** What is left of a number without its last `k` digits. */
  function Leading(n: nat, k: nat): nat {
    if k == 0 then n else Leading(n / 10, k - 1)
  }

  lemma {:induction false} LeadingDigits(n: nat, k: nat)
    requires k < |Decimal(n)|
    ensures Decimal(n)[..|Decimal(n)| - k] == Decimal(Leading(n, k))
  {
    if k > 0 {
      var s := Decimal(n);
      assert s[..|s| - 1] == Decimal(n / 10);
      LeadingDigits(n / 10, k - 1);
      assert s[..|s| - k] == s[..|s| - 1][..|s| - k];
    }
  }

  /** Against a longer text: smaller than its start, or its start itself. */
  lemma {:induction false} LessThanLonger(u: string, v: string, w: string)
    requires |u| == |v|
    ensures TextLess(u, v + w) <==> TextLess(u, v) || (u == v && w != "")
  {
    if u == "" {
      assert v + w == w;
    } else {
      assert (v + w)[1..] == v[1..] + w;
      assert u == v <==> u[0] == v[0] && u[1..] == v[1..] by {
        assert u == [u[0]] + u[1..] && v == [v[0]] + v[1..];
      }
      LessThanLonger(u[1..], v[1..], w);
    }
  }

  lemma {:induction false} LessByLast(u: string, v: string, c: char, d: char)
    requires |u| == |v|
    ensures TextLess(u + [c], v + [d]) <==> TextLess(u, v) || (u == v && c < d)
  {
    if u == "" {
      assert u + [c] == [c] && v + [d] == [d];
      assert [c][1..] == "" && [d][1..] == "";
    } else {
      assert (u + [c])[1..] == u[1..] + [c] && (v + [d])[1..] == v[1..] + [d];
      assert u == v <==> u[0] == v[0] && u[1..] == v[1..] by {
        assert u == [u[0]] + u[1..] && v == [v[0]] + v[1..];
      }
      LessByLast(u[1..], v[1..], c, d);
    }
  }

  /** Numbers of equally many digits are in order as text. */
  lemma {:induction false} SameLengthInOrder(m: nat, n: nat)
    requires |Decimal(m)| == |Decimal(n)|
    ensures TextLess(Decimal(m), Decimal(n)) <==> m < n
    ensures Decimal(m) == Decimal(n) <==> m == n
  {
    DecimalValue(m);
    DecimalValue(n);
    if m >= 10 {
      SameLengthInOrder(m / 10, n / 10);
      LessByLast(Decimal(m / 10), Decimal(n / 10), ('0' as int + m % 10) as char, ('0' as int + n % 10) as char);
    } else {
      assert Decimal(m)[1..] == "" && Decimal(n)[1..] == "";
    }
  }

  lemma {:induction false} MoreDigits(m: nat, n: nat)
    requires m <= n
    ensures |Decimal(m)| <= |Decimal(n)|
  {
    if m >= 10 { MoreDigits(m / 10, n / 10); }
  }

  lemma {:induction false} TextOrder(m: nat, n: nat)
    requires m < n
    ensures |Decimal(m)| <= |Decimal(n)|
    ensures TextLess(Decimal(m), Decimal(n)) <==> m <= Leading(n, |Decimal(n)| - |Decimal(m)|)
  {
    MoreDigits(m, n);
    var k: nat := |Decimal(n)| - |Decimal(m)|;
    LeadingDigits(n, k);
    TextOrderBy(m, n, Leading(n, k), k);
  }

  lemma {:induction false} TextOrderBy(m: nat, n: nat, q: nat, k: nat)
    requires m < n && |Decimal(m)| + k == |Decimal(n)| && Decimal(n)[..|Decimal(m)|] == Decimal(q)
    requires k == 0 ==> q == n
    ensures TextLess(Decimal(m), Decimal(n)) <==> m <= q
  {
    var s, rest := Decimal(n), Decimal(n)[|Decimal(m)|..];
    assert s == Decimal(q) + rest;
    SameLengthInOrder(m, q);
    LessThanLonger(Decimal(m), Decimal(q), rest);
  }

  /** Item 4, numeric identifiers in pre-releases: of two numbers behind the same text the
      larger one is newer if and only if the smaller one is no greater than what is left of the
      larger one with equally many digits.  Equally long numbers are therefore in order. */
  lemma {:induction false} NumericPreReleasesInOrderIff(s: Triple, p: string, m: nat, n: nat)
    requires Fits(s) && m < n
    ensures |Decimal(m)| <= |Decimal(n)|
    ensures Newer(Version(false, s, p + Decimal(m)), Version(false, s, p + Decimal(n))) <==>
            m <= Leading(n, |Decimal(n)| - |Decimal(m)|)
  {
    FollowsSemanticVersioning(false, s, p + Decimal(m), false, s, p + Decimal(n));
    CommonStart(p, Decimal(m), Decimal(n));
    TextOrder(m, n);
  }

  /** So rc.10 comes before rc.9. */
  lemma NumbersInPreReleasesAreText(s: Triple, p: string)
    requires Fits(s)
    ensures Newer(Version(false, s, p + "10"), Version(false, s, p + "9"))
  {
    FollowsSemanticVersioning(false, s, p + "10", false, s, p + "9");
    CommonStart(p, "10", "9");
  }

  /** Nor is a number that does not fit an int64 larger than one that does: it reads as zero. */
  lemma {:induction false} HugeNumbersReadAsZero(n: nat)
    requires n >= LIMIT64
    ensures PartValue(Decimal(n)) == PartValue(Decimal(0))
  {
    DecimalPart(n);
    DecimalPart(0);
  }
}
