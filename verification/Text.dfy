/** The string operations the parsers rely on, with what they mean. */
module Text {
  /** First position of `c`, or -1. */
  function IndexOf(s: string, c: char): (i: int)
    ensures -1 <= i < |s|
    ensures i == -1 <==> c !in s
    ensures i >= 0 ==> s[i] == c && c !in s[..i]
  {
    if s == [] then -1
    else if s[0] == c then 0
    else
      var rest := IndexOf(s[1..], c);
      assert rest >= 0 ==> s[..rest + 1] == [s[0]] + s[1..][..rest];
      if rest == -1 then -1 else rest + 1
  }

  /** Last position of `c`, or -1. */
  function LastIndexOf(s: string, c: char): (i: int)
    ensures -1 <= i < |s|
    ensures i == -1 <==> c !in s
    ensures i >= 0 ==> s[i] == c && c !in s[i + 1..]
  {
    if s == [] then -1
    else if s[|s| - 1] == c then |s| - 1
    else
      var i := LastIndexOf(s[..|s| - 1], c);
      assert s == s[..|s| - 1] + [s[|s| - 1]];
      assert i >= 0 ==> s[i + 1..] == s[..|s| - 1][i + 1..] + [s[|s| - 1]];
      i
  }

  lemma {:induction false} IndexOfIs(s: string, c: char, before: string, after: string)
    requires s == before + [c] + after && c !in before
    ensures IndexOf(s, c) == |before| && s[..|before|] == before && s[|before| + 1..] == after
  {
    var i := IndexOf(s, c);
    assert s[|before|] == c;
    assert forall k | 0 <= k < |before| :: s[k] == before[k];
    assert forall k | 0 <= k < i :: s[..i][k] == s[k];
  }

  lemma {:induction false} LastIndexOfIs(s: string, c: char, before: string, after: string)
    requires s == before + [c] + after && c !in after
    ensures LastIndexOf(s, c) == |before| && s[..|before|] == before && s[|before| + 1..] == after
  {
    if after != [] {
      var init := after[..|after| - 1];
      assert s[..|s| - 1] == before + [c] + init;
      assert s[|s| - 1] == after[|after| - 1];
      LastIndexOfIs(s[..|s| - 1], c, before, init);
    }
  }

  predicate HasPrefix(s: string, prefix: string) {
    |prefix| <= |s| && s[..|prefix|] == prefix
  }

  /** Pieces between separators; there is always one more piece than separators. */
  function Split(s: string, sep: char): (parts: seq<string>)
    ensures |parts| >= 1
    decreases |s|
  {
    var i := IndexOf(s, sep);
    if i == -1 then [s] else [s[..i]] + Split(s[i + 1..], sep)
  }

  /** At most `n` pieces; the last one keeps its separators. */
  function SplitN(s: string, sep: char, n: nat): (parts: seq<string>)
    requires n >= 1
    ensures 1 <= |parts| <= n
    decreases n
  {
    var i := IndexOf(s, sep);
    if i == -1 || n == 1 then [s] else [s[..i]] + SplitN(s[i + 1..], sep, n - 1)
  }

  function Join(parts: seq<string>, sep: char): string {
    if parts == [] then "" else if |parts| == 1 then parts[0] else parts[0] + [sep] + Join(parts[1..], sep)
  }

  lemma {:induction false} FirstPiece(s: string, sep: char) returns (head: string, rest: string)
    requires sep in s
    ensures s == head + [sep] + rest && sep !in head
    ensures Split(s, sep) == [head] + Split(rest, sep)
  {
    var i := IndexOf(s, sep);
    head, rest := s[..i], s[i + 1..];
  }

  lemma {:induction false} JoinAfter(head: string, tail: seq<string>, sep: char)
    requires tail != []
    ensures Join([head] + tail, sep) == head + [sep] + Join(tail, sep)
  {
    assert ([head] + tail)[1..] == tail;
  }

  lemma {:induction false} JoinSplit(s: string, sep: char)
    ensures Join(Split(s, sep), sep) == s
    ensures forall part | part in Split(s, sep) :: sep !in part
    decreases |s|
  {
    if sep in s {
      var head, rest := FirstPiece(s, sep);
      JoinSplit(rest, sep);
      JoinAfter(head, Split(rest, sep), sep);
    }
  }

  lemma {:induction false} SplitJoin(parts: seq<string>, sep: char)
    requires parts != [] && forall part | part in parts :: sep !in part
    ensures Split(Join(parts, sep), sep) == parts
  {
    if |parts| > 1 {
      SplitJoin(parts[1..], sep);
      IndexOfIs(Join(parts, sep), sep, parts[0], Join(parts[1..], sep));
    }
  }

  lemma {:induction false} JoinBehind(parts: seq<string>, part: string, sep: char)
    requires parts != []
    ensures Join(parts + [part], sep) == Join(parts, sep) + [sep] + part
  {
    if |parts| > 1 {
      JoinBehind(parts[1..], part, sep);
      assert (parts + [part])[1..] == parts[1..] + [part];
    } else {
      assert (parts + [part])[1..] == [part];
    }
  }

  lemma {:induction false} SplitOnce(s: string, sep: char, before: string, after: string)
    requires s == before + [sep] + after && sep !in before
    ensures Split(s, sep) == [before] + Split(after, sep)
    ensures forall n: nat | n >= 2 :: SplitN(s, sep, n) == [before] + SplitN(after, sep, n - 1)
  {
    IndexOfIs(s, sep, before, after);
  }

  /** The characters with the Unicode property White_Space. */
  const SPACES: set<char> := {
    '\t', '\n', '\U{0B}', '\U{0C}', '\r', ' ', '\U{85}', '\U{A0}', '\U{1680}', '\U{2000}', '\U{2001}',
    '\U{2002}', '\U{2003}', '\U{2004}', '\U{2005}', '\U{2006}', '\U{2007}', '\U{2008}', '\U{2009}',
    '\U{200A}', '\U{2028}', '\U{2029}', '\U{202F}', '\U{205F}', '\U{3000}'
  }

  lemma SpacesByCodePoint(c: char)
    ensures var n := c as int;
      c in SPACES <==> 9 <= n <= 13 || n == 32 || n == 0x85 || n == 0xA0 || n == 0x1680 || 0x2000 <= n <= 0x200A
                       || n == 0x2028 || n == 0x2029 || n == 0x202F || n == 0x205F || n == 0x3000
  {
  }

  function TrimLeft(s: string, cut: set<char>): string {
    if s == [] || s[0] !in cut then s else TrimLeft(s[1..], cut)
  }

  function TrimRight(s: string, cut: set<char>): string {
    if s == [] || s[|s| - 1] !in cut then s else TrimRight(s[..|s| - 1], cut)
  }

  function Trim(s: string, cut: set<char>): string {
    TrimRight(TrimLeft(s, cut), cut)
  }

  function TrimSpace(s: string): string {
    Trim(s, SPACES)
  }

  predicate Tight(s: string, cut: set<char>) {
    s == [] || (s[0] !in cut && s[|s| - 1] !in cut)
  }

  predicate All(s: string, cut: set<char>) {
    forall i | 0 <= i < |s| :: s[i] in cut
  }

  lemma {:induction false} TrimLeftIs(cut: set<char>, left: string, rest: string)
    requires All(left, cut) && (rest == [] || rest[0] !in cut)
    ensures TrimLeft(left + rest, cut) == rest
  {
    if left == [] {
      assert left + rest == rest;
    } else {
      assert (left + rest)[1..] == left[1..] + rest;
      TrimLeftIs(cut, left[1..], rest);
    }
  }

  lemma {:induction false} TrimRightIs(cut: set<char>, rest: string, right: string)
    requires All(right, cut) && (rest == [] || rest[|rest| - 1] !in cut)
    ensures TrimRight(rest + right, cut) == rest
  {
    if right == [] {
      assert rest + right == rest;
    } else {
      var init := right[..|right| - 1];
      assert (rest + right)[..|rest + right| - 1] == rest + init;
      TrimRightIs(cut, rest, init);
    }
  }

  lemma {:induction false} TrimLeftOfSpace(cut: set<char>, s: string)
    requires All(s, cut)
    ensures TrimLeft(s, cut) == []
  {
    TrimLeftIs(cut, s, []);
    assert s + [] == s;
  }

  /** Trimming removes exactly the padding. */
  lemma TrimIs(cut: set<char>, left: string, core: string, right: string)
    requires All(left, cut) && All(right, cut) && Tight(core, cut)
    ensures Trim(left + core + right, cut) == core
  {
    assert left + core + right == left + (core + right);
    if core == [] {
      TrimLeftOfSpace(cut, left + (core + right));
    } else {
      TrimLeftIs(cut, left, core + right);
      TrimRightIs(cut, core, right);
    }
  }

  lemma {:induction false} TrimLeftSplits(s: string, cut: set<char>) returns (left: string)
    ensures s == left + TrimLeft(s, cut) && All(left, cut)
    ensures TrimLeft(s, cut) != [] ==> TrimLeft(s, cut)[0] !in cut
  {
    left := "";
    if s != [] && s[0] in cut {
      left := TrimLeftSplits(s[1..], cut);
      left := [s[0]] + left;
    }
  }

  lemma {:induction false} TrimRightSplits(s: string, cut: set<char>) returns (right: string)
    ensures s == TrimRight(s, cut) + right && All(right, cut)
    ensures TrimRight(s, cut) != [] ==> TrimRight(s, cut)[|TrimRight(s, cut)| - 1] !in cut
  {
    right := "";
    if s != [] && s[|s| - 1] in cut {
      right := TrimRightSplits(s[..|s| - 1], cut);
      right := right + [s[|s| - 1]];
    }
  }

  /** Every string is its trimmed core with padding around it. */
  lemma TrimSplits(s: string, cut: set<char>) returns (left: string, right: string)
    ensures s == left + Trim(s, cut) + right && All(left, cut) && All(right, cut) && Tight(Trim(s, cut), cut)
  {
    left := TrimLeftSplits(s, cut);
    right := TrimRightSplits(TrimLeft(s, cut), cut);
  }
}
