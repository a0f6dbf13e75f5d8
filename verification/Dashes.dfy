/** Collapsing runs of dashes: the replace-until-nothing-changes loop is a one-pass squeeze. */
module Dashes {
  import opened Text

  const DASH: set<char> := {'-'}

  predicate HasDouble(s: string) {
    exists i :: 0 <= i < |s| - 1 && s[i] == '-' && s[i + 1] == '-'
  }

  /** Go's strings.ReplaceAll(s, "--", "-"): leftmost matches, not overlapping. */
  function ReplaceDouble(s: string): (r: string)
    ensures |r| <= |s|
  {
    if |s| < 2 then s
    else if s[0] == '-' && s[1] == '-' then "-" + ReplaceDouble(s[2..])
    else [s[0]] + ReplaceDouble(s[1..])
  }

  /** Every run of dashes becomes one dash. */
  function Squeeze(s: string): string {
    if |s| < 2 then s
    else if s[0] == '-' && s[1] == '-' then Squeeze(s[1..])
    else [s[0]] + Squeeze(s[1..])
  }

  lemma {:induction false} ReplaceShortens(s: string)
    requires HasDouble(s)
    ensures |ReplaceDouble(s)| < |s|
  {
    if !(s[0] == '-' && s[1] == '-') {
      var i :| 0 <= i < |s| - 1 && s[i] == '-' && s[i + 1] == '-';
      assert s[1..][i - 1] == '-' && s[1..][i] == '-';
      ReplaceShortens(s[1..]);
    }
  }

  /** The squeeze depends on a leading dash only through whether another one follows. */
  lemma {:induction false} SqueezeStart(c: char, s: string)
    ensures Squeeze([c] + s) == if s != "" && c == '-' && s[0] == '-' then Squeeze(s) else [c] + Squeeze(s)
  {
    assert ([c] + s)[1..] == s;
  }

  lemma {:induction false} SqueezeKeepsFirst(s: string)
    ensures s != "" ==> Squeeze(s) != "" && Squeeze(s)[0] == s[0]
    ensures s == "" ==> Squeeze(s) == ""
  {
    if |s| >= 2 && s[0] == '-' && s[1] == '-' {
      SqueezeKeepsFirst(s[1..]);
    }
  }

  lemma {:induction false} ReplaceKeepsFirst(s: string)
    ensures s != "" ==> ReplaceDouble(s) != "" && ReplaceDouble(s)[0] == s[0]
    ensures s == "" ==> ReplaceDouble(s) == ""
  {
  }

  lemma {:induction false} ReplaceKeepsSqueeze(s: string)
    ensures Squeeze(ReplaceDouble(s)) == Squeeze(s)
  {
    if |s| >= 2 {
      if s[0] == '-' && s[1] == '-' {
        var rest := s[2..];
        ReplaceKeepsSqueeze(rest);
        ReplaceKeepsFirst(rest);
        SqueezeStart('-', ReplaceDouble(rest));
        SqueezeStart('-', rest);
        assert s[1..] == ['-'] + rest;
      } else {
        var rest := s[1..];
        ReplaceKeepsSqueeze(rest);
        ReplaceKeepsFirst(rest);
        SqueezeStart(s[0], ReplaceDouble(rest));
      }
    }
  }

  lemma {:induction false} SqueezeOfSqueezed(s: string)
    requires !HasDouble(s)
    ensures Squeeze(s) == s
  {
    if |s| >= 2 {
      assert forall i | 0 <= i < |s[1..]| :: s[1..][i] == s[i + 1];
      SqueezeOfSqueezed(s[1..]);
    }
  }

  lemma {:induction false} SqueezedHasNoDouble(s: string)
    ensures !HasDouble(Squeeze(s))
  {
    if |s| >= 2 {
      SqueezedHasNoDouble(s[1..]);
      if !(s[0] == '-' && s[1] == '-') {
        SqueezeKeepsFirst(s[1..]);
        var rest := Squeeze(s[1..]);
        forall i | 0 <= i < |[s[0]] + rest| - 1 ensures !(([s[0]] + rest)[i] == '-' && ([s[0]] + rest)[i + 1] == '-') {
          if i > 0 { assert !(rest[i - 1] == '-' && rest[i] == '-'); }
        }
      }
    }
  }

  /** The source's loop: it ends, and its result is the one-pass squeeze. */
  method CollapseDashes(s0: string) returns (s: string)
    ensures s == Squeeze(s0) && !HasDouble(s)
  {
    s := s0;
    while HasDouble(s)
      invariant Squeeze(s) == Squeeze(s0)
      decreases |s|
    {
      ReplaceShortens(s);
      ReplaceKeepsSqueeze(s);
      s := ReplaceDouble(s);
    }
    SqueezeOfSqueezed(s);
  }

  // ---------- joining squeezed pieces ----------

  predicate Clean(s: string) {
    !HasDouble(s) && Tight(s, DASH)
  }

  /** Clean non-empty pieces joined by single dashes are clean. */
  lemma CleanJoin(a: string, b: string)
    requires Clean(a) && Clean(b) && a != "" && b != ""
    ensures Clean(a + "-" + b)
  {
    var s := a + "-" + b;
    forall i | 0 <= i < |s| - 1 ensures !(s[i] == '-' && s[i + 1] == '-') {
      if i + 1 < |a| {
        assert s[i] == a[i] && s[i + 1] == a[i + 1];
      } else if i + 1 == |a| {
        assert s[i] == a[|a| - 1];
      } else if i == |a| {
        assert s[i + 1] == b[0];
      } else {
        assert s[i] == b[i - |a| - 1] && s[i + 1] == b[i - |a|];
      }
    }
    assert s[0] == a[0] && s[|s| - 1] == b[|b| - 1];
  }

  lemma TrimOfTight(s: string)
    requires Tight(s, DASH)
    ensures Trim(s, DASH) == s
  {
    TrimIs(DASH, "", s, "");
    assert "" + s + "" == s;
  }

  /** Squeezing and trimming leave a clean string as it is. */
  lemma {:induction false} CleanStays(s: string)
    requires Clean(s)
    ensures Trim(Squeeze(s), DASH) == s
  {
    SqueezeOfSqueezed(s);
    TrimOfTight(s);
  }

  /** An empty piece between two others leaves one dash in its place. */
  lemma {:induction false} EmptyPieceVanishes(a: string, b: string)
    requires Clean(a) && Clean(b) && a != "" && b != ""
    ensures Squeeze(a + "-" + "" + "-" + b) == a + "-" + b
  {
    var s := a + "-" + "" + "-" + b;
    assert s == a + ("--" + b);
    SqueezeAcross(a, b);
    assert a + "-" + b == a + ("-" + b);
  }

  lemma {:induction false} SqueezeTwoDashes(b: string)
    requires Clean(b) && b != ""
    ensures Squeeze("--" + b) == "-" + b
  {
    assert ("--" + b)[1..] == ['-'] + b && b[0] != '-';
    SqueezeStart('-', b);
    SqueezeOfSqueezed(b);
  }

  lemma RestHasNoDouble(a: string)
    requires a != "" && !HasDouble(a) && a[|a| - 1] != '-'
    ensures !HasDouble(a[1..]) && (a[1..] == "" || a[1..][|a| - 2] != '-')
    ensures a[0] == '-' ==> a[1..] != "" && a[1..][0] != '-'
  {
    assert forall i | 0 <= i < |a| - 1 :: a[1..][i] == a[i + 1];
  }

  /** Two dashes between clean pieces become one. */
  lemma {:induction false} SqueezeAcross(a: string, b: string)
    requires Clean(b) && b != "" && !HasDouble(a) && (a == "" || a[|a| - 1] != '-')
    ensures Squeeze(a + ("--" + b)) == a + ("-" + b)
  {
    SqueezeBehind(a, "--" + b);
    SqueezeTwoDashes(b);
  }

  /** A piece in front that neither doubles nor ends in a dash stays as it is. */
  lemma {:induction false} SqueezeBehind(a: string, s: string)
    requires !HasDouble(a) && (a == "" || a[|a| - 1] != '-')
    ensures Squeeze(a + s) == a + Squeeze(s)
  {
    if a == "" {
      assert a + s == s && a + Squeeze(s) == Squeeze(s);
    } else {
      var rest, c := a[1..], a[0];
      RestHasNoDouble(a);
      SqueezeBehind(rest, s);
      assert a + s == [c] + (rest + s);
      SqueezeStart(c, rest + s);
      assert a + Squeeze(s) == [c] + (rest + Squeeze(s));
    }
  }

  lemma {:induction false} SqueezeOneBefore(c: char, b: string)
    requires '-' !in b
    ensures Squeeze([c] + b) == [c] + b
  {
    assert b != "" ==> b[0] in b;
    SqueezeStart(c, b);
    SqueezeOfSqueezed(b);
  }

  lemma {:induction false} SqueezeFrom(c: char, s: string, t: string)
    requires s != "" && Squeeze(s) == t
    ensures Squeeze([c] + s) == if c == '-' && s[0] == '-' then t else [c] + t
  {
    SqueezeStart(c, s);
  }

  lemma FrontOfSum(rest: string, b: string)
    requires rest != ""
    ensures rest + b != "" && (rest + b)[0] == rest[0]
  {
  }

  lemma {:induction false} SqueezeBeforeStep(c: char, rest: string, b: string)
    requires rest != "" && Squeeze(rest + b) == Squeeze(rest) + b
    ensures Squeeze([c] + (rest + b)) == Squeeze([c] + rest) + b
  {
    var t := Squeeze(rest);
    FrontOfSum(rest, b);
    SqueezeFrom(c, rest, t);
    SqueezeFrom(c, rest + b, t + b);
    assert [c] + (t + b) == [c] + t + b;
  }

  /** So does a piece without dashes at the end. */
  lemma {:induction false} SqueezeBefore(s: string, b: string)
    requires '-' !in b
    ensures Squeeze(s + b) == Squeeze(s) + b
  {
    if s == "" {
      assert s + b == b && Squeeze(s) + b == b;
      SqueezeOfSqueezed(b);
    } else {
      var rest, c := s[1..], s[0];
      assert s == [c] + rest && s + b == [c] + (rest + b);
      if rest == "" {
        assert s == [c] && rest + b == b && Squeeze(s) == s;
        SqueezeOneBefore(c, b);
      } else {
        SqueezeBefore(rest, b);
        SqueezeBeforeStep(c, rest, b);
      }
    }
  }

  lemma {:induction false} SqueezeKeepsLast(s: string)
    requires s != ""
    ensures Squeeze(s) != "" && Squeeze(s)[|Squeeze(s)| - 1] == s[|s| - 1]
  {
    if |s| >= 2 {
      SqueezeKeepsLast(s[1..]);
    }
  }

  lemma {:induction false} SqueezeOnlyDrops(s: string)
    ensures |Squeeze(s)| <= |s| && forall c | c in Squeeze(s) :: c in s
  {
    if |s| >= 2 {
      SqueezeOnlyDrops(s[1..]);
      assert forall c | c in s[1..] :: c in s;
    }
  }

  /** A piece of a string without double dashes, trimmed, is clean. */
  lemma CleanPrefix(s: string, n: nat)
    requires !HasDouble(s) && n <= |s|
    ensures Clean(Trim(s[..n], DASH))
  {
    var left, right := TrimSplits(s[..n], DASH);
    var core := Trim(s[..n], DASH);
    forall i | 0 <= i < |core| - 1 ensures !(core[i] == '-' && core[i + 1] == '-') {
      assert core[i] == s[|left| + i] && core[i + 1] == s[|left| + i + 1];
    }
  }
}
