/**
 The rule that no automatic or unforced operation takes the last enabled secret away.  The
 three sweeps over the listing (quota, expiry, and the store's own expiry) are one function;
 the rest are guarded single steps.
 */
module Secrets {
  import opened Common

  /** What an expiry text is to its readers: none ("" or "0"), a date, a time of day (RFC 3339
      or Unix seconds), or nothing either can read. */
  datatype Expiry = Never | OnDate(midnight: int) | AtTime(at: int) | Unreadable

  datatype Secret = Secret(enabled: bool, quotaBytes: int, expiry: Expiry)
  type Table = map<string, Secret>

  const MAX_SECRETS := 1000

  function Enabled(t: Table): set<string> {
    set l | l in t && t[l].enabled
  }

  function SetEnabled(t: Table, l: string, on: bool): Table {
    if l in t then t[l := t[l].(enabled := on)] else t
  }

  lemma EnabledAfter(t: Table, l: string, on: bool)
    ensures l in t ==> Enabled(SetEnabled(t, l, on)) == if on then Enabled(t) + {l} else Enabled(t) - {l}
    ensures l !in t ==> SetEnabled(t, l, on) == t
  {
  }

  // ---------- the quota test ----------

  const WORD64 := 0x1_0000_0000_0000_0000

  /** The value an int64 operation leaves behind. */
  function Wrap64(n: int): (w: int)
    ensures -LIMIT64 <= w < LIMIT64
  {
    (n + LIMIT64) % WORD64 - LIMIT64
  }

  /** Go's division truncates toward zero. */
  function TruncDiv(n: int, d: int): int
    requires d > 0
  {
    if n >= 0 then n / d else -((-n) / d)
  }

  /** The one int64 that differs from `n` by a multiple of 2 to the 64th. */
  lemma Wraps(n: int, w: int)
    ensures w == Wrap64(n) <==> -9223372036854775808 <= w < 9223372036854775808 && (n - w) % 18446744073709551616 == 0
  {
    var q := (n + LIMIT64) / WORD64;
    assert n - Wrap64(n) == q * WORD64;
    if -LIMIT64 <= w < LIMIT64 && (n - w) % WORD64 == 0 {
      var p := (n - w) / WORD64;
      assert n - w == p * WORD64;
      assert (p - q) * WORD64 == Wrap64(n) - w;
    }
  }

  /** The remainder is smaller than the divisor and has the sign of the dividend. */
  lemma TruncDivTruncates(n: int, d: int)
    requires d > 0
    ensures var r := n - TruncDiv(n, d) * d; if n >= 0 then 0 <= r < d else -d < r <= 0
  {
    if n < 0 {
      var q := (-n) / d;
      assert -n == q * d + (-n) % d;
      assert (-q) * d == -(q * d);
    } else {
      assert n == n / d * d + n % d;
    }
  }

  function Percent(total: nat, quota: int): int
    requires quota > 0
  {
    TruncDiv(Wrap64(total * 100), quota)
  }

  lemma TimesGrows(a: int, b: int, d: int)
    requires a >= b && d > 0
    ensures a * d >= b * d
  {
    assert (a - b) * d >= 0;
  }

  lemma QuotientAtLeast(n: int, d: int, k: int)
    requires n >= 0 && d > 0
    ensures n / d >= k <==> n >= k * d
  {
    var q := n / d;
    assert n == q * d + n % d;
    if q >= k {
      TimesGrows(q, k, d);
    } else {
      TimesGrows(k, q + 1, d);
      assert (q + 1) * d == q * d + d;
    }
  }

  /** Exactly what the two tests test, for every total: the product as int64 leaves it. */
  lemma PercentTests(total: nat, quota: int)
    requires quota > 0
    ensures Percent(total, quota) >= 100 <==> Wrap64(total * 100) >= 100 * quota
    ensures Percent(total, quota) >= 80 <==> Wrap64(total * 100) >= 80 * quota
  {
    var w := Wrap64(total * 100);
    if w >= 0 {
      QuotientAtLeast(w, quota, 100);
      QuotientAtLeast(w, quota, 80);
    } else {
      NegativeQuotient(w, quota);
    }
  }

  /** While a hundred times the total fits an int64, the percentages test what they say. */
  lemma PercentIsExact(total: nat, quota: int)
    requires quota > 0 && total * 100 < LIMIT64
    ensures Percent(total, quota) >= 100 <==> total >= quota
    ensures Percent(total, quota) >= 80 <==> 5 * total >= 4 * quota
  {
    PercentTests(total, quota);
    assert Wrap64(total * 100) == total * 100;
  }

  /** Beyond that, up to twice the range, the percentage is never positive: the test for the
      quota is right there exactly for secrets that have not used it up. */
  lemma PercentTurnsNegative(total: nat, quota: int)
    requires quota > 0 && total * 100 < WORD64
    ensures (Percent(total, quota) >= 100 <==> total >= quota) <==> (total * 100 < LIMIT64 || total < quota)
  {
    PercentTests(total, quota);
    if total * 100 >= LIMIT64 {
      assert Wrap64(total * 100) == total * 100 - WORD64 < 0;
    }
  }

  lemma NegativeQuotient(n: int, d: int)
    requires n < 0 && d > 0
    ensures TruncDiv(n, d) <= 0
  {
    QuotientAtLeast(-n, d, 0);
  }

  // ---------- sweeps ----------

  /** Disables the hits among the listed labels one after the other, but never the last one. */
  function Sweep(t: Table, order: seq<string>, hits: set<string>): Table {
    if order == [] then t
    else
      var t', l := Sweep(t, order[..|order| - 1], hits), order[|order| - 1];
      if l in t && t[l].enabled && l in hits && |Enabled(t')| > 1 then SetEnabled(t', l, false) else t'
  }

  ghost predicate Distinct(order: seq<string>) {
    forall i, j | 0 <= i < j < |order| :: order[i] != order[j]
  }

  /** The listing has every secret once. */
  ghost predicate Lists(order: seq<string>, t: Table) {
    Distinct(order) && forall l :: l in order <==> l in t
  }

  function Hit(t: Table, order: seq<string>, hits: set<string>): set<string> {
    set l | l in order && l in t && t[l].enabled && l in hits
  }

  function LastHit(t: Table, order: seq<string>, hits: set<string>): string
    requires Hit(t, order, hits) != {}
  {
    var l := order[|order| - 1];
    if l in t && t[l].enabled && l in hits then l
    else
      assert Hit(t, order, hits) == Hit(t, order[..|order| - 1], hits);
      LastHit(t, order[..|order| - 1], hits)
  }

  /** What a sweep leaves enabled: everything it did not hit, or, when it hits all there is,
      the one listed last. */
  function Spared(t: Table, order: seq<string>, hits: set<string>): set<string> {
    var hit := Hit(t, order, hits);
    if hit == Enabled(t) && hit != {} then {LastHit(t, order, hits)} else Enabled(t) - hit
  }

  lemma HitOneMore(t: Table, order: seq<string>, l: string, hits: set<string>)
    ensures Hit(t, order + [l], hits) == Hit(t, order, hits) + (if l in t && t[l].enabled && l in hits then {l} else {})
  {
  }

  lemma {:induction false} LastHitIsHit(t: Table, order: seq<string>, hits: set<string>)
    requires Hit(t, order, hits) != {}
    ensures LastHit(t, order, hits) in Hit(t, order, hits)
  {
    var l := order[|order| - 1];
    if !(l in t && t[l].enabled && l in hits) {
      assert Hit(t, order, hits) == Hit(t, order[..|order| - 1], hits);
      LastHitIsHit(t, order[..|order| - 1], hits);
    }
  }

  lemma Singleton(s: set<string>, l: string)
    requires l in s
    ensures |s| <= 1 <==> s == {l}
  {
    assert s == {l} + (s - {l});
  }

  predicate IsHit(t: Table, l: string, hits: set<string>) {
    l in t && t[l].enabled && l in hits
  }

  lemma {:induction false} MissChangesNothing(t: Table, init: seq<string>, l: string, hits: set<string>)
    requires !IsHit(t, l, hits)
    ensures Sweep(t, init + [l], hits) == Sweep(t, init, hits) && Spared(t, init + [l], hits) == Spared(t, init, hits)
  {
    HitOneMore(t, init, l, hits);
    assert (init + [l])[..|init|] == init;
  }

  lemma HitSpares(t: Table, init: seq<string>, l: string, hits: set<string>)
    requires IsHit(t, l, hits) && l !in init
    ensures Spared(t, init, hits) == Enabled(t) - Hit(t, init, hits) && l in Spared(t, init, hits)
    ensures Spared(t, init + [l], hits) ==
      if Spared(t, init, hits) == {l} then {l} else Spared(t, init, hits) - {l}
  {
    HitOneMore(t, init, l, hits);
    assert (init + [l])[..|init|] == init;
    var e, h := Enabled(t), Hit(t, init, hits);
    assert l in e && l !in h;
    assert LastHit(t, init + [l], hits) == l;
    assert h + {l} == e <==> e - h == {l};
    assert e - (h + {l}) == (e - h) - {l};
  }

  lemma {:induction false} HitSweeps(t: Table, init: seq<string>, l: string, hits: set<string>)
    requires IsHit(t, l, hits) && l !in init && Enabled(Sweep(t, init, hits)) == Spared(t, init, hits)
    requires Sweep(t, init, hits).Keys == t.Keys
    ensures Enabled(Sweep(t, init + [l], hits)) == Spared(t, init + [l], hits)
  {
    var t' := Sweep(t, init, hits);
    assert (init + [l])[..|init|] == init;
    HitSpares(t, init, l, hits);
    Singleton(Enabled(t'), l);
    EnabledAfter(t', l, false);
  }

  lemma {:induction false} SweepOneMore(t: Table, order: seq<string>, i: nat, hits: set<string>)
    requires i < |order|
    ensures var t' := Sweep(t, order[..i], hits);
      Sweep(t, order[..i + 1], hits) ==
      if IsHit(t, order[i], hits) && |Enabled(t')| > 1 then SetEnabled(t', order[i], false) else t'
    ensures Hit(t, order[..i + 1], hits) == Hit(t, order[..i], hits) + if IsHit(t, order[i], hits) then {order[i]} else {}
    ensures Distinct(order) ==> order[i] !in Hit(t, order[..i], hits)
  {
    assert order[..i + 1][..i] == order[..i];
    assert order[..i + 1] == order[..i] + [order[i]];
    HitOneMore(t, order[..i], order[i], hits);
  }

  lemma {:induction false} SweepKeepsKeys(t: Table, order: seq<string>, hits: set<string>)
    requires Distinct(order)
    ensures Sweep(t, order, hits).Keys == t.Keys
  {
    SweepLeaves(t, order, hits);
  }

  lemma {:induction false} SweepTouchesEnabled(t: Table, init: seq<string>, l: string, hits: set<string>)
    requires var t' := Sweep(t, init, hits);
      t'.Keys == t.Keys && forall k | k in t :: t'[k] == t[k].(enabled := k in Enabled(t'))
    ensures var t' := Sweep(t, init + [l], hits);
      t'.Keys == t.Keys && forall k | k in t :: t'[k] == t[k].(enabled := k in Enabled(t'))
  {
    assert (init + [l])[..|init|] == init;
    EnabledAfter(Sweep(t, init, hits), l, false);
  }

  lemma {:induction false} SweepLeaves(t: Table, order: seq<string>, hits: set<string>)
    requires Distinct(order)
    ensures Enabled(Sweep(t, order, hits)) == Spared(t, order, hits)
    ensures var t' := Sweep(t, order, hits);
      t'.Keys == t.Keys && forall l | l in t :: t'[l] == t[l].(enabled := l in Enabled(t'))
  {
    if order == [] {
      assert Hit(t, order, hits) == {};
    } else {
      var init, l := order[..|order| - 1], order[|order| - 1];
      assert order == init + [l] && l !in init;
      SweepLeaves(t, init, hits);
      SweepTouchesEnabled(t, init, l, hits);
      if IsHit(t, l, hits) {
        HitSweeps(t, init, l, hits);
      } else {
        MissChangesNothing(t, init, l, hits);
      }
    }
  }

  lemma SparedIsEnabled(t: Table, order: seq<string>, hits: set<string>)
    ensures Spared(t, order, hits) <= Enabled(t)
    ensures forall l | l in Enabled(t) && l !in Hit(t, order, hits) :: l in Spared(t, order, hits)
  {
    if Hit(t, order, hits) == Enabled(t) && Enabled(t) != {} {
      LastHitIsHit(t, order, hits);
    }
  }

  /** In full: a sweep disables all it hits but never empties the table. */
  lemma {:induction false} SweepIsSafe(t: Table, order: seq<string>, hits: set<string>)
    requires Distinct(order) && Enabled(t) != {}
    ensures Enabled(Sweep(t, order, hits)) != {}
    ensures Enabled(Sweep(t, order, hits)) <= Enabled(t)
    ensures forall l | l in Hit(t, order, hits) :: l in Enabled(Sweep(t, order, hits)) ==> Enabled(Sweep(t, order, hits)) == {l}
  {
    SweepLeaves(t, order, hits);
    if Hit(t, order, hits) == Enabled(t) {
      LastHitIsHit(t, order, hits);
    } else {
      assert Hit(t, order, hits) < Enabled(t);
    }
  }

  /** `l` is the last of `due` that is listed. */
  ghost predicate ListedLast(order: seq<string>, due: set<string>, l: string) {
    exists i :: 0 <= i < |order| && order[i] == l && l in due && forall k | i < k < |order| :: order[k] !in due
  }

  /** What is due is switched off, nothing else changes; but if all that is enabled is due, the
      one listed last stays on. */
  ghost predicate SwitchedOff(before: Table, order: seq<string>, due: set<string>, after: Table) {
    && after.Keys == before.Keys
    && forall l | l in before ::
         after[l] == if l in due && !(Enabled(before) <= due && ListedLast(order, due, l))
                     then before[l].(enabled := false) else before[l]
  }

  lemma ListedLastBack(init: seq<string>, last: string, due: set<string>, l: string)
    ensures ListedLast(init + [last], due, l) <==> if last in due then l == last else ListedLast(init, due, l)
  {
    var all := init + [last];
    assert all[|init|] == last && forall k | 0 <= k < |init| :: all[k] == init[k];
    if i :| 0 <= i < |all| && all[i] == l && l in due && forall k | i < k < |all| :: all[k] !in due {
      assert i < |init| ==> all[|init|] !in due;
    }
    if i :| 0 <= i < |init| && init[i] == l && l in due && forall k | i < k < |init| :: init[k] !in due {
      assert all[i] == l;
    }
  }

  lemma {:induction false} LastHitIsListedLast(t: Table, order: seq<string>, due: set<string>, l: string)
    requires Distinct(order) && due <= Enabled(t) && Hit(t, order, due) != {}
    ensures ListedLast(order, due, l) <==> l == LastHit(t, order, due)
  {
    var init, last := order[..|order| - 1], order[|order| - 1];
    assert order == init + [last];
    ListedLastBack(init, last, due, l);
    assert last in due ==> last in Enabled(t);
    if !IsHit(t, last, due) {
      assert Hit(t, order, due) == Hit(t, init, due);
      LastHitIsListedLast(t, init, due, l);
    }
  }

  lemma SparedIff(t: Table, order: seq<string>, due: set<string>, l: string)
    requires Distinct(order) && due <= Enabled(t) && Hit(t, order, due) == due && l in t
    ensures l in Spared(t, order, due) <==> t[l].enabled && !(l in due && !(Enabled(t) <= due && ListedLast(order, due, l)))
  {
    assert l in Enabled(t) <==> t[l].enabled;
    assert Enabled(t) <= due <==> due == Enabled(t);
    if due != {} {
      LastHitIsListedLast(t, order, due, l);
    }
  }

  lemma ListedIsHit(t: Table, order: seq<string>, due: set<string>)
    requires Lists(order, t) && due <= Enabled(t)
    ensures Hit(t, order, due) == due
  {
    forall l | l in due ensures l in Hit(t, order, due) {
      assert l in Enabled(t);
    }
  }

  /** A sweep, in terms of the rows. */
  lemma {:induction false} SweepSwitchesOff(t: Table, order: seq<string>, due: set<string>)
    requires Lists(order, t) && due <= Enabled(t)
    ensures SwitchedOff(t, order, due, Sweep(t, order, due))
  {
    var after := Sweep(t, order, due);
    SweepLeaves(t, order, due);
    ListedIsHit(t, order, due);
    forall l | l in t
      ensures after[l] == if l in due && !(Enabled(t) <= due && ListedLast(order, due, l)) then t[l].(enabled := false) else t[l]
    {
      SparedIff(t, order, due, l);
      assert after[l] == t[l].(enabled := l in Spared(t, order, due));
    }
  }

  /** The store's own expiry pass: collects the expired ids, drops the last one when they
      are all there is, and disables the rest in a batch. */
  function DisableAll(t: Table, labels: seq<string>): Table {
    if labels == [] then t else SetEnabled(DisableAll(t, labels[..|labels| - 1]), labels[|labels| - 1], false)
  }

  function ExpiredLabels(t: Table, order: seq<string>, expired: set<string>): seq<string> {
    if order == [] then []
    else
      var l := order[|order| - 1];
      ExpiredLabels(t, order[..|order| - 1], expired) + if l in t && t[l].enabled && l in expired then [l] else []
  }

  function DisableExpired(t: Table, order: seq<string>, expired: set<string>): Table {
    var labels := ExpiredLabels(t, order, expired);
    if labels == [] then t
    else if |labels| >= |Enabled(t)| then DisableAll(t, labels[..|labels| - 1])
    else DisableAll(t, labels)
  }

  lemma {:induction false} ExpiredOneMore(t: Table, init: seq<string>, l: string, expired: set<string>)
    ensures ExpiredLabels(t, init + [l], expired) == ExpiredLabels(t, init, expired) + if IsHit(t, l, expired) then [l] else []
  {
    assert (init + [l])[..|init|] == init;
  }

  lemma {:induction false} LastHitOneMore(t: Table, init: seq<string>, l: string, hits: set<string>)
    requires Hit(t, init + [l], hits) != {}
    ensures IsHit(t, l, hits) ==> LastHit(t, init + [l], hits) == l
    ensures !IsHit(t, l, hits) ==> Hit(t, init, hits) != {} && LastHit(t, init + [l], hits) == LastHit(t, init, hits)
  {
    HitOneMore(t, init, l, hits);
    assert (init + [l])[..|init|] == init;
  }

  /** The collected labels list the hits, the last hit last. */
  ghost predicate ListHits(labels: seq<string>, t: Table, order: seq<string>, hits: set<string>) {
    && (forall l :: l in labels <==> l in Hit(t, order, hits))
    && |labels| == |Hit(t, order, hits)| && Distinct(labels)
    && (labels != [] ==> Hit(t, order, hits) != {} && labels[|labels| - 1] == LastHit(t, order, hits))
  }

  lemma ListOneMoreHit(labels: seq<string>, t: Table, init: seq<string>, l: string, hits: set<string>)
    requires ListHits(labels, t, init, hits) && IsHit(t, l, hits) && l !in init
    ensures ListHits(labels + [l], t, init + [l], hits)
  {
    HitOneMore(t, init, l, hits);
    LastHitOneMore(t, init, l, hits);
    assert l !in Hit(t, init, hits);
  }

  lemma ListOneMoreMiss(labels: seq<string>, t: Table, init: seq<string>, l: string, hits: set<string>)
    requires ListHits(labels, t, init, hits) && !IsHit(t, l, hits)
    ensures ListHits(labels, t, init + [l], hits)
  {
    HitOneMore(t, init, l, hits);
    assert Hit(t, init + [l], hits) == Hit(t, init, hits);
    if labels != [] { LastHitOneMore(t, init, l, hits); }
  }

  lemma {:induction false} ExpiredAreHit(t: Table, order: seq<string>, expired: set<string>)
    requires Distinct(order)
    ensures ListHits(ExpiredLabels(t, order, expired), t, order, expired)
  {
    if order == [] {
      assert Hit(t, order, expired) == {};
    } else {
      var init, l := order[..|order| - 1], order[|order| - 1];
      assert order == init + [l] && l !in init;
      ExpiredAreHit(t, init, expired);
      ExpiredOneMore(t, init, l, expired);
      if IsHit(t, l, expired) {
        ListOneMoreHit(ExpiredLabels(t, init, expired), t, init, l, expired);
      } else {
        ListOneMoreMiss(ExpiredLabels(t, init, expired), t, init, l, expired);
        assert ExpiredLabels(t, init, expired) + [] == ExpiredLabels(t, init, expired);
      }
    }
  }

  lemma {:induction false} DisableAllLeaves(t: Table, labels: seq<string>)
    ensures var t' := DisableAll(t, labels);
      t'.Keys == t.Keys && forall l | l in t :: t'[l] == t[l].(enabled := t[l].enabled && l !in labels)
  {
    if labels != [] {
      DisableAllLeaves(t, labels[..|labels| - 1]);
      assert labels == labels[..|labels| - 1] + [labels[|labels| - 1]];
    }
  }

  lemma {:induction false} SubsetOfSameSize(a: set<string>, b: set<string>)
    requires a <= b && |a| >= |b|
    ensures a == b
  {
    assert b == a + (b - a);
    assert |b| == |a| + |b - a|;
  }

  function Dropped(t: Table, labels: seq<string>): seq<string> {
    if labels != [] && |labels| >= |Enabled(t)| then labels[..|labels| - 1] else labels
  }

  lemma DroppedAreNotSpared(labels: seq<string>, t: Table, order: seq<string>, hits: set<string>, l: string)
    requires ListHits(labels, t, order, hits) && l in Enabled(t)
    ensures l in Dropped(t, labels) <==> l !in Spared(t, order, hits)
  {
    var hit := Hit(t, order, hits);
    assert hit <= Enabled(t);
    if labels != [] && |labels| >= |Enabled(t)| {
      SubsetOfSameSize(hit, Enabled(t));
      assert labels == Dropped(t, labels) + [labels[|labels| - 1]];
    }
  }

  /** For the same expired secrets in the same order, the batch is the sweep. */
  lemma {:induction false} BatchIsSweep(t: Table, order: seq<string>, expired: set<string>)
    requires Distinct(order)
    ensures DisableExpired(t, order, expired) == Sweep(t, order, expired)
  {
    var labels := ExpiredLabels(t, order, expired);
    ExpiredAreHit(t, order, expired);
    SweepLeaves(t, order, expired);
    SparedIsEnabled(t, order, expired);
    DisableAllLeaves(t, Dropped(t, labels));
    var batch, swept := DisableAll(t, Dropped(t, labels)), Sweep(t, order, expired);
    forall l | l in t ensures batch[l] == swept[l] {
      if t[l].enabled { DroppedAreNotSpared(labels, t, order, expired, l); }
    }
    assert batch == swept;
  }

  // ---------- the two readers of an expiry ----------

  /** The periodic check knows dates only. */
  function DailyReading(e: Expiry): Option<int> {
    if e.OnDate? then Some(e.midnight) else None
  }

  /** The store's own pass also knows times of day. */
  function BatchReading(e: Expiry): Option<int> {
    if e.AtTime? then Some(e.at) else DailyReading(e)
  }

  predicate Past(reading: Option<int>, now: int) {
    reading.Some? && now > reading.value
  }

  function DailyExpired(t: Table, now: int): set<string> {
    set l | l in t && t[l].enabled && Past(DailyReading(t[l].expiry), now)
  }

  function BatchExpired(t: Table, now: int): set<string> {
    set l | l in t && t[l].enabled && Past(BatchReading(t[l].expiry), now)
  }

  lemma ListedHits(t: Table, order: seq<string>, hits: set<string>)
    requires Lists(order, t) && hits <= Enabled(t)
    ensures Hit(t, order, hits) == hits
  {
  }

  /** Both passes over one table, each in its own listing order (the batch query gives none):
      they leave the same table if and only if they see the same secrets expired and, when
      that is all of them, spare the same one; or the batch sees all expired and spares just
      the one the check cannot read. */
  lemma {:induction false} PassesAgreeIff(t: Table, daily: seq<string>, batch: seq<string>, now: int)
    requires Lists(daily, t) && Lists(batch, t)
    ensures var d, b := DailyExpired(t, now), BatchExpired(t, now);
      && Hit(t, daily, d) == d && Hit(t, batch, b) == b
      && (Sweep(t, daily, d) == DisableExpired(t, batch, b) <==>
          if d == b then b == Enabled(t) && b != {} ==> LastHit(t, daily, d) == LastHit(t, batch, b)
          else b == Enabled(t) && Enabled(t) - d == {LastHit(t, batch, b)})
  {
    var d, b := DailyExpired(t, now), BatchExpired(t, now);
    assert d <= b <= Enabled(t);
    ListedHits(t, daily, d);
    ListedHits(t, batch, b);
    BatchIsSweep(t, batch, b);
    SameIffSpared(t, daily, d, batch, b);
    SparedBySubset(t, daily, d, batch, b);
  }

  lemma {:induction false} SameIffSpared(t: Table, daily: seq<string>, d: set<string>, batch: seq<string>, b: set<string>)
    requires Lists(daily, t) && Lists(batch, t)
    ensures Sweep(t, daily, d) == Sweep(t, batch, b) <==> Spared(t, daily, d) == Spared(t, batch, b)
  {
    SweepLeaves(t, daily, d);
    SweepLeaves(t, batch, b);
    var x, y := Sweep(t, daily, d), Sweep(t, batch, b);
    if Enabled(x) == Enabled(y) {
      forall l | l in t ensures x[l] == y[l] {}
      assert x == y;
    }
  }

  lemma {:induction false} SparedBySubset(t: Table, daily: seq<string>, d: set<string>, batch: seq<string>, b: set<string>)
    requires d <= b <= Enabled(t) && Hit(t, daily, d) == d && Hit(t, batch, b) == b
    ensures Spared(t, daily, d) == Spared(t, batch, b) <==>
      if d == b then b == Enabled(t) && b != {} ==> LastHit(t, daily, d) == LastHit(t, batch, b)
      else b == Enabled(t) && Enabled(t) - d == {LastHit(t, batch, b)}
  {
    var e := Enabled(t);
    if d != b {
      var l :| l in b && l !in d;
      assert l in e - d && l !in e - b;
    } else if b == e && b != {} {
      LastHitIsHit(t, daily, d);
      LastHitIsHit(t, batch, b);
      assert {LastHit(t, daily, d)} == {LastHit(t, batch, b)} <==> LastHit(t, daily, d) == LastHit(t, batch, b);
    }
  }

  /** In one listing order the passes agree at every moment when no enabled secret carries an
      expiry that only the batch can read. */
  lemma {:induction false} PassesAgreeOnDates(t: Table, order: seq<string>, now: int)
    requires Lists(order, t) && forall l | l in Enabled(t) :: !t[l].expiry.AtTime?
    ensures Sweep(t, order, DailyExpired(t, now)) == DisableExpired(t, order, BatchExpired(t, now))
  {
    assert DailyExpired(t, now) == BatchExpired(t, now);
    BatchIsSweep(t, order, BatchExpired(t, now));
  }

  /** An enabled secret with a time of day, such as every extension writes, is never disabled
      by the periodic check, however long ago it expired; and as soon as it has, and another
      secret has not, the passes part. */
  lemma {:induction false} ExtendedSecretsOutliveTheCheck(t: Table, order: seq<string>, now: int, l: string)
    requires Lists(order, t) && l in Enabled(t) && t[l].expiry.AtTime?
    ensures l in Enabled(Sweep(t, order, DailyExpired(t, now)))
    ensures now > t[l].expiry.at && BatchExpired(t, now) != Enabled(t) ==>
              l !in Enabled(DisableExpired(t, order, BatchExpired(t, now)))
  {
    var d, b := DailyExpired(t, now), BatchExpired(t, now);
    ListedHits(t, order, d);
    ListedHits(t, order, b);
    SweepLeaves(t, order, d);
    SparedIsEnabled(t, order, d);
    BatchIsSweep(t, order, b);
    SweepLeaves(t, order, b);
  }

  // ---------- bulk toggling ----------

  /** The labels that are enabled now, a duplicate counting as often as it is given. */
  function CountListed(t: Table, labels: seq<string>): nat {
    if labels == [] then 0
    else
      var l := labels[|labels| - 1];
      CountListed(t, labels[..|labels| - 1]) + if l in t && t[l].enabled then 1 else 0
  }

  function Listed(t: Table, labels: seq<string>): set<string> {
    set l | l in labels && l in t && t[l].enabled
  }

  function SetAll(t: Table, labels: seq<string>, on: bool): Table {
    if labels == [] then t else SetEnabled(SetAll(t, labels[..|labels| - 1], on), labels[|labels| - 1], on)
  }

  predicate BulkAllowed(t: Table, labels: seq<string>, enable: bool) {
    enable || (|Listed(t, labels)| < |Enabled(t)| && CountListed(t, labels) < |Enabled(t)|)
  }

  lemma {:induction false} ListedAtMostCount(t: Table, labels: seq<string>)
    ensures |Listed(t, labels)| <= CountListed(t, labels)
    ensures Distinct(labels) ==> |Listed(t, labels)| == CountListed(t, labels)
  {
    if labels == [] {
      assert Listed(t, labels) == {};
    } else {
      var init, l := labels[..|labels| - 1], labels[|labels| - 1];
      ListedAtMostCount(t, init);
      assert labels == init + [l];
      assert Listed(t, labels) == Listed(t, init) + if l in t && t[l].enabled then {l} else {};
    }
  }

  lemma {:induction false} SetAllLeaves(t: Table, labels: seq<string>, on: bool)
    ensures var t' := SetAll(t, labels, on);
      t'.Keys == t.Keys && forall l | l in t :: t'[l] == if l in labels then t[l].(enabled := on) else t[l]
  {
    if labels != [] {
      SetAllLeaves(t, labels[..|labels| - 1], on);
      assert labels == labels[..|labels| - 1] + [labels[|labels| - 1]];
    }
  }

  lemma {:induction false} EnabledAfterBulk(t: Table, labels: seq<string>)
    ensures Enabled(SetAll(t, labels, false)) == Enabled(t) - Listed(t, labels)
  {
    SetAllLeaves(t, labels, false);
  }

  lemma LessLeavesSome(a: set<string>, b: set<string>)
    requires |a| < |b|
    ensures b - a != {}
  {
    if b - a == {} {
      forall x | x in b ensures x in a {
        assert x !in b - a;
      }
      SubsetSize(b, a);
    }
  }

  /** A request to disable is accepted exactly when the labels, each as often as it is given,
      are fewer than the enabled secrets; it then leaves one enabled, and for distinct labels
      it is refused only when it would not. */
  lemma {:induction false} BulkRefusalIff(t: Table, labels: seq<string>)
    ensures BulkAllowed(t, labels, false) <==> CountListed(t, labels) < |Enabled(t)|
    ensures BulkAllowed(t, labels, false) ==> Enabled(t) - Listed(t, labels) != {}
    ensures Distinct(labels) && Enabled(t) - Listed(t, labels) != {} ==> BulkAllowed(t, labels, false)
  {
    ListedAtMostCount(t, labels);
    if |Listed(t, labels)| < |Enabled(t)| {
      LessLeavesSome(Listed(t, labels), Enabled(t));
    } else {
      assert Listed(t, labels) <= Enabled(t);
      SubsetOfSameSize(Listed(t, labels), Enabled(t));
    }
  }

  /** Of two enabled secrets one named twice: the request is refused although it is harmless. */
  lemma DuplicateIsRefused(t: Table, l: string)
    requires l in Enabled(t) && |Enabled(t)| == 2
    ensures !BulkAllowed(t, [l, l], false) && Enabled(t) - Listed(t, [l, l]) != {}
  {
    assert [l, l][..1] == [l] && [l][..0] == [];
    assert CountListed(t, [l]) == 1 && CountListed(t, [l, l]) == 2;
    assert Listed(t, [l, l]) == {l};
    OneOfMany(Enabled(t), l);
  }

  // ---------- operations ----------

  /** The table, and the labels already alerted at a hundred percent. */
  datatype State = State(secrets: Table, alerted: set<string>)

  /** A secret to import; `valid` is whether its label and key are. */
  datatype Entry = Entry(l: string, valid: bool, quotaBytes: int, expiry: Expiry)

  datatype Op =
    | Add(l: string, valid: bool)
    | Clone(src: string, l: string, valid: bool)
    | ImportSecrets(entries: seq<Entry>)
    | Remove(l: string)                                  // without force
    | Toggle(l: string, enable: bool)
    | BulkToggle(labels: seq<string>, enable: bool)
    | DisableExpiredOp(order: seq<string>, now: int)
    | CheckExpirations(order: seq<string>, now: int)
    | CheckQuotas(order: seq<string>, usage: map<string, nat>)

  ghost predicate CanOccur(s: State, op: Op) {
    op.DisableExpiredOp? || op.CheckExpirations? || op.CheckQuotas? ==> Lists(op.order, s.secrets)
  }

  function Usage(usage: map<string, nat>, l: string): nat {
    if l in usage then usage[l] else 0
  }

  predicate Exceeds(sec: Secret, total: nat) {
    sec.quotaBytes > 0 && total > 0 && Percent(total, sec.quotaBytes) >= 100
  }

  /** Over their quota, and not alerted for it before. */
  function OverQuota(s: State, usage: map<string, nat>): set<string> {
    set l | l in s.secrets && s.secrets[l].enabled && Exceeds(s.secrets[l], Usage(usage, l)) && l !in s.alerted
  }

  function Import(t: Table, entries: seq<Entry>): Table {
    if entries == [] then t
    else
      var t', e := Import(t, entries[..|entries| - 1]), entries[|entries| - 1];
      if e.valid && e.l !in t' then t'[e.l := Secret(true, e.quotaBytes, e.expiry)] else t'
  }

  function Next(s: State, op: Op): State {
    var t := s.secrets;
    match op
    case Add(l, valid) =>
      if !valid || |t| >= MAX_SECRETS || l in t then s else s.(secrets := t[l := Secret(true, 0, Never)])
    case Clone(src, l, valid) =>
      if !valid || l in t || |t| >= MAX_SECRETS || src !in t then s else s.(secrets := t[l := t[src]])
    case ImportSecrets(entries) =>
      if |t| + |entries| > MAX_SECRETS then s else s.(secrets := Import(t, entries))
    case Remove(l) =>
      if l !in t || (t[l].enabled && |Enabled(t)| <= 1) then s else s.(secrets := t - {l})
    case Toggle(l, enable) =>
      if l !in t || (!enable && |Enabled(t)| <= 1) then s else s.(secrets := SetEnabled(t, l, enable))
    case BulkToggle(labels, enable) =>
      if BulkAllowed(t, labels, enable) then s.(secrets := SetAll(t, labels, enable)) else s
    case DisableExpiredOp(order, now) => s.(secrets := DisableExpired(t, order, BatchExpired(t, now)))
    case CheckExpirations(order, now) => s.(secrets := Sweep(t, order, DailyExpired(t, now)))
    case CheckQuotas(order, usage) =>
      State(Sweep(t, order, OverQuota(s, usage)), s.alerted + OverQuota(s, usage))
  }

  /** Some valid entry has the label. */
  ghost predicate Offers(entries: seq<Entry>, l: string) {
    exists i :: 0 <= i < |entries| && entries[i].valid && entries[i].l == l
  }

  /** What was there is as it was; each new label among the valid entries is an enabled secret
      with the quota and expiry of its first entry. */
  ghost predicate Imported(before: Table, entries: seq<Entry>, after: Table) {
    && (forall l :: l in after <==> l in before || Offers(entries, l))
    && (forall l | l in before :: after[l] == before[l])
    && FirstEntries(before, entries, after)
  }

  ghost predicate FirstEntries(before: Table, entries: seq<Entry>, after: Table) {
    forall i | 0 <= i < |entries| && entries[i].valid && entries[i].l !in before && !Offers(entries[..i], entries[i].l) ::
      entries[i].l in after && after[entries[i].l] == Secret(true, entries[i].quotaBytes, entries[i].expiry)
  }

  lemma OffersOneMore(init: seq<Entry>, e: Entry, l: string)
    ensures Offers(init + [e], l) <==> Offers(init, l) || (e.valid && e.l == l)
  {
    var all := init + [e];
    assert all[|init|] == e;
    if i :| 0 <= i < |init| && init[i].valid && init[i].l == l {
      assert all[i] == init[i];
    }
  }

  lemma FirstEntriesOneMore(t: Table, init: seq<Entry>, e: Entry, after: Table)
    requires FirstEntries(t, init, after) && forall l :: l in after <==> l in t || Offers(init, l)
    ensures FirstEntries(t, init + [e], if e.valid && e.l !in after then after[e.l := Secret(true, e.quotaBytes, e.expiry)] else after)
  {
    var all, after' := init + [e], if e.valid && e.l !in after then after[e.l := Secret(true, e.quotaBytes, e.expiry)] else after;
    assert forall l | l in after :: l in after' && after'[l] == after[l];
    forall i | 0 <= i < |all| && all[i].valid && all[i].l !in t && !Offers(all[..i], all[i].l)
      ensures all[i].l in after' && after'[all[i].l] == Secret(true, all[i].quotaBytes, all[i].expiry)
    {
      if i < |init| {
        assert all[..i] == init[..i];
        assert init[i].l in after && after[init[i].l] == Secret(true, init[i].quotaBytes, init[i].expiry);
      } else {
        assert all[..i] == init;
      }
    }
  }

  lemma {:induction false} ImportImports(t: Table, entries: seq<Entry>)
    ensures Imported(t, entries, Import(t, entries))
  {
    if entries != [] {
      var init, e := entries[..|entries| - 1], entries[|entries| - 1];
      ImportImports(t, init);
      assert entries == init + [e];
      forall l ensures l in Import(t, entries) <==> l in t || Offers(entries, l) {
        OffersOneMore(init, e, l);
      }
      FirstEntriesOneMore(t, init, e, Import(t, init));
    }
  }

  lemma {:induction false} ImportKeeps(t: Table, entries: seq<Entry>)
    ensures Enabled(t) <= Enabled(Import(t, entries))
    ensures forall l | l in t :: l in Import(t, entries) && Import(t, entries)[l] == t[l]
  {
    if entries != [] {
      ImportKeeps(t, entries[..|entries| - 1]);
    }
  }

  lemma OneOfMany(s: set<string>, l: string)
    requires |s| > 1
    ensures s - {l} != {}
  {
    if s - {l} == {} {
      assert s <= {l};
      SubsetSize(s, {l});
    }
  }

  lemma RemoveKeepsOne(t: Table, l: string)
    requires Enabled(t) != {} && l in t && !(t[l].enabled && |Enabled(t)| <= 1)
    ensures Enabled(t - {l}) != {}
  {
    assert Enabled(t - {l}) == Enabled(t) - {l};
    if t[l].enabled { OneOfMany(Enabled(t), l); }
  }

  lemma StepKeepsOne(s: State, op: Op)
    requires CanOccur(s, op) && Enabled(s.secrets) != {}
    ensures Enabled(Next(s, op).secrets) != {}
  {
    var t := s.secrets;
    match op
    case Add(l, valid) => assert Enabled(t) <= Enabled(t[l := Secret(true, 0, Never)]);
    case Clone(src, l, valid) =>
      if src in t && l !in t { assert Enabled(t) <= Enabled(t[l := t[src]]); }
    case ImportSecrets(entries) => ImportKeeps(t, entries);
    case Remove(l) =>
      if l in t && !(t[l].enabled && |Enabled(t)| <= 1) { RemoveKeepsOne(t, l); }
    case Toggle(l, enable) =>
      EnabledAfter(t, l, enable);
      if l in t && !enable && |Enabled(t)| > 1 { OneOfMany(Enabled(t), l); }
    case BulkToggle(labels, enable) => BulkKeepsOne(t, labels, enable);
    case DisableExpiredOp(order, now) =>
      BatchIsSweep(t, order, BatchExpired(t, now));
      SweepIsSafe(t, order, BatchExpired(t, now));
    case CheckExpirations(order, now) => SweepIsSafe(t, order, DailyExpired(t, now));
    case CheckQuotas(order, usage) => SweepIsSafe(t, order, OverQuota(s, usage));
  }

  lemma {:induction false} BulkKeepsOne(t: Table, labels: seq<string>, enable: bool)
    requires Enabled(t) != {}
    ensures BulkAllowed(t, labels, enable) ==> Enabled(SetAll(t, labels, enable)) != {}
  {
    if enable {
      SetAllLeaves(t, labels, true);
      assert Enabled(t) <= Enabled(SetAll(t, labels, true));
    } else if BulkAllowed(t, labels, false) {
      EnabledAfterBulk(t, labels);
      BulkRefusalIff(t, labels);
    }
  }

  ghost predicate IsRun(states: seq<State>, ops: seq<Op>) {
    && |states| == |ops| + 1
    && forall i | 0 <= i < |ops| :: CanOccur(states[i], ops[i]) && states[i + 1] == Next(states[i], ops[i])
  }

  /** From any state with an enabled secret, every run of operations leaves one enabled. */
  lemma {:induction false} LastSecretStays(states: seq<State>, ops: seq<Op>, n: nat)
    requires IsRun(states, ops) && n <= |ops| && Enabled(states[0].secrets) != {}
    ensures Enabled(states[n].secrets) != {}
  {
    if n > 0 {
      LastSecretStays(states, ops, n - 1);
      StepKeepsOne(states[n - 1], ops[n - 1]);
    }
  }

  // ---------- what the quota check achieves, and what it does not ----------

  /** Exactly the enabled, not yet alerted secrets whose wrapped hundredfold total reaches
      their quota are disabled, except one if they are all there is; and where the product
      fits an int64, those are the secrets at or over their quota. */
  lemma QuotaCheckDisables(s: State, order: seq<string>, usage: map<string, nat>, l: string)
    requires Lists(order, s.secrets) && l in s.secrets && s.secrets[l].enabled
    ensures var after := Enabled(Next(s, CheckQuotas(order, usage)).secrets);
      if Due(s, usage, l) then l !in after || after == {l} else l in after
    ensures Usage(usage, l) * 100 < LIMIT64 ==>
              (Due(s, usage, l) <==>
               s.secrets[l].quotaBytes > 0 && Usage(usage, l) >= s.secrets[l].quotaBytes && l !in s.alerted)
  {
    SweepDecides(s.secrets, order, OverQuota(s, usage), l);
    DueIsHit(s, usage, l);
    DueInRange(s, usage, l);
  }

  lemma {:induction false} SweepDecides(t: Table, order: seq<string>, hits: set<string>, l: string)
    requires Lists(order, t) && l in t && t[l].enabled
    ensures var after := Enabled(Sweep(t, order, hits)); if l in hits then l !in after || after == {l} else l in after
  {
    assert l in Enabled(t);
    SweepIsSafe(t, order, hits);
    SweepLeaves(t, order, hits);
    SparedIsEnabled(t, order, hits);
    assert l in hits <==> l in Hit(t, order, hits);
  }

  lemma {:induction false} SweepSkips(t: Table, order: seq<string>, hits: set<string>, l: string)
    requires Lists(order, t) && l in t && l !in hits
    ensures l in Sweep(t, order, hits) && Sweep(t, order, hits)[l] == t[l]
  {
    SweepLeaves(t, order, hits);
    SparedIsEnabled(t, order, hits);
    assert l !in Hit(t, order, hits);
  }

  predicate Due(s: State, usage: map<string, nat>, l: string)
    requires l in s.secrets
  {
    s.secrets[l].quotaBytes > 0 && Wrap64(Usage(usage, l) * 100) >= 100 * s.secrets[l].quotaBytes && l !in s.alerted
  }

  lemma DueIsHit(s: State, usage: map<string, nat>, l: string)
    requires l in s.secrets && s.secrets[l].enabled
    ensures Due(s, usage, l) <==> l in OverQuota(s, usage)
  {
    if s.secrets[l].quotaBytes > 0 { PercentTests(Usage(usage, l), s.secrets[l].quotaBytes); }
  }

  lemma DueInRange(s: State, usage: map<string, nat>, l: string)
    requires l in s.secrets
    ensures Usage(usage, l) * 100 < LIMIT64 ==>
              (Due(s, usage, l) <==>
               s.secrets[l].quotaBytes > 0 && Usage(usage, l) >= s.secrets[l].quotaBytes && l !in s.alerted)
  {
  }

  /** Alerts are recorded whether or not the secret could be disabled, and nothing here takes
      them back: from then on no quota check of any run changes that secret again. */
  lemma AlertedIsNeverDisabledAgain(s: State, order: seq<string>, usage: map<string, nat>, l: string)
    requires Lists(order, s.secrets) && l in s.alerted && l in s.secrets
    ensures l in Next(s, CheckQuotas(order, usage)).secrets
    ensures Next(s, CheckQuotas(order, usage)).secrets[l] == s.secrets[l]
  {
    SweepSkips(s.secrets, order, OverQuota(s, usage), l);
  }

  lemma {:induction false} AlertsStay(states: seq<State>, ops: seq<Op>, m: nat, n: nat)
    requires IsRun(states, ops) && m <= n <= |ops|
    ensures states[m].alerted <= states[n].alerted
  {
    if n > m {
      AlertsStay(states, ops, m, n - 1);
    }
  }

  /** A secret that was spared as the last one stays enabled over its quota through every
      later quota check, however many other secrets have been enabled since. */
  lemma SparedForGood(states: seq<State>, ops: seq<Op>, m: nat, n: nat, l: string)
    requires IsRun(states, ops) && m < n < |ops| && ops[m].CheckQuotas? && ops[n].CheckQuotas?
    requires l in OverQuota(states[m], ops[m].usage) && l in states[n].secrets
    ensures l in states[n + 1].secrets && states[n + 1].secrets[l] == states[n].secrets[l]
  {
    AlertsStay(states, ops, m + 1, n);
    AlertedIsNeverDisabledAgain(states[n], ops[n].order, ops[n].usage, l);
  }

  // ---------- overlapping requests ----------

  /** The two statements of a request to disable a secret: its count of the enabled ones, and
      its update. */
  datatype Statement = Count(id: nat, l: string) | Write(id: nat)

  /** The requests whose count let them pass and whose update is still to come. */
  datatype Requests = Requests(secrets: Table, pending: map<nat, string>)

  predicate Passes(r: Requests, st: Statement) {
    st.Count? && st.id !in r.pending && st.l in r.secrets && |Enabled(r.secrets)| > 1
  }

  function Do(r: Requests, st: Statement): Requests {
    match st
    case Count(id, l) => if Passes(r, st) then r.(pending := r.pending[id := l]) else r
    case Write(id) =>
      if id in r.pending then Requests(SetEnabled(r.secrets, r.pending[id], false), r.pending - {id}) else r
  }

  function DoAll(r: Requests, sts: seq<Statement>): Requests {
    if sts == [] then r else Do(DoAll(r, sts[..|sts| - 1]), sts[|sts| - 1])
  }

  /** Whatever is still enabled is about to be disabled. */
  ghost predicate Exposed(r: Requests) {
    Enabled(r.secrets) <= r.pending.Values
  }

  /** The request passes although, with those under way, it takes all there is. */
  ghost predicate Overdraws(r: Requests, st: Statement) {
    Passes(r, st) && Enabled(r.secrets) <= r.pending.Values + {st.l}
  }

  lemma ExposedAfter(r: Requests, st: Statement)
    ensures Exposed(Do(r, st)) <==> Exposed(r) || Overdraws(r, st)
  {
    if Passes(r, st) {
      CountedPending(r.pending, st.id, st.l);
    } else if st.Write? && st.id in r.pending {
      var l := r.pending[st.id];
      EnabledAfter(r.secrets, l, false);
      WrittenPending(r.pending, st.id);
      assert l !in r.secrets ==> l !in Enabled(r.secrets);
    }
  }

  lemma CountedPending(pending: map<nat, string>, id: nat, l: string)
    requires id !in pending
    ensures pending[id := l].Values == pending.Values + {l}
  {
    assert forall j | j in pending :: pending[id := l][j] == pending[j];
    assert pending[id := l][id] == l;
  }

  lemma WrittenPending(pending: map<nat, string>, id: nat)
    requires id in pending
    ensures (pending - {id}).Values <= pending.Values <= (pending - {id}).Values + {pending[id]}
  {
    forall l | l in pending.Values ensures l in (pending - {id}).Values + {pending[id]} {
      var j :| j in pending && pending[j] == l;
      assert j != id ==> (pending - {id})[j] == l;
    }
  }

  ghost predicate OverdrawsAt(r: Requests, sts: seq<Statement>, n: nat)
    requires n < |sts|
  {
    Overdraws(DoAll(r, sts[..n]), sts[n])
  }

  lemma {:induction false} ExposedByOne(r: Requests, sts: seq<Statement>) returns (n: nat)
    requires !Exposed(r) && Exposed(DoAll(r, sts))
    ensures n < |sts| && OverdrawsAt(r, sts, n)
  {
    var init, k := sts[..|sts| - 1], |sts| - 1;
    ExposedAfter(DoAll(r, init), sts[k]);
    if Exposed(DoAll(r, init)) {
      n := ExposedByOne(r, init);
      assert init[..n] == sts[..n];
    } else {
      n := k;
    }
  }

  lemma {:induction false} StaysExposed(r: Requests, sts: seq<Statement>, n: nat)
    requires n < |sts| && OverdrawsAt(r, sts, n)
    ensures Exposed(DoAll(r, sts))
  {
    var init, k := sts[..|sts| - 1], |sts| - 1;
    ExposedAfter(DoAll(r, init), sts[k]);
    if n < k {
      assert init[..n] == sts[..n];
      StaysExposed(r, init, n);
    }
  }

  /** However requests to disable secrets overlap, once all that passed have written, one is
      still enabled if and only if none of them passed when, with those under way, it took all
      that was enabled. */
  lemma {:induction false} OverlapKeepsOneIff(t: Table, sts: seq<Statement>)
    requires Enabled(t) != {} && DoAll(Requests(t, map[]), sts).pending == map[]
    ensures Enabled(DoAll(Requests(t, map[]), sts).secrets) != {} <==>
            forall n | 0 <= n < |sts| :: !OverdrawsAt(Requests(t, map[]), sts, n)
  {
    var r := Requests(t, map[]);
    assert r.pending.Values == {};
    assert DoAll(r, sts).pending.Values == {};
    if Exposed(DoAll(r, sts)) {
      var n := ExposedByOne(r, sts);
    }
    if n :| 0 <= n < |sts| && OverdrawsAt(r, sts, n) {
      StaysExposed(r, sts, n);
    }
  }

  /** With none under way the count is guard enough. */
  lemma OneAtATimeNeverOverdraws(r: Requests, st: Statement)
    requires r.pending == map[]
    ensures !Overdraws(r, st)
  {
    if Passes(r, st) && Enabled(r.secrets) <= r.pending.Values + {st.l} {
      assert r.pending.Values == {};
      SubsetSize(Enabled(r.secrets), {st.l});
    }
  }

  /** Two requests that have both counted two enabled secrets before either writes. */
  lemma OverlappingTogglesLoseAll(t: Table, a: string, b: string)
    requires Enabled(t) == {a, b} && a != b
    ensures var end := DoAll(Requests(t, map[]), [] + [Count(0, a)] + [Count(1, b)] + [Write(0)] + [Write(1)]);
      end.pending == map[] && Enabled(end.secrets) == {}
  {
    var start, counts := Requests(t, map[]), [] + [Count(0, a)] + [Count(1, b)];
    BothCounted(t, a, b);
    BothWritten(t, a, b);
    var r := Requests(t, map[0 := a, 1 := b]);
    DoOne(start, counts, Write(0));
    DoOne(start, counts + [Write(0)], Write(1));
    assert DoAll(start, counts) == r;
  }

  lemma BothCounted(t: Table, a: string, b: string)
    requires Enabled(t) == {a, b} && a != b
    ensures DoAll(Requests(t, map[]), [] + [Count(0, a)] + [Count(1, b)]) == Requests(t, map[0 := a, 1 := b])
  {
    var start := Requests(t, map[]);
    assert a in Enabled(t) && b in Enabled(t);
    Singleton({a, b}, a);
    DoOne(start, [], Count(0, a));
    DoOne(start, [] + [Count(0, a)], Count(1, b));
    assert Do(start, Count(0, a)) == Requests(t, map[0 := a]);
    assert map[0 := a][1 := b] == map[0 := a, 1 := b];
  }

  lemma BothWritten(t: Table, a: string, b: string)
    requires Enabled(t) == {a, b} && a != b
    ensures var end := Do(Do(Requests(t, map[0 := a, 1 := b]), Write(0)), Write(1));
      end.pending == map[] && Enabled(end.secrets) == {}
  {
    assert a in Enabled(t) && b in Enabled(t);
    EnabledAfter(t, a, false);
    EnabledAfter(SetEnabled(t, a, false), b, false);
    assert map[0 := a, 1 := b] - {0} == map[1 := b] && map[1 := b] - {1} == map[];
  }

  lemma {:induction false} DoOne(r: Requests, sts: seq<Statement>, st: Statement)
    ensures DoAll(r, sts + [st]) == Do(DoAll(r, sts), st)
  {
    assert (sts + [st])[..|sts|] == sts;
  }
}
