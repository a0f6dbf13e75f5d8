/**
 The global counter beside the per-user ledger.  It follows the sum of all counters on
 all instances, so it agrees with the ledger as long as that sum never hides a change:
 every instance scraped and committed in every flush, no counter falling or vanishing.
 */
module TrafficGlobal {
  import opened Common
  import opened OctetSums
  import opened TrafficLedger

  /** The flush sees every instance that has rows, and each of them once. */
  ghost predicate AllScraped(users: Users, reports: seq<Report>) {
    && (forall i | 0 <= i < |reports| :: reports[i].scrape.Some? && reports[i].commits)
    && (forall i, j | 0 <= i < j < |reports| :: reports[i].inst != reports[j].inst)
    && (forall k | k in users :: exists i :: 0 <= i < |reports| && reports[i].inst == k.1)
  }

  ghost predicate NoneFalls(users: Users, live: map<string, Octets>, inst: int, d: Dir) {
    forall k | k in users && k.1 == inst :: k.0 in live && users[k].snap.Of(d) <= live[k.0].Of(d)
  }

  ghost predicate Monotone(users: Users, reports: seq<Report>) {
    forall i, d: Dir | 0 <= i < |reports| && reports[i].scrape.Some? ::
      NoneFalls(users, reports[i].scrape.value.live, reports[i].inst, d)
  }

  /** Nothing has restarted yet: every row has counted exactly its snapshot. */
  ghost predicate Level(users: Users) {
    forall k | k in users :: users[k].bytes == users[k].snap
  }

  ghost function InstRows(users: Users, inst: int): map<Key, Octets> {
    map k | k in users && k.1 == inst :: users[k].bytes
  }

  // ---------- one instance ----------

  ghost function InstSum(users: Users, inst: int, d: Dir): nat {
    Sum(InstRows(users, inst), d)
  }

  ghost function DeltaSum(users: Users, live: map<string, Octets>, inst: int, d: Dir): nat {
    Sum(BytesOf(UserDeltas(live, users, inst)), d)
  }

  lemma PickInstRow(users: Users, key: Key, d: Dir)
    ensures InstSum(users, key.1, d) ==
            RowOf(users, key).bytes.Of(d) + InstSum(users - {key}, key.1, d)
  {
    var rows := InstRows(users, key.1);
    assert InstRows(users - {key}, key.1) == rows - {key};
    if key in users {
      SumPick(rows, key, d);
    } else {
      assert rows - {key} == rows;
    }
  }

  lemma DeltasWithout(users: Users, live: map<string, Octets>, inst: int, l: string)
    ensures UserDeltas(live - {l}, users - {(l, inst)}, inst) == UserDeltas(live, users, inst) - {l}
  {
    forall u | u != l ensures RowOf(users - {(l, inst)}, (u, inst)) == RowOf(users, (u, inst)) {}
  }

  lemma PickDelta(users: Users, live: map<string, Octets>, inst: int, l: string, d: Dir)
    requires l in live
    ensures DeltaSum(users, live, inst, d) ==
            Delta(live[l].Of(d), RowOf(users, (l, inst)).snap.Of(d))
            + DeltaSum(users - {(l, inst)}, live - {l}, inst, d)
  {
    var deltas := UserDeltas(live, users, inst);
    DeltasWithout(users, live, inst, l);
    assert BytesOf(deltas - {l}) == BytesOf(deltas) - {l};
    if l in deltas {
      SumPick(BytesOf(deltas), l, d);
    } else {
      assert deltas - {l} == deltas;
    }
  }

  lemma FewerRowsFewerUsers(users: Users, live: map<string, Octets>, inst: int, l: string)
    requires Level(users) && NoneFalls(users, live, inst, In) && NoneFalls(users, live, inst, Out) && l in live
    ensures var fewerUsers, fewerLive := users - {(l, inst)}, live - {l};
            Level(fewerUsers) && NoneFalls(fewerUsers, fewerLive, inst, In) && NoneFalls(fewerUsers, fewerLive, inst, Out)
    ensures forall d: Dir :: RowOf(users, (l, inst)).snap.Of(d) <= live[l].Of(d)
    ensures RowOf(users, (l, inst)).bytes == RowOf(users, (l, inst)).snap
  {
  }

  lemma {:induction false} LiveSumStep(users: Users, live: map<string, Octets>, inst: int, l: string, d: Dir)
    requires l in live
    requires RowOf(users, (l, inst)).bytes == RowOf(users, (l, inst)).snap
    requires RowOf(users, (l, inst)).snap.Of(d) <= live[l].Of(d)
    requires Sum(live - {l}, d) == InstSum(users - {(l, inst)}, inst, d) + DeltaSum(users - {(l, inst)}, live - {l}, inst, d)
    ensures Sum(live, d) == InstSum(users, inst, d) + DeltaSum(users, live, inst, d)
  {
    SumPick(live, l, d);
    PickInstRow(users, (l, inst), d);
    PickDelta(users, live, inst, l, d);
  }

  lemma LiveSumNone(users: Users, inst: int, d: Dir)
    requires NoneFalls(users, map[], inst, d)
    ensures InstSum(users, inst, d) == DeltaSum(users, map[], inst, d) == 0
  {
    assert InstRows(users, inst) == map[];
    assert BytesOf(UserDeltas(map[], users, inst)) == map[];
  }

  lemma {:induction false} LiveSum(users: Users, live: map<string, Octets>, inst: int, d: Dir)
    requires Level(users) && NoneFalls(users, live, inst, In) && NoneFalls(users, live, inst, Out)
    ensures Sum(live, d) == InstSum(users, inst, d) + DeltaSum(users, live, inst, d)
    decreases |live|
  {
    if live == map[] {
      LiveSumNone(users, inst, d);
    } else {
      var l :| l in live;
      FewerRowsFewerUsers(users, live, inst, l);
      LiveSum(users - {(l, inst)}, live - {l}, inst, d);
      LiveSumStep(users, live, inst, l, d);
    }
  }

  lemma UpsertKeepsLevel(users: Users, live: map<string, Octets>, inst: int)
    requires Level(users) && NoneFalls(users, live, inst, In) && NoneFalls(users, live, inst, Out)
    ensures Level(Upsert(users, UserDeltas(live, users, inst), inst))
  {
    var deltas := UserDeltas(live, users, inst);
    var after := Upsert(users, deltas, inst);
    forall k | k in after ensures after[k].bytes == after[k].snap {
      assert k == (k.0, k.1);
      if k.1 == inst && k.0 in deltas {
        assert k in users ==> users[k].snap.received <= live[k.0].received && users[k].snap.sent <= live[k.0].sent by {
          assert k in users ==> users[k].snap.Of(In) <= live[k.0].Of(In) && users[k].snap.Of(Out) <= live[k.0].Of(Out);
        }
      }
    }
  }

  /** Rows of this instance stay level; rows of others are left alone. */
  lemma InstanceKeepsLevel(users: Users, acc: Acc, r: Report)
    requires Level(users) && r.scrape.Some?
    requires NoneFalls(users, r.scrape.value.live, r.inst, In) && NoneFalls(users, r.scrape.value.live, r.inst, Out)
    ensures Level(FlushInstance(users, acc, r).0)
  {
    UpsertKeepsLevel(users, r.scrape.value.live, r.inst);
  }

  lemma InstanceLeavesOthers(users: Users, acc: Acc, r: Report, k: Key)
    requires k.1 != r.inst
    ensures k in FlushInstance(users, acc, r).0 <==> k in users
    ensures RowOf(FlushInstance(users, acc, r).0, k) == RowOf(users, k)
  {
  }

  // ---------- the whole flush ----------

  /** The ledger's bytes on the instances of the first `n` reports. */
  ghost function PartSum(users: Users, reports: seq<Report>, n: nat, d: Dir): nat
    requires n <= |reports|
  {
    if n == 0 then 0 else PartSum(users, reports, n - 1, d) + InstSum(users, reports[n - 1].inst, d)
  }

  ghost predicate SeenBefore(reports: seq<Report>, n: nat, inst: int)
    requires n <= |reports|
  {
    exists i :: 0 <= i < n && reports[i].inst == inst
  }

  ghost function PartRows(users: Users, reports: seq<Report>, n: nat): map<Key, Octets>
    requires n <= |reports|
  {
    map k | k in users && SeenBefore(reports, n, k.1) :: users[k].bytes
  }

  lemma PartRowsSplit(users: Users, reports: seq<Report>, n: nat)
    requires n < |reports| && !SeenBefore(reports, n, reports[n].inst)
    ensures var part, rows := PartRows(users, reports, n + 1), InstRows(users, reports[n].inst);
            && (map k | k in part && k in rows.Keys :: part[k]) == rows
            && part - rows.Keys == PartRows(users, reports, n)
  {
    forall inst ensures SeenBefore(reports, n + 1, inst) <==> SeenBefore(reports, n, inst) || inst == reports[n].inst {
      assert inst == reports[n].inst ==> SeenBefore(reports, n + 1, inst);
    }
  }

  lemma {:induction false} PartSumIsSum(users: Users, reports: seq<Report>, n: nat, d: Dir)
    requires n <= |reports|
    requires forall i, j | 0 <= i < j < |reports| :: reports[i].inst != reports[j].inst
    ensures PartSum(users, reports, n, d) == Sum(PartRows(users, reports, n), d)
  {
    if n == 0 {
      assert PartRows(users, reports, n) == map[];
    } else {
      PartSumIsSum(users, reports, n - 1, d);
      PartRowsSplit(users, reports, n - 1);
      SumSplit(PartRows(users, reports, n), InstRows(users, reports[n - 1].inst).Keys, d);
    }
  }

  ghost predicate FlushedSoFar(users0: Users, reports: seq<Report>, n: nat, users: Users, acc: Acc, d: Dir)
    requires n <= |reports|
  {
    && Level(users)
    && acc.seen.Of(d) == PartSum(users0, reports, n, d) + acc.moved.Of(d)
    && (forall k: Key :: !SeenBefore(reports, n, k.1) ==> (k in users <==> k in users0) && RowOf(users, k) == RowOf(users0, k))
  }

  lemma SeenGrows(users0: Users, reports: seq<Report>, n: nat, users: Users, acc: Acc, d: Dir)
    requires n < |reports| && AllScraped(users0, reports) && Monotone(users0, reports)
    requires FlushedSoFar(users0, reports, n, users, acc, d)
    ensures var r := reports[n];
            && NoneFalls(users, r.scrape.value.live, r.inst, In) && NoneFalls(users, r.scrape.value.live, r.inst, Out)
            && InstRows(users, r.inst) == InstRows(users0, r.inst)
  {
    var r := reports[n];
    assert !SeenBefore(reports, n, r.inst);
    assert NoneFalls(users0, r.scrape.value.live, r.inst, In) && NoneFalls(users0, r.scrape.value.live, r.inst, Out);
    assert forall k: Key | k.1 == r.inst :: (k in users <==> k in users0) && RowOf(users, k) == RowOf(users0, k);
  }

  lemma InstanceMatches(users: Users, acc: Acc, r: Report, d: Dir)
    requires Level(users) && r.scrape.Some? && r.commits
    requires NoneFalls(users, r.scrape.value.live, r.inst, In) && NoneFalls(users, r.scrape.value.live, r.inst, Out)
    ensures var a := FlushInstance(users, acc, r).1;
            a.seen.Of(d) - acc.seen.Of(d) == InstSum(users, r.inst, d) + a.moved.Of(d) - acc.moved.Of(d)
  {
    var live := r.scrape.value.live;
    LiveSum(users, live, r.inst, d);
    if UserDeltas(live, users, r.inst) == map[] {
      assert BytesOf(UserDeltas(live, users, r.inst)) == map[];
    }
  }

  lemma NextInstanceMatches(users0: Users, reports: seq<Report>, n: nat, users: Users, acc: Acc, d: Dir)
    requires n < |reports| && AllScraped(users0, reports) && Monotone(users0, reports)
    requires FlushedSoFar(users0, reports, n, users, acc, d)
    ensures FlushedSoFar(users0, reports, n + 1, FlushInstance(users, acc, reports[n]).0, FlushInstance(users, acc, reports[n]).1, d)
  {
    var r := reports[n];
    SeenGrows(users0, reports, n, users, acc, d);
    InstanceMatches(users, acc, r, d);
    InstanceKeepsLevel(users, acc, r);
    forall k: Key | !SeenBefore(reports, n + 1, k.1)
      ensures (k in FlushInstance(users, acc, r).0 <==> k in users0)
           && RowOf(FlushInstance(users, acc, r).0, k) == RowOf(users0, k)
    {
      assert !SeenBefore(reports, n, k.1);
      InstanceLeavesOthers(users, acc, r, k);
    }
  }

  ghost predicate MatchedAt(users0: Users, reports: seq<Report>, n: nat, d: Dir)
    requires n <= |reports|
  {
    FlushedSoFar(users0, reports, n, FlushInstances(users0, reports, n).0, FlushInstances(users0, reports, n).1, d)
  }

  lemma FlushMatchesNext(users0: Users, reports: seq<Report>, n: nat, d: Dir)
    requires n < |reports| && AllScraped(users0, reports) && Monotone(users0, reports)
    requires MatchedAt(users0, reports, n, d)
    ensures MatchedAt(users0, reports, n + 1, d)
  {
    var p := FlushInstances(users0, reports, n);
    NextInstanceMatches(users0, reports, n, p.0, p.1, d);
    assert FlushInstances(users0, reports, n + 1) == FlushInstance(p.0, p.1, reports[n]);
  }

  lemma FlushMatchesStart(users0: Users, reports: seq<Report>, d: Dir)
    requires Level(users0)
    ensures MatchedAt(users0, reports, 0, d)
  {
  }

  /** Every instance is scraped and committed and none of its counters falls. */
  ghost predicate Clean(users: Users, reports: seq<Report>) {
    AllScraped(users, reports) && Monotone(users, reports)
  }

  lemma CleanStep(users0: Users, reports: seq<Report>, n: nat, d: Dir)
    requires n < |reports| && Clean(users0, reports) && MatchedAt(users0, reports, n, d)
    ensures MatchedAt(users0, reports, n + 1, d)
  {
    FlushMatchesNext(users0, reports, n, d);
  }

  lemma {:induction false} FlushMatches(users0: Users, reports: seq<Report>, n: nat, d: Dir)
    requires n <= |reports| && Level(users0) && Clean(users0, reports)
    ensures MatchedAt(users0, reports, n, d)
  {
    if n == 0 {
      FlushMatchesStart(users0, reports, d);
    } else {
      var m := n - 1;
      FlushMatches(users0, reports, m, d);
      CleanStep(users0, reports, m, d);
    }
  }

  ghost predicate InStep(db: Ledger) {
    && Level(db.users)
    && db.total.bytes == db.total.snap
    && forall d: Dir :: db.total.bytes.Of(d) == GrandTotal(db.users, d)
  }

  lemma {:induction false} SeenIsGrandTotal(users: Users, reports: seq<Report>, d: Dir)
    requires Level(users) && AllScraped(users, reports) && Monotone(users, reports)
    ensures var (u, a) := FlushInstances(users, reports, |reports|);
            a.seen.Of(d) == GrandTotal(u, d) == GrandTotal(users, d) + a.moved.Of(d)
  {
    var p := FlushInstances(users, reports, |reports|);
    FlushMatches(users, reports, |reports|, d);
    PartSumIsSum(users, reports, |reports|, d);
    assert PartRows(users, reports, |reports|) == BytesOf(users) by {
      forall k | k in users ensures SeenBefore(reports, |reports|, k.1) {}
    }
    FlushTallies(users, reports, |reports|, "", d);
  }

  lemma FlushKeepsTotal(db: Ledger, reports: seq<Report>, db': Ledger, d: Dir)
    requires InStep(db) && Flushed(db, reports, db')
    requires AllScraped(db.users, reports) && Monotone(db.users, reports)
    ensures db'.total.bytes.Of(d) == db'.total.snap.Of(d) == GrandTotal(db'.users, d)
  {
    SeenIsGrandTotal(db.users, reports, d);
  }

  lemma FlushKeepsLevel(db: Ledger, reports: seq<Report>, db': Ledger)
    requires Level(db.users) && Flushed(db, reports, db')
    requires AllScraped(db.users, reports) && Monotone(db.users, reports)
    ensures Level(db'.users)
  {
    FlushMatches(db.users, reports, |reports|, In);
  }

  lemma InStepFromParts(db: Ledger)
    requires Level(db.users)
    requires db.total.bytes.Of(In) == db.total.snap.Of(In) == GrandTotal(db.users, In)
    requires db.total.bytes.Of(Out) == db.total.snap.Of(Out) == GrandTotal(db.users, Out)
    ensures InStep(db)
  {
  }

  lemma FlushKeepsStep(db: Ledger, reports: seq<Report>, db': Ledger)
    requires InStep(db) && Flushed(db, reports, db')
    requires AllScraped(db.users, reports) && Monotone(db.users, reports)
    ensures InStep(db')
  {
    FlushKeepsLevel(db, reports, db');
    FlushKeepsTotal(db, reports, db', In);
    FlushKeepsTotal(db, reports, db', Out);
    InStepFromParts(db');
  }

  /**
   The global counter equals the ledger's grand total after any run in which every flush
   scrapes and commits every instance and no user counter falls or vanishes.
   */
  lemma {:induction false} GlobalEqualsLedger(dbs: seq<Ledger>, flushes: seq<seq<Report>>, n: nat)
    requires IsRun(dbs, flushes) && n <= |flushes|
    requires forall i | 0 <= i < |flushes| :: AllScraped(dbs[i].users, flushes[i]) && Monotone(dbs[i].users, flushes[i])
    ensures InStep(dbs[n])
    ensures forall d: Dir :: dbs[n].total.bytes.Of(d) == GrandTotal(dbs[n].users, d)
  {
    if n == 0 {
      assert BytesOf(EMPTY.users) == map[];
    } else {
      GlobalEqualsLedger(dbs, flushes, n - 1);
      FlushKeepsStep(dbs[n - 1], flushes[n - 1], dbs[n]);
    }
  }
}
