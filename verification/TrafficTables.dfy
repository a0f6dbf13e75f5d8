/**
 The traffic store's tables and the traffic service's flush over them, proved to make
 exactly the step that `TrafficLedger` describes.
 */
module TrafficTables {
  import opened Common
  import opened OctetSums
  import opened TrafficLedger
  import opened TrafficHistory

  /** The rows of one batch: the global row when anything happened at all, then the
      labels that moved. */
  ghost predicate Inserted(rows: seq<HistoryRow>, moved: Octets, conns: nat, hist: map<string, Octets>) {
    if moved != ZERO || conns > 0
    then |rows| > 0 && rows[0] == HistoryRow("", moved, conns) && LabelRows(rows[1..], hist)
    else LabelRows(rows, hist)
  }

  /** Visiting `l` moves one entry out of the rest. */
  lemma VisitOne<V>(all: map<string, V>, rest: set<string>, l: string)
    requires l in rest && rest <= all.Keys
    ensures l !in all - rest && all - (rest - {l}) == (all - rest)[l := all[l]]
  {
  }

  lemma StoreOne(users: Users, deltas: map<string, Row>, inst: int, rest: set<string>, l: string)
    requires l in rest && rest <= deltas.Keys
    ensures var tx := Upsert(users, deltas - rest, inst);
            Upsert(users, deltas - (rest - {l}), inst) == tx[(l, inst) := Count(RowOf(tx, (l, inst)), deltas[l])]
  {
    VisitOne(deltas, rest, l);
    UpsertOneMore(users, deltas - rest, inst, l, deltas[l]);
  }

  /** The statements of one transaction, entry by entry in any order. */
  method FlushUsers(users: Users, deltas: map<string, Row>, inst: int) returns (tx: Users)
    ensures tx == Upsert(users, deltas, inst)
  {
    tx := users;
    var rest := deltas.Keys;
    assert Upsert(users, deltas - rest, inst) == users;
    while rest != {}
      invariant rest <= deltas.Keys
      invariant tx == Upsert(users, deltas - rest, inst)
      decreases |rest|
    {
      var l :| l in rest;
      StoreOne(users, deltas, inst, rest, l);
      tx := tx[(l, inst) := Count(RowOf(tx, (l, inst)), deltas[l])];
      rest := rest - {l};
    }
    assert deltas - rest == deltas;
  }

  lemma OneMoreLabel(rows: seq<HistoryRow>, hist: map<string, Octets>, l: string, octets: Octets)
    requires LabelRows(rows, hist) && l !in hist
    ensures LabelRows(if octets == ZERO then rows else rows + [HistoryRow(l, octets, 0)], hist[l := octets])
  {
    if octets != ZERO {
      var rows' := rows + [HistoryRow(l, octets, 0)];
      var hist' := hist[l := octets];
      forall j | j in hist' && hist'[j] != ZERO
        ensures exists i :: 0 <= i < |rows'| && rows'[i].user == j
      {
        if j == l {
          assert rows'[|rows|].user == l;
        } else {
          var i :| 0 <= i < |rows| && rows[i].user == j;
          assert rows'[i].user == j;
        }
      }
    }
  }

  method LabelHistory(hist: map<string, Octets>) returns (rows: seq<HistoryRow>)
    ensures LabelRows(rows, hist)
  {
    rows := [];
    var rest := hist.Keys;
    while rest != {}
      invariant rest <= hist.Keys
      invariant LabelRows(rows, hist - rest)
      decreases |rest|
    {
      var l :| l in rest;
      VisitOne(hist, rest, l);
      OneMoreLabel(rows, hist - rest, l, hist[l]);
      if hist[l].received > 0 || hist[l].sent > 0 {
        rows := rows + [HistoryRow(l, hist[l], 0)];
      }
      rest := rest - {l};
    }
    assert hist - rest == hist;
  }

  method HistoryRows(moved: Octets, conns: nat, hist: map<string, Octets>) returns (rows: seq<HistoryRow>)
    ensures Inserted(rows, moved, conns, hist)
  {
    var labels := LabelHistory(hist);
    if moved.received > 0 || moved.sent > 0 || conns > 0 {
      rows := [HistoryRow("", moved, conns)] + labels;
      assert rows[1..] == labels;
    } else {
      rows := labels;
    }
  }

  class TrafficStore {
    var users: Users
    var total: Row
    var history: seq<HistoryRow>

    ghost function Db(): Ledger
      reads this
    {
      Ledger(users, total, history)
    }

    method GetAllUserSnapshots(inst: int) returns (snaps: map<string, Octets>)
      ensures forall l :: SnapIn(snaps, l) == RowOf(users, (l, inst)).snap
    {
      snaps := map[];
      var rest := users.Keys;
      while rest != {}
        invariant rest <= users.Keys
        invariant forall l :: SnapIn(snaps, l) == if (l, inst) in users && (l, inst) !in rest then users[(l, inst)].snap else ZERO
        decreases |rest|
      {
        var k :| k in rest;
        rest := rest - {k};
        if k.1 == inst {
          snaps := snaps[k.0 := users[k].snap];
        }
      }
    }

    /** One transaction: every entry is upserted, and nothing is kept unless it commits. */
    method FlushInstanceTraffic(deltas: map<string, Row>, inst: int, commits: bool) returns (ok: bool)
      modifies this`users
      ensures ok == commits
      ensures users == if commits then Upsert(old(users), deltas, inst) else old(users)
      ensures commits ==> forall k :: k in users <==> k in old(users) || (k.1 == inst && k.0 in deltas)
      ensures commits ==> forall k | k in users ::
        users[k] == if k.1 == inst && k.0 in deltas then Count(RowOf(old(users), k), deltas[k.0]) else old(users)[k]
    {
      var tx := FlushUsers(users, deltas, inst);
      if commits {
        users := tx;
      }
      ok := commits;
    }

    method UpdateGlobal(delta: Octets, snap: Octets)
      modifies this`total
      ensures total == Count(old(total), Row(delta, snap))
      ensures total == Row(Octets(old(total).bytes.received + delta.received, old(total).bytes.sent + delta.sent), snap)
    {
      total := Row(total.bytes.Plus(delta), snap);
    }

    method InsertHistoryBatch(moved: Octets, conns: nat, hist: map<string, Octets>)
      modifies this`history
      ensures old(history) <= history
      ensures Inserted(history[|old(history)|..], moved, conns, hist)
    {
      var rows := HistoryRows(moved, conns, hist);
      history := history + rows;
      assert history[|old(history)|..] == rows;
    }

    method ResetTraffic(user: string)
      modifies this`users
      ensures Performed(old(Db()), ResetUser(user), Db())
      ensures users.Keys == old(users).Keys
      ensures forall k | k in users :: users[k] == if k.0 == user then Row(Octets(0, 0), Octets(0, 0)) else old(users)[k]
    {
      users := map k | k in users :: if k.0 == user then NEW_ROW else users[k];
    }

    method ResetAllTraffic()
      modifies this`users
      ensures Performed(old(Db()), ResetAll, Db())
      ensures users.Keys == old(users).Keys && forall k | k in users :: users[k] == Row(Octets(0, 0), Octets(0, 0))
    {
      users := map k | k in users :: NEW_ROW;
    }

    method ResetGlobalTraffic()
      modifies this`total
      ensures Performed(old(Db()), ResetGlobal, Db())
      ensures total == Row(Octets(0, 0), Octets(0, 0))
    {
      total := NEW_ROW;
    }
  }

  lemma TotalPut<K>(m: map<K, Octets>, k: K, v: Octets)
    requires k !in m
    ensures Total(m[k := v]) == Total(m).Plus(v)
  {
    SumPut(m, k, v, In);
    SumPut(m, k, v, Out);
  }

  lemma MergeOneMore(hist: map<string, Octets>, deltas: map<string, Row>, l: string, delta: Row)
    requires l !in deltas
    ensures MergeHist(hist, deltas[l := delta]) == MergeHist(hist, deltas)[l := HistOf(MergeHist(hist, deltas), l).Plus(delta.bytes)]
  {
  }

  method SumLive(live: map<string, Octets>) returns (sum: Octets)
    ensures sum == Total(live)
  {
    sum := ZERO;
    var rest := live.Keys;
    while rest != {}
      invariant rest <= live.Keys
      invariant sum == Total(live - rest)
      decreases |rest|
    {
      var l :| l in rest;
      VisitOne(live, rest, l);
      TotalPut(live - rest, l, live[l]);
      sum := sum.Plus(live[l]);
      rest := rest - {l};
    }
    assert live - rest == live;
  }

  method ComputeUserDeltas(live: map<string, Octets>, snaps: map<string, Octets>) returns (deltas: map<string, Row>)
    ensures deltas == DeltasAgainst(live, snaps)
  {
    deltas := map[];
    var rest := live.Keys;
    while rest != {}
      invariant rest <= live.Keys
      invariant deltas == map l | l in live && l !in rest && Moved(live[l], SnapIn(snaps, l))
                            :: DeltaRow(live[l], SnapIn(snaps, l))
      decreases |rest|
    {
      var l :| l in rest;
      rest := rest - {l};
      var d := Deltas(live[l], SnapIn(snaps, l));
      if d.received > 0 || d.sent > 0 {
        deltas := deltas[l := Row(d, live[l])];
      }
    }
  }

  lemma MergeOne(acc: Acc, deltas: map<string, Row>, rest: set<string>, l: string)
    requires l in rest && rest <= deltas.Keys
    ensures var before := AddDeltas(acc, deltas - rest);
            AddDeltas(acc, deltas - (rest - {l})) ==
            before.(moved := before.moved.Plus(deltas[l].bytes),
                    hist := before.hist[l := HistOf(before.hist, l).Plus(deltas[l].bytes)])
  {
    var visited := deltas - rest;
    VisitOne(deltas, rest, l);
    TotalPut(BytesOf(visited), l, deltas[l].bytes);
    assert BytesOf(visited[l := deltas[l]]) == BytesOf(visited)[l := deltas[l].bytes];
    MergeOneMore(acc.hist, visited, l, deltas[l]);
  }

  lemma MergeNone(acc: Acc)
    ensures AddDeltas(acc, map[]) == acc
  {
    assert BytesOf<string>(map[]) == map[];
    assert MergeHist(acc.hist, map[]) == acc.hist;
  }

  method MergeDeltas(acc: Acc, deltas: map<string, Row>) returns (acc': Acc)
    ensures acc' == AddDeltas(acc, deltas)
  {
    acc' := acc;
    var rest := deltas.Keys;
    assert deltas - rest == map[];
    MergeNone(acc);
    while rest != {}
      invariant rest <= deltas.Keys
      invariant acc' == AddDeltas(acc, deltas - rest)
      decreases |rest|
    {
      var l :| l in rest;
      MergeOne(acc, deltas, rest, l);
      acc' := acc'.(moved := acc'.moved.Plus(deltas[l].bytes),
                    hist := acc'.hist[l := HistOf(acc'.hist, l).Plus(deltas[l].bytes)]);
      rest := rest - {l};
    }
    assert deltas - rest == deltas;
  }

  class FlushAccumulator {
    var moved: Octets
    var conns: nat
    var hist: map<string, Octets>
    var seen: Octets

    ghost function View(): Acc
      reads this
    {
      Acc(moved, conns, hist, seen)
    }

    constructor ()
      ensures View() == NO_ACC
    {
      moved, conns, hist, seen := ZERO, 0, map[], ZERO;
    }

    method AddUserDeltas(deltas: map<string, Row>)
      modifies this`moved, this`hist
      ensures View() == AddDeltas(old(View()), deltas)
    {
      var acc := MergeDeltas(Acc(moved, conns, hist, seen), deltas);
      moved, hist := acc.moved, acc.hist;
    }

    /** `snap` is the global snapshot as the flush found it at its start. */
    method FlushGlobal(store: TrafficStore, snap: Octets)
      modifies store`total, store`history
      ensures store.total == TotalAfter(old(store.total), snap, View())
      ensures store.total ==
              if moved == Octets(0, 0) && conns == 0 && seen == Octets(0, 0) then old(store.total)
              else Row(Octets(old(store.total).bytes.received
                                + (if seen.received < snap.received then seen.received else seen.received - snap.received),
                              old(store.total).bytes.sent + (if seen.sent < snap.sent then seen.sent else seen.sent - snap.sent)),
                       seen)
      ensures old(store.history) <= store.history
      ensures BatchRows(store.history[|old(store.history)|..], View())
    {
      if moved == ZERO && conns == 0 && seen == ZERO { return; }
      store.UpdateGlobal(Deltas(seen, snap), seen);
      if moved.received > 0 || moved.sent > 0 || conns > 0 {
        store.InsertHistoryBatch(moved, conns, hist);
      }
    }
  }

  method FlushOneInstance(store: TrafficStore, acc: FlushAccumulator, r: Report)
    modifies store`users, acc
    ensures (store.users, acc.View()) == FlushInstance(old(store.users), old(acc.View()), r)
  {
    if r.scrape.None? { return; }
    var live := r.scrape.value.live;
    var snaps := store.GetAllUserSnapshots(r.inst);
    var deltas := ComputeUserDeltas(live, snaps);
    FreshDeltas(live, snaps, store.users, r.inst);
    var sum := SumLive(live);
    acc.seen := acc.seen.Plus(sum);
    acc.conns := acc.conns + r.scrape.value.conns;
    if deltas == map[] { return; }
    var ok := store.FlushInstanceTraffic(deltas, r.inst, r.commits);
    if !ok { return; }
    acc.AddUserDeltas(deltas);
  }

  /** One flush over the enabled instances, in list order. */
  method Flush(store: TrafficStore, reports: seq<Report>)
    modifies store
    ensures Flushed(old(store.Db()), reports, store.Db())
  {
    var globalSnap := store.total.snap;
    var acc := new FlushAccumulator();
    for i := 0 to |reports|
      invariant (store.users, acc.View()) == FlushInstances(old(store.users), reports, i)
      invariant store.total == old(store.total) && store.history == old(store.history)
    {
      FlushOneInstance(store, acc, reports[i]);
    }
    acc.FlushGlobal(store, globalSnap);
  }
}
