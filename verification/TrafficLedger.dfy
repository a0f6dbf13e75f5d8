/**
 The traffic ledger: what one flush of the scraped engine counters does to the tables.

 Engine counters only grow until the engine restarts, which sets them back to zero.
 Each table row therefore keeps the last recorded counter (`snap`) beside the bytes
 counted so far, and a counter below its snapshot is taken as a restart.
 */
module TrafficLedger {
  import opened Common
  import opened OctetSums

  // ---------- deltas ----------

  function Delta(current: nat, previous: nat): nat {
    if current < previous then current else current - previous
  }

  function Deltas(current: Octets, previous: Octets): Octets {
    Octets(Delta(current.received, previous.received), Delta(current.sent, previous.sent))
  }

  /** Bytes counted so far (or, in a delta, to be added) and the counter they go up to. */
  datatype Row = Row(bytes: Octets, snap: Octets)

  const NEW_ROW := Row(ZERO, ZERO)

  function Count(row: Row, delta: Row): Row {
    Row(row.bytes.Plus(delta.bytes), delta.snap)
  }

  /** A key is a user label and an instance id. */
  type Key = (string, int)
  type Users = map<Key, Row>

  function RowOf(users: Users, key: Key): Row {
    if key in users then users[key] else NEW_ROW
  }

  function DeltaRow(current: Octets, previous: Octets): Row {
    Row(Deltas(current, previous), current)
  }

  /** Only users with a counter that moved get an entry. */
  predicate Moved(current: Octets, previous: Octets) {
    Deltas(current, previous) != ZERO
  }

  function UserDeltas(live: map<string, Octets>, users: Users, inst: int): map<string, Row> {
    map l | l in live && Moved(live[l], RowOf(users, (l, inst)).snap) :: DeltaRow(live[l], RowOf(users, (l, inst)).snap)
  }

  /** A user without a stored snapshot starts from zero. */
  function SnapIn(snaps: map<string, Octets>, l: string): Octets {
    if l in snaps then snaps[l] else ZERO
  }

  /** The same from snapshots read earlier. */
  function DeltasAgainst(live: map<string, Octets>, snaps: map<string, Octets>): map<string, Row> {
    map l | l in live && Moved(live[l], SnapIn(snaps, l)) :: DeltaRow(live[l], SnapIn(snaps, l))
  }

  /** Snapshots that are the rows' own give the rows' own deltas. */
  lemma FreshDeltas(live: map<string, Octets>, snaps: map<string, Octets>, users: Users, inst: int)
    requires forall l :: SnapIn(snaps, l) == RowOf(users, (l, inst)).snap
    ensures DeltasAgainst(live, snaps) == UserDeltas(live, users, inst)
  {
  }

  /** The insert-or-add statement run for every entry. */
  function Upsert(users: Users, deltas: map<string, Row>, inst: int): Users {
    map k | k in users.Keys + (set l | l in deltas :: (l, inst)) ::
      if k.1 == inst && k.0 in deltas then Count(RowOf(users, k), deltas[k.0]) else users[k]
  }

  // ---------- one flush ----------

  /** One instance's part of a flush: what its scrape gave, if anything, and whether the
      transaction that stores it commits. */
  datatype Report = Report(inst: int, scrape: Option<Scrape>, commits: bool)

  datatype Scrape = Scrape(live: map<string, Octets>, conns: nat)

  datatype Acc = Acc(moved: Octets, conns: nat, hist: map<string, Octets>, seen: Octets)

  const NO_ACC := Acc(ZERO, 0, map[], ZERO)

  ghost function BytesOf<K>(rows: map<K, Row>): map<K, Octets> {
    map k | k in rows :: rows[k].bytes
  }

  ghost function Total<K>(m: map<K, Octets>): Octets {
    Octets(Sum(m, In), Sum(m, Out))
  }

  function HistOf(hist: map<string, Octets>, user: string): Octets {
    if user in hist then hist[user] else ZERO
  }

  function MergeHist(hist: map<string, Octets>, deltas: map<string, Row>): map<string, Octets> {
    map l | l in hist.Keys + deltas.Keys ::
      if l in deltas then HistOf(hist, l).Plus(deltas[l].bytes) else hist[l]
  }

  ghost function AddDeltas(acc: Acc, deltas: map<string, Row>): Acc {
    acc.(moved := acc.moved.Plus(Total(BytesOf(deltas))), hist := MergeHist(acc.hist, deltas))
  }

  /** The accumulator once an instance has been scraped. */
  ghost function Seen(acc: Acc, scrape: Scrape): Acc {
    acc.(seen := acc.seen.Plus(Total(scrape.live)), conns := acc.conns + scrape.conns)
  }

  /** A failed scrape is skipped; a failed commit still counts in the instance totals. */
  ghost function FlushInstance(users: Users, acc: Acc, r: Report): (Users, Acc) {
    if r.scrape.None? then (users, acc)
    else
      var deltas, acc' := UserDeltas(r.scrape.value.live, users, r.inst), Seen(acc, r.scrape.value);
      if deltas == map[] || !r.commits then (users, acc')
      else (Upsert(users, deltas, r.inst), AddDeltas(acc', deltas))
  }

  ghost function FlushInstances(users: Users, reports: seq<Report>, n: nat): (Users, Acc)
    requires n <= |reports|
  {
    if n == 0 then (users, NO_ACC)
    else
      var (u, a) := FlushInstances(users, reports, n - 1);
      FlushInstance(u, a, reports[n - 1])
  }

  datatype HistoryRow = HistoryRow(user: string, octets: Octets, conns: nat)

  datatype Ledger = Ledger(users: Users, total: Row, history: seq<HistoryRow>)

  ghost function HistSum(history: seq<HistoryRow>, user: string, d: Dir): nat {
    if history == [] then 0
    else HistSum(history[..|history| - 1], user, d) +
         if history[|history| - 1].user == user then history[|history| - 1].octets.Of(d) else 0
  }

  /** The global counter follows the sum of everything seen, whichever users moved, from the
      snapshot the flush read at its start. */
  function TotalAfter(total: Row, snap: Octets, acc: Acc): Row {
    if acc.moved == ZERO && acc.conns == 0 && acc.seen == ZERO then total
    else Count(total, DeltaRow(acc.seen, snap))
  }

  /** The rows a flush writes, in whatever order the labels come: one with an empty label
      for the flush as a whole, one for each label that moved. */
  ghost predicate BatchRows(rows: seq<HistoryRow>, acc: Acc) {
    && (acc.moved == ZERO && acc.conns == 0 ==> rows == [])
    && (acc.moved != ZERO || acc.conns > 0 ==>
          && |rows| > 0 && rows[0] == HistoryRow("", acc.moved, acc.conns)
          && LabelRows(rows[1..], acc.hist))
  }

  ghost predicate LabelRows(rows: seq<HistoryRow>, hist: map<string, Octets>) {
    && (forall i | 0 <= i < |rows| ::
          rows[i].user in hist && hist[rows[i].user] != ZERO
          && rows[i] == HistoryRow(rows[i].user, hist[rows[i].user], 0))
    && (forall i, j | 0 <= i < j < |rows| :: rows[i].user != rows[j].user)
    && (forall l | l in hist && hist[l] != ZERO :: exists i :: 0 <= i < |rows| && rows[i].user == l)
  }

  ghost predicate Flushed(db: Ledger, reports: seq<Report>, db': Ledger) {
    var (users, acc) := FlushInstances(db.users, reports, |reports|);
    && db'.users == users
    && db'.total == TotalAfter(db.total, db.total.snap, acc)
    && db.history <= db'.history
    && BatchRows(db'.history[|db.history|..], acc)
  }

  const EMPTY := Ledger(map[], NEW_ROW, [])

  /** A run of flushes from the empty ledger. */
  ghost predicate IsRun(dbs: seq<Ledger>, flushes: seq<seq<Report>>) {
    && |dbs| == |flushes| + 1
    && dbs[0] == EMPTY
    && forall i | 0 <= i < |flushes| :: Flushed(dbs[i], flushes[i], dbs[i + 1])
  }

  // ---------- double entry ----------

  ghost function LabelRowsOf(users: Users, user: string): map<Key, Octets> {
    map k | k in users && k.0 == user :: users[k].bytes
  }

  /** A label's bytes over all instances. */
  ghost function LabelSum(users: Users, user: string, d: Dir): nat {
    Sum(LabelRowsOf(users, user), d)
  }

  ghost function GrandTotal(users: Users, d: Dir): nat {
    Sum(BytesOf(users), d)
  }

  /** History and ledger agree, label by label; the rows with an empty label sum to
      everything, plus what a user with an empty label would have. */
  ghost predicate Balanced(db: Ledger) {
    forall user: string, d: Dir ::
      HistSum(db.history, user, d) == LabelSum(db.users, user, d) + if user == "" then GrandTotal(db.users, d) else 0
  }

  lemma CountInTotal(users: Users, key: Key, delta: Row, d: Dir)
    ensures GrandTotal(users[key := Count(RowOf(users, key), delta)], d) == GrandTotal(users, d) + delta.bytes.Of(d)
  {
    var row := Count(RowOf(users, key), delta);
    SumPut(BytesOf(users), key, row.bytes, d);
    assert BytesOf(users[key := row]) == BytesOf(users)[key := row.bytes];
  }

  lemma CountInLabel(users: Users, key: Key, delta: Row, user: string, d: Dir)
    ensures LabelSum(users[key := Count(RowOf(users, key), delta)], user, d)
         == LabelSum(users, user, d) + if user == key.0 then delta.bytes.Of(d) else 0
  {
    var row := Count(RowOf(users, key), delta);
    var users' := users[key := row];
    if user == key.0 {
      SumPut(LabelRowsOf(users, user), key, row.bytes, d);
      assert LabelRowsOf(users', user) == LabelRowsOf(users, user)[key := row.bytes];
    } else {
      assert LabelRowsOf(users', user) == LabelRowsOf(users, user);
    }
  }

  lemma CountOneRow(users: Users, key: Key, delta: Row, user: string, d: Dir)
    ensures var users' := users[key := Count(RowOf(users, key), delta)];
            && GrandTotal(users', d) == GrandTotal(users, d) + delta.bytes.Of(d)
            && LabelSum(users', user, d) == LabelSum(users, user, d) + if user == key.0 then delta.bytes.Of(d) else 0
  {
    CountInTotal(users, key, delta, d);
    CountInLabel(users, key, delta, user, d);
  }

  /** Storing one more entry is one more upserted row. */
  lemma UpsertOneMore(users: Users, deltas: map<string, Row>, inst: int, user: string, delta: Row)
    requires user !in deltas
    ensures var before := Upsert(users, deltas, inst);
            Upsert(users, deltas[user := delta], inst) == before[(user, inst) := Count(RowOf(before, (user, inst)), delta)]
  {
    var before := Upsert(users, deltas, inst);
    var after := Upsert(users, deltas[user := delta], inst);
    var put := before[(user, inst) := Count(RowOf(before, (user, inst)), delta)];
    assert RowOf(before, (user, inst)) == RowOf(users, (user, inst));
    forall k ensures k in after <==> k in put {
      assert k in users.Keys + (set l | l in deltas :: (l, inst)) ==> k in users.Keys || (k.1 == inst && k.0 in deltas);
    }
    assert after.Keys == put.Keys;
    assert forall k | k in after :: after[k] == put[k];
  }

  function DeltaOf(deltas: map<string, Row>, user: string): Octets {
    if user in deltas then deltas[user].bytes else ZERO
  }

  lemma UpsertOneAdds(users: Users, deltas: map<string, Row>, inst: int, l: string, delta: Row, user: string, d: Dir)
    requires l !in deltas
    ensures var before, after := Upsert(users, deltas, inst), Upsert(users, deltas[l := delta], inst);
            && GrandTotal(after, d) == GrandTotal(before, d) + delta.bytes.Of(d)
            && LabelSum(after, user, d) == LabelSum(before, user, d) + if user == l then delta.bytes.Of(d) else 0
  {
    UpsertOneMore(users, deltas, inst, l, delta);
    CountOneRow(Upsert(users, deltas, inst), (l, inst), delta, user, d);
  }

  lemma {:induction false} BytesOfPick(deltas: map<string, Row>, l: string, d: Dir)
    requires l in deltas
    ensures Sum(BytesOf(deltas), d) == deltas[l].bytes.Of(d) + Sum(BytesOf(deltas - {l}), d)
  {
    SumPick(BytesOf(deltas), l, d);
    assert BytesOf(deltas) - {l} == BytesOf(deltas - {l});
  }

  lemma {:induction false} UpsertAdds(users: Users, deltas: map<string, Row>, inst: int, user: string, d: Dir)
    ensures GrandTotal(Upsert(users, deltas, inst), d) == GrandTotal(users, d) + Sum(BytesOf(deltas), d)
    ensures LabelSum(Upsert(users, deltas, inst), user, d) == LabelSum(users, user, d) + DeltaOf(deltas, user).Of(d)
    decreases |deltas|
  {
    if deltas == map[] {
      assert Upsert(users, deltas, inst) == users;
    } else {
      var l :| l in deltas;
      var fewer := deltas - {l};
      UpsertAdds(users, fewer, inst, user, d);
      UpsertOneAdds(users, fewer, inst, l, deltas[l], user, d);
      assert fewer[l := deltas[l]] == deltas;
      BytesOfPick(deltas, l, d);
    }
  }

  /** What has been counted so far in a flush, against where the flush started. */
  ghost predicate Tallies(users0: Users, users: Users, acc: Acc, user: string, d: Dir) {
    && GrandTotal(users, d) == GrandTotal(users0, d) + acc.moved.Of(d)
    && LabelSum(users, user, d) == LabelSum(users0, user, d) + HistOf(acc.hist, user).Of(d)
    && HistOf(acc.hist, user).Of(d) <= acc.moved.Of(d)
  }

  lemma {:induction false} HistAfter(acc: Acc, deltas: map<string, Row>, user: string, d: Dir)
    ensures HistOf(AddDeltas(acc, deltas).hist, user).Of(d) == HistOf(acc.hist, user).Of(d) + DeltaOf(deltas, user).Of(d)
    ensures AddDeltas(acc, deltas).moved.Of(d) == acc.moved.Of(d) + Sum(BytesOf(deltas), d)
    ensures DeltaOf(deltas, user).Of(d) <= Sum(BytesOf(deltas), d)
  {
    if user in deltas {
      SumPick(BytesOf(deltas), user, d);
    }
  }

  lemma StoredTallies(users0: Users, users: Users, acc: Acc, deltas: map<string, Row>, inst: int, user: string, d: Dir)
    requires Tallies(users0, users, acc, user, d)
    ensures Tallies(users0, Upsert(users, deltas, inst), AddDeltas(acc, deltas), user, d)
  {
    UpsertAdds(users, deltas, inst, user, d);
    HistAfter(acc, deltas, user, d);
  }

  lemma InstanceTallies(users0: Users, users: Users, acc: Acc, r: Report, user: string, d: Dir)
    requires Tallies(users0, users, acc, user, d)
    ensures Tallies(users0, FlushInstance(users, acc, r).0, FlushInstance(users, acc, r).1, user, d)
  {
    if r.scrape.Some? {
      var deltas, acc' := UserDeltas(r.scrape.value.live, users, r.inst), Seen(acc, r.scrape.value);
      StoredTallies(users0, users, acc', deltas, r.inst, user, d);
    }
  }

  lemma {:induction false} FlushTallies(users: Users, reports: seq<Report>, n: nat, user: string, d: Dir)
    requires n <= |reports|
    ensures Tallies(users, FlushInstances(users, reports, n).0, FlushInstances(users, reports, n).1, user, d)
  {
    if n == 0 {
      assert FlushInstances(users, reports, n) == (users, NO_ACC);
    } else {
      FlushTallies(users, reports, n - 1, user, d);
      var p := FlushInstances(users, reports, n - 1);
      InstanceTallies(users, p.0, p.1, reports[n - 1], user, d);
      assert FlushInstances(users, reports, n) == FlushInstance(p.0, p.1, reports[n - 1]);
    }
  }

  lemma {:induction false} HistSumAppend(a: seq<HistoryRow>, b: seq<HistoryRow>, user: string, d: Dir)
    ensures HistSum(a + b, user, d) == HistSum(a, user, d) + HistSum(b, user, d)
  {
    if b == [] {
      assert a + b == a;
    } else {
      HistSumAppend(a, b[..|b| - 1], user, d);
      assert (a + b)[..|a + b| - 1] == a + b[..|b| - 1];
    }
  }

  lemma {:induction false} HistSumOnce(rows: seq<HistoryRow>, user: string, d: Dir, n: nat, at: nat)
    requires n <= |rows|
    requires forall i, j | 0 <= i < j < |rows| :: rows[i].user != rows[j].user
    requires at < |rows| ==> rows[at].user == user
    requires at >= |rows| ==> forall i | 0 <= i < |rows| :: rows[i].user != user
    ensures HistSum(rows[..n], user, d) == if at < n then rows[at].octets.Of(d) else 0
  {
    if n > 0 {
      HistSumOnce(rows, user, d, n - 1, at);
      assert rows[..n][..n - 1] == rows[..n - 1];
    }
  }

  lemma {:induction false} LabelRowsSum(rows: seq<HistoryRow>, hist: map<string, Octets>, user: string, d: Dir)
    requires LabelRows(rows, hist)
    ensures HistSum(rows, user, d) == HistOf(hist, user).Of(d)
  {
    assert rows[..|rows|] == rows;
    if i :| 0 <= i < |rows| && rows[i].user == user {
      HistSumOnce(rows, user, d, |rows|, i);
    } else {
      HistSumOnce(rows, user, d, |rows|, |rows|);
    }
  }

  lemma {:induction false} BatchSum(rows: seq<HistoryRow>, acc: Acc, user: string, d: Dir)
    requires BatchRows(rows, acc)
    requires HistOf(acc.hist, user).Of(d) <= acc.moved.Of(d)
    ensures HistSum(rows, user, d) == HistOf(acc.hist, user).Of(d) + if user == "" then acc.moved.Of(d) else 0
  {
    if rows != [] {
      LabelRowsSum(rows[1..], acc.hist, user, d);
      assert rows == [rows[0]] + rows[1..];
      HistSumAppend([rows[0]], rows[1..], user, d);
      assert [rows[0]][..0] == [];
    }
  }

  lemma FlushKeepsBalance(db: Ledger, reports: seq<Report>, db': Ledger)
    requires Balanced(db) && Flushed(db, reports, db')
    ensures Balanced(db')
  {
    var (users, acc) := FlushInstances(db.users, reports, |reports|);
    forall user: string, d: Dir
      ensures HistSum(db'.history, user, d) == LabelSum(users, user, d) + if user == "" then GrandTotal(users, d) else 0
    {
      var rows := db'.history[|db.history|..];
      FlushTallies(db.users, reports, |reports|, user, d);
      BatchSum(rows, acc, user, d);
      assert db'.history == db.history + rows;
      HistSumAppend(db.history, rows, user, d);
    }
  }

  /**
   Double entry.  After any run of flushes, failed scrapes and rolled-back commits
   included, the history rows of every label sum to what the ledger holds for the label,
   and the rows with an empty label sum to the grand total.
   */
  lemma {:induction false} RunIsBalanced(dbs: seq<Ledger>, flushes: seq<seq<Report>>, n: nat)
    requires IsRun(dbs, flushes) && n <= |flushes|
    ensures Balanced(dbs[n])
  {
    if n == 0 {
      forall user: string ensures LabelRowsOf(EMPTY.users, user) == map[] {}
      assert BytesOf(EMPTY.users) == map[];
    } else {
      RunIsBalanced(dbs, flushes, n - 1);
      FlushKeepsBalance(dbs[n - 1], flushes[n - 1], dbs[n]);
    }
  }

  /** When no user has an empty label, the empty-label rows are the grand total alone. */
  lemma {:induction false} EmptyLabelIsGrandTotal(dbs: seq<Ledger>, flushes: seq<seq<Report>>, n: nat, d: Dir)
    requires IsRun(dbs, flushes) && n <= |flushes|
    requires forall k | k in dbs[n].users :: k.0 != ""
    ensures HistSum(dbs[n].history, "", d) == GrandTotal(dbs[n].users, d)
  {
    RunIsBalanced(dbs, flushes, n);
    assert LabelRowsOf(dbs[n].users, "") == map[];
  }
}
