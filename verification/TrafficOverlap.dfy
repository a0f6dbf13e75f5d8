/**
 Flushes that overlap one another and resets.  A flush reads the global snapshot, then for
 each instance scrapes and reads the stored snapshots, later commits what it computed from
 them, and at the end posts the global row and its history rows.  The scrape and the read of
 the snapshots are one step here, which loses nothing, as the counters a scrape shows are
 arbitrary; the others are a step each.  Nothing keeps two flushes, or a flush and a reset,
 from interleaving.

 Double entry survives every interleaving.  That a row covers its snapshot survives exactly
 as long as no reset falls between a positive read and its commit, and the closed form of a
 row as long as flushes of its instance take turns and their reads succeed; the traces that
 break each are lemmas.
 */
module TrafficOverlap {
  import opened Common
  import opened OctetSums
  import opened TrafficLedger
  import opened TrafficHistory

  /** Computed and not yet committed: the counters scraped and the snapshots read for them. */
  datatype Pending = Pending(inst: int, live: map<string, Octets>, snaps: map<string, Octets>)

  datatype Flight = Flight(globalSnap: Octets, acc: Acc, pending: Option<Pending>, posted: bool)

  datatype State = State(users: Users, total: Row, history: seq<HistoryRow>, flights: map<nat, Flight>)

  datatype Event =
    | Start(id: nat)
    | Read(id: nat, inst: int, scrape: Scrape, read: bool)   // a failed read counts as no snapshots
    | Commit(id: nat, commits: bool)
    | PostGlobal(id: nat)
    | PostHistory(id: nat, rows: seq<HistoryRow>)
    | ResetUser(user: string)
    | ResetAll
    | ResetGlobal

  function SnapsOf(users: Users, inst: int): map<string, Octets> {
    map k | k in users && k.1 == inst :: k.0 := users[k].snap
  }

  function DeltasOf(p: Pending): map<string, Row> {
    DeltasAgainst(p.live, p.snaps)
  }

  ghost predicate CanOccur(s: State, e: Event) {
    match e
    case Start(id) => id !in s.flights
    case Read(id, _, _, _) => id in s.flights && s.flights[id].pending.None? && !s.flights[id].posted
    case Commit(id, _) => id in s.flights && s.flights[id].pending.Some?
    case PostGlobal(id) => id in s.flights && s.flights[id].pending.None? && !s.flights[id].posted
    case PostHistory(id, rows) => id in s.flights && s.flights[id].posted && BatchRows(rows, s.flights[id].acc)
    case _ => true
  }

  ghost function Put(s: State, id: nat, f: Flight): State {
    s.(flights := s.flights[id := f])
  }

  ghost function Next(s: State, e: Event): State
    requires CanOccur(s, e)
  {
    match e
    case Start(id) => Put(s, id, Flight(s.total.snap, NO_ACC, None, false))
    case Read(id, inst, scrape, read) =>
      var f := s.flights[id];
      var p := Pending(inst, scrape.live, if read then SnapsOf(s.users, inst) else map[]);
      Put(s, id, f.(acc := Seen(f.acc, scrape), pending := if DeltasOf(p) == map[] then None else Some(p)))
    case Commit(id, commits) =>
      var f := s.flights[id];
      var p := f.pending.value;
      if commits then
        Put(s.(users := Upsert(s.users, DeltasOf(p), p.inst)), id, f.(acc := AddDeltas(f.acc, DeltasOf(p)), pending := None))
      else Put(s, id, f.(pending := None))
    case PostGlobal(id) =>
      var f := s.flights[id];
      Put(s.(total := TotalAfter(s.total, f.globalSnap, f.acc)), id, f.(posted := true))
    case PostHistory(id, rows) => s.(history := s.history + rows, flights := s.flights - {id})
    case ResetUser(user) => s.(users := Cleared(s.users, false, user))
    case ResetAll => s.(users := Cleared(s.users, true, ""))
    case ResetGlobal => s.(total := NEW_ROW)
  }

  const INITIAL := State(map[], NEW_ROW, [], map[])

  ghost predicate IsTrace(trace: seq<State>, events: seq<Event>) {
    && |trace| == |events| + 1 && trace[0] == INITIAL
    && forall i | 0 <= i < |events| :: CanOccur(trace[i], events[i]) && trace[i + 1] == Next(trace[i], events[i])
  }

  predicate IsReset(e: Event) {
    e.ResetUser? || e.ResetAll? || e.ResetGlobal?
  }

  // ---------- a flush nothing overlaps ----------

  ghost predicate Between(s: State, id: nat) {
    id in s.flights && s.flights[id].pending.None? && !s.flights[id].posted
  }

  ghost function AfterInstance(s: State, id: nat, r: Report): (s': State)
    requires Between(s, id)
    ensures Between(s', id)
  {
    if r.scrape.None? then s
    else
      var s1 := Next(s, Read(id, r.inst, r.scrape.value, true));
      if s1.flights[id].pending.None? then s1 else Next(s1, Commit(id, r.commits))
  }

  ghost function AfterInstances(s: State, id: nat, reports: seq<Report>, n: nat): (s': State)
    requires Between(s, id) && n <= |reports|
    ensures Between(s', id)
  {
    if n == 0 then s else AfterInstance(AfterInstances(s, id, reports, n - 1), id, reports[n - 1])
  }

  lemma SnapsAreRows(users: Users, key: Key)
    ensures SnapIn(SnapsOf(users, key.1), key.0) == RowOf(users, key).snap
  {
    assert key == (key.0, key.1);
    assert key.0 in SnapsOf(users, key.1) <==> key in users;
  }

  lemma SnapsAreFresh(users: Users, live: map<string, Octets>, inst: int)
    ensures DeltasAgainst(live, SnapsOf(users, inst)) == UserDeltas(live, users, inst)
  {
    forall l: string ensures SnapIn(SnapsOf(users, inst), l) == RowOf(users, (l, inst)).snap {
      SnapsAreRows(users, (l, inst));
    }
    FreshDeltas(live, SnapsOf(users, inst), users, inst);
  }

  lemma PutTwice(s: State, id: nat, f: Flight, users: Users, g: Flight)
    ensures Put(Put(s, id, f).(users := users), id, g) == Put(s.(users := users), id, g)
  {
  }

  ghost function Flown(s: State, id: nat, p: (Users, Acc)): State
    requires id in s.flights
  {
    Put(s.(users := p.0), id, s.flights[id].(acc := p.1))
  }

  lemma CommitGives(s: State, id: nat, f: Flight, p: Pending, commits: bool)
    requires f.pending == Some(p)
    ensures Next(Put(s, id, f), Commit(id, commits)) ==
      if commits then Put(s.(users := Upsert(s.users, DeltasOf(p), p.inst)), id,
                          f.(acc := AddDeltas(f.acc, DeltasOf(p)), pending := None))
      else Put(s, id, f.(pending := None))
  {
    if commits {
      PutTwice(s, id, f, Upsert(s.users, DeltasOf(p), p.inst), f.(acc := AddDeltas(f.acc, DeltasOf(p)), pending := None));
    } else {
      PutTwice(s, id, f, s.users, f.(pending := None));
    }
  }

  /** The flight between the read of an instance and its commit. */
  ghost function Scraped(s: State, id: nat, p: Pending, scrape: Scrape): Flight
    requires id in s.flights
  {
    s.flights[id].(acc := Seen(s.flights[id].acc, scrape), pending := if DeltasOf(p) == map[] then None else Some(p))
  }

  lemma ReadThenCommit(s: State, id: nat, r: Report, scrape: Scrape)
    requires Between(s, id) && r.scrape == Some(scrape)
    ensures var p, acc := Pending(r.inst, scrape.live, SnapsOf(s.users, r.inst)), Seen(s.flights[id].acc, scrape);
      AfterInstance(s, id, r) ==
      if DeltasOf(p) == map[] || !r.commits then Put(s, id, s.flights[id].(acc := acc))
      else Put(s.(users := Upsert(s.users, DeltasOf(p), r.inst)), id, s.flights[id].(acc := AddDeltas(acc, DeltasOf(p))))
  {
    var p := Pending(r.inst, scrape.live, SnapsOf(s.users, r.inst));
    var f := Scraped(s, id, p, scrape);
    var s1 := Next(s, Read(id, r.inst, scrape, true));
    assert s1 == Put(s, id, f);
    if DeltasOf(p) != map[] {
      CommitGives(s, id, f, p, r.commits);
    }
  }

  lemma InstanceIsFlushed(s: State, id: nat, r: Report)
    requires Between(s, id)
    ensures AfterInstance(s, id, r) == Flown(s, id, FlushInstance(s.users, s.flights[id].acc, r))
  {
    var f := s.flights[id];
    if r.scrape.None? {
      assert s.flights[id := f.(acc := f.acc)] == s.flights;
    } else {
      SnapsAreFresh(s.users, r.scrape.value.live, r.inst);
      ReadThenCommit(s, id, r, r.scrape.value);
    }
  }

  lemma InstanceFlown(s: State, id: nat, p: (Users, Acc), r: Report)
    requires Between(s, id)
    ensures AfterInstance(Flown(s, id, p), id, r) == Flown(s, id, FlushInstance(p.0, p.1, r))
  {
    var t := Flown(s, id, p);
    InstanceIsFlushed(t, id, r);
    var q := FlushInstance(p.0, p.1, r);
    PutTwice(s, id, t.flights[id], q.0, t.flights[id].(acc := q.1));
  }

  lemma {:induction false} InstancesAreFlushed(s: State, id: nat, reports: seq<Report>, n: nat)
    requires Between(s, id) && s.flights[id].acc == NO_ACC && n <= |reports|
    ensures AfterInstances(s, id, reports, n) == Flown(s, id, FlushInstances(s.users, reports, n))
  {
    if n == 0 {
      assert s.flights[id := s.flights[id].(acc := NO_ACC)] == s.flights;
    } else {
      var p := FlushInstances(s.users, reports, n - 1);
      InstancesAreFlushed(s, id, reports, n - 1);
      InstanceFlown(s, id, p, reports[n - 1]);
      assert FlushInstances(s.users, reports, n) == FlushInstance(p.0, p.1, reports[n - 1]);
    }
  }

  ghost function LedgerOf(s: State): Ledger {
    Ledger(s.users, s.total, s.history)
  }

  /** The steps of one flush, with nothing in between, are the whole flush of `TrafficLedger`. */
  lemma {:induction false} SoloFlushIsFlushed(s: State, id: nat, reports: seq<Report>, rows: seq<HistoryRow>)
    requires id !in s.flights
    requires BatchRows(rows, FlushInstances(s.users, reports, |reports|).1)
    ensures var s1 := AfterInstances(Next(s, Start(id)), id, reports, |reports|);
      && CanOccur(s1, PostGlobal(id))
      && var s2 := Next(s1, PostGlobal(id));
         && CanOccur(s2, PostHistory(id, rows))
         && Flushed(LedgerOf(s), reports, LedgerOf(Next(s2, PostHistory(id, rows))))
  {
    var s0 := Next(s, Start(id));
    var p := FlushInstances(s.users, reports, |reports|);
    InstancesAreFlushed(s0, id, reports, |reports|);
    assert AfterInstances(s0, id, reports, |reports|) == Flown(s0, id, p);
    assert (s.history + rows)[|s.history|..] == rows;
  }

  // ---------- double entry in every interleaving ----------

  /** What a flush has committed and not yet written to the history. */
  function OwedIn(acc: Acc, user: string, d: Dir): nat {
    HistOf(acc.hist, user).Of(d) + if user == "" then acc.moved.Of(d) else 0
  }

  function Owed(f: Flight, user: string): Octets {
    Octets(OwedIn(f.acc, user, In), OwedIn(f.acc, user, Out))
  }

  lemma OwedOf(f: Flight, user: string, d: Dir)
    ensures Owed(f, user).Of(d) == OwedIn(f.acc, user, d)
  {
  }

  function AllOwed(flights: map<nat, Flight>, user: string): map<nat, Octets> {
    map id | id in flights :: Owed(flights[id], user)
  }

  ghost function Booked(users: Users, user: string, d: Dir): nat {
    LabelSum(users, user, d) + if user == "" then GrandTotal(users, d) else 0
  }

  /** No label has moved more than the flush as a whole. */
  ghost predicate Bounded(flights: map<nat, Flight>, user: string, d: Dir) {
    forall id | id in flights :: HistOf(flights[id].acc.hist, user).Of(d) <= flights[id].acc.moved.Of(d)
  }

  /** History rows and what is owed make up the ledger, label by label. */
  ghost predicate Balances(s: State, user: string, d: Dir) {
    && HistSum(s.history, user, d) + Sum(AllOwed(s.flights, user), d) == Booked(s.users, user, d)
    && Bounded(s.flights, user, d)
  }

  lemma {:induction false} PutOwed(flights: map<nat, Flight>, id: nat, f: Flight, user: string, d: Dir)
    ensures Sum(AllOwed(flights[id := f], user), d) ==
            Sum(AllOwed(flights, user), d) + Owed(f, user).Of(d) - (if id in flights then Owed(flights[id], user).Of(d) else 0)
  {
    SumPut(AllOwed(flights, user), id, Owed(f, user), d);
    assert AllOwed(flights[id := f], user) == AllOwed(flights, user)[id := Owed(f, user)];
  }

  lemma {:induction false} OwedAfter(f: Flight, deltas: map<string, Row>, user: string, d: Dir)
    requires HistOf(f.acc.hist, user).Of(d) <= f.acc.moved.Of(d)
    ensures var f' := f.(acc := AddDeltas(f.acc, deltas), pending := None);
      && Owed(f', user).Of(d) == Owed(f, user).Of(d) + DeltaOf(deltas, user).Of(d)
                                 + (if user == "" then Sum(BytesOf(deltas), d) else 0)
      && HistOf(f'.acc.hist, user).Of(d) <= f'.acc.moved.Of(d)
  {
    var f' := f.(acc := AddDeltas(f.acc, deltas), pending := None);
    HistAfter(f.acc, deltas, user, d);
    OwedOf(f, user, d);
    OwedOf(f', user, d);
  }

  lemma CommitBalances(s: State, id: nat, user: string, d: Dir)
    requires CanOccur(s, Commit(id, true)) && Balances(s, user, d)
    ensures Balances(Next(s, Commit(id, true)), user, d)
  {
    var f := s.flights[id];
    var p := f.pending.value;
    var f' := f.(acc := AddDeltas(f.acc, DeltasOf(p)), pending := None);
    OwedAfter(f, DeltasOf(p), user, d);
    UpsertAdds(s.users, DeltasOf(p), p.inst, user, d);
    PutOwed(s.flights, id, f', user, d);
  }

  lemma PostBalances(s: State, id: nat, rows: seq<HistoryRow>, user: string, d: Dir)
    requires CanOccur(s, PostHistory(id, rows)) && Balances(s, user, d)
    ensures Balances(Next(s, PostHistory(id, rows)), user, d)
  {
    BatchSum(rows, s.flights[id].acc, user, d);
    HistSumAppend(s.history, rows, user, d);
    OwedOf(s.flights[id], user, d);
    DropOwed(s.flights, id, user, d);
    BoundedDrop(s.flights, id, user, d);
  }

  lemma {:induction false} DropOwed(flights: map<nat, Flight>, id: nat, user: string, d: Dir)
    requires id in flights
    ensures Sum(AllOwed(flights, user), d) == Owed(flights[id], user).Of(d) + Sum(AllOwed(flights - {id}, user), d)
  {
    SumPick(AllOwed(flights, user), id, d);
    assert AllOwed(flights - {id}, user) == AllOwed(flights, user) - {id};
  }

  lemma BoundedDrop(flights: map<nat, Flight>, id: nat, user: string, d: Dir)
    requires Bounded(flights, user, d)
    ensures Bounded(flights - {id}, user, d)
  {
  }

  lemma SameOwed(f: Flight, before: Acc, user: string, d: Dir)
    requires f.acc == before.(seen := f.acc.seen, conns := f.acc.conns)
    ensures Owed(f, user).Of(d) == OwedIn(before, user, d)
  {
    OwedOf(f, user, d);
  }

  lemma BoundedPut(flights: map<nat, Flight>, id: nat, f: Flight, user: string, d: Dir)
    requires Bounded(flights, user, d) && HistOf(f.acc.hist, user).Of(d) <= f.acc.moved.Of(d)
    ensures Bounded(flights[id := f], user, d)
  {
  }

  /** A step that neither commits nor posts history owes what was owed. */
  lemma QuietBalances(s: State, s': State, id: nat, f: Flight, user: string, d: Dir)
    requires Balances(s, user, d)
    requires s'.users == s.users && s'.history == s.history && s'.flights == s.flights[id := f]
    requires f.acc == (if id in s.flights then s.flights[id].acc else NO_ACC).(seen := f.acc.seen, conns := f.acc.conns)
    ensures Balances(s', user, d)
  {
    var before := if id in s.flights then s.flights[id].acc else NO_ACC;
    SameOwed(f, before, user, d);
    if id in s.flights { SameOwed(s.flights[id], before, user, d); }
    BoundedPut(s.flights, id, f, user, d);
    PutOwed(s.flights, id, f, user, d);
  }

  lemma StepBalances(s: State, e: Event, user: string, d: Dir)
    requires CanOccur(s, e) && !IsReset(e) && Balances(s, user, d)
    ensures Balances(Next(s, e), user, d)
  {
    if e.Commit? && e.commits {
      CommitBalances(s, e.id, user, d);
    } else if e.PostHistory? {
      PostBalances(s, e.id, e.rows, user, d);
    } else {
      QuietBalances(s, Next(s, e), e.id, Next(s, e).flights[e.id], user, d);
    }
  }

  lemma InitialBalances(user: string, d: Dir)
    ensures Balances(INITIAL, user, d)
  {
    assert LabelRowsOf(INITIAL.users, user) == map[] && BytesOf(INITIAL.users) == map[];
    assert AllOwed(INITIAL.flights, user) == map[];
  }

  /** In every state of every interleaving without resets, the ledger is the history plus
      what the flushes under way still owe it. */
  lemma {:induction false} AlwaysBalances(trace: seq<State>, events: seq<Event>, n: nat, user: string, d: Dir)
    requires IsTrace(trace, events) && n <= |events|
    requires forall i | 0 <= i < n :: !IsReset(events[i])
    ensures Balances(trace[n], user, d)
  {
    if n == 0 {
      InitialBalances(user, d);
    } else {
      AlwaysBalances(trace, events, n - 1, user, d);
      StepBalances(trace[n - 1], events[n - 1], user, d);
    }
  }

  /** So whenever no flush is under way, history and ledger agree, however the flushes that
      led there overlapped. */
  lemma QuietStatesBalance(trace: seq<State>, events: seq<Event>, n: nat)
    requires IsTrace(trace, events) && n <= |events| && trace[n].flights == map[]
    requires forall i | 0 <= i < n :: !IsReset(events[i])
    ensures Balanced(LedgerOf(trace[n]))
  {
    forall user: string, d: Dir
      ensures HistSum(trace[n].history, user, d) == LabelSum(trace[n].users, user, d)
              + if user == "" then GrandTotal(trace[n].users, d) else 0
    {
      AlwaysBalances(trace, events, n, user, d);
      assert AllOwed(trace[n].flights, user) == map[];
    }
  }

  // ---------- bytes against snapshots ----------

  /** What committing a counter computed against `read` does to a row. */
  function Committed(row: Row, live: Octets, read: Octets): Row {
    if Moved(live, read) then Count(row, DeltaRow(live, read)) else row
  }

  predicate CoveredIn(row: Row, d: Dir) {
    row.snap.Of(d) <= row.bytes.Of(d)
  }

  /** The exact condition for one row: the commit leaves it covered if and only if the
      counter has restarted since, or the row still counts what was read. */
  lemma CommitCoversIff(row: Row, live: Octets, read: Octets, d: Dir)
    requires CoveredIn(row, d)
    ensures CoveredIn(Committed(row, live, read), d) <==>
            !Moved(live, read) || live.Of(d) < read.Of(d) || read.Of(d) <= row.bytes.Of(d)
  {
  }

  lemma CommitRow(users: Users, p: Pending, key: Key)
    ensures RowOf(Upsert(users, DeltasOf(p), p.inst), key) ==
            if key.1 == p.inst && key.0 in p.live then Committed(RowOf(users, key), p.live[key.0], SnapIn(p.snaps, key.0))
            else RowOf(users, key)
  {
    var deltas := DeltasOf(p);
    assert key == (key.0, key.1);
    assert key in Upsert(users, deltas, p.inst) <==> key in users || (key.1 == p.inst && key.0 in deltas);
  }

  /** What the flushes under way have read, the tables still count. */
  ghost predicate Current(s: State, key: Key, d: Dir) {
    forall id | id in s.flights && s.flights[id].pending.Some? ::
      var p := s.flights[id].pending.value;
      p.inst == key.1 ==> SnapIn(p.snaps, key.0).Of(d) <= RowOf(s.users, key).bytes.Of(d)
  }

  ghost predicate GlobalCurrent(s: State, d: Dir) {
    forall id | id in s.flights && !s.flights[id].posted :: s.flights[id].globalSnap.Of(d) <= s.total.bytes.Of(d)
  }

  ghost predicate RowSafe(s: State, key: Key, d: Dir) {
    CoveredIn(RowOf(s.users, key), d) && Current(s, key, d)
  }

  ghost predicate GlobalSafe(s: State, d: Dir) {
    CoveredIn(s.total, d) && GlobalCurrent(s, d)
  }

  predicate Touches(e: Event, key: Key) {
    e.ResetAll? || (e.ResetUser? && e.user == key.0)
  }

  /** A reset of the row while some flush holds a positive read of it. */
  ghost predicate CutsRead(s: State, e: Event, key: Key, d: Dir) {
    Touches(e, key) && exists id | id in s.flights && s.flights[id].pending.Some? ::
      s.flights[id].pending.value.inst == key.1 && SnapIn(s.flights[id].pending.value.snaps, key.0).Of(d) > 0
  }

  ghost predicate CutsGlobal(s: State, e: Event, d: Dir) {
    e.ResetGlobal? && exists id | id in s.flights :: !s.flights[id].posted && s.flights[id].globalSnap.Of(d) > 0
  }

  lemma ReadKeepsSafe(s: State, e: Event, key: Key, d: Dir)
    requires e.Read? && CanOccur(s, e) && RowSafe(s, key, d)
    ensures RowSafe(Next(s, e), key, d)
  {
    SnapsAreRows(s.users, key);
  }

  lemma CommitKeepsSafe(s: State, e: Event, key: Key, d: Dir)
    requires e.Commit? && CanOccur(s, e) && RowSafe(s, key, d)
    ensures RowSafe(Next(s, e), key, d)
  {
    var p := s.flights[e.id].pending.value;
    CommitRow(s.users, p, key);
    assert key.1 == p.inst ==> SnapIn(p.snaps, key.0).Of(d) <= RowOf(s.users, key).bytes.Of(d);
  }

  lemma ResetKeepsSafe(s: State, e: Event, key: Key, d: Dir)
    requires IsReset(e) && RowSafe(s, key, d) && !CutsRead(s, e, key, d)
    ensures RowSafe(Next(s, e), key, d)
  {
    assert Touches(e, key) ==> RowOf(Next(s, e).users, key) == NEW_ROW;
    assert !Touches(e, key) ==> RowOf(Next(s, e).users, key) == RowOf(s.users, key);
  }

  lemma StepKeepsSafe(s: State, e: Event, key: Key, d: Dir)
    requires CanOccur(s, e) && RowSafe(s, key, d) && !CutsRead(s, e, key, d)
    ensures RowSafe(Next(s, e), key, d)
  {
    if e.Read? {
      ReadKeepsSafe(s, e, key, d);
    } else if e.Commit? {
      CommitKeepsSafe(s, e, key, d);
    } else if IsReset(e) {
      ResetKeepsSafe(s, e, key, d);
    }
  }

  lemma StepKeepsGlobalSafe(s: State, e: Event, d: Dir)
    requires CanOccur(s, e) && GlobalSafe(s, d) && !CutsGlobal(s, e, d)
    ensures GlobalSafe(Next(s, e), d)
  {
  }

  /** However flushes and resets interleave, as long as no reset of a row falls between a
      positive read of it and the commit, the row never counts less than its snapshot. */
  lemma {:induction false} UncutRowsStayCovered(trace: seq<State>, events: seq<Event>, n: nat, key: Key, d: Dir)
    requires IsTrace(trace, events) && n <= |events|
    requires forall i | 0 <= i < n :: !CutsRead(trace[i], events[i], key, d)
    ensures RowSafe(trace[n], key, d)
  {
    if n > 0 {
      UncutRowsStayCovered(trace, events, n - 1, key, d);
      StepKeepsSafe(trace[n - 1], events[n - 1], key, d);
    }
  }

  lemma {:induction false} UncutGlobalStaysCovered(trace: seq<State>, events: seq<Event>, n: nat, d: Dir)
    requires IsTrace(trace, events) && n <= |events|
    requires forall i | 0 <= i < n :: !CutsGlobal(trace[i], events[i], d)
    ensures GlobalSafe(trace[n], d)
  {
    if n > 0 {
      UncutGlobalStaysCovered(trace, events, n - 1, d);
      StepKeepsGlobalSafe(trace[n - 1], events[n - 1], d);
    }
  }

  /** And only as long: after a reset between the read and the commit, the row is covered in
      a direction exactly when the snapshot read was zero or the counter has restarted since. */
  lemma CutReadUncoversIff(s: State, reset: Event, id: nat, key: Key, d: Dir)
    requires Touches(reset, key) && id in s.flights && s.flights[id].pending.Some?
    requires var p := s.flights[id].pending.value;
      p.inst == key.1 && key.0 in p.live && Moved(p.live[key.0], SnapIn(p.snaps, key.0))
    ensures var p, s1 := s.flights[id].pending.value, Next(s, reset);
      && CanOccur(s1, Commit(id, true))
      && (CoveredIn(RowOf(Next(s1, Commit(id, true)).users, key), d) <==>
          SnapIn(p.snaps, key.0).Of(d) == 0 || p.live[key.0].Of(d) < SnapIn(p.snaps, key.0).Of(d))
  {
    var p, s1 := s.flights[id].pending.value, Next(s, reset);
    assert RowOf(s1.users, key) == NEW_ROW;
    CommitRow(s1.users, p, key);
    CommitCoversIff(NEW_ROW, p.live[key.0], SnapIn(p.snaps, key.0), d);
  }

  /** The same for the global row: posting after a reset since the flush began leaves it covered
      exactly when there is nothing to post, or what was read was zero, or the sum of the counters
      has fallen since. */
  lemma CutGlobalUncoversIff(s: State, id: nat, d: Dir)
    requires CanOccur(s, PostGlobal(id))
    ensures var f, s1 := s.flights[id], Next(s, Event.ResetGlobal);
      && CanOccur(s1, PostGlobal(id))
      && (CoveredIn(Next(s1, PostGlobal(id)).total, d) <==>
          (f.acc.moved == ZERO && f.acc.conns == 0 && f.acc.seen == ZERO)
          || f.globalSnap.Of(d) == 0 || f.acc.seen.Of(d) < f.globalSnap.Of(d))
  {
  }

  // ---------- the closed form under overlap ----------

  /** The exact condition for a commit to write what an observation at that moment would:
      what it was computed against gives the same deltas as the row's own snapshot. */
  lemma CommitObservesIff(row: Row, live: Octets, read: Octets)
    ensures Committed(row, live, read) == Observe(row, live) <==> Deltas(live, read) == Deltas(live, row.snap)
  {
  }

  /** So a failed read, which counts as a snapshot of zero, does no harm exactly where there is
      no snapshot yet or the counter has restarted since, in each direction. */
  lemma FailedReadIsHarmlessIff(row: Row, live: Octets)
    ensures Committed(row, live, ZERO) == Observe(row, live) <==>
            (row.snap.received == 0 || live.received < row.snap.received) && (row.snap.sent == 0 || live.sent < row.snap.sent)
  {
    CommitObservesIff(row, live, ZERO);
  }

  /** The counter of `key` that the event commits. */
  ghost function CommittedBy(s: State, e: Event, key: Key): seq<Octets>
    requires CanOccur(s, e)
  {
    if e.Commit? && e.commits then
      var p := s.flights[e.id].pending.value;
      if p.inst == key.1 && key.0 in p.live then [p.live[key.0]] else []
    else []
  }

  /** The counters of `key` that the events from `m` to `n` committed. */
  ghost function Commits(trace: seq<State>, events: seq<Event>, m: nat, n: nat, key: Key): seq<Octets>
    requires m <= n <= |events| && |trace| == |events| + 1
    requires forall i | m <= i < n :: CanOccur(trace[i], events[i])
  {
    if n == m then []
    else
      assert CanOccur(trace[n - 1], events[n - 1]);
      Commits(trace, events, m, n - 1, key) + CommittedBy(trace[n - 1], events[n - 1], key)
  }

  /** A commit of the row, if this is one, computes the deltas the row itself would. */
  ghost predicate Undisturbed(s: State, e: Event, key: Key)
    requires CanOccur(s, e)
  {
    e.Commit? && e.commits ==>
      var p := s.flights[e.id].pending.value;
      p.inst == key.1 && key.0 in p.live ==>
        Deltas(p.live[key.0], SnapIn(p.snaps, key.0)) == Deltas(p.live[key.0], RowOf(s.users, key).snap)
  }

  lemma StepFoldsIff(s: State, e: Event, key: Key)
    requires CanOccur(s, e) && !Touches(e, key)
    ensures RowOf(Next(s, e).users, key) == Fold(RowOf(s.users, key), CommittedBy(s, e, key)) <==> Undisturbed(s, e, key)
  {
    var row := RowOf(s.users, key);
    if e.Commit? && e.commits {
      var p := s.flights[e.id].pending.value;
      CommitRow(s.users, p, key);
      if p.inst == key.1 && key.0 in p.live {
        FoldOne(row, p.live[key.0]);
        CommitObservesIff(row, p.live[key.0], SnapIn(p.snaps, key.0));
      }
    } else if IsReset(e) {
      assert RowOf(Next(s, e).users, key) == row;
    }
  }

  lemma {:induction false} FoldOne(row: Row, x: Octets)
    ensures Fold(row, [x]) == Observe(row, x)
  {
    assert [x][..0] == [];
    assert Fold(row, []) == row;
  }

  /** The row is the fold of what was committed to it since `m`. */
  ghost predicate Follows(trace: seq<State>, events: seq<Event>, m: nat, n: nat, key: Key)
    requires IsTrace(trace, events) && m <= n <= |events|
  {
    RowOf(trace[n].users, key) == Fold(RowOf(trace[m].users, key), Commits(trace, events, m, n, key))
  }

  lemma NextFollowsIff(trace: seq<State>, events: seq<Event>, m: nat, n: nat, key: Key)
    requires IsTrace(trace, events) && m <= n < |events| && !Touches(events[n], key) && Follows(trace, events, m, n, key)
    ensures Follows(trace, events, m, n + 1, key) <==> Undisturbed(trace[n], events[n], key)
  {
    var row, xs, ys := RowOf(trace[m].users, key), Commits(trace, events, m, n, key), CommittedBy(trace[n], events[n], key);
    FoldAppend(row, xs, ys);
    StepFoldsIff(trace[n], events[n], key);
  }

  lemma {:induction false} FollowsThrough(trace: seq<State>, events: seq<Event>, m: nat, n: nat, key: Key)
    requires IsTrace(trace, events) && m <= n <= |events|
    requires forall i | m <= i < n :: !Touches(events[i], key) && Undisturbed(trace[i], events[i], key)
    ensures Follows(trace, events, m, n, key)
  {
    if n > m {
      FollowsThrough(trace, events, m, n - 1, key);
      NextFollowsIff(trace, events, m, n - 1, key);
    }
  }

  /** While a row is not reset, it keeps being the fold of what is committed to it if and only
      if no commit of it is disturbed. */
  lemma RowFollowsIff(trace: seq<State>, events: seq<Event>, m: nat, n: nat, key: Key)
    requires IsTrace(trace, events) && m <= n <= |events| && forall i | m <= i < n :: !Touches(events[i], key)
    ensures (forall i | m <= i <= n :: Follows(trace, events, m, i, key)) <==>
            (forall i | m <= i < n :: Undisturbed(trace[i], events[i], key))
  {
    if forall i | m <= i < n :: Undisturbed(trace[i], events[i], key) {
      forall i | m <= i <= n ensures Follows(trace, events, m, i, key) {
        FollowsThrough(trace, events, m, i, key);
      }
    }
    if forall i | m <= i <= n :: Follows(trace, events, m, i, key) {
      forall i | m <= i < n ensures Undisturbed(trace[i], events[i], key) {
        assert Follows(trace, events, m, i, key) && Follows(trace, events, m, i + 1, key);
        NextFollowsIff(trace, events, m, i, key);
      }
    }
  }

  // ---------- flushes that take turns ----------

  /** Reads of the instance succeed, and none is pending beside the one that commits. */
  ghost predicate TakesTurns(s: State, e: Event, inst: int)
    requires CanOccur(s, e)
  {
    && (e.Read? && e.inst == inst ==> e.read)
    && (e.Commit? && e.commits && s.flights[e.id].pending.value.inst == inst ==>
          forall id | id in s.flights && id != e.id :: !Reading(s.flights[id], inst))
  }

  predicate Reading(f: Flight, inst: int) {
    f.pending.Some? && f.pending.value.inst == inst
  }

  /** What is read of the row is what the row says. */
  ghost predicate ReadsAgree(s: State, key: Key) {
    forall id | id in s.flights && Reading(s.flights[id], key.1) ::
      SnapIn(s.flights[id].pending.value.snaps, key.0) == RowOf(s.users, key).snap
  }

  lemma TurnsKeepAgreement(s: State, e: Event, key: Key)
    requires CanOccur(s, e) && TakesTurns(s, e, key.1) && !Touches(e, key) && ReadsAgree(s, key)
    ensures Undisturbed(s, e, key) && ReadsAgree(Next(s, e), key)
  {
    if e.Read? {
      ReadKeepsAgreement(s, e, key);
    } else if e.Commit? && e.commits {
      CommitKeepsAgreement(s, e.id, key);
    } else if IsReset(e) {
      assert RowOf(Next(s, e).users, key) == RowOf(s.users, key);
    }
  }

  lemma ReadKeepsAgreement(s: State, e: Event, key: Key)
    requires e.Read? && CanOccur(s, e) && (e.inst == key.1 ==> e.read) && ReadsAgree(s, key)
    ensures ReadsAgree(Next(s, e), key)
  {
    SnapsAreRows(s.users, key);
  }

  lemma CommitKeepsAgreement(s: State, id: nat, key: Key)
    requires CanOccur(s, Commit(id, true)) && TakesTurns(s, Commit(id, true), key.1) && ReadsAgree(s, key)
    ensures Undisturbed(s, Commit(id, true), key) && ReadsAgree(Next(s, Commit(id, true)), key)
  {
    assert Reading(s.flights[id], s.flights[id].pending.value.inst);
    CommitRow(s.users, s.flights[id].pending.value, key);
  }

  /** From `m` to `n` the row is not reset and flushes of its instance take turns. */
  ghost predicate Turns(trace: seq<State>, events: seq<Event>, m: nat, n: nat, key: Key)
    requires IsTrace(trace, events) && n <= |events|
  {
    forall i | m <= i < n :: !Touches(events[i], key) && TakesTurns(trace[i], events[i], key.1)
  }

  lemma {:induction false} TurnsKeepReads(trace: seq<State>, events: seq<Event>, m: nat, n: nat, key: Key)
    requires IsTrace(trace, events) && m <= n <= |events| && ReadsAgree(trace[m], key) && Turns(trace, events, m, n, key)
    ensures ReadsAgree(trace[n], key)
  {
    if n > m {
      TurnsKeepReads(trace, events, m, n - 1, key);
      NextReadAgrees(trace, events, n - 1, key);
    }
  }

  lemma NextReadAgrees(trace: seq<State>, events: seq<Event>, n: nat, key: Key)
    requires IsTrace(trace, events) && n < |events| && ReadsAgree(trace[n], key)
    requires !Touches(events[n], key) && TakesTurns(trace[n], events[n], key.1)
    ensures ReadsAgree(trace[n + 1], key)
  {
    TurnsKeepAgreement(trace[n], events[n], key);
  }

  lemma TurnsLeaveUndisturbed(trace: seq<State>, events: seq<Event>, m: nat, n: nat, key: Key)
    requires IsTrace(trace, events) && m <= n <= |events| && ReadsAgree(trace[m], key) && Turns(trace, events, m, n, key)
    ensures forall i | m <= i < n :: !Touches(events[i], key) && Undisturbed(trace[i], events[i], key)
  {
    forall i | m <= i < n ensures !Touches(events[i], key) && Undisturbed(trace[i], events[i], key) {
      TurnsKeepReads(trace, events, m, i, key);
      TurnsKeepAgreement(trace[i], events[i], key);
    }
  }

  /** No flush has read the row and it counts nothing: at the start, and after a reset that
      falls between flushes of the instance. */
  ghost predicate StartsAfresh(s: State, key: Key) {
    RowOf(s.users, key) == NEW_ROW && forall id | id in s.flights :: !Reading(s.flights[id], key.1)
  }

  lemma ResetStartsAfresh(s: State, reset: Event, key: Key)
    requires Touches(reset, key) && forall id | id in s.flights :: !Reading(s.flights[id], key.1)
    ensures StartsAfresh(Next(s, reset), key) && StartsAfresh(INITIAL, key)
  {
  }

  lemma {:induction false} TurnsFold(trace: seq<State>, events: seq<Event>, m: nat, n: nat, key: Key)
    requires IsTrace(trace, events) && m <= n <= |events| && StartsAfresh(trace[m], key) && Turns(trace, events, m, n, key)
    ensures RowOf(trace[n].users, key) == Fold(NEW_ROW, Commits(trace, events, m, n, key))
  {
    TurnsLeaveUndisturbed(trace, events, m, n, key);
    FollowsThrough(trace, events, m, n, key);
  }

  /** Closed form in every interleaving: since the start or the row's last reset, as long as
      reads of the instance succeed and none is pending while another commits, the bytes are
      the sum of the last values of the non-decreasing runs of what was committed. */
  lemma {:induction false} ClosedFormUnderOverlap(trace: seq<State>, events: seq<Event>, m: nat, n: nat, key: Key, d: Dir)
    requires IsTrace(trace, events) && m <= n <= |events| && StartsAfresh(trace[m], key) && Turns(trace, events, m, n, key)
    ensures RowOf(trace[n].users, key).bytes.Of(d)
         == RunEnds(Values(Recorded(NEW_ROW, Commits(trace, events, m, n, key)), d))
  {
    TurnsFold(trace, events, m, n, key);
    FoldClosedForm(Commits(trace, events, m, n, key), d);
  }

  /** And then, once the counters committed are those of the engine's scrapes, row, pending
      counter and losses make up what the engine carried. */
  lemma {:induction false} AccountingUnderOverlap(trace: seq<State>, events: seq<Event>, m: nat, n: nat, key: Key,
                                                  engine: seq<EngineEvent>, d: Dir)
    requires IsTrace(trace, events) && m <= n <= |events| && StartsAfresh(trace[m], key) && Turns(trace, events, m, n, key)
    requires Commits(trace, events, m, n, key) == Scrapes(engine)
    ensures var row, e := RowOf(trace[n].users, key), Live(engine);
            row.bytes.Of(d) + Delta(e.counters.Of(d), row.snap.Of(d)) + Lost(engine, d) == e.carried.Of(d)
  {
    TurnsFold(trace, events, m, n, key);
    LiveRowIsFold(engine);
    FollowingRowAccounts(engine, d);
  }

  // ---------- the traces that break it ----------

  /** The state these events lead to from the start. */
  ghost predicate Leads(events: seq<Event>, s: State) {
    exists trace :: IsTrace(trace, events) && trace[|events|] == s
  }

  lemma LeadsOn(events: seq<Event>, s: State, e: Event)
    requires Leads(events, s) && CanOccur(s, e)
    ensures Leads(events + [e], Next(s, e))
  {
    var trace :| IsTrace(trace, events) && trace[|events|] == s;
    assert IsTrace(trace + [Next(s, e)], events + [e]);
  }

  lemma LeadsNowhere()
    ensures Leads([], INITIAL)
  {
    assert IsTrace([INITIAL], []);
  }

  lemma LeadsToStart(events: seq<Event>, s: State, id: nat) returns (s': State)
    requires Leads(events, s) && id !in s.flights
    ensures Leads(events + [Start(id)], s') && s'.users == s.users && Between(s', id)
    ensures s'.flights.Keys == s.flights.Keys + {id}
    ensures forall j | j in s.flights :: j in s'.flights && s'.flights[j] == s.flights[j]
  {
    LeadsOn(events, s, Start(id));
    s' := Next(s, Start(id));
  }

  /** A scrape that shows the counter of one user. */
  function Sight(id: nat, key: Key, c: Octets, read: bool): Event {
    Read(id, key.1, Scrape(map[key.0 := c], 0), read)
  }

  /** A flush has scraped that counter and found `snap` stored for it. */
  ghost predicate Sees(s: State, id: nat, key: Key, c: Octets, snap: Octets) {
    && id in s.flights && Reading(s.flights[id], key.1) && s.flights[id].pending.value.live == map[key.0 := c]
    && SnapIn(s.flights[id].pending.value.snaps, key.0) == snap
  }

  lemma LeadsToSight(events: seq<Event>, s: State, id: nat, key: Key, c: Octets, read: bool) returns (s': State)
    requires Leads(events, s) && Between(s, id) && Moved(c, if read then RowOf(s.users, key).snap else ZERO)
    ensures Leads(events + [Sight(id, key, c, read)], s') && s'.users == s.users
    ensures Sees(s', id, key, c, if read then RowOf(s.users, key).snap else ZERO)
    ensures s'.flights.Keys == s.flights.Keys
    ensures forall j | j in s.flights && j != id :: s'.flights[j] == s.flights[j]
  {
    SnapsAreRows(s.users, key);
    assert key.0 in DeltasOf(Pending(key.1, map[key.0 := c], if read then SnapsOf(s.users, key.1) else map[]));
    LeadsOn(events, s, Sight(id, key, c, read));
    s' := Next(s, Sight(id, key, c, read));
  }

  lemma LeadsToCommit(events: seq<Event>, s: State, id: nat, key: Key, c: Octets, snap: Octets) returns (s': State)
    requires Leads(events, s) && Sees(s, id, key, c, snap)
    ensures Leads(events + [Commit(id, true)], s') && RowOf(s'.users, key) == Committed(RowOf(s.users, key), c, snap)
    ensures s'.flights.Keys == s.flights.Keys && forall j | j in s.flights && j != id :: s'.flights[j] == s.flights[j]
  {
    CommitRow(s.users, s.flights[id].pending.value, key);
    LeadsOn(events, s, Commit(id, true));
    s' := Next(s, Commit(id, true));
  }

  lemma LeadsToReset(events: seq<Event>, s: State, key: Key) returns (s': State)
    requires Leads(events, s)
    ensures Leads(events + [Event.ResetUser(key.0)], s') && RowOf(s'.users, key) == NEW_ROW && s'.flights == s.flights
  {
    LeadsOn(events, s, Event.ResetUser(key.0));
    s' := Next(s, Event.ResetUser(key.0));
  }

  /** A first flush commits `c`, and a second one is under way. */
  function OneFlush(key: Key, c: Octets): seq<Event> {
    [] + [Start(0)] + [Sight(0, key, c, true)] + [Commit(0, true)] + [Start(1)]
  }

  lemma OneFlushCommits(key: Key, c: Octets) returns (s: State)
    requires c != ZERO
    ensures Leads(OneFlush(key, c), s) && RowOf(s.users, key) == Row(c, c) && Between(s, 1)
  {
    LeadsNowhere();
    var s1 := LeadsToStart([], INITIAL, 0);
    var s2 := LeadsToSight([] + [Start(0)], s1, 0, key, c, true);
    var s3 := LeadsToCommit([] + [Start(0)] + [Sight(0, key, c, true)], s2, 0, key, c, ZERO);
    s := LeadsToStart([] + [Start(0)] + [Sight(0, key, c, true)] + [Commit(0, true)], s3, 1);
  }

  /** A reset between a flush's read and its commit, from the start: 100 bytes counted, a counter
      of 150, and the row ends at 50 bytes under a snapshot of 150. */
  lemma ResetDuringAFlush(key: Key)
    ensures var events := OneFlush(key, Octets(100, 0)) + [Sight(1, key, Octets(150, 0), true)]
                          + [Event.ResetUser(key.0)] + [Commit(1, true)];
      exists s: State :: Leads(events, s) && RowOf(s.users, key) == Row(Octets(50, 0), Octets(150, 0))
  {
    var c, c' := Octets(100, 0), Octets(150, 0);
    assert Deltas(c', c) == Octets(50, 0);
    var es := OneFlush(key, c);
    var s1 := OneFlushCommits(key, c);
    var s2 := LeadsToSight(es, s1, 1, key, c', true);
    var s3 := LeadsToReset(es + [Sight(1, key, c', true)], s2, key);
    var s4 := LeadsToCommit(es + [Sight(1, key, c', true)] + [Event.ResetUser(key.0)], s3, 1, key, c', c);
  }

  /** A failed read of the snapshots, from the start: a counter that did not move is counted a
      second time. */
  lemma FailedReadCountsAgain(key: Key, c: Octets)
    requires c != ZERO
    ensures var events := OneFlush(key, c) + [Sight(1, key, c, false)] + [Commit(1, true)];
      exists s: State :: Leads(events, s) && RowOf(s.users, key) == Row(c.Plus(c), c)
  {
    var s1 := OneFlushCommits(key, c);
    var s2 := LeadsToSight(OneFlush(key, c), s1, 1, key, c, false);
    var s3 := LeadsToCommit(OneFlush(key, c) + [Sight(1, key, c, false)], s2, 1, key, c, ZERO);
  }

  /** Two flushes that have both read before either commits. */
  function TwoFlushes(key: Key, c: Octets): seq<Event> {
    [] + [Start(0)] + [Start(1)] + [Sight(0, key, c, true)] + [Sight(1, key, c, true)]
  }

  lemma TwoFlushesRead(key: Key, c: Octets) returns (s: State)
    requires c != ZERO
    ensures Leads(TwoFlushes(key, c), s) && RowOf(s.users, key) == NEW_ROW
    ensures Sees(s, 0, key, c, ZERO) && Sees(s, 1, key, c, ZERO)
  {
    LeadsNowhere();
    var s1 := LeadsToStart([], INITIAL, 0);
    var s2 := LeadsToStart([] + [Start(0)], s1, 1);
    var s3 := LeadsToSight([] + [Start(0)] + [Start(1)], s2, 0, key, c, true);
    s := LeadsToSight([] + [Start(0)] + [Start(1)] + [Sight(0, key, c, true)], s3, 1, key, c, true);
  }

  lemma CountedTwice(c: Octets)
    requires c != ZERO
    ensures Committed(Committed(NEW_ROW, c, ZERO), c, ZERO) == Row(c.Plus(c), c)
  {
  }

  /** From the start: the same bytes are counted twice. */
  lemma OverlappingFlushesCountTwice(key: Key, c: Octets)
    requires c != ZERO
    ensures var events := TwoFlushes(key, c) + [Commit(0, true)] + [Commit(1, true)];
      exists s: State :: Leads(events, s) && RowOf(s.users, key) == Row(c.Plus(c), c)
  {
    var es := TwoFlushes(key, c);
    var s1 := TwoFlushesRead(key, c);
    var s2 := LeadsToCommit(es, s1, 0, key, c, ZERO);
    assert Sees(s2, 1, key, c, ZERO);
    var s3 := LeadsToCommit(es + [Commit(0, true)], s2, 1, key, c, ZERO);
    CountedTwice(c);
  }
}
