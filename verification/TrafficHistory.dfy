/**
 What the ledger's rows mean: a row against the counters it was fed, against the bytes
 the engine really carried, and under resets.
 */
module TrafficHistory {
  import opened Common
  import opened OctetSums
  import opened TrafficLedger

  // ---------- closed form ----------

  /** What recording one scraped counter pair does to a row. */
  function Observe(row: Row, x: Octets): Row {
    if Moved(x, row.snap) then Count(row, DeltaRow(x, row.snap)) else row
  }

  function Fold(row: Row, xs: seq<Octets>): Row {
    if xs == [] then row else Observe(Fold(row, xs[..|xs| - 1]), xs[|xs| - 1])
  }

  /** The observations that get an entry: those that moved in some direction. */
  function Recorded(row: Row, xs: seq<Octets>): seq<Octets> {
    if xs == [] then []
    else
      var before, x := xs[..|xs| - 1], xs[|xs| - 1];
      Recorded(row, before) + if Moved(x, Fold(row, before).snap) then [x] else []
  }

  function Values(xs: seq<Octets>, d: Dir): seq<nat> {
    seq(|xs|, i requires 0 <= i < |xs| => xs[i].Of(d))
  }

  /** The sum of the last values of the maximal non-decreasing runs of `xs`. */
  function RunEnds(xs: seq<nat>): nat {
    if xs == [] then 0
    else (if |xs| == 1 || xs[1] < xs[0] then xs[0] else 0) + RunEnds(xs[1..])
  }

  lemma {:induction false} RunEndsAppend(xs: seq<nat>, x: nat)
    ensures RunEnds(xs + [x]) ==
            if xs == [] then x
            else if x < xs[|xs| - 1] then RunEnds(xs) + x
            else RunEnds(xs) - xs[|xs| - 1] + x
    ensures xs != [] ==> xs[|xs| - 1] <= RunEnds(xs)
  {
    if xs != [] {
      assert (xs + [x])[1..] == xs[1..] + [x];
      RunEndsAppend(xs[1..], x);
      if |xs| == 1 {
        assert RunEnds([x]) == x;
      }
    }
  }

  lemma {:induction false} FoldClosedForm(xs: seq<Octets>, d: Dir)
    ensures var row, rec := Fold(NEW_ROW, xs), Recorded(NEW_ROW, xs);
            && row.bytes.Of(d) == RunEnds(Values(rec, d))
            && row.snap == if rec == [] then ZERO else rec[|rec| - 1]
  {
    if xs != [] {
      var before, x := xs[..|xs| - 1], xs[|xs| - 1];
      FoldClosedForm(before, d);
      var rec := Recorded(NEW_ROW, before);
      if Moved(x, Fold(NEW_ROW, before).snap) {
        RunEndsAppend(Values(rec, d), x.Of(d));
        assert Values(rec + [x], d) == Values(rec, d) + [x.Of(d)];
        assert Recorded(NEW_ROW, xs) == rec + [x];
      } else {
        assert Recorded(NEW_ROW, xs) == rec;
      }
    }
  }

  lemma {:induction false} FoldAppend(row: Row, xs: seq<Octets>, ys: seq<Octets>)
    ensures Fold(row, xs + ys) == Fold(Fold(row, xs), ys)
  {
    if ys == [] {
      assert xs + ys == xs;
    } else {
      assert (xs + ys)[..|xs + ys| - 1] == xs + ys[..|ys| - 1];
      FoldAppend(row, xs, ys[..|ys| - 1]);
    }
  }

  /** The counters of `key` that a flush stores: scraped, and committed. */
  function Stored(r: Report, key: Key): seq<Octets> {
    if r.inst == key.1 && r.scrape.Some? && r.commits && key.0 in r.scrape.value.live
    then [r.scrape.value.live[key.0]] else []
  }

  function StoredInFlush(reports: seq<Report>, n: nat, key: Key): seq<Octets>
    requires n <= |reports|
  {
    if n == 0 then [] else StoredInFlush(reports, n - 1, key) + Stored(reports[n - 1], key)
  }

  function StoredInRun(flushes: seq<seq<Report>>, n: nat, key: Key): seq<Octets>
    requires n <= |flushes|
  {
    if n == 0 then [] else StoredInRun(flushes, n - 1, key) + StoredInFlush(flushes[n - 1], |flushes[n - 1]|, key)
  }

  lemma UpsertRow(users: Users, live: map<string, Octets>, inst: int, key: Key)
    ensures var after := Upsert(users, UserDeltas(live, users, inst), inst);
            RowOf(after, key) ==
            if key.1 == inst && key.0 in live then Observe(RowOf(users, key), live[key.0]) else RowOf(users, key)
  {
    var deltas := UserDeltas(live, users, inst);
    assert key == (key.0, key.1);
    assert key in Upsert(users, deltas, inst) <==> key in users || (key.1 == inst && key.0 in deltas);
  }

  lemma InstanceRow(users: Users, acc: Acc, r: Report, key: Key)
    ensures RowOf(FlushInstance(users, acc, r).0, key) == Fold(RowOf(users, key), Stored(r, key))
  {
    if r.scrape.Some? {
      var live := r.scrape.value.live;
      UpsertRow(users, live, r.inst, key);
      if UserDeltas(live, users, r.inst) == map[] {
        assert Upsert(users, map[], r.inst) == users;
      }
      if key.0 in live {
        assert [live[key.0]][..0] == [];
      }
    }
  }

  lemma {:induction false} FlushRow(users: Users, reports: seq<Report>, n: nat, key: Key)
    requires n <= |reports|
    ensures RowOf(FlushInstances(users, reports, n).0, key) == Fold(RowOf(users, key), StoredInFlush(reports, n, key))
  {
    if n > 0 {
      FlushRow(users, reports, n - 1, key);
      var p := FlushInstances(users, reports, n - 1);
      InstanceRow(p.0, p.1, reports[n - 1], key);
      FoldAppend(RowOf(users, key), StoredInFlush(reports, n - 1, key), Stored(reports[n - 1], key));
      assert FlushInstances(users, reports, n) == FlushInstance(p.0, p.1, reports[n - 1]);
    }
  }

  lemma {:induction false} FlushedRow(db: Ledger, reports: seq<Report>, db': Ledger, key: Key)
    requires Flushed(db, reports, db')
    ensures RowOf(db'.users, key) == Fold(RowOf(db.users, key), StoredInFlush(reports, |reports|, key))
  {
    FlushRow(db.users, reports, |reports|, key);
  }

  lemma FoldNextFlush(flushes: seq<seq<Report>>, n: nat, key: Key)
    requires n < |flushes|
    ensures Fold(NEW_ROW, StoredInRun(flushes, n + 1, key))
         == Fold(Fold(NEW_ROW, StoredInRun(flushes, n, key)), StoredInFlush(flushes[n], |flushes[n]|, key))
  {
    FoldAppend(NEW_ROW, StoredInRun(flushes, n, key), StoredInFlush(flushes[n], |flushes[n]|, key));
  }

  /** The row of `key` is the fold of the counters stored for it. */
  ghost predicate RowFolds(dbs: seq<Ledger>, flushes: seq<seq<Report>>, n: nat, key: Key)
    requires n < |dbs| && n <= |flushes|
  {
    RowOf(dbs[n].users, key) == Fold(NEW_ROW, StoredInRun(flushes, n, key))
  }

  lemma RowFollowsFlush(dbs: seq<Ledger>, flushes: seq<seq<Report>>, n: nat, key: Key)
    requires n < |flushes| && n + 1 < |dbs| && Flushed(dbs[n], flushes[n], dbs[n + 1])
    requires RowFolds(dbs, flushes, n, key)
    ensures RowFolds(dbs, flushes, n + 1, key)
  {
    FlushedRow(dbs[n], flushes[n], dbs[n + 1], key);
    FoldNextFlush(flushes, n, key);
  }

  lemma RowFoldsAtStart(dbs: seq<Ledger>, flushes: seq<seq<Report>>, key: Key)
    requires |dbs| > 0 && dbs[0] == EMPTY
    ensures RowFolds(dbs, flushes, 0, key)
  {
  }

  lemma {:induction false} RowIsFold(dbs: seq<Ledger>, flushes: seq<seq<Report>>, n: nat, key: Key)
    requires IsRun(dbs, flushes) && n <= |flushes|
    ensures RowFolds(dbs, flushes, n, key)
  {
    if n == 0 {
      RowFoldsAtStart(dbs, flushes, key);
    } else {
      RowIsFold(dbs, flushes, n - 1, key);
      RowFollowsFlush(dbs, flushes, n - 1, key);
    }
  }

  /**
   Closed form.  After any run of flushes, whatever restarts the counters show, a user's
   bytes on an instance are, in each direction, the sum of the last values of the maximal
   non-decreasing runs of the recorded counters.
   */
  lemma {:induction false} LedgerClosedForm(dbs: seq<Ledger>, flushes: seq<seq<Report>>, n: nat, key: Key, d: Dir)
    requires IsRun(dbs, flushes) && n <= |flushes|
    ensures RowOf(dbs[n].users, key).bytes.Of(d)
         == RunEnds(Values(Recorded(NEW_ROW, StoredInRun(flushes, n, key)), d))
  {
    RowIsFold(dbs, flushes, n, key);
    FoldClosedForm(StoredInRun(flushes, n, key), d);
  }

  // ---------- against the bytes really carried ----------

  datatype EngineEvent = Carry(octets: Octets) | Restart | Scraped

  /** The engine's counters, all it ever carried, and the ledger row that follows it. */
  datatype Engine = Engine(counters: Octets, carried: Octets, row: Row)

  function Apply(e: Engine, ev: EngineEvent): Engine {
    match ev
    case Carry(o) => e.(counters := e.counters.Plus(o), carried := e.carried.Plus(o))
    case Restart => e.(counters := ZERO)
    case Scraped => e.(row := Observe(e.row, e.counters))
  }

  function Live(events: seq<EngineEvent>): Engine {
    if events == [] then Engine(ZERO, ZERO, NEW_ROW)
    else Apply(Live(events[..|events| - 1]), events[|events| - 1])
  }

  /** The counters at the scrapes, in order. */
  function Scrapes(events: seq<EngineEvent>): seq<Octets> {
    if events == [] then []
    else
      var before := events[..|events| - 1];
      if events[|events| - 1].Scraped? then Scrapes(before) + [Live(before).counters] else Scrapes(before)
  }

  lemma {:induction false} LiveRowIsFold(events: seq<EngineEvent>)
    ensures Live(events).row == Fold(NEW_ROW, Scrapes(events))
  {
    if events != [] {
      var before := events[..|events| - 1];
      LiveRowIsFold(before);
      assert Live(events) == Apply(Live(before), events[|events| - 1]);
      if events[|events| - 1].Scraped? {
        var xs := Scrapes(before) + [Live(before).counters];
        assert Scrapes(events) == xs && xs[..|xs| - 1] == Scrapes(before);
      }
    }
  }

  /** Bytes the ledger will never see: those not scraped before a restart, and the old
      snapshot whenever the counter climbs past it again before the next recorded scrape,
      so that the restart goes unnoticed. */
  function LostBy(e: Engine, ev: EngineEvent, d: Dir): nat {
    match ev
    case Restart => Delta(e.counters.Of(d), e.row.snap.Of(d))
    case Carry(o) =>
      if e.counters.Of(d) < e.row.snap.Of(d) <= e.counters.Of(d) + o.Of(d) then e.row.snap.Of(d) else 0
    case Scraped => 0
  }

  function Lost(events: seq<EngineEvent>, d: Dir): nat {
    if events == [] then 0
    else
      var before := events[..|events| - 1];
      Lost(before, d) + LostBy(Live(before), events[|events| - 1], d)
  }

  /** What the row has, what its next scrape adds and what it lost are what was carried. */
  predicate Accounts(e: Engine, lost: nat, d: Dir) {
    e.row.bytes.Of(d) + Delta(e.counters.Of(d), e.row.snap.Of(d)) + lost == e.carried.Of(d)
  }

  lemma EventAccounts(e: Engine, ev: EngineEvent, lost: nat, d: Dir)
    requires Accounts(e, lost, d)
    ensures Accounts(Apply(e, ev), lost + LostBy(e, ev, d), d)
  {
  }

  lemma {:induction false} FollowingRowAccounts(events: seq<EngineEvent>, d: Dir)
    ensures Accounts(Live(events), Lost(events, d), d)
  {
    if events != [] {
      FollowingRowAccounts(events[..|events| - 1], d);
      EventAccounts(Live(events[..|events| - 1]), events[|events| - 1], Lost(events[..|events| - 1], d), d);
    }
  }

  /**
   However traffic, restarts and scrapes interleave, once a run of flushes has stored for a
   key the counters of the engine's scrapes, the bytes in the key's row, those the next scrape
   would add and those lost make up exactly the bytes the engine carried.  The ledger
   therefore never exceeds them.
   */
  lemma {:induction false} LedgerAccountsForEverything(dbs: seq<Ledger>, flushes: seq<seq<Report>>, n: nat, key: Key,
                                                       events: seq<EngineEvent>, d: Dir)
    requires IsRun(dbs, flushes) && n <= |flushes| && StoredInRun(flushes, n, key) == Scrapes(events)
    ensures var row, e := RowOf(dbs[n].users, key), Live(events);
            row.bytes.Of(d) + Delta(e.counters.Of(d), row.snap.Of(d)) + Lost(events, d) == e.carried.Of(d)
  {
    RowIsFold(dbs, flushes, n, key);
    LiveRowIsFold(events);
    FollowingRowAccounts(events, d);
  }

  /** Every snapshot is a counter of the past, and only a restart takes the counter back. */
  lemma {:induction false} SnapIsBehind(events: seq<EngineEvent>, d: Dir)
    requires Restart !in events
    ensures Live(events).row.snap.Of(d) <= Live(events).counters.Of(d) == Live(events).carried.Of(d)
  {
    if events != [] {
      SnapIsBehind(events[..|events| - 1], d);
    }
  }

  lemma {:induction false} NothingLost(events: seq<EngineEvent>, d: Dir)
    requires Restart !in events
    ensures Lost(events, d) == 0
  {
    if events != [] {
      NothingLost(events[..|events| - 1], d);
      SnapIsBehind(events[..|events| - 1], d);
    }
  }

  /** As long as the engine does not restart, the ledger loses nothing: the row stands at the
      counter as last scraped, and only what came since is missing. */
  lemma {:induction false} NothingLostWithoutRestarts(dbs: seq<Ledger>, flushes: seq<seq<Report>>, n: nat, key: Key,
                                                      events: seq<EngineEvent>, d: Dir)
    requires IsRun(dbs, flushes) && n <= |flushes| && StoredInRun(flushes, n, key) == Scrapes(events)
    requires Restart !in events
    ensures var row := RowOf(dbs[n].users, key);
            row.bytes.Of(d) == row.snap.Of(d) <= Live(events).carried.Of(d)
  {
    LedgerAccountsForEverything(dbs, flushes, n, key, events, d);
    RowIsFold(dbs, flushes, n, key);
    LiveRowIsFold(events);
    NothingLost(events, d);
    SnapIsBehind(events, d);
  }

  // ---------- resets ----------

  datatype Op = Flush(reports: seq<Report>) | ResetUser(user: string) | ResetAll | ResetGlobal

  function Cleared(users: Users, all: bool, user: string): Users {
    map k | k in users :: if all || k.0 == user then NEW_ROW else users[k]
  }

  ghost predicate Performed(db: Ledger, op: Op, db': Ledger) {
    match op
    case Flush(reports) => Flushed(db, reports, db')
    case ResetUser(user) => db' == db.(users := Cleared(db.users, false, user))
    case ResetAll => db' == db.(users := Cleared(db.users, true, ""))
    case ResetGlobal => db' == db.(total := NEW_ROW)
  }

  predicate RowCovered(row: Row) {
    row.snap.received <= row.bytes.received && row.snap.sent <= row.bytes.sent
  }

  ghost predicate Covered(db: Ledger) {
    RowCovered(db.total) && forall key :: RowCovered(RowOf(db.users, key))
  }

  lemma {:induction false} FoldCovered(row: Row, xs: seq<Octets>)
    requires RowCovered(row)
    ensures RowCovered(Fold(row, xs))
  {
    if xs != [] {
      FoldCovered(row, xs[..|xs| - 1]);
    }
  }

  lemma OpKeepsCovered(db: Ledger, op: Op, db': Ledger)
    requires Covered(db) && Performed(db, op, db')
    ensures Covered(db')
  {
    if op.Flush? {
      var reports := op.reports;
      forall key ensures RowCovered(RowOf(db'.users, key)) {
        FlushedRow(db, reports, db', key);
        FoldCovered(RowOf(db.users, key), StoredInFlush(reports, |reports|, key));
      }
    } else {
      forall key ensures RowCovered(RowOf(db'.users, key)) {
        assert RowCovered(RowOf(db.users, key));
      }
    }
  }

  /** In every state, resets included, no row counts less than its snapshot. */
  lemma {:induction false} AlwaysCovered(dbs: seq<Ledger>, ops: seq<Op>, n: nat)
    requires |dbs| == |ops| + 1 && dbs[0] == EMPTY && n <= |ops|
    requires forall i | 0 <= i < |ops| :: Performed(dbs[i], ops[i], dbs[i + 1])
    ensures Covered(dbs[n])
  {
    if n > 0 {
      AlwaysCovered(dbs, ops, n - 1);
      OpKeepsCovered(dbs[n - 1], ops[n - 1], dbs[n]);
    }
  }

  /** A reset clears the snapshot too, so the next flush counts the engine's whole counter again.
      The row is then what it would have been without the reset exactly when it had followed
      the counter from zero and the counter has not fallen since. */
  lemma ResetIsUndoneIff(row: Row, next: Octets)
    requires RowCovered(row)
    ensures Observe(NEW_ROW, next) == Observe(row, next) <==>
            row.bytes == row.snap && row.snap.received <= next.received && row.snap.sent <= next.sent
  {
  }

  lemma {:induction false} FollowingRowComesBack(events: seq<EngineEvent>)
    requires Restart !in events
    ensures Observe(NEW_ROW, Live(events).counters) == Observe(Live(events).row, Live(events).counters)
  {
    var e := Live(events);
    FollowingRowAccounts(events, In);
    FollowingRowAccounts(events, Out);
    NothingLost(events, In);
    NothingLost(events, Out);
    SnapIsBehind(events, In);
    SnapIsBehind(events, Out);
    assert e.row.bytes.Of(In) == e.row.snap.Of(In) && e.row.bytes.Of(Out) == e.row.snap.Of(Out);
    ResetIsUndoneIff(e.row, e.counters);
  }

  /** Without a restart of the engine every reset of its row is undone by the next flush. */
  lemma {:induction false} ResetComesBack(dbs: seq<Ledger>, flushes: seq<seq<Report>>, n: nat, key: Key, events: seq<EngineEvent>)
    requires IsRun(dbs, flushes) && n <= |flushes| && StoredInRun(flushes, n, key) == Scrapes(events)
    requires Restart !in events
    ensures var reset, next := Cleared(dbs[n].users, false, key.0), Live(events).counters;
            Observe(RowOf(reset, key), next) == Observe(RowOf(dbs[n].users, key), next)
  {
    RowIsFold(dbs, flushes, n, key);
    LiveRowIsFold(events);
    FollowingRowComesBack(events);
    assert RowOf(Cleared(dbs[n].users, false, key.0), key) == NEW_ROW;
  }
}
