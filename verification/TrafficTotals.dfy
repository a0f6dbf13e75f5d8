/**
 What a flush sees as a whole: the counters and connections of all it has scraped.  The
 connections reach the history, the counters the global row, which is then, like a user's row,
 the sum of the ends of the non-decreasing runs of what it was fed.
 */
module TrafficTotals {
  import opened Common
  import opened OctetSums
  import opened TrafficLedger
  import opened TrafficHistory

  /** All counters scraped, whether or not their instance's transaction commits. */
  ghost function ScrapedOctets(reports: seq<Report>, d: Dir): nat {
    if reports == [] then 0
    else
      var r := reports[|reports| - 1];
      ScrapedOctets(reports[..|reports| - 1], d) + if r.scrape.Some? then Sum(r.scrape.value.live, d) else 0
  }

  function ScrapedConns(reports: seq<Report>): nat {
    if reports == [] then 0
    else
      var r := reports[|reports| - 1];
      ScrapedConns(reports[..|reports| - 1]) + if r.scrape.Some? then r.scrape.value.conns else 0
  }

  lemma {:induction false} FlushSees(users: Users, reports: seq<Report>, n: nat)
    requires n <= |reports|
    ensures var acc := FlushInstances(users, reports, n).1;
      && acc.conns == ScrapedConns(reports[..n])
      && acc.seen == Octets(ScrapedOctets(reports[..n], In), ScrapedOctets(reports[..n], Out))
  {
    if n > 0 {
      FlushSees(users, reports, n - 1);
      assert reports[..n][..n - 1] == reports[..n - 1];
      var p := FlushInstances(users, reports, n - 1);
      assert FlushInstances(users, reports, n) == FlushInstance(p.0, p.1, reports[n - 1]);
    }
  }

  // ---------- connections in the history ----------

  function HistConns(history: seq<HistoryRow>): nat {
    if history == [] then 0 else HistConns(history[..|history| - 1]) + history[|history| - 1].conns
  }

  lemma {:induction false} HistConnsAppend(a: seq<HistoryRow>, b: seq<HistoryRow>)
    ensures HistConns(a + b) == HistConns(a) + HistConns(b)
  {
    if b == [] {
      assert a + b == a;
    } else {
      HistConnsAppend(a, b[..|b| - 1]);
      assert (a + b)[..|a + b| - 1] == a + b[..|b| - 1];
    }
  }

  lemma {:induction false} LabelsCarryNoConns(rows: seq<HistoryRow>, hist: map<string, Octets>, n: nat)
    requires LabelRows(rows, hist) && n <= |rows|
    ensures HistConns(rows[..n]) == 0
  {
    if n > 0 {
      LabelsCarryNoConns(rows, hist, n - 1);
      assert rows[..n][..n - 1] == rows[..n - 1];
    }
  }

  lemma {:induction false} BatchConns(rows: seq<HistoryRow>, acc: Acc)
    requires BatchRows(rows, acc)
    ensures HistConns(rows) == acc.conns
  {
    if rows != [] {
      LabelsCarryNoConns(rows[1..], acc.hist, |rows| - 1);
      assert rows[1..][..|rows| - 1] == rows[1..] && rows == [rows[0]] + rows[1..];
      HistConnsAppend([rows[0]], rows[1..]);
      assert [rows[0]][..0] == [];
    }
  }

  /** A flush that sees connections or moves anything writes first one row with an empty label,
      the connections it saw and the bytes the ledger grew by; else it writes no row. */
  lemma {:induction false} TotalRow(db: Ledger, reports: seq<Report>, db': Ledger)
    requires Flushed(db, reports, db')
    ensures var still := forall d: Dir :: GrandTotal(db'.users, d) == GrandTotal(db.users, d);
      if still && ScrapedConns(reports) == 0 then db'.history == db.history
      else
        && |db'.history| > |db.history|
        && var row := db'.history[|db.history|];
           row.user == "" && row.conns == ScrapedConns(reports)
           && forall d: Dir :: row.octets.Of(d) == GrandTotal(db'.users, d) - GrandTotal(db.users, d)
  {
    var acc := FlushInstances(db.users, reports, |reports|).1;
    FlushSees(db.users, reports, |reports|);
    assert reports[..|reports|] == reports;
    MovedIsGrowth(db, reports, db');
    assert acc.moved.received == acc.moved.Of(In) && acc.moved.sent == acc.moved.Of(Out);
    assert db'.history == db.history + db'.history[|db.history|..];
  }

  lemma {:induction false} MovedIsGrowth(db: Ledger, reports: seq<Report>, db': Ledger)
    requires Flushed(db, reports, db')
    ensures forall d: Dir :: FlushInstances(db.users, reports, |reports|).1.moved.Of(d) == GrandTotal(db'.users, d) - GrandTotal(db.users, d)
  {
    forall d: Dir
      ensures FlushInstances(db.users, reports, |reports|).1.moved.Of(d) == GrandTotal(db'.users, d) - GrandTotal(db.users, d)
    {
      FlushTallies(db.users, reports, |reports|, "", d);
    }
  }

  function ConnsInRun(flushes: seq<seq<Report>>, n: nat): nat
    requires n <= |flushes|
  {
    if n == 0 then 0 else ConnsInRun(flushes, n - 1) + ScrapedConns(flushes[n - 1])
  }

  lemma {:induction false} BookedByAll(histories: seq<seq<HistoryRow>>, flushes: seq<seq<Report>>, n: nat)
    requires |histories| == |flushes| + 1 && n <= |flushes| && histories[0] == []
    requires forall i | 0 <= i < |flushes| :: HistConns(histories[i + 1]) == HistConns(histories[i]) + ScrapedConns(flushes[i])
    ensures HistConns(histories[n]) == ConnsInRun(flushes, n)
  {
    if n > 0 {
      BookedByAll(histories, flushes, n - 1);
      assert HistConns(histories[n - 1 + 1]) == HistConns(histories[n - 1]) + ScrapedConns(flushes[n - 1]);
    }
  }

  /** Over any run the history holds every connection count a flush has seen. */
  lemma {:induction false} ConnectionsAreBooked(dbs: seq<Ledger>, flushes: seq<seq<Report>>, n: nat)
    requires IsRun(dbs, flushes) && n <= |flushes|
    ensures HistConns(dbs[n].history) == ConnsInRun(flushes, n)
  {
    var histories := seq(|dbs|, i requires 0 <= i < |dbs| => dbs[i].history);
    forall i | 0 <= i < |flushes|
      ensures HistConns(histories[i + 1]) == HistConns(histories[i]) + ScrapedConns(flushes[i])
    {
      FlushBooksConns(dbs[i], flushes[i], dbs[i + 1]);
    }
    BookedByAll(histories, flushes, n);
  }

  lemma {:induction false} FlushBooksConns(db: Ledger, reports: seq<Report>, db': Ledger)
    requires Flushed(db, reports, db')
    ensures HistConns(db'.history) == HistConns(db.history) + ScrapedConns(reports)
  {
    FlushSees(db.users, reports, |reports|);
    assert reports[..|reports|] == reports;
    var rows := db'.history[|db.history|..];
    BatchConns(rows, FlushInstances(db.users, reports, |reports|).1);
    assert db'.history == db.history + rows;
    HistConnsAppend(db.history, rows);
  }

  // ---------- the global row ----------

  /** Something to record: a counter that is not zero, or a connection. */
  predicate Sighted(reports: seq<Report>, seen: Octets) {
    seen != ZERO || ScrapedConns(reports) > 0
  }

  ghost function SeenBy(reports: seq<Report>): Octets {
    Octets(ScrapedOctets(reports, In), ScrapedOctets(reports, Out))
  }

  ghost function SeenInRun(flushes: seq<seq<Report>>, n: nat): seq<Octets>
    requires n <= |flushes|
  {
    if n == 0 then []
    else
      var reports := flushes[n - 1];
      SeenInRun(flushes, n - 1) + if Sighted(reports, SeenBy(reports)) then [SeenBy(reports)] else []
  }

  lemma {:induction false} ZeroSumIsZero(live: map<string, Octets>, l: string)
    requires l in live && Sum(live, In) == 0 && Sum(live, Out) == 0
    ensures live[l] == ZERO
  {
    SumPick(live, l, In);
    SumPick(live, l, Out);
  }

  /** Where every counter is zero nothing moves. */
  lemma NothingMoves(users: Users, acc: Acc, r: Report)
    requires r.scrape.Some? ==> Sum(r.scrape.value.live, In) == 0 && Sum(r.scrape.value.live, Out) == 0
    ensures FlushInstance(users, acc, r).1.moved == acc.moved
  {
    if r.scrape.Some? {
      var live := r.scrape.value.live;
      forall l | l in live ensures !Moved(live[l], RowOf(users, (l, r.inst)).snap) {
        ZeroSumIsZero(live, l);
      }
      assert UserDeltas(live, users, r.inst) == map[];
    }
  }

  lemma {:induction false} UnseenIsUnmoved(users: Users, reports: seq<Report>, n: nat)
    requires n <= |reports| && ScrapedOctets(reports[..n], In) == 0 && ScrapedOctets(reports[..n], Out) == 0
    ensures FlushInstances(users, reports, n).1.moved == ZERO
  {
    if n > 0 {
      assert reports[..n][..n - 1] == reports[..n - 1];
      UnseenIsUnmoved(users, reports, n - 1);
      var p := FlushInstances(users, reports, n - 1);
      NothingMoves(p.0, p.1, reports[n - 1]);
      assert FlushInstances(users, reports, n) == FlushInstance(p.0, p.1, reports[n - 1]);
    }
  }

  /** What one flush makes of the global row. */
  ghost predicate TotalNext(total: Row, reports: seq<Report>, total': Row) {
    var seen := SeenBy(reports);
    total' == if !Sighted(reports, seen) then total
              else Row(Octets(total.bytes.received + Delta(seen.received, total.snap.received),
                              total.bytes.sent + Delta(seen.sent, total.snap.sent)), seen)
  }

  lemma TotalFollows(db: Ledger, reports: seq<Report>, db': Ledger)
    requires Flushed(db, reports, db')
    ensures TotalNext(db.total, reports, db'.total)
  {
    FlushSees(db.users, reports, |reports|);
    assert reports[..|reports|] == reports;
    if SeenBy(reports) == ZERO {
      UnseenIsUnmoved(db.users, reports, |reports|);
    }
  }

  lemma RunEndsGrow(xs: seq<Octets>, x: Octets, bytes: nat, d: Dir)
    requires bytes == RunEnds(Values(xs, d))
    ensures bytes + Delta(x.Of(d), if xs == [] then 0 else xs[|xs| - 1].Of(d)) == RunEnds(Values(xs + [x], d))
  {
    RunEndsAppend(Values(xs, d), x.Of(d));
    assert Values(xs + [x], d) == Values(xs, d) + [x.Of(d)];
  }

  /** The global row follows what has been seen so far. */
  ghost predicate Follows(total: Row, xs: seq<Octets>, d: Dir) {
    && total.bytes.Of(d) == RunEnds(Values(xs, d))
    && total.snap == if xs == [] then ZERO else xs[|xs| - 1]
  }

  lemma TotalKeepsFollowing(total: Row, reports: seq<Report>, total': Row, xs: seq<Octets>, d: Dir)
    requires TotalNext(total, reports, total') && Follows(total, xs, d)
    ensures Follows(total', xs + if Sighted(reports, SeenBy(reports)) then [SeenBy(reports)] else [], d)
  {
    RunEndsGrow(xs, SeenBy(reports), total.bytes.Of(d), d);
    assert xs + [] == xs;
  }

  lemma {:induction false} ClosedByAll(totals: seq<Row>, flushes: seq<seq<Report>>, n: nat, d: Dir)
    requires |totals| == |flushes| + 1 && n <= |flushes| && totals[0] == NEW_ROW
    requires forall i | 0 <= i < |flushes| :: TotalNext(totals[i], flushes[i], totals[i + 1])
    ensures Follows(totals[n], SeenInRun(flushes, n), d)
  {
    if n > 0 {
      ClosedByAll(totals, flushes, n - 1, d);
      TotalKeepsFollowing(totals[n - 1], flushes[n - 1], totals[n - 1 + 1], SeenInRun(flushes, n - 1), d);
    }
  }

  /**
   Closed form of the global row, over any run of flushes: its bytes are, in each direction, the
   sum of the last values of the non-decreasing runs of the counters seen in all, and its
   snapshot is the last of them.
   */
  lemma {:induction false} GlobalClosedForm(dbs: seq<Ledger>, flushes: seq<seq<Report>>, n: nat, d: Dir)
    requires IsRun(dbs, flushes) && n <= |flushes|
    ensures var xs := SeenInRun(flushes, n);
      && dbs[n].total.bytes.Of(d) == RunEnds(Values(xs, d))
      && dbs[n].total.snap == if xs == [] then ZERO else xs[|xs| - 1]
  {
    var totals := seq(|dbs|, i requires 0 <= i < |dbs| => dbs[i].total);
    forall i | 0 <= i < |flushes| ensures TotalNext(totals[i], flushes[i], totals[i + 1]) {
      TotalFollows(dbs[i], flushes[i], dbs[i + 1]);
    }
    ClosedByAll(totals, flushes, n, d);
  }
}
