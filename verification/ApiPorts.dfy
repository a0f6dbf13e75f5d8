/**
 Giving API ports to the instances that have none.  The specification is that of a first-fit
 allocator: every new port is free, and every number passed over was taken.
 */
module ApiPorts {
  import opened Common

  datatype Instance = Instance(port: int, metricsPort: int, apiPort: int)

  const API_PORT_BASE := 19091

  predicate Has(inst: Instance, x: int) {
    x == inst.port || x == inst.metricsPort || (inst.apiPort != 0 && x == inst.apiPort)
  }

  ghost predicate Taken(rows: seq<Instance>, x: int) {
    exists i :: 0 <= i < |rows| && Has(rows[i], x)
  }

  /** Where the scan starts: the base, or just above the highest port already assigned. */
  function Start(rows: seq<Instance>): (s: int)
    ensures s >= 19091
    ensures forall i | 0 <= i < |rows| :: rows[i].apiPort != 0 ==> rows[i].apiPort < s
    ensures s == 19091 || exists i :: 0 <= i < |rows| && rows[i].apiPort != 0 && s == rows[i].apiPort + 1
  {
    if rows == [] then API_PORT_BASE
    else
      var s, last := Start(rows[..|rows| - 1]), rows[|rows| - 1];
      if last.apiPort != 0 && last.apiPort >= s then last.apiPort + 1 else s
  }

  /** Row `i` got its port in this run. */
  predicate IsNew(before: seq<Instance>, after: seq<Instance>, i: int)
    requires |before| == |after| && 0 <= i < |before|
  {
    before[i].apiPort == 0 && after[i].apiPort != 0
  }

  /** Nothing but missing API ports was filled in. */
  ghost predicate OnlyFills(before: seq<Instance>, after: seq<Instance>) {
    && |before| == |after|
    && forall i | 0 <= i < |before| ::
         after[i] == before[i] || (before[i].apiPort == 0 && after[i] == before[i].(apiPort := after[i].apiPort))
  }

  ghost predicate Ascending(before: seq<Instance>, after: seq<Instance>)
    requires |before| == |after|
  {
    forall i, j | 0 <= i < j < |before| && IsNew(before, after, i) && IsNew(before, after, j) ::
      after[i].apiPort < after[j].apiPort
  }

  /** New ports are free of everything else, and in order. */
  ghost predicate Fresh(before: seq<Instance>, after: seq<Instance>)
    requires |before| == |after|
  {
    && (forall i | 0 <= i < |before| && IsNew(before, after, i) ::
          Start(before) <= after[i].apiPort && !Taken(before, after[i].apiPort))
    && Ascending(before, after)
  }

  /** First fit: a number below a new port was taken, before or by this run. */
  ghost predicate FirstFit(before: seq<Instance>, after: seq<Instance>)
    requires |before| == |after|
  {
    forall i, x | 0 <= i < |before| && IsNew(before, after, i) && Start(before) <= x < after[i].apiPort :: Taken(after, x)
  }

  ghost predicate Filled(before: seq<Instance>, after: seq<Instance>) {
    OnlyFills(before, after) && Fresh(before, after) && FirstFit(before, after)
  }

  function Missing(rows: seq<Instance>): nat {
    if rows == [] then 0 else Missing(rows[..|rows| - 1]) + if rows[|rows| - 1].apiPort == 0 then 1 else 0
  }

  // ---------- the state of the scan ----------

  /** Rows below `i` are done, `used` is what is taken, and all from the start to `next` is used. */
  ghost predicate Scanning(before: seq<Instance>, rows: seq<Instance>, used: set<int>, next: int, i: nat) {
    && i <= |rows| && OnlyFills(before, rows)
    && (forall k | 0 <= k < i :: rows[k].apiPort != 0)
    && (forall k | i <= k < |rows| :: rows[k] == before[k])
    && (forall x :: x in used <==> Taken(rows, x))
    && Start(before) <= next && (forall x | Start(before) <= x < next :: x in used)
    && (forall k | 0 <= k < i && IsNew(before, rows, k) :: rows[k].apiPort < next)
    && Fresh(before, rows) && FirstFit(before, rows)
  }

  lemma TakenAfter(rows: seq<Instance>, i: nat, p: int, x: int)
    requires i < |rows| && rows[i].apiPort == 0 && p != 0
    ensures Taken(rows[i := rows[i].(apiPort := p)], x) <==> Taken(rows, x) || x == p
  {
    var after := rows[i := rows[i].(apiPort := p)];
    if x == p { assert Has(after[i], x); }
    if Taken(rows, x) {
      var k :| 0 <= k < |rows| && Has(rows[k], x);
      assert Has(after[k], x);
    }
    if Taken(after, x) && x != p {
      var k :| 0 <= k < |after| && Has(after[k], x);
      assert Has(rows[k], x);
    }
  }

  lemma TakenStays(before: seq<Instance>, rows: seq<Instance>, p: int)
    requires OnlyFills(before, rows)
    ensures Taken(before, p) ==> Taken(rows, p)
  {
    if k :| 0 <= k < |before| && Has(before[k], p) {
      assert Has(rows[k], p);
    }
  }

  /** The scan moves on over numbers in use, and past a row that has its port. */
  lemma ScanSkips(before: seq<Instance>, rows: seq<Instance>, used: set<int>, next: int, next': int, i: nat)
    requires Scanning(before, rows, used, next, i) && next <= next' && forall x | next <= x < next' :: x in used
    ensures Scanning(before, rows, used, next', i)
  {
  }

  lemma ScanPasses(before: seq<Instance>, rows: seq<Instance>, used: set<int>, next: int, i: nat)
    requires Scanning(before, rows, used, next, i) && i < |rows| && rows[i].apiPort != 0
    ensures Scanning(before, rows, used, next, i + 1)
  {
  }

  lemma ScanStops(before: seq<Instance>, rows: seq<Instance>, used: set<int>, next: int, i: nat)
    requires Scanning(before, rows, used, next, i)
    ensures Filled(before, rows)
    ensures i < |rows| && rows[i].apiPort == 0 ==> StoppedAt(before, rows, i)
    ensures i == |rows| ==> forall k | 0 <= k < |rows| :: rows[k].apiPort != 0
  {
  }

  lemma Assigned(before: seq<Instance>, rows: seq<Instance>, used: set<int>, p: int, i: nat)
    requires Scanning(before, rows, used, p, i) && i < |rows| && rows[i].apiPort == 0 && p !in used
    ensures Scanning(before, rows[i := rows[i].(apiPort := p)], used + {p}, p + 1, i + 1)
  {
    var after := rows[i := rows[i].(apiPort := p)];
    forall x ensures x in used + {p} <==> Taken(after, x) {
      TakenAfter(rows, i, p, x);
    }
    TakenStays(before, rows, p);
    assert OnlyFills(before, after);
    AssignedIsFresh(before, rows, p, i);
    AssignedIsFirstFit(before, rows, used, p, i);
  }

  lemma {:induction false} AssignedIsFresh(before: seq<Instance>, rows: seq<Instance>, p: int, i: nat)
    requires OnlyFills(before, rows) && i < |rows| && rows[i].apiPort == 0 && Fresh(before, rows)
    requires Start(before) <= p && !Taken(before, p)
    requires forall k | i <= k < |rows| :: rows[k] == before[k]
    requires forall k | 0 <= k < i && IsNew(before, rows, k) :: rows[k].apiPort < p
    ensures Fresh(before, rows[i := rows[i].(apiPort := p)])
  {
    var after := rows[i := rows[i].(apiPort := p)];
    assert forall k | 0 <= k < |rows| && k != i :: IsNew(before, after, k) <==> IsNew(before, rows, k);
  }

  lemma {:induction false} AssignedIsFirstFit(before: seq<Instance>, rows: seq<Instance>, used: set<int>, p: int, i: nat)
    requires OnlyFills(before, rows) && i < |rows| && rows[i].apiPort == 0 && FirstFit(before, rows) && p != 0
    requires forall x | Start(before) <= x < p :: x in used
    requires forall x | x in used :: Taken(rows, x)
    ensures FirstFit(before, rows[i := rows[i].(apiPort := p)])
  {
    var after := rows[i := rows[i].(apiPort := p)];
    forall k, x | 0 <= k < |before| && IsNew(before, after, k) && Start(before) <= x < after[k].apiPort
      ensures Taken(after, x)
    {
      TakenAfter(rows, i, p, x);
      assert k != i ==> IsNew(before, rows, k);
    }
  }

  /** Everything before row `i` is filled, and from there on nothing was touched. */
  ghost predicate StoppedAt(before: seq<Instance>, rows: seq<Instance>, i: nat) {
    && |rows| == |before| && i < |rows| && rows[i].apiPort == 0
    && (forall k | 0 <= k < i :: rows[k].apiPort != 0) && (forall k | i <= k < |rows| :: rows[k] == before[k])
  }

  // ---------- the store ----------

  class InstanceStore {
    var rows: seq<Instance>

    constructor (rows: seq<Instance>)
      ensures this.rows == rows
    {
      this.rows := rows;
    }

    /** What the scan starts from. */
    method CollectUsed(instances: seq<Instance>) returns (used: set<int>, next: int)
      ensures (forall x :: x in used <==> Taken(instances, x)) && next == Start(instances)
    {
      used, next := {}, API_PORT_BASE;
      var i := 0;
      while i < |instances|
        invariant 0 <= i <= |instances| && next == Start(instances[..i])
        invariant forall x :: x in used <==> exists k :: 0 <= k < i && Has(instances[k], x)
      {
        var inst := instances[i];
        assert instances[..i + 1][..i] == instances[..i];
        used := used + {inst.port, inst.metricsPort};
        if inst.apiPort != 0 {
          used := used + {inst.apiPort};
          if inst.apiPort >= next {
            next := inst.apiPort + 1;
          }
        }
        i := i + 1;
      }
      assert instances[..i] == instances;
    }

    /** The first number from `start` on that is not used. */
    method Skip(used: set<int>, start: int) returns (next: int)
      ensures next >= start && next !in used && forall x | start <= x < next :: x in used
    {
      next := start;
      while next in used
        invariant start <= next && forall x | start <= x < next :: x in used
        decreases |Above(used, next)|
      {
        AboveShrinks(used, next);
        next := next + 1;
      }
    }

    /** `fails` names the rows whose update the database refuses; the scan ends at the first
        such row, with what was assigned so far stored. */
    method BackfillAPIPorts(fails: set<nat>) returns (count: nat, ok: bool)
      modifies this
      ensures Filled(old(rows), rows)
      ensures ok ==> forall i | 0 <= i < |rows| :: rows[i].apiPort != 0
      ensures !ok ==> exists i :: i in fails && StoppedAt(old(rows), rows, i)
      ensures count == Missing(old(rows)) - Missing(rows)
    {
      ghost var before := rows;
      var instances := rows;
      var used, next := CollectUsed(instances);
      count := 0;
      var i := 0;
      while i < |instances|
        invariant 0 <= i <= |instances| && rows == instances
        invariant Scanning(before, rows, used, next, i)
        invariant count == Missing(before) - Missing(rows)
      {
        if instances[i].apiPort == 0 {
          var free := Skip(used, next);
          ScanSkips(before, rows, used, next, free, i);
          ScanStops(before, rows, used, free, i);
          Assigned(before, rows, used, free, i);
          OneFewerMissing(rows, i, free);
          next := free;
          used := used + {next};
          instances := instances[i := instances[i].(apiPort := next)];
          if i in fails {
            return count, false;
          }
          rows := rows[i := instances[i]];
          count := count + 1;
          next := next + 1;
        } else {
          ScanPasses(before, rows, used, next, i);
        }
        i := i + 1;
      }
      ScanStops(before, rows, used, next, i);
      ok := true;
    }
  }

  function Above(used: set<int>, n: int): set<int> {
    set x | x in used && x >= n
  }

  lemma AboveShrinks(used: set<int>, n: int)
    requires n in used
    ensures |Above(used, n + 1)| < |Above(used, n)|
  {
    assert Above(used, n) == Above(used, n + 1) + {n};
  }

  lemma {:induction false} OneFewerMissing(rows: seq<Instance>, i: nat, p: int)
    requires i < |rows| && rows[i].apiPort == 0 && p != 0
    ensures Missing(rows[i := rows[i].(apiPort := p)]) == Missing(rows) - 1
  {
    var after := rows[i := rows[i].(apiPort := p)];
    var init := rows[..|rows| - 1];
    if i < |rows| - 1 {
      OneFewerMissing(init, i, p);
      assert after[..|rows| - 1] == init[i := rows[i].(apiPort := p)];
    } else {
      assert after[..|rows| - 1] == init;
    }
  }

  // ---------- what a filled table means ----------

  /** Nothing is touched but API ports that were missing. */
  lemma FillingKeeps(before: seq<Instance>, after: seq<Instance>)
    requires Filled(before, after)
    ensures |after| == |before| && forall i | 0 <= i < |after| ::
              after[i].port == before[i].port && after[i].metricsPort == before[i].metricsPort
              && (before[i].apiPort != 0 ==> after[i].apiPort == before[i].apiPort)
  {
  }

  lemma NewIsTaken(before: seq<Instance>, after: seq<Instance>, j: nat, i: nat)
    requires Filled(before, after) && i < |before| && j < |before| && IsNew(before, after, i) && j != i
    ensures !Has(after[j], after[i].apiPort)
  {
    var p := after[i].apiPort;
    assert !Taken(before, p);
    assert !Has(before[j], p);
    if IsNew(before, after, j) {
      assert (if i < j then after[i].apiPort < after[j].apiPort else after[j].apiPort < p);
    }
  }

  /** A new port is no other instance's port, metrics port or API port, nor its own. */
  lemma NewPortsAreUnique(before: seq<Instance>, after: seq<Instance>, i: nat, j: nat)
    requires Filled(before, after) && i < |before| && j < |before| && IsNew(before, after, i)
    ensures after[i].apiPort != after[j].port && after[i].apiPort != after[j].metricsPort
    ensures i != j ==> after[i].apiPort != after[j].apiPort
  {
    if i != j {
      NewIsTaken(before, after, j, i);
    } else {
      assert !Has(before[i], after[i].apiPort);
    }
  }

  function Range(lo: int, hi: int): (s: set<int>)
    decreases hi - lo
    ensures forall x :: x in s <==> lo <= x < hi
    ensures |s| == if lo < hi then hi - lo else 0
  {
    if lo >= hi then {} else {lo} + Range(lo + 1, hi)
  }

  /** All ports, metrics ports and new API ports. */
  function Candidates(before: seq<Instance>, after: seq<Instance>): (s: set<int>)
    requires |before| == |after|
    ensures |s| <= 3 * |before|
  {
    if before == [] then {}
    else
      var n := |before| - 1;
      var rest := Candidates(before[..n], after[..n]);
      var mine := {before[n].port, before[n].metricsPort, after[n].apiPort};
      assert |mine| <= 3 by {
        assert |{before[n].port}| == 1 && |{before[n].port, before[n].metricsPort}| <= 2;
        assert mine == {before[n].port, before[n].metricsPort} + {after[n].apiPort};
      }
      UnionSize(rest, mine);
      rest + mine
  }

  lemma UnionSize(a: set<int>, b: set<int>)
    ensures |a + b| <= |a| + |b|
  {
    assert a + b == a + (b - a);
  }

  lemma {:induction false} CandidatesHold(before: seq<Instance>, after: seq<Instance>, i: nat)
    requires |before| == |after| && i < |before|
    ensures before[i].port in Candidates(before, after) && before[i].metricsPort in Candidates(before, after)
    ensures after[i].apiPort in Candidates(before, after)
  {
    var n := |before| - 1;
    if i < n {
      CandidatesHold(before[..n], after[..n], i);
    }
  }

  /** With n instances every new port is from 19091 on, above every port assigned before, and
      below `top` plus 3n for any `top` from 19091 on that is above them too. */
  lemma NewPortsAreLow(before: seq<Instance>, after: seq<Instance>, i: nat, top: int)
    requires Filled(before, after) && i < |before| && IsNew(before, after, i)
    requires top >= 19091 && forall k | 0 <= k < |before| && before[k].apiPort != 0 :: before[k].apiPort < top
    ensures 19091 <= after[i].apiPort < top + 3 * |before|
    ensures forall k | 0 <= k < |before| && before[k].apiPort != 0 :: before[k].apiPort < after[i].apiPort
  {
    assert Start(before) <= top;
    var p := after[i].apiPort;
    forall x | x in Range(Start(before), p + 1) ensures x in Candidates(before, after) {
      if x == p {
        CandidatesHold(before, after, i);
      } else {
        assert Taken(after, x);
        var k :| 0 <= k < |after| && Has(after[k], x);
        CandidatesHold(before, after, k);
      }
    }
    SubsetSize(Range(Start(before), p + 1), Candidates(before, after));
  }

  /** A table with no port missing is left as it is: running again assigns nothing. */
  lemma FilledTwice(before: seq<Instance>, after: seq<Instance>)
    requires OnlyFills(before, after) && forall i | 0 <= i < |before| :: before[i].apiPort != 0
    ensures after == before
  {
  }

  // ---------- whether the new ports are ports ----------

  ghost function NewPorts(before: seq<Instance>, after: seq<Instance>): set<int>
    requires |before| == |after|
  {
    set i | 0 <= i < |before| && IsNew(before, after, i) :: after[i].apiPort
  }

  /** The numbers the scan may give out that are ports. */
  ghost function FreePorts(before: seq<Instance>): set<int> {
    set x | Start(before) <= x <= MAX_PORT && !Taken(before, x)
  }

  lemma OneMoreNewPort(before: seq<Instance>, after: seq<Instance>, n: nat)
    requires |before| == |after| == n + 1 && Ascending(before, after)
    ensures var rest := NewPorts(before[..n], after[..n]);
      if IsNew(before, after, n) then NewPorts(before, after) == rest + {after[n].apiPort} && after[n].apiPort !in rest
      else NewPorts(before, after) == rest
  {
    assert forall i | 0 <= i < n :: IsNew(before[..n], after[..n], i) <==> IsNew(before, after, i);
  }

  /** One new port for each row filled. */
  lemma {:induction false} NewPortsCount(before: seq<Instance>, after: seq<Instance>)
    requires OnlyFills(before, after) && Ascending(before, after)
    ensures |NewPorts(before, after)| == Missing(before) - Missing(after)
  {
    if before != [] {
      var n := |before| - 1;
      OneMoreNewPort(before, after, n);
      assert forall i | 0 <= i < n :: IsNew(before[..n], after[..n], i) <==> IsNew(before, after, i);
      NewPortsCount(before[..n], after[..n]);
    }
  }

  /** A new number beyond the ports means that every free port was given out. */
  lemma OneTooHigh(before: seq<Instance>, after: seq<Instance>, i: nat)
    requires Filled(before, after) && i < |before| && IsNew(before, after, i) && after[i].apiPort > MAX_PORT
    ensures |FreePorts(before)| < |NewPorts(before, after)|
  {
    var news, p := NewPorts(before, after), after[i].apiPort;
    assert p in news;
    forall x | x in FreePorts(before) ensures x in news - {p} {
      assert Taken(after, x);
      var k :| 0 <= k < |after| && Has(after[k], x);
      assert !Has(before[k], x);
      assert IsNew(before, after, k) && after[k].apiPort == x;
    }
    SubsetSize(FreePorts(before), news - {p});
  }

  /** The scan knows no upper end.  Its new numbers are all ports if and only if it fills no
      more rows than there are free ports from its start on. */
  lemma {:induction false} NewPortsArePortsIff(before: seq<Instance>, after: seq<Instance>)
    requires Filled(before, after)
    ensures (forall i | 0 <= i < |before| && IsNew(before, after, i) :: after[i].apiPort <= MAX_PORT) <==>
            Missing(before) - Missing(after) <= |FreePorts(before)|
  {
    NewPortsCount(before, after);
    if i :| 0 <= i < |before| && IsNew(before, after, i) && after[i].apiPort > MAX_PORT {
      OneTooHigh(before, after, i);
    } else {
      SubsetSize(NewPorts(before, after), FreePorts(before));
    }
  }

  /** So next to an API port 65535, which leaves no free port behind it, no new number is one. */
  lemma HighPortsRunOver(before: seq<Instance>, after: seq<Instance>, i: nat, j: nat)
    requires Filled(before, after) && i < |before| && j < |before|
    requires before[j].apiPort == MAX_PORT && IsNew(before, after, i)
    ensures after[i].apiPort > MAX_PORT && FreePorts(before) == {}
  {
  }
}
