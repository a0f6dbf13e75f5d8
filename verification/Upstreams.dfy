/**
 Upstream health, failover and the Middle-Proxy gate.

 The table changes only through a handful of SQL statements, each atomic; `Exec` gives the
 effect of each.  A service operation is the list of statements it issues, which depends on
 what it has read.  Facts about any interleaving of statements come first, then facts about
 runs of whole operations, then what goes wrong when operations overlap.
 */
module Upstreams {
  import opened Common
  import opened UpstreamTypes

  datatype Row = Row(kind: Kind, enabled: bool, autoDisabled: bool, failCount: nat)
  type Table = map<string, Row>

  const FAIL_LIMIT := 3

  datatype Stmt =
    | Insert(name: string, kind: Kind)      // ignored when the name is taken
    | Rewrite(name: string, kind: Kind, enabled: bool)
    | Health(name: string, ok: bool)
    | SetEnabled(name: string, enabled: bool)
    | AutoDisable(name: string)
    | AutoEnable(name: string)
    | ClearHealth(name: string)
    | Delete(name: string)

  function Exec(t: Table, stmt: Stmt): Table {
    var name := stmt.name;
    if stmt.Insert? then
      if name in t then t else t[name := Row(stmt.kind, true, false, 0)]
    else if name !in t then t
    else match stmt
      case Rewrite(_, kind, enabled) => t[name := Row(kind, enabled, false, t[name].failCount)]
      case Health(_, ok) => t[name := t[name].(failCount := if ok then 0 else t[name].failCount + 1)]
      case SetEnabled(_, enabled) => t[name := t[name].(enabled := enabled, autoDisabled := false)]
      case AutoDisable(_) => t[name := t[name].(enabled := false, autoDisabled := true)]
      case AutoEnable(_) => t[name := t[name].(enabled := true, autoDisabled := false, failCount := 0)]
      case ClearHealth(_) => t[name := t[name].(failCount := 0)]
      case _ => t - {name}
  }

  function ExecAll(t: Table, stmts: seq<Stmt>): Table {
    if stmts == [] then t else Exec(ExecAll(t, stmts[..|stmts| - 1]), stmts[|stmts| - 1])
  }

  lemma {:induction false} ExecOne(t: Table, stmts: seq<Stmt>, stmt: Stmt)
    ensures ExecAll(t, stmts + [stmt]) == Exec(ExecAll(t, stmts), stmt)
  {
    assert (stmts + [stmt])[..|stmts|] == stmts;
  }

  lemma {:induction false} ExecBoth(t: Table, first: seq<Stmt>, second: seq<Stmt>)
    ensures ExecAll(t, first + second) == ExecAll(ExecAll(t, first), second)
  {
    if second == [] {
      assert first + second == first;
    } else {
      var init := second[..|second| - 1];
      ExecBoth(t, first, init);
      assert first + second == first + init + [second[|second| - 1]];
      ExecOne(t, first + init, second[|second| - 1]);
    }
  }

  // ---------- history ----------

  datatype Mark = Passed | Failed | Cleared

  /** What was recorded about `name` since its row was inserted: results, and the points
      where a manual disable or an automatic recovery wiped them. */
  function Marks(log: seq<Stmt>, name: string): seq<Mark> {
    if log == [] then []
    else
      var init, stmt := log[..|log| - 1], log[|log| - 1];
      if stmt.name != name then Marks(init, name)
      else if stmt.Delete? || name !in ExecAll(map[], init) then []
      else if stmt.Health? then Marks(init, name) + [if stmt.ok then Passed else Failed]
      else if stmt.ClearHealth? || stmt.AutoEnable? then Marks(init, name) + [Cleared]
      else Marks(init, name)
  }

  function Trailing(marks: seq<Mark>): nat {
    if marks == [] || !marks[|marks| - 1].Failed? then 0
    else Trailing(marks[..|marks| - 1]) + 1
  }

  /** `Trailing` is the length of the longest suffix of failures. */
  lemma {:induction false} TrailingMeans(marks: seq<Mark>, k: nat)
    ensures k <= Trailing(marks) <==> k <= |marks| && forall i | |marks| - k <= i < |marks| :: marks[i].Failed?
  {
    if k > 0 && marks != [] {
      var init := marks[..|marks| - 1];
      TrailingMeans(init, k - 1);
      if marks[|marks| - 1].Failed? && k <= |marks| && k <= Trailing(marks) {
        forall i | |marks| - k <= i < |marks| ensures marks[i].Failed? {
          if i < |init| { assert init[i].Failed?; }
        }
      }
      if k <= |marks| && forall i | |marks| - k <= i < |marks| :: marks[i].Failed? {
        assert marks[|marks| - 1].Failed?;
        forall i | |init| - (k - 1) <= i < |init| ensures init[i].Failed? { assert init[i] == marks[i]; }
      }
    }
  }

  lemma {:induction false} MarksOne(log: seq<Stmt>, stmt: Stmt, name: string)
    ensures Marks(log + [stmt], name) ==
      (if stmt.name != name then Marks(log, name)
       else if stmt.Delete? || name !in ExecAll(map[], log) then []
       else if stmt.Health? then Marks(log, name) + [if stmt.ok then Passed else Failed]
       else if stmt.ClearHealth? || stmt.AutoEnable? then Marks(log, name) + [Cleared]
       else Marks(log, name))
  {
    assert (log + [stmt])[..|log|] == log;
  }

  /** After any sequence of statements, however operations interleaved to issue them, the
      stored count is the number of failures since the last success, manual disable or
      automatic recovery, and a row that is auto-disabled is not enabled. */
  lemma {:induction false} FailCountIsTrailing(log: seq<Stmt>, name: string)
    ensures var t := ExecAll(map[], log);
      if name in t then t[name].failCount == Trailing(Marks(log, name)) && !(t[name].autoDisabled && t[name].enabled)
      else Marks(log, name) == []
  {
    if log != [] {
      var init, stmt := log[..|log| - 1], log[|log| - 1];
      FailCountIsTrailing(init, name);
      assert log == init + [stmt];
      ExecOne(map[], init, stmt);
      MarksOne(init, stmt, name);
    }
  }

  // ---------- service operations ----------

  /** The log of every statement so far, and the saved `use_middle_proxy` value, if any. */
  datatype World = World(log: seq<Stmt>, setting: Option<string>)

  function Rows(w: World): Table {
    ExecAll(map[], w.log)
  }

  /** What the upstream service takes for "Middle-Proxy on": anything but "false". */
  predicate GateOn(setting: Option<string>) {
    setting != Some("false")
  }

  /** What the engine is configured with: on when unset or "true". */
  predicate EngineOn(setting: Option<string>) {
    setting == None || setting == Some("true")
  }

  predicate Blocked(kind: Kind, setting: Option<string>) {
    kind.Shadowsocks? && GateOn(setting)
  }

  datatype Entry = Entry(name: string, kind: Kind, valid: bool)

  datatype Op =
    | Add(entry: Entry)
    | Update(entry: Entry)
    | Toggle(name: string, enable: bool)
    | AddMultiple(batch: seq<Entry>)
    | Remove(name: string)
    | Test(name: string, ok: bool)
    | InitialCheck(name: string, ok: bool)
    | CheckAll(order: seq<string>, passing: set<string>)   // the listing, and who answers
    | Configure(value: string)                             // use_middle_proxy over the API

  /** Names in listing order, each once. */
  ghost predicate Lists(order: seq<string>, t: Table) {
    && (forall i, j | 0 <= i < j < |order| :: order[i] != order[j])
    && (forall name :: name in order <==> name in t)
  }

  ghost predicate CanOccur(w: World, op: Op) {
    op.CheckAll? ==> Lists(op.order, Rows(w))
  }

  /** The entries of a batch that are not blocked, in order. */
  function Admitted(batch: seq<Entry>, setting: Option<string>): seq<Entry> {
    if batch == [] then []
    else
      var e := batch[|batch| - 1];
      Admitted(batch[..|batch| - 1], setting) + if Blocked(e.kind, setting) then [] else [e]
  }

  function Inserts(entries: seq<Entry>): seq<Stmt> {
    if entries == [] then []
    else Inserts(entries[..|entries| - 1]) + [Insert(entries[|entries| - 1].name, entries[|entries| - 1].kind)]
  }

  /** One health check; `snap` is the row as it was listed, `t` the table now. */
  function CheckStmts(t: Table, snap: Row, name: string, ok: bool, setting: Option<string>): seq<Stmt> {
    var t' := Exec(t, Health(name, ok));
    [Health(name, ok)] +
    (if !ok then
       if name in t' && t'[name].failCount >= FAIL_LIMIT && t'[name].enabled then [AutoDisable(name)] else []
     else if snap.autoDisabled && !Blocked(snap.kind, setting) then [AutoEnable(name)]
     else [])
  }

  /** The first `n` rows of the listing, one after the other. */
  function CheckAllStmts(t: Table, order: seq<string>, n: nat, passing: set<string>, setting: Option<string>): seq<Stmt>
    requires n <= |order| && forall name | name in order :: name in t
  {
    if n == 0 then []
    else
      var init, name := CheckAllStmts(t, order, n - 1, passing, setting), order[n - 1];
      if !t[name].enabled && !t[name].autoDisabled then init
      else init + CheckStmts(ExecAll(t, init), t[name], name, name in passing, setting)
  }

  ghost function Stmts(w: World, op: Op): seq<Stmt>
    requires CanOccur(w, op)
  {
    var t := Rows(w);
    match op
    case Add(e) => if !e.valid || Blocked(e.kind, w.setting) || e.name in t then [] else [Insert(e.name, e.kind)]
    case Update(e) =>
      if !e.valid || Blocked(e.kind, w.setting) || e.name !in t then []
      else [Rewrite(e.name, e.kind, t[e.name].enabled)]
    case Toggle(name, enable) =>
      if name !in t then []
      else if !enable then [SetEnabled(name, false), ClearHealth(name)]
      else if Blocked(t[name].kind, w.setting) then []
      else [SetEnabled(name, true)]
    case AddMultiple(batch) =>
      if exists i :: 0 <= i < |batch| && !batch[i].valid then [] else Inserts(Admitted(batch, w.setting))
    case Remove(name) => if name in t then [Delete(name)] else []
    case Test(name, ok) => if name in t then [Health(name, ok)] else []
    case InitialCheck(name, ok) => [Health(name, ok)]
    case CheckAll(order, passing) => CheckAllStmts(t, order, |order|, passing, w.setting)
    case Configure(_) => []
  }

  /** No row is a shadowsocks upstream in use. */
  ghost predicate NoneInUse(t: Table) {
    forall name | name in t :: !(t[name].kind.Shadowsocks? && t[name].enabled)
  }

  ghost function After(w: World, op: Op): World
    requires CanOccur(w, op)
  {
    World(w.log + Stmts(w, op),
          if op.Configure? && (op.value != "true" || NoneInUse(Rows(w))) then Some(op.value) else w.setting)
  }

  lemma RowsAfter(w: World, op: Op)
    requires CanOccur(w, op)
    ensures Rows(After(w, op)) == ExecAll(Rows(w), Stmts(w, op))
  {
    ExecBoth(map[], w.log, Stmts(w, op));
  }

  // ---------- one round of checks ----------

  /** What one round does to a row, whatever happens to the others. */
  function CheckedRow(row: Row, ok: bool, setting: Option<string>): Row {
    if !row.enabled && !row.autoDisabled then row
    else if ok then
      if row.autoDisabled && !Blocked(row.kind, setting) then Row(row.kind, true, false, 0)
      else row.(failCount := 0)
    else if row.enabled && row.failCount + 1 >= FAIL_LIMIT then
      Row(row.kind, false, true, row.failCount + 1)
    else row.(failCount := row.failCount + 1)
  }

  lemma {:induction false} CheckTouchesOneRow(t: Table, snap: Row, name: string, ok: bool, setting: Option<string>)
    requires name in t && t[name] == snap && (snap.enabled || snap.autoDisabled)
    ensures ExecAll(t, CheckStmts(t, snap, name, ok, setting)) == t[name := CheckedRow(snap, ok, setting)]
  {
    if !ok {
      FailedCheck(t, snap, name, setting);
    } else {
      PassedCheck(t, snap, name, setting);
    }
  }

  lemma {:induction false} ExecSingle(t: Table, stmt: Stmt)
    ensures ExecAll(t, [stmt]) == Exec(t, stmt)
  {
    assert [stmt][..0] == [];
  }

  lemma {:induction false} ExecTwo(t: Table, a: Stmt, b: Stmt)
    ensures ExecAll(t, [a] + [b]) == Exec(Exec(t, a), b)
  {
    ExecSingle(t, a);
    ExecOne(t, [a], b);
  }

  lemma {:induction false} FailedCheck(t: Table, snap: Row, name: string, setting: Option<string>)
    requires name in t && t[name] == snap && (snap.enabled || snap.autoDisabled)
    ensures ExecAll(t, CheckStmts(t, snap, name, false, setting)) == t[name := CheckedRow(snap, false, setting)]
  {
    if snap.enabled && snap.failCount + 1 >= FAIL_LIMIT {
      assert CheckStmts(t, snap, name, false, setting) == [Health(name, false)] + [AutoDisable(name)];
      ExecTwo(t, Health(name, false), AutoDisable(name));
    } else {
      assert CheckStmts(t, snap, name, false, setting) == [Health(name, false)];
      ExecSingle(t, Health(name, false));
    }
  }

  lemma {:induction false} PassedCheck(t: Table, snap: Row, name: string, setting: Option<string>)
    requires name in t && t[name] == snap && (snap.enabled || snap.autoDisabled)
    ensures ExecAll(t, CheckStmts(t, snap, name, true, setting)) == t[name := CheckedRow(snap, true, setting)]
  {
    if snap.autoDisabled && !Blocked(snap.kind, setting) {
      assert CheckStmts(t, snap, name, true, setting) == [Health(name, true)] + [AutoEnable(name)];
      ExecTwo(t, Health(name, true), AutoEnable(name));
    } else {
      assert CheckStmts(t, snap, name, true, setting) == [Health(name, true)];
      ExecSingle(t, Health(name, true));
    }
  }

  ghost function CheckedRows(t: Table, done: seq<string>, passing: set<string>, setting: Option<string>): Table {
    map name | name in t :: if name in done then CheckedRow(t[name], name in passing, setting) else t[name]
  }

  lemma CheckedOneMore(t: Table, done: seq<string>, name: string, passing: set<string>, setting: Option<string>)
    requires name in t && name !in done
    ensures var t' := CheckedRows(t, done, passing, setting);
      && t'[name] == t[name]
      && CheckedRows(t, done + [name], passing, setting) == t'[name := CheckedRow(t[name], name in passing, setting)]
  {
  }

  /** The first `n` listed rows have been checked, and nothing else has changed. */
  ghost predicate CheckedTo(t: Table, order: seq<string>, n: nat, passing: set<string>, setting: Option<string>)
    requires n <= |order| && forall name | name in order :: name in t
  {
    ExecAll(t, CheckAllStmts(t, order, n, passing, setting)) == CheckedRows(t, order[..n], passing, setting)
  }

  lemma NoneChecked(t: Table, order: seq<string>, passing: set<string>, setting: Option<string>)
    requires Lists(order, t)
    ensures CheckedTo(t, order, 0, passing, setting)
  {
  }

  lemma {:induction false} CheckedSoFar(t: Table, order: seq<string>, n: nat, passing: set<string>, setting: Option<string>)
    requires Lists(order, t) && n <= |order|
    ensures CheckedTo(t, order, n, passing, setting)
  {
    if n == 0 {
      NoneChecked(t, order, passing, setting);
    } else {
      CheckedSoFar(t, order, n - 1, passing, setting);
      CheckedNext(t, order, n - 1, passing, setting);
    }
  }

  lemma NextListed(t: Table, order: seq<string>, n: nat)
    requires Lists(order, t) && n < |order|
    ensures order[n] in t && order[n] !in order[..n] && order[..n + 1] == order[..n] + [order[n]]
  {
    assert order[n] in order;
  }

  lemma CheckedNext(t: Table, order: seq<string>, n: nat, passing: set<string>, setting: Option<string>)
    requires Lists(order, t) && n < |order|
    requires CheckedTo(t, order, n, passing, setting)
    ensures CheckedTo(t, order, n + 1, passing, setting)
  {
    var init, name := CheckAllStmts(t, order, n, passing, setting), order[n];
    NextListed(t, order, n);
    CheckedOneMore(t, order[..n], name, passing, setting);
    CheckedStep(t, ExecAll(t, init), init, name, passing, setting);
  }

  lemma CheckedStep(t: Table, t': Table, init: seq<Stmt>, name: string, passing: set<string>, setting: Option<string>)
    requires name in t && t' == ExecAll(t, init) && name in t' && t'[name] == t[name]
    ensures var stmts := if !t[name].enabled && !t[name].autoDisabled then init
                         else init + CheckStmts(t', t[name], name, name in passing, setting);
      ExecAll(t, stmts) == t'[name := CheckedRow(t[name], name in passing, setting)]
  {
    if t[name].enabled || t[name].autoDisabled {
      CheckTouchesOneRow(t', t[name], name, name in passing, setting);
      ExecBoth(t, init, CheckStmts(t', t[name], name, name in passing, setting));
    } else {
      assert t'[name := t[name]] == t';
    }
  }

  /** A round checks every row independently of the others and of the listing order. */
  lemma CheckAllIsRowwise(w: World, order: seq<string>, passing: set<string>)
    requires Lists(order, Rows(w))
    ensures Rows(After(w, CheckAll(order, passing))) ==
            map name | name in Rows(w) :: CheckedRow(Rows(w)[name], name in passing, w.setting)
  {
    CheckedSoFar(Rows(w), order, |order|, passing, w.setting);
    RowsAfter(w, CheckAll(order, passing));
    assert order[..|order|] == order;
  }

  /** After a round every upstream in use has fewer failures than the limit. */
  lemma RoundLeavesNoFailing(w: World, order: seq<string>, passing: set<string>, name: string)
    requires Lists(order, Rows(w))
    requires var t := Rows(After(w, CheckAll(order, passing))); name in t && t[name].enabled
    ensures Rows(After(w, CheckAll(order, passing)))[name].failCount < FAIL_LIMIT
  {
    CheckAllIsRowwise(w, order, passing);
  }

  // ---------- what is switched off stays off ----------

  /** Not in the table, or switched off by hand. */
  ghost predicate Dark(t: Table, name: string) {
    name in t ==> !t[name].enabled && !t[name].autoDisabled
  }

  lemma SwitchOff(w: World, name: string)
    ensures var t, t' := Rows(w), Rows(After(w, Toggle(name, false)));
      t' == if name in t then t[name := Row(t[name].kind, false, false, 0)] else t
  {
    var t := Rows(w);
    RowsAfter(w, Toggle(name, false));
    if name in t {
      assert Stmts(w, Toggle(name, false)) == [SetEnabled(name, false)] + [ClearHealth(name)];
      ExecTwo(t, SetEnabled(name, false), ClearHealth(name));
    }
  }

  lemma SwitchOn(w: World, name: string)
    ensures var t, t' := Rows(w), Rows(After(w, Toggle(name, true)));
      t' == if name in t && !(t[name].kind.Shadowsocks? && w.setting != Some("false"))
            then t[name := Row(t[name].kind, true, false, t[name].failCount)] else t
  {
    var t := Rows(w);
    RowsAfter(w, Toggle(name, true));
    ExecSingle(t, SetEnabled(name, true));
  }

  lemma {:induction false} InsertsTouchOnlyNew(t: Table, entries: seq<Entry>, name: string)
    requires name in t
    ensures name in ExecAll(t, Inserts(entries)) && ExecAll(t, Inserts(entries))[name] == t[name]
  {
    if entries != [] {
      var init, e := entries[..|entries| - 1], entries[|entries| - 1];
      InsertsTouchOnlyNew(t, init, name);
      ExecOne(t, Inserts(init), Insert(e.name, e.kind));
    }
  }

  /** The operation brings the row into the table. */
  ghost predicate Brings(w: World, op: Op, name: string)
    requires CanOccur(w, op)
  {
    name !in Rows(w) && name in Rows(After(w, op))
  }

  lemma StaysDark(w: World, op: Op, name: string)
    requires CanOccur(w, op) && Dark(Rows(w), name) && op != Toggle(name, true) && !Brings(w, op, name)
    ensures Dark(Rows(After(w, op)), name)
  {
    if name in Rows(w) {
      RowsAfter(w, op);
      if op.Toggle? {
        if op.enable { SwitchOn(w, op.name); } else { SwitchOff(w, op.name); }
      } else if op.CheckAll? {
        CheckAllIsRowwise(w, op.order, op.passing);
      } else if op.AddMultiple? {
        InsertsTouchOnlyNew(Rows(w), Admitted(op.batch, w.setting), name);
      } else if |Stmts(w, op)| == 1 {
        ExecSingle(Rows(w), Stmts(w, op)[0]);
        assert Stmts(w, op) == [Stmts(w, op)[0]];
      }
    }
  }

  /** Once an upstream has been switched off by hand no operation puts it to use again, no round
      of checks in particular, until it is switched on by hand or a row of its name is inserted
      anew. */
  lemma {:induction false} SwitchedOffStaysOff(worlds: seq<World>, ops: seq<Op>, m: nat, n: nat, name: string)
    requires IsRun(worlds, ops) && m < n <= |ops| && ops[m] == Toggle(name, false)
    requires forall k | m < k < n :: ops[k] != Toggle(name, true) && !Brings(worlds[k], ops[k], name)
    ensures name in Rows(worlds[n]) ==> !Rows(worlds[n])[name].enabled
    ensures Dark(Rows(worlds[n]), name)
  {
    if n == m + 1 {
      SwitchOff(worlds[m], name);
    } else {
      SwitchedOffStaysOff(worlds, ops, m, n - 1, name);
      StaysDark(worlds[n - 1], ops[n - 1], name);
    }
  }

  // ---------- only three failures in a row disable ----------

  /** Every automatic disable came right after three failures in a row. */
  ghost predicate DisablesJustified(log: seq<Stmt>) {
    forall i | 0 <= i < |log| && log[i].AutoDisable? :: LastFailed(log[..i], log[i].name)
  }

  predicate LastFailed(log: seq<Stmt>, name: string) {
    var marks := Marks(log, name);
    |marks| >= FAIL_LIMIT && forall i | |marks| - FAIL_LIMIT <= i < |marks| :: marks[i].Failed?
  }

  lemma {:induction false} HighCountMeansFailures(log: seq<Stmt>, name: string)
    requires name in ExecAll(map[], log) && ExecAll(map[], log)[name].failCount >= FAIL_LIMIT
    ensures LastFailed(log, name)
  {
    FailCountIsTrailing(log, name);
    TrailingMeans(Marks(log, name), FAIL_LIMIT);
  }

  lemma JustifiedOneMore(log: seq<Stmt>, stmt: Stmt)
    requires DisablesJustified(log) && (stmt.AutoDisable? ==> LastFailed(log, stmt.name))
    ensures DisablesJustified(log + [stmt])
  {
    var all := log + [stmt];
    forall i | 0 <= i < |all| && all[i].AutoDisable? ensures LastFailed(all[..i], all[i].name) {
      assert all[..i] == log[..i];
      assert i == |log| ==> log[..i] == log;
    }
  }

  lemma {:induction false} JustifiedWithout(log: seq<Stmt>, stmts: seq<Stmt>)
    requires DisablesJustified(log) && forall s | s in stmts :: !s.AutoDisable?
    ensures DisablesJustified(log + stmts)
  {
    if stmts == [] {
      assert log + stmts == log;
    } else {
      var init := stmts[..|stmts| - 1];
      JustifiedWithout(log, init);
      assert log + stmts == log + init + [stmts[|stmts| - 1]];
      JustifiedOneMore(log + init, stmts[|stmts| - 1]);
    }
  }

  lemma {:induction false} CheckIsJustified(log: seq<Stmt>, snap: Row, name: string, ok: bool, setting: Option<string>)
    requires DisablesJustified(log)
    ensures DisablesJustified(log + CheckStmts(ExecAll(map[], log), snap, name, ok, setting))
  {
    var t := ExecAll(map[], log);
    var stmts := CheckStmts(t, snap, name, ok, setting);
    var once := log + [Health(name, ok)];
    ExecOne(map[], log, Health(name, ok));
    JustifiedOneMore(log, Health(name, ok));
    if stmts == [Health(name, ok), AutoDisable(name)] {
      assert stmts[1] == AutoDisable(name);
      HighCountMeansFailures(once, name);
      JustifiedOneMore(once, AutoDisable(name));
      assert log + stmts == once + [AutoDisable(name)];
    } else {
      JustifiedWithout(log, stmts);
    }
  }

  lemma {:induction false} RoundIsJustified(log: seq<Stmt>, order: seq<string>, n: nat, passing: set<string>, setting: Option<string>)
    requires DisablesJustified(log) && Lists(order, ExecAll(map[], log)) && n <= |order|
    ensures DisablesJustified(log + CheckAllStmts(ExecAll(map[], log), order, n, passing, setting))
  {
    var t := ExecAll(map[], log);
    if n == 0 {
      assert log + [] == log;
    } else {
      RoundIsJustified(log, order, n - 1, passing, setting);
      var init, name := CheckAllStmts(t, order, n - 1, passing, setting), order[n - 1];
      assert name in order;
      if t[name].enabled || t[name].autoDisabled {
        ExecBoth(map[], log, init);
        var more := CheckStmts(ExecAll(t, init), t[name], name, name in passing, setting);
        CheckIsJustified(log + init, t[name], name, name in passing, setting);
        assert log + (init + more) == log + init + more;
      }
    }
  }

  lemma {:induction false} AdmittedOnly(batch: seq<Entry>, setting: Option<string>)
    ensures forall e | e in Admitted(batch, setting) :: e in batch && !Blocked(e.kind, setting)
  {
    if batch != [] {
      AdmittedOnly(batch[..|batch| - 1], setting);
    }
  }

  lemma {:induction false} InsertsOnly(entries: seq<Entry>)
    ensures forall s | s in Inserts(entries) :: s.Insert? && exists e :: e in entries && e.kind == s.kind
  {
    if entries != [] {
      InsertsOnly(entries[..|entries| - 1]);
      assert entries[|entries| - 1] in entries;
    }
  }

  lemma OpIsJustified(w: World, op: Op)
    requires CanOccur(w, op) && DisablesJustified(w.log)
    ensures DisablesJustified(After(w, op).log)
  {
    if op.CheckAll? {
      RoundIsJustified(w.log, op.order, |op.order|, op.passing, w.setting);
    } else {
      if op.AddMultiple? { InsertsOnly(Admitted(op.batch, w.setting)); }
      JustifiedWithout(w.log, Stmts(w, op));
    }
  }

  ghost predicate IsRun(worlds: seq<World>, ops: seq<Op>) {
    && |worlds| == |ops| + 1
    && worlds[0].log == []
    && forall i | 0 <= i < |ops| :: CanOccur(worlds[i], ops[i]) && worlds[i + 1] == After(worlds[i], ops[i])
  }

  /** Over any run of operations an upstream is disabled automatically only when its last
      three recorded results are failures. */
  lemma {:induction false} OnlyThreeFailuresDisable(worlds: seq<World>, ops: seq<Op>, n: nat)
    requires IsRun(worlds, ops) && n <= |ops|
    ensures DisablesJustified(worlds[n].log)
  {
    if n > 0 {
      OnlyThreeFailuresDisable(worlds, ops, n - 1);
      OpIsJustified(worlds[n - 1], ops[n - 1]);
    }
  }

  // ---------- the Middle-Proxy gate ----------

  lemma {:induction false} InsertsKeepUnused(t: Table, stmts: seq<Stmt>)
    requires NoneInUse(t) && forall s | s in stmts :: s.Insert? && !s.kind.Shadowsocks?
    ensures NoneInUse(ExecAll(t, stmts))
  {
    if stmts != [] {
      InsertsKeepUnused(t, stmts[..|stmts| - 1]);
    }
  }

  /** While the service takes Middle-Proxy for on, no operation puts shadowsocks to use. */
  lemma GateKeepsUnused(w: World, op: Op)
    requires CanOccur(w, op) && GateOn(w.setting) && NoneInUse(Rows(w))
    ensures NoneInUse(Rows(After(w, op)))
  {
    var t := Rows(w);
    RowsAfter(w, op);
    if op.CheckAll? {
      CheckAllIsRowwise(w, op.order, op.passing);
    } else if op.AddMultiple? {
      AdmittedOnly(op.batch, w.setting);
      InsertsOnly(Admitted(op.batch, w.setting));
      InsertsKeepUnused(t, Stmts(w, op));
    } else if op.Toggle? && op.name in t && !op.enable {
      ExecOne(t, [SetEnabled(op.name, false)], ClearHealth(op.name));
      assert [SetEnabled(op.name, false), ClearHealth(op.name)] == [SetEnabled(op.name, false)] + [ClearHealth(op.name)];
    }
  }

  lemma ConfigureKeepsRows(w: World, value: string)
    ensures Rows(After(w, Configure(value))) == Rows(w)
  {
    RowsAfter(w, Configure(value));
  }

  /** The engine never gets a configuration with Middle-Proxy on and shadowsocks in use. */
  ghost predicate EngineAccepts(w: World) {
    EngineOn(w.setting) ==> NoneInUse(Rows(w))
  }

  lemma OpKeepsEngineHappy(w: World, op: Op)
    requires CanOccur(w, op) && EngineAccepts(w)
    ensures EngineAccepts(After(w, op))
  {
    if op.Configure? {
      ConfigureKeepsRows(w, op.value);
    } else if EngineOn(w.setting) {
      GateKeepsUnused(w, op);
    }
  }

  /** In every run of operations, whatever strings are written for the setting. */
  lemma {:induction false} EngineAlwaysAccepts(worlds: seq<World>, ops: seq<Op>, n: nat)
    requires IsRun(worlds, ops) && n <= |ops|
    ensures EngineAccepts(worlds[n])
  {
    if n > 0 {
      EngineAlwaysAccepts(worlds, ops, n - 1);
      OpKeepsEngineHappy(worlds[n - 1], ops[n - 1]);
    }
  }

  /** The service's own, stricter reading of the setting is kept by every operation except
      one: writing a value other than "true" and "false" while shadowsocks is in use, which
      the configuration guard lets through. */
  lemma StrictGateKeptIff(w: World, op: Op)
    requires CanOccur(w, op) && (GateOn(w.setting) ==> NoneInUse(Rows(w)))
    ensures var w' := After(w, op);
      (GateOn(w'.setting) ==> NoneInUse(Rows(w'))) <==>
      !(op.Configure? && op.value != "true" && op.value != "false" && !NoneInUse(Rows(w)))
  {
    if op.Configure? {
      ConfigureKeepsRows(w, op.value);
    } else if GateOn(w.setting) {
      GateKeepsUnused(w, op);
    }
  }

  // ---------- why operations must not overlap ----------

  /** A check that listed a recovered SOCKS upstream and passed its gate, and is then
      overtaken by three operations, re-enables what has become a shadowsocks upstream. */
  lemma StaleRecoveryOpensTheGate(w: World, name: string)
    requires name in Rows(w) && Rows(w)[name].kind.Socks5? && Rows(w)[name].autoDisabled && !Rows(w)[name].enabled
    requires NoneInUse(Rows(w))
    ensures var w1 := After(w, Configure("false"));
      var w2 := After(w1, Update(Entry(name, Shadowsocks, true)));
      var w3 := After(w2, Configure("true"));
      var late := CheckStmts(Rows(w), Rows(w)[name], name, true, w.setting);
      && late == [Health(name, true), AutoEnable(name)]
      && w3.setting == Some("true") && NoneInUse(Rows(w3))
      && !EngineAccepts(World(w3.log + late, w3.setting))
  {
    var w1 := After(w, Configure("false"));
    ConfigureKeepsRows(w, "false");
    var update := Update(Entry(name, Shadowsocks, true));
    var w2 := After(w1, update);
    RowsAfter(w1, update);
    assert Rows(w2) == Rows(w)[name := Row(Shadowsocks, false, false, Rows(w)[name].failCount)];
    var w3 := After(w2, Configure("true"));
    ConfigureKeepsRows(w2, "true");
    var late := [Health(name, true), AutoEnable(name)];
    assert late == [Health(name, true)] + [AutoEnable(name)];
    ExecBoth(map[], w3.log, late);
    ExecOne(Rows(w3), [Health(name, true)], AutoEnable(name));
    var end := World(w3.log + late, w3.setting);
    assert Rows(end)[name].kind.Shadowsocks? && Rows(end)[name].enabled;
  }

  /** In general: the late statements of a check that found its upstream answering, whatever it
      listed (`snap`, `setting`) and whatever happened since, put shadowsocks to use if and only
      if they re-enable what is a shadowsocks upstream by then, with the engine's setting on. */
  lemma LateRecoveryIsHarmlessIff(t: Table, snap: Row, name: string, setting: Option<string>, w: World)
    requires EngineAccepts(w)
    ensures EngineAccepts(w.(log := w.log + CheckStmts(t, snap, name, true, setting))) <==>
            !(snap.autoDisabled && !Blocked(snap.kind, setting) && EngineOn(w.setting)
              && name in Rows(w) && Rows(w)[name].kind.Shadowsocks?)
  {
    var late := CheckStmts(t, snap, name, true, setting);
    var w' := w.(log := w.log + late);
    ExecBoth(map[], w.log, late);
    if snap.autoDisabled && !Blocked(snap.kind, setting) {
      assert late == [Health(name, true)] + [AutoEnable(name)];
      ExecOne(Rows(w), [Health(name, true)], AutoEnable(name));
      if name in Rows(w) { RecoveredRow(w, w', name); }
    } else {
      assert late == [Health(name, true)];
    }
    ExecSingle(Rows(w), Health(name, true));
    if name in Rows(w) && w'.log != w.log + [Health(name, true)] && Rows(w)[name].kind.Shadowsocks? {
      assert Rows(w')[name].enabled && Rows(w')[name].kind.Shadowsocks?;
    }
  }

  lemma RecoveredRow(w: World, w': World, name: string)
    requires name in Rows(w) && Rows(w') == Exec(ExecAll(Rows(w), [Health(name, true)]), AutoEnable(name))
    ensures Rows(w') == Rows(w)[name := Row(Rows(w)[name].kind, true, false, 0)]
  {
    ExecSingle(Rows(w), Health(name, true));
  }

  /** A failing check reads the count and disables later: whatever is recorded in between, that
      disable still follows three failures if and only if the count it meets is still three. */
  lemma {:induction false} LateDisableIsJustifiedIff(log: seq<Stmt>, name: string)
    requires DisablesJustified(log) && name in ExecAll(map[], log)
    ensures DisablesJustified(log + [AutoDisable(name)]) <==> ExecAll(map[], log)[name].failCount >= FAIL_LIMIT
  {
    var all := log + [AutoDisable(name)];
    FailCountIsTrailing(log, name);
    TrailingMeans(Marks(log, name), FAIL_LIMIT);
    if LastFailed(log, name) {
      JustifiedOneMore(log, AutoDisable(name));
    } else {
      assert all[|log|] == AutoDisable(name) && all[..|log|] == log;
    }
  }

  /** A success recorded between reading the count and disabling does not save the upstream. */
  lemma {:induction false} LateSuccessIsOverruled(t: Table, name: string)
    requires name in t && t[name].enabled && t[name].failCount >= FAIL_LIMIT
    ensures var t' := ExecAll(t, [Health(name, true), AutoDisable(name)]);
      name in t' && t'[name].autoDisabled && !t'[name].enabled && t'[name].failCount == 0
  {
    ExecOne(t, [Health(name, true)], AutoDisable(name));
    assert [Health(name, true), AutoDisable(name)] == [Health(name, true)] + [AutoDisable(name)];
  }
}
