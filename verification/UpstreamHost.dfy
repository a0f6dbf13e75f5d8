/**
 The upstream service over its store: the same operations, carried out step by step on the
 rows.  The ghost log records the statements issued, so each method is tied to `Upstreams`
 by `View() == After(old(View()), ..)`.
 */
module UpstreamHost {
  import opened Common
  import opened UpstreamTypes
  import opened Upstreams

  class UpstreamService {
    var rows: Table
    var setting: Option<string>
    ghost var log: seq<Stmt>

    constructor (setting: Option<string>)
      ensures Valid() && View() == World([], setting)
    {
      rows, log := map[], [];
      this.setting := setting;
    }

    ghost predicate Valid()
      reads this
    {
      rows == Rows(View())
    }

    ghost function View(): World
      reads this
    {
      World(log, setting)
    }

    // ---------- store ----------

    method Create(name: string, kind: Kind) returns (added: bool)
      requires Valid()
      modifies this`rows, this`log
      ensures Valid() && log == old(log) + [Insert(name, kind)] && added == (name !in old(rows))
      ensures rows == if added then old(rows)[name := Row(kind, true, false, 0)] else old(rows)
    {
      ExecOne(map[], log, Insert(name, kind));
      added := name !in rows;
      if added {
        rows := rows[name := Row(kind, true, false, 0)];
      }
      log := log + [Insert(name, kind)];
    }

    method UpdateRow(name: string, kind: Kind, enabled: bool)
      requires Valid()
      modifies this`rows, this`log
      ensures Valid() && log == old(log) + [Rewrite(name, kind, enabled)]
      ensures rows == if name in old(rows) then old(rows)[name := Row(kind, enabled, false, old(rows)[name].failCount)] else old(rows)
    {
      if name in rows {
        rows := rows[name := Row(kind, enabled, false, rows[name].failCount)];
      }
      ExecOne(map[], log, Rewrite(name, kind, enabled));
      log := log + [Rewrite(name, kind, enabled)];
    }

    method UpdateHealth(name: string, ok: bool)
      requires Valid()
      modifies this`rows, this`log
      ensures Valid() && log == old(log) + [Health(name, ok)]
      ensures rows == if name in old(rows) then old(rows)[name := old(rows)[name].(failCount := if ok then 0 else old(rows)[name].failCount + 1)] else old(rows)
    {
      if name in rows {
        rows := rows[name := rows[name].(failCount := if ok then 0 else rows[name].failCount + 1)];
      }
      ExecOne(map[], log, Health(name, ok));
      log := log + [Health(name, ok)];
    }

    method UpdateEnabled(name: string, enabled: bool)
      requires Valid()
      modifies this`rows, this`log
      ensures Valid() && log == old(log) + [SetEnabled(name, enabled)]
      ensures rows == if name in old(rows) then old(rows)[name := old(rows)[name].(enabled := enabled, autoDisabled := false)] else old(rows)
    {
      if name in rows {
        rows := rows[name := rows[name].(enabled := enabled, autoDisabled := false)];
      }
      ExecOne(map[], log, SetEnabled(name, enabled));
      log := log + [SetEnabled(name, enabled)];
    }

    method DisableAutomatically(name: string)
      requires Valid()
      modifies this`rows, this`log
      ensures Valid() && log == old(log) + [AutoDisable(name)]
      ensures rows == if name in old(rows) then old(rows)[name := old(rows)[name].(enabled := false, autoDisabled := true)] else old(rows)
    {
      if name in rows {
        rows := rows[name := rows[name].(enabled := false, autoDisabled := true)];
      }
      ExecOne(map[], log, AutoDisable(name));
      log := log + [AutoDisable(name)];
    }

    method EnableAutomatically(name: string)
      requires Valid()
      modifies this`rows, this`log
      ensures Valid() && log == old(log) + [AutoEnable(name)]
      ensures rows == if name in old(rows) then old(rows)[name := Row(old(rows)[name].kind, true, false, 0)] else old(rows)
    {
      if name in rows {
        rows := rows[name := rows[name].(enabled := true, autoDisabled := false, failCount := 0)];
      }
      ExecOne(map[], log, AutoEnable(name));
      log := log + [AutoEnable(name)];
    }

    method ClearHealth(name: string)
      requires Valid()
      modifies this`rows, this`log
      ensures Valid() && log == old(log) + [Upstreams.ClearHealth(name)]
      ensures rows == if name in old(rows) then old(rows)[name := old(rows)[name].(failCount := 0)] else old(rows)
    {
      if name in rows {
        rows := rows[name := rows[name].(failCount := 0)];
      }
      ExecOne(map[], log, Upstreams.ClearHealth(name));
      log := log + [Upstreams.ClearHealth(name)];
    }

    method Delete(name: string)
      requires Valid()
      modifies this`rows, this`log
      ensures Valid() && log == old(log) + [Upstreams.Delete(name)] && rows == old(rows) - {name}
    {
      ghost var t := rows;
      rows := map k | k in rows && k != name :: rows[k];
      ExecOne(map[], log, Upstreams.Delete(name));
      assert rows == Exec(t, Upstreams.Delete(name));
      log := log + [Upstreams.Delete(name)];
    }

    // ---------- service ----------

    method EnsureShadowsocksAllowed(kind: Kind) returns (allowed: bool)
      ensures allowed <==> !Blocked(kind, setting)
      ensures allowed <==> !kind.Shadowsocks? || setting == Some("false")
    {
      allowed := true;
      if kind.Shadowsocks? {
        allowed := setting == Some("false");
      }
    }

    method Add(e: Entry) returns (done: bool)
      requires Valid()
      modifies this`rows, this`log
      ensures Valid() && View() == After(old(View()), Upstreams.Add(e))
      ensures done <==> e.valid && !(e.kind.Shadowsocks? && setting != Some("false")) && e.name !in old(rows)
      ensures rows == if done then old(rows)[e.name := Row(e.kind, true, false, 0)] else old(rows)
    {
      assert log == log + [];
      if !e.valid {
        return false;
      }
      var allowed := EnsureShadowsocksAllowed(e.kind);
      if !allowed || e.name in rows {
        return false;
      }
      done := Create(e.name, e.kind);
    }

    /** Keeps the row's name and whether it is in use. */
    method Update(e: Entry) returns (done: bool)
      requires Valid()
      modifies this`rows, this`log
      ensures Valid() && View() == After(old(View()), Upstreams.Update(e))
      ensures done <==> e.valid && !(e.kind.Shadowsocks? && setting != Some("false")) && e.name in old(rows)
      ensures rows == if done then old(rows)[e.name := Row(e.kind, old(rows)[e.name].enabled, false, old(rows)[e.name].failCount)]
                      else old(rows)
    {
      assert log == log + [];
      if !e.valid {
        return false;
      }
      var allowed := EnsureShadowsocksAllowed(e.kind);
      if !allowed || e.name !in rows {
        return false;
      }
      UpdateRow(e.name, e.kind, rows[e.name].enabled);
      return true;
    }

    method Remove(name: string) returns (done: bool)
      requires Valid()
      modifies this`rows, this`log
      ensures Valid() && View() == After(old(View()), Upstreams.Remove(name))
      ensures done <==> name in old(rows)
      ensures rows == old(rows) - {name}
    {
      assert log == log + [];
      if name !in rows {
        return false;
      }
      Delete(name);
      return true;
    }

    method Toggle(name: string, enable: bool) returns (done: bool)
      requires Valid()
      modifies this`rows, this`log
      ensures Valid() && View() == After(old(View()), Upstreams.Toggle(name, enable))
      ensures done <==> name in old(rows) && (enable ==> !(old(rows)[name].kind.Shadowsocks? && setting != Some("false")))
      ensures !done ==> rows == old(rows)
      ensures done && !enable ==> rows == old(rows)[name := Row(old(rows)[name].kind, false, false, 0)]
      ensures done && enable ==> rows == old(rows)[name := Row(old(rows)[name].kind, true, false, old(rows)[name].failCount)]
    {
      assert log == log + [];
      if name !in rows {
        return false;
      }
      if enable {
        var allowed := EnsureShadowsocksAllowed(rows[name].kind);
        if !allowed {
          return false;
        }
      }
      UpdateEnabled(name, enable);
      if !enable {
        ClearHealth(name);
        assert log == old(log) + [SetEnabled(name, false), Upstreams.ClearHealth(name)];
      }
      return true;
    }

    method Test(name: string, ok: bool) returns (done: bool)
      requires Valid()
      modifies this`rows, this`log
      ensures Valid() && View() == After(old(View()), Upstreams.Test(name, ok))
      ensures done <==> name in old(rows)
      ensures rows == if done then old(rows)[name := old(rows)[name].(failCount := if ok then 0 else old(rows)[name].failCount + 1)]
                      else old(rows)
    {
      assert log == log + [];
      if name !in rows {
        return false;
      }
      UpdateHealth(name, ok);
      return true;
    }

    method RunInitialHealthCheck(name: string, ok: bool)
      requires Valid()
      modifies this`rows, this`log
      ensures Valid() && View() == After(old(View()), InitialCheck(name, ok))
      ensures rows == if name in old(rows) then old(rows)[name := old(rows)[name].(failCount := if ok then 0 else old(rows)[name].failCount + 1)]
                      else old(rows)
    {
      UpdateHealth(name, ok);
    }

    /** Splits a batch into what may be added and the names of what may not be; one invalid
        entry rejects it all. */
    method Admit(batch: seq<Entry>) returns (toAdd: seq<Entry>, skipped: seq<string>, valid: bool)
      ensures valid <==> forall i | 0 <= i < |batch| :: batch[i].valid
      ensures valid ==> toAdd == Admitted(batch, setting) && skipped == SkippedOf(batch, setting)
    {
      toAdd, skipped := [], [];
      var i := 0;
      while i < |batch|
        invariant 0 <= i <= |batch| && forall j | 0 <= j < i :: batch[j].valid
        invariant toAdd == Admitted(batch[..i], setting) && skipped == SkippedOf(batch[..i], setting)
      {
        assert batch[..i + 1][..i] == batch[..i];
        if !batch[i].valid {
          return [], [], false;
        }
        var allowed := EnsureShadowsocksAllowed(batch[i].kind);
        if allowed {
          toAdd := toAdd + [batch[i]];
        } else {
          skipped := skipped + [batch[i].name];
        }
        i := i + 1;
      }
      assert batch[..i] == batch;
      valid := true;
    }

    /** Returns what was inserted, in order, and the names of what was blocked. */
    method AddMultiple(batch: seq<Entry>) returns (inserted: seq<Entry>, skipped: seq<string>, done: bool)
      requires Valid()
      modifies this`rows, this`log
      ensures Valid() && View() == After(old(View()), Upstreams.AddMultiple(batch))
      ensures done <==> forall i | 0 <= i < |batch| :: batch[i].valid
      ensures inserted == if done then NewAmong(old(rows), Admitted(batch, setting)) else []
      ensures done ==> skipped == SkippedOf(batch, setting)
      ensures if done then BatchAdded(old(rows), batch, setting, rows) else rows == old(rows)
      ensures done ==> forall n :: n in skipped <==> exists i :: 0 <= i < |batch| && batch[i].name == n && !MayAdd(batch[i], setting)
    {
      assert log == log + [];
      var toAdd;
      toAdd, skipped, done := Admit(batch);
      inserted := [];
      if done {
        BatchIsAdded(rows, batch, setting);
        ExecBoth(map[], log, Inserts(toAdd));
        SkippedAreBlocked(batch, setting);
        inserted := CreateMultiple(toAdd);
      }
    }

    method CreateMultiple(entries: seq<Entry>) returns (inserted: seq<Entry>)
      requires Valid()
      modifies this`rows, this`log
      ensures Valid() && log == old(log) + Inserts(entries) && inserted == NewAmong(old(rows), entries)
    {
      inserted := [];
      var i := 0;
      while i < |entries|
        invariant 0 <= i <= |entries| && Valid() && log == old(log) + Inserts(entries[..i])
        invariant inserted == NewAmong(old(rows), entries[..i])
      {
        inserted := InsertNext(entries, i, inserted, old(log), old(rows));
        i := i + 1;
      }
      assert entries[..i] == entries;
    }

    method InsertNext(entries: seq<Entry>, i: nat, inserted: seq<Entry>, ghost start: seq<Stmt>, ghost before: Table)
      returns (inserted': seq<Entry>)
      requires Valid() && i < |entries| && before == ExecAll(map[], start)
      requires log == start + Inserts(entries[..i]) && inserted == NewAmong(before, entries[..i])
      modifies this`rows, this`log
      ensures Valid() && log == start + Inserts(entries[..i + 1]) && inserted' == NewAmong(before, entries[..i + 1])
    {
      ExecBoth(map[], start, Inserts(entries[..i]));
      InsertsOneMore(before, entries, i);
      LogOneMore(start, Inserts(entries[..i]), Insert(entries[i].name, entries[i].kind));
      var e := entries[i];
      var added := Create(e.name, e.kind);
      inserted' := if added then inserted + [e] else inserted;
    }

    // ---------- health checks ----------

    method HandleFailover(name: string)
      requires Valid()
      modifies this`rows, this`log
      ensures Valid()
      ensures log == old(log) + if name in old(rows) && old(rows)[name].failCount >= FAIL_LIMIT && old(rows)[name].enabled
                                then [AutoDisable(name)] else []
    {
      if name !in rows || rows[name].failCount < FAIL_LIMIT || !rows[name].enabled {
        return;
      }
      DisableAutomatically(name);
    }

    method HandleAutoRecovery(name: string, snap: Row)
      requires Valid()
      modifies this`rows, this`log
      ensures Valid() && log == old(log) + if Blocked(snap.kind, setting) then [] else [AutoEnable(name)]
    {
      var allowed := EnsureShadowsocksAllowed(snap.kind);
      if allowed {
        EnableAutomatically(name);
      }
    }

    method CheckUpstream(name: string, snap: Row, ok: bool)
      requires Valid()
      modifies this`rows, this`log
      ensures Valid() && log == old(log) + CheckStmts(old(rows), snap, name, ok, setting)
    {
      ExecOne(map[], log, Health(name, ok));
      UpdateHealth(name, ok);
      if !ok {
        HandleFailover(name);
      } else if snap.autoDisabled {
        HandleAutoRecovery(name, snap);
      }
    }

    /** Checks one listed row; `sofar` is what this round has issued before it. */
    method CheckListed(name: string, snap: Row, ok: bool, ghost start: seq<Stmt>, ghost sofar: seq<Stmt>)
      requires Valid() && log == start + sofar
      modifies this`rows, this`log
      ensures Valid() && log == start + (if !snap.enabled && !snap.autoDisabled then sofar
                                         else sofar + CheckStmts(ExecAll(ExecAll(map[], start), sofar), snap, name, ok, setting))
    {
      if snap.enabled || snap.autoDisabled {
        ExecBoth(map[], start, sofar);
        CheckUpstream(name, snap, ok);
      }
    }

    method CheckAllUpstreams(order: seq<string>, passing: set<string>)
      requires Valid() && Lists(order, rows)
      modifies this`rows, this`log
      ensures Valid() && View() == After(old(View()), CheckAll(order, passing))
      ensures rows.Keys == old(rows).Keys
      ensures forall name | name in old(rows) :: Checked(old(rows)[name], name in passing, setting, rows[name])
    {
      var listed := rows;
      var i := 0;
      while i < |order|
        invariant 0 <= i <= |order| && Valid()
        invariant log == old(log) + CheckAllStmts(listed, order, i, passing, setting)
      {
        var name := order[i];
        assert name in order;
        CheckListed(name, listed[name], name in passing, old(log), CheckAllStmts(listed, order, i, passing, setting));
        i := i + 1;
      }
      RoundIsChecked(old(View()), order, passing);
    }

    // ---------- settings ----------

    /** The engine's own reading of the setting: on when unset or "true". */
    method UseMiddleProxy() returns (on: bool)
      ensures on <==> EngineOn(setting)
      ensures on <==> setting == None || setting == Some("true")
    {
      on := setting.None? || setting.value == "true";
    }

    /** Refuses "true", and only that, while an enabled shadowsocks upstream exists. */
    method Configure(value: string, order: seq<string>) returns (done: bool)
      requires Valid() && Lists(order, rows)
      modifies this`setting
      ensures Valid() && View() == After(old(View()), Upstreams.Configure(value))
      ensures done <==> value != "true" || forall name | name in rows :: !(rows[name].kind.Shadowsocks? && rows[name].enabled)
      ensures setting == if done then Some(value) else old(setting)
    {
      assert log == log + [];
      if value == "true" {
        var i := 0;
        while i < |order|
          invariant 0 <= i <= |order|
          invariant forall j | 0 <= j < i :: !(rows[order[j]].kind.Shadowsocks? && rows[order[j]].enabled)
        {
          assert order[i] in order;
          if rows[order[i]].enabled && rows[order[i]].kind.Shadowsocks? {
            return false;
          }
          i := i + 1;
        }
        assert NoneInUse(rows) by {
          forall name | name in rows ensures !(rows[name].kind.Shadowsocks? && rows[name].enabled) {
            assert name in order;
          }
        }
      }
      setting := Some(value);
      return true;
    }
  }

  /** What a round makes of a row.  One that was switched off by hand is not checked.  A success
      clears the count and puts an automatically disabled row back to use, unless it is shadowsocks
      and the setting is not "false"; the third failure in a row takes an enabled row out. */
  predicate Checked(before: Row, ok: bool, setting: Option<string>, after: Row) {
    && after.kind == before.kind
    && (!before.enabled && !before.autoDisabled ==> after == before)
    && (before.enabled || before.autoDisabled ==>
          var back := ok && before.autoDisabled && (!before.kind.Shadowsocks? || setting == Some("false"));
          var out := !ok && before.enabled && before.failCount >= 2;
          && after.failCount == (if ok then 0 else before.failCount + 1)
          && after.enabled == ((before.enabled && !out) || back)
          && after.autoDisabled == ((before.autoDisabled && !back) || out))
  }

  lemma RoundIsChecked(w: World, order: seq<string>, passing: set<string>)
    requires Lists(order, Rows(w))
    ensures var t := Rows(After(w, CheckAll(order, passing)));
      t.Keys == Rows(w).Keys && forall name | name in Rows(w) :: Checked(Rows(w)[name], name in passing, w.setting, t[name])
  {
    CheckAllIsRowwise(w, order, passing);
    forall name | name in Rows(w)
      ensures Checked(Rows(w)[name], name in passing, w.setting, CheckedRow(Rows(w)[name], name in passing, w.setting))
    {
    }
  }

  lemma LogOneMore(start: seq<Stmt>, sofar: seq<Stmt>, stmt: Stmt)
    ensures start + sofar + [stmt] == start + (sofar + [stmt])
  {
  }

  lemma {:induction false} InsertsOneMore(t: Table, entries: seq<Entry>, i: nat)
    requires i < |entries|
    ensures Inserts(entries[..i + 1]) == Inserts(entries[..i]) + [Insert(entries[i].name, entries[i].kind)]
    ensures NewAmong(t, entries[..i + 1]) ==
            if entries[i].name in ExecAll(t, Inserts(entries[..i])) then NewAmong(t, entries[..i])
            else NewAmong(t, entries[..i]) + [entries[i]]
  {
    assert entries[..i + 1][..i] == entries[..i];
    assert NewAmong(t, entries[..i]) + [] == NewAmong(t, entries[..i]);
  }

  /** The entries whose name was still free when their turn came. */
  function NewAmong(t: Table, entries: seq<Entry>): seq<Entry> {
    if entries == [] then []
    else
      var init, e := entries[..|entries| - 1], entries[|entries| - 1];
      NewAmong(t, init) + if e.name in ExecAll(t, Inserts(init)) then [] else [e]
  }

  function Names(entries: seq<Entry>): set<string> {
    if entries == [] then {} else Names(entries[..|entries| - 1]) + {entries[|entries| - 1].name}
  }

  lemma {:induction false} NamesOneMore(entries: seq<Entry>, e: Entry)
    ensures Names(entries + [e]) == Names(entries) + {e.name}
  {
    assert (entries + [e])[..|entries|] == entries;
  }

  lemma InsertAddsName(t: Table, e: Entry)
    ensures Exec(t, Insert(e.name, e.kind)).Keys == t.Keys + {e.name}
  {
  }

  lemma {:induction false} InsertedNames(t: Table, entries: seq<Entry>)
    ensures ExecAll(t, Inserts(entries)).Keys == t.Keys + Names(entries)
  {
    if entries != [] {
      var init, e := entries[..|entries| - 1], entries[|entries| - 1];
      InsertedNames(t, init);
      ExecOne(t, Inserts(init), Insert(e.name, e.kind));
      InsertAddsName(ExecAll(t, Inserts(init)), e);
    }
  }

  lemma {:induction false} NewOneMore(t: Table, init: seq<Entry>, e: Entry)
    ensures NewAmong(t, init + [e]) == NewAmong(t, init) + if e.name in t.Keys + Names(init) then [] else [e]
  {
    assert (init + [e])[..|init|] == init;
    InsertedNames(t, init);
  }

  lemma NewStep(known: set<string>, names: set<string>, done: set<string>, name: string)
    requires done == names - known
    ensures (if name in known + names then done else done + {name}) == names + {name} - known
  {
  }

  lemma {:induction false} NewNamesOneMore(t: Table, init: seq<Entry>, e: Entry)
    requires Names(NewAmong(t, init)) == Names(init) - t.Keys
    ensures Names(NewAmong(t, init + [e])) == Names(init + [e]) - t.Keys
  {
    var sofar := NewAmong(t, init);
    NewOneMore(t, init, e);
    NamesOneMore(init, e);
    NewStep(t.Keys, Names(init), Names(sofar), e.name);
    if e.name in t.Keys + Names(init) {
      assert sofar + [] == sofar;
    } else {
      NamesOneMore(sofar, e);
    }
  }

  /** The names inserted are the new ones. */
  lemma {:induction false} NewAreInserted(t: Table, entries: seq<Entry>)
    ensures Names(NewAmong(t, entries)) == Names(entries) - t.Keys
  {
    if entries != [] {
      var init, e := entries[..|entries| - 1], entries[|entries| - 1];
      NewAreInserted(t, init);
      NewNamesOneMore(t, init, e);
      assert entries == init + [e];
    }
  }

  /** Anything but shadowsocks, and that too when the setting says "false". */
  predicate MayAdd(e: Entry, setting: Option<string>) {
    !e.kind.Shadowsocks? || setting == Some("false")
  }

  /** Some entry of that name may be added. */
  ghost predicate Adds(batch: seq<Entry>, setting: Option<string>, name: string) {
    exists i :: 0 <= i < |batch| && batch[i].name == name && MayAdd(batch[i], setting)
  }

  /** The rows that were there are as they were; beside them there is one for each new name among
      the entries that may be added, enabled, of the kind its first such entry gives. */
  ghost predicate BatchAdded(before: Table, batch: seq<Entry>, setting: Option<string>, after: Table) {
    && (forall n :: n in after <==> n in before || Adds(batch, setting, n))
    && (forall n | n in before :: after[n] == before[n])
    && FirstKinds(before, batch, setting, after)
  }

  ghost predicate FirstKinds(before: Table, batch: seq<Entry>, setting: Option<string>, after: Table) {
    forall i | 0 <= i < |batch| && MayAdd(batch[i], setting) && batch[i].name !in before && !Adds(batch[..i], setting, batch[i].name) ::
      batch[i].name in after && after[batch[i].name] == Row(batch[i].kind, true, false, 0)
  }

  lemma {:induction false} BatchIsAdded(t: Table, batch: seq<Entry>, setting: Option<string>)
    ensures BatchAdded(t, batch, setting, ExecAll(t, Inserts(Admitted(batch, setting))))
  {
    if batch != [] {
      var init, e := batch[..|batch| - 1], batch[|batch| - 1];
      BatchIsAdded(t, init, setting);
      assert batch == init + [e];
      AdmittedOneMore(t, init, e, setting);
      BatchOneMore(t, init, e, setting, ExecAll(t, Inserts(Admitted(init, setting))));
    } else {
      NoneAdded(t, setting);
    }
  }

  lemma {:induction false} NoneAdded(t: Table, setting: Option<string>)
    ensures BatchAdded(t, [], setting, ExecAll(t, Inserts(Admitted([], setting))))
  {
  }

  lemma {:induction false} AdmittedOneMore(t: Table, init: seq<Entry>, e: Entry, setting: Option<string>)
    ensures var after := ExecAll(t, Inserts(Admitted(init, setting)));
      ExecAll(t, Inserts(Admitted(init + [e], setting))) == if MayAdd(e, setting) then Exec(after, Insert(e.name, e.kind)) else after
  {
    var sofar := Admitted(init, setting);
    AdmittedBack(init, e, setting);
    InsertsBack(sofar, e);
    ExecOne(t, Inserts(sofar), Insert(e.name, e.kind));
  }

  lemma {:induction false} AdmittedBack(init: seq<Entry>, e: Entry, setting: Option<string>)
    ensures Admitted(init + [e], setting) == if MayAdd(e, setting) then Admitted(init, setting) + [e] else Admitted(init, setting)
  {
    assert (init + [e])[..|init|] == init;
    assert Admitted(init, setting) + [] == Admitted(init, setting);
  }

  lemma {:induction false} InsertsBack(entries: seq<Entry>, e: Entry)
    ensures Inserts(entries + [e]) == Inserts(entries) + [Insert(e.name, e.kind)]
  {
    assert (entries + [e])[..|entries|] == entries;
  }

  lemma AddsOneMore(init: seq<Entry>, e: Entry, setting: Option<string>, name: string)
    ensures Adds(init + [e], setting, name) <==> Adds(init, setting, name) || (e.name == name && MayAdd(e, setting))
  {
    var all := init + [e];
    assert all[|init|] == e;
    if i :| 0 <= i < |init| && init[i].name == name && MayAdd(init[i], setting) {
      assert all[i] == init[i];
    }
  }

  lemma BatchOneMore(t: Table, init: seq<Entry>, e: Entry, setting: Option<string>, after: Table)
    requires BatchAdded(t, init, setting, after)
    ensures BatchAdded(t, init + [e], setting, if MayAdd(e, setting) then Exec(after, Insert(e.name, e.kind)) else after)
  {
    var after' := if MayAdd(e, setting) then Exec(after, Insert(e.name, e.kind)) else after;
    forall n ensures n in after' <==> n in t || Adds(init + [e], setting, n) {
      AddsOneMore(init, e, setting, n);
    }
    KindsOneMore(t, init, e, setting, after);
  }

  lemma KindsOneMore(t: Table, init: seq<Entry>, e: Entry, setting: Option<string>, after: Table)
    requires FirstKinds(t, init, setting, after) && forall n :: n in after <==> n in t || Adds(init, setting, n)
    ensures FirstKinds(t, init + [e], setting, if MayAdd(e, setting) then Exec(after, Insert(e.name, e.kind)) else after)
  {
    var all, after' := init + [e], if MayAdd(e, setting) then Exec(after, Insert(e.name, e.kind)) else after;
    assert forall n | n in after :: n in after' && after'[n] == after[n];
    forall i | 0 <= i < |all| && MayAdd(all[i], setting) && all[i].name !in t && !Adds(all[..i], setting, all[i].name)
      ensures all[i].name in after' && after'[all[i].name] == Row(all[i].kind, true, false, 0)
    {
      if i < |init| {
        assert all[..i] == init[..i];
        assert init[i].name in after && after[init[i].name] == Row(init[i].kind, true, false, 0);
      } else {
        assert all[..i] == init;
      }
    }
  }

  lemma {:induction false} SkippedAreBlocked(batch: seq<Entry>, setting: Option<string>)
    ensures forall n :: n in SkippedOf(batch, setting) <==>
                        exists i :: 0 <= i < |batch| && batch[i].name == n && !MayAdd(batch[i], setting)
  {
    if batch != [] {
      var init, e := batch[..|batch| - 1], batch[|batch| - 1];
      SkippedAreBlocked(init, setting);
      assert forall i | 0 <= i < |init| :: batch[i] == init[i];
    }
  }

  /** Entry by entry, in order: one is inserted if its name is neither in the table nor an earlier
      entry's. */
  lemma {:induction false} NewInOrder(t: Table, entries: seq<Entry>, k: nat)
    requires k < |entries|
    ensures NewAmong(t, []) == []
    ensures NewAmong(t, entries[..k + 1]) == NewAmong(t, entries[..k])
              + if entries[k].name !in t && (forall j | 0 <= j < k :: entries[j].name != entries[k].name) then [entries[k]] else []
  {
    assert entries[..k + 1] == entries[..k] + [entries[k]];
    NewOneMore(t, entries[..k], entries[k]);
    NamesAre(entries[..k], entries[k].name);
  }

  lemma {:induction false} NamesAre(entries: seq<Entry>, name: string)
    ensures name in Names(entries) <==> exists j :: 0 <= j < |entries| && entries[j].name == name
  {
    if entries != [] {
      NamesAre(entries[..|entries| - 1], name);
    }
  }

  function SkippedOf(batch: seq<Entry>, setting: Option<string>): seq<string> {
    if batch == [] then []
    else SkippedOf(batch[..|batch| - 1], setting)
         + if Blocked(batch[|batch| - 1].kind, setting) then [batch[|batch| - 1].name] else []
  }
}
