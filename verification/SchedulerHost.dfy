/**
 The scheduler and its service as objects: the cron table, the map from task to entry id,
 and the stored overrides, changed in place.  `Valid` says that the table holds exactly one
 entry for every task that has one, and no entry that was left behind.
 */
module SchedulerHost {
  import opened Common
  import opened Scheduling

  datatype Entry = Entry(task: string, schedule: string)

  class Scheduler {
    var defaults: seq<Task>
    var entries: map<string, nat>
    var cron: map<nat, Entry>
    var nextId: nat
    var overrides: map<string, Override>
    const validated: iset<string>
    const accepted: iset<string>

    constructor (validated: iset<string>, accepted: iset<string>, overrides: map<string, Override>)
      ensures Valid() && entries == map[] && defaults == [] && this.overrides == overrides
      ensures this.validated == validated && this.accepted == accepted
    {
      defaults, entries, cron, nextId := [], map[], map[], 1;
      this.validated, this.accepted, this.overrides := validated, accepted, overrides;
    }

    /** One live entry per scheduled task, and no entry leaked. */
    ghost predicate Valid()
      reads this
    {
      && (forall n | n in entries :: entries[n] in cron && cron[entries[n]].task == n)
      && (forall id | id in cron :: id < nextId && cron[id].task in entries && entries[cron[id].task] == id)
    }

    ghost function Live(): map<string, string>
      reads this
      requires Valid()
    {
      map n | n in entries :: cron[entries[n]].schedule
    }

    ghost function View(): State
      reads this
      requires Valid()
    {
      State(overrides, Live())
    }

    ghost function Cfg(): Config
      reads this
    {
      Config(defaults, validated, accepted)
    }

    // ---------- cron ----------

    /** Refused when cron does not accept the expression. */
    method AddTaskToCron(name: string, schedule: string) returns (ok: bool)
      requires Valid() && name !in entries
      modifies this`entries, this`cron, this`nextId
      ensures Valid() && ok == (schedule in accepted)
      ensures Live() == Put(old(Live()), name, if ok then Some(schedule) else None)
    {
      ok := schedule in accepted;
      if ok {
        cron := cron[nextId := Entry(name, schedule)];
        entries := entries[name := nextId];
        nextId := nextId + 1;
      }
    }

    method RemoveTask(name: string)
      requires Valid()
      modifies this`entries, this`cron
      ensures Valid() && Live() == old(Live()) - {name} && name !in entries
    {
      if name in entries {
        var id := entries[name];
        cron := map i | i in cron && i != id :: cron[i];
        entries := map n | n in entries && n != name :: entries[n];
      }
    }

    method AddOrUpdateTask(name: string, schedule: string, hasFn: bool) returns (ok: bool)
      requires Valid()
      modifies this`entries, this`cron, this`nextId
      ensures Valid() && (ok <==> hasFn && (schedule == "" || schedule in accepted))
      ensures Live() == if !hasFn then old(Live())
                        else Put(old(Live()), name, if schedule != "" && schedule in accepted then Some(schedule) else None)
    {
      if !hasFn {
        return false;
      }
      RemoveTask(name);
      if schedule != "" {
        ok := AddTaskToCron(name, schedule);
      } else {
        ok := true;
      }
    }

    /** Schedules what the stored overrides say: afterwards the live entries are the rebuilt ones. */
    method StartWith(tasks: seq<Task>)
      requires Valid() && entries == map[]
      requires ValidConfig(Config(tasks, validated, accepted))
      modifies this`defaults, this`entries, this`cron, this`nextId
      ensures Valid() && defaults == tasks
      ensures forall name :: InSync(Cfg(), View(), name)
      ensures forall t | t in tasks :: StartsRight(t, overrides, accepted, Live())
      ensures forall name | name in Live() :: exists t :: t in tasks && t.name == name
    {
      defaults := tasks;
      assert StartedUpTo(Live(), tasks[..0], overrides, accepted);
      var i := 0;
      while i < |tasks|
        invariant 0 <= i <= |tasks| && Valid() && defaults == tasks && UniqueNames(tasks)
        invariant StartedUpTo(Live(), tasks[..i], overrides, accepted)
      {
        NotStartedYet(Live(), tasks, i, overrides, accepted);
        StartedOneMore(Live(), tasks, i, overrides, accepted);
        StartTask(tasks[i]);
        i := i + 1;
      }
      assert tasks[..i] == tasks;
      StartedIsSynced(Cfg(), View());
      forall t | t in tasks ensures StartsRight(t, overrides, accepted, Live()) {
        SyncedStartsRight(Cfg(), View(), t);
      }
      assert forall name | name in Live() :: InSync(Cfg(), View(), name) && Find(tasks, name).Some?;
    }

    method StartTask(task: Task)
      requires Valid() && task.name !in Live()
      modifies this`entries, this`cron, this`nextId
      ensures Valid() && Live() == Put(old(Live()), task.name, AtStart(task, Lookup(overrides, task.name), accepted))
    {
      if !task.hasFn {
        return;
      }
      var schedule := task.schedule;
      if task.name in overrides {
        var ovr := overrides[task.name];
        if !ovr.enabled {
          return;
        }
        if ovr.custom != "" {
          schedule := ovr.custom;
        }
      } else if task.disabled {
        return;
      }
      var ok := AddTaskToCron(task.name, schedule);
    }

    // ---------- service ----------

    method UpdateTask(name: string, enabled: Option<bool>, schedule: Option<string>) returns (ok: bool)
      requires Valid() && ValidConfig(Cfg())
      modifies this`overrides, this`entries, this`cron, this`nextId
      ensures Valid() && View() == Update(Cfg(), old(View()), Request(name, enabled, schedule))
      ensures ok <==> Admissible(Cfg(), Request(name, enabled, schedule))
                      && Applies(Find(defaults, name).value,
                                 Requested(Lookup(old(overrides), name), Request(name, enabled, schedule)), accepted)
      ensures Find(defaults, name).None? || (schedule.Some? && schedule.value != "" && schedule.value !in validated) ==>
                !ok && overrides == old(overrides) && Live() == old(Live())
      ensures Find(defaults, name).Some? && (schedule.Some? && schedule.value != "" ==> schedule.value in validated) ==>
                Updated(Find(defaults, name).value, enabled, schedule, accepted, old(overrides), old(Live()), overrides, Live())
    {
      var t := Find(defaults, name);
      UpdateIsUpdated(Cfg(), View(), Request(name, enabled, schedule));
      if t.None? {
        return false;
      }
      if schedule.Some? && schedule.value != "" && schedule.value !in validated {
        return false;
      }
      var ovr := OverrideFor(name, enabled, schedule);
      SaveOverride(t.value, ovr);
      ok := ApplyTaskRuntime(t.value, ovr);
    }

    /** The stored override, or an empty one, with what the request names. */
    method OverrideFor(name: string, enabled: Option<bool>, schedule: Option<string>) returns (ovr: Override)
      ensures ovr == Requested(Lookup(overrides, name), Request(name, enabled, schedule))
    {
      ovr := if name in overrides then overrides[name] else Override(true, "");
      if enabled.Some? {
        ovr := ovr.(enabled := enabled.value);
      }
      if schedule.Some? {
        ovr := ovr.(custom := schedule.value);
      }
    }

    /** Nothing is kept that the built-in settings already say. */
    method SaveOverride(t: Task, ovr: Override)
      modifies this`overrides
      ensures overrides == Put(old(overrides), t.name, Stored(t, ovr))
    {
      if ovr.enabled && (ovr.custom == "" || ovr.custom == t.schedule) {
        overrides := map n | n in overrides && n != t.name :: overrides[n];
      } else {
        overrides := overrides[t.name := ovr];
      }
    }

    method ApplyTaskRuntime(t: Task, ovr: Override) returns (ok: bool)
      requires Valid() && t.schedule != "" && "" !in accepted
      modifies this`entries, this`cron, this`nextId
      ensures Valid()
      ensures Live() == Put(old(Live()), t.name, Running(t, ovr, accepted, Lookup(old(Live()), t.name)))
      ensures ok <==> Applies(t, ovr, accepted)
    {
      if !ovr.enabled {
        RemoveTask(t.name);
        ok := AddOrUpdateTask(t.name, "", t.hasFn);
      } else {
        var effective := t.schedule;
        if ovr.custom != "" {
          effective := ovr.custom;
        }
        ok := AddOrUpdateTask(t.name, effective, t.hasFn);
      }
    }
  }

  /** What an update does.  A request keeps what it does not name, a task never touched counting
      as enabled with no schedule of its own.  Stored is what differs from the built-in schedule
      or is switched off; running is an enabled task that cron can schedule. */
  ghost predicate Updated(t: Task, enabled: Option<bool>, schedule: Option<string>, accepted: iset<string>,
                          overrides: map<string, Override>, live: map<string, string>,
                          overrides': map<string, Override>, live': map<string, string>) {
    var on := if enabled.Some? then enabled.value else t.name in overrides ==> overrides[t.name].enabled;
    var custom := if schedule.Some? then schedule.value else if t.name in overrides then overrides[t.name].custom else "";
    var when := if custom != "" then custom else t.schedule;
    && overrides' == (if on && (custom == "" || custom == t.schedule) then overrides - {t.name}
                      else overrides[t.name := Override(on, custom)])
    && live' == (if on && !t.hasFn then live
                 else if on && when in accepted then live[t.name := when]
                 else live - {t.name})
  }

  lemma UpdateIsUpdated(cfg: Config, s: State, q: Request)
    ensures Admissible(cfg, q) ==>
              Updated(Find(cfg.defaults, q.name).value, q.enabled, q.schedule, cfg.accepted,
                      s.overrides, s.live, Update(cfg, s, q).overrides, Update(cfg, s, q).live)
    ensures !Admissible(cfg, q) ==> Update(cfg, s, q) == s
  {
    if q.name in s.live {
      assert s.live[q.name := s.live[q.name]] == s.live;
    } else {
      assert s.live - {q.name} == s.live;
    }
  }

  /** What a start makes of a task: a stored override decides whether it runs, else the built-in
      setting does, and a stored schedule goes before the built-in one. */
  ghost predicate StartsRight(t: Task, overrides: map<string, Override>, accepted: iset<string>, live: map<string, string>) {
    var when := if t.name in overrides && overrides[t.name].custom != "" then overrides[t.name].custom else t.schedule;
    var on := if t.name in overrides then overrides[t.name].enabled else !t.disabled;
    && (t.name in live <==> t.hasFn && on && when in accepted)
    && (t.name in live ==> live[t.name] == when)
  }

  lemma SyncedStartsRight(cfg: Config, s: State, t: Task)
    requires ValidConfig(cfg) && t in cfg.defaults && InSync(cfg, s, t.name)
    ensures StartsRight(t, s.overrides, cfg.accepted, s.live)
  {
    assert Find(cfg.defaults, t.name) == Some(t);
  }

  /** The task can be run, and on a schedule cron accepts. */
  predicate Applies(t: Task, ovr: Override, accepted: iset<string>) {
    t.hasFn && (ovr.enabled ==> EffectiveSchedule(t, ovr) in accepted)
  }

  /** The live entries are those the given tasks start with. */
  ghost predicate StartedUpTo(live: map<string, string>, tasks: seq<Task>, overrides: map<string, Override>, accepted: iset<string>) {
    forall name :: Lookup(live, name) == StartsAs(tasks, overrides, accepted, name)
  }

  function StartsAs(tasks: seq<Task>, overrides: map<string, Override>, accepted: iset<string>, name: string): Option<string> {
    var t := Find(tasks, name);
    if t.None? then None else AtStart(t.value, Lookup(overrides, name), accepted)
  }

  ghost predicate UniqueNames(tasks: seq<Task>) {
    forall j, k | 0 <= j < k < |tasks| :: tasks[j].name != tasks[k].name
  }

  lemma StartedIsSynced(cfg: Config, s: State)
    requires StartedUpTo(s.live, cfg.defaults, s.overrides, cfg.accepted)
    ensures forall name :: InSync(cfg, s, name)
  {
    forall name ensures InSync(cfg, s, name) {
      assert Lookup(s.live, name) == StartsAs(cfg.defaults, s.overrides, cfg.accepted, name);
    }
  }

  lemma NotStartedYet(live: map<string, string>, tasks: seq<Task>, i: nat, overrides: map<string, Override>, accepted: iset<string>)
    requires i < |tasks| && UniqueNames(tasks)
    requires StartedUpTo(live, tasks[..i], overrides, accepted)
    ensures Find(tasks[..i], tasks[i].name).None? && tasks[i].name !in live
  {
    assert Lookup(live, tasks[i].name) == StartsAs(tasks[..i], overrides, accepted, tasks[i].name);
  }

  lemma StartedOneMore(live: map<string, string>, tasks: seq<Task>, i: nat, overrides: map<string, Override>, accepted: iset<string>)
    requires i < |tasks| && Find(tasks[..i], tasks[i].name).None?
    requires StartedUpTo(live, tasks[..i], overrides, accepted)
    ensures StartedUpTo(Put(live, tasks[i].name, AtStart(tasks[i], Lookup(overrides, tasks[i].name), accepted)),
                        tasks[..i + 1], overrides, accepted)
  {
    assert tasks[..i + 1] == tasks[..i] + [tasks[i]];
    var live' := Put(live, tasks[i].name, AtStart(tasks[i], Lookup(overrides, tasks[i].name), accepted));
    forall name ensures Lookup(live', name) == StartsAs(tasks[..i + 1], overrides, accepted, name) {
      FindAppend(tasks[..i], tasks[i], name);
      assert Lookup(live, name) == StartsAs(tasks[..i], overrides, accepted, name);
    }
  }

  lemma {:induction false} FindAppend(tasks: seq<Task>, t: Task, name: string)
    ensures Find(tasks + [t], name) ==
      if Find(tasks, name).Some? then Find(tasks, name) else if t.name == name then Some(t) else None
  {
    if tasks == [] {
      assert tasks + [t] == [t];
      assert [t][1..] == [];
    } else {
      assert (tasks + [t])[1..] == tasks[1..] + [t];
      FindAppend(tasks[1..], t, name);
    }
  }
}
