/**
 The task scheduler: what runs now against what is stored.  `Update` is one call of
 `UpdateTask`, `Rebuilt` is what a restart makes of the stored overrides; the question is
 whether the two always agree.
 */
module Scheduling {
  import opened Common

  datatype Task = Task(name: string, schedule: string, disabled: bool, hasFn: bool)
  datatype Override = Override(enabled: bool, custom: string)

  /** The built-in tasks, the expressions an update may ask for and those cron accepts. */
  datatype Config = Config(defaults: seq<Task>, validated: iset<string>, accepted: iset<string>)

  /** Stored overrides, and the schedule of every live cron entry. */
  datatype State = State(overrides: map<string, Override>, live: map<string, string>)

  ghost predicate ValidConfig(cfg: Config) {
    && (forall i, j | 0 <= i < j < |cfg.defaults| :: cfg.defaults[i].name != cfg.defaults[j].name)
    && (forall i | 0 <= i < |cfg.defaults| :: cfg.defaults[i].schedule != "" && cfg.defaults[i].schedule in cfg.accepted)
    && cfg.validated <= cfg.accepted && "" !in cfg.accepted
  }

  function Find(defaults: seq<Task>, name: string): (t: Option<Task>)
    ensures t.Some? ==> t.value in defaults && t.value.name == name
    ensures t.None? ==> forall i | 0 <= i < |defaults| :: defaults[i].name != name
  {
    if defaults == [] then None
    else if defaults[0].name == name then Some(defaults[0])
    else Find(defaults[1..], name)
  }

  function Lookup<V>(m: map<string, V>, name: string): Option<V> {
    if name in m then Some(m[name]) else None
  }

  // ---------- start ----------

  /** The schedule a task starts with, if it starts. */
  function AtStart(t: Task, ovr: Option<Override>, accepted: iset<string>): Option<string> {
    var schedule := if ovr.Some? && ovr.value.custom != "" then ovr.value.custom else t.schedule;
    if !t.hasFn || (ovr.Some? && !ovr.value.enabled) || (ovr.None? && t.disabled) || schedule !in accepted then None
    else Some(schedule)
  }

  function Rebuilt(cfg: Config, overrides: map<string, Override>, name: string): Option<string> {
    var t := Find(cfg.defaults, name);
    if t.None? then None else AtStart(t.value, Lookup(overrides, name), cfg.accepted)
  }

  // ---------- update ----------

  datatype Request = Request(name: string, enabled: Option<bool>, schedule: Option<string>)

  predicate Admissible(cfg: Config, q: Request) {
    && Find(cfg.defaults, q.name).Some?
    && (q.schedule.Some? && q.schedule.value != "" ==> q.schedule.value in cfg.validated)
  }

  /** The override after the request; a task never touched counts as enabled. */
  function Requested(stored: Option<Override>, q: Request): Override {
    var o := if stored.Some? then stored.value else Override(true, "");
    Override(if q.enabled.Some? then q.enabled.value else o.enabled,
             if q.schedule.Some? then q.schedule.value else o.custom)
  }

  /** Such an override is not stored: the built-in settings are meant to say the same. */
  predicate IsDefault(o: Override, t: Task) {
    o.enabled && (o.custom == "" || o.custom == t.schedule)
  }

  function Stored(t: Task, o: Override): Option<Override> {
    if IsDefault(o, t) then None else Some(o)
  }

  function EffectiveSchedule(t: Task, o: Override): string {
    if o.custom != "" then o.custom else t.schedule
  }

  /** The live entry of the task afterwards. */
  function Running(t: Task, o: Override, accepted: iset<string>, live: Option<string>): Option<string> {
    if !o.enabled then None
    else if !t.hasFn then live
    else if EffectiveSchedule(t, o) in accepted then Some(EffectiveSchedule(t, o))
    else None
  }

  function Put<V>(m: map<string, V>, name: string, v: Option<V>): map<string, V> {
    if v.Some? then m[name := v.value] else m - {name}
  }

  function Update(cfg: Config, s: State, q: Request): State {
    if !Admissible(cfg, q) then s
    else
      var t := Find(cfg.defaults, q.name).value;
      var o := Requested(Lookup(s.overrides, q.name), q);
      State(Put(s.overrides, q.name, Stored(t, o)),
            Put(s.live, q.name, Running(t, o, cfg.accepted, Lookup(s.live, q.name))))
  }

  // ---------- live against stored ----------

  predicate InSync(cfg: Config, s: State, name: string) {
    Lookup(s.live, name) == Rebuilt(cfg, s.overrides, name)
  }

  /** Stored expressions came through validation. */
  ghost predicate StoredAccepted(cfg: Config, s: State) {
    forall n | n in s.overrides :: s.overrides[n].custom == "" || s.overrides[n].custom in cfg.accepted
  }

  ghost predicate NoFnNotLive(cfg: Config, s: State) {
    forall n | n in s.live :: Find(cfg.defaults, n).Some? && Find(cfg.defaults, n).value.hasFn
  }

  ghost predicate Inv(cfg: Config, s: State) {
    StoredAccepted(cfg, s) && NoFnNotLive(cfg, s)
  }

  lemma UpdateKeepsInv(cfg: Config, s: State, q: Request)
    requires ValidConfig(cfg) && Inv(cfg, s)
    ensures Inv(cfg, Update(cfg, s, q))
  {
  }

  lemma {:induction false} FoundIsValid(cfg: Config, name: string)
    requires ValidConfig(cfg) && Find(cfg.defaults, name).Some?
    ensures Find(cfg.defaults, name).value.schedule in cfg.accepted && Find(cfg.defaults, name).value.schedule != ""
  {
  }

  /** After an update the task's live entry is what a restart would rebuild, except exactly
      when a task that is off by default was enabled with its default schedule: then nothing
      is stored, and a restart turns it off again. */
  lemma UpdateInSyncIff(cfg: Config, s: State, q: Request)
    requires ValidConfig(cfg) && Inv(cfg, s) && Admissible(cfg, q)
    ensures var t := Find(cfg.defaults, q.name).value;
      InSync(cfg, Update(cfg, s, q), q.name) <==>
      !(t.disabled && t.hasFn && IsDefault(Requested(Lookup(s.overrides, q.name), q), t))
  {
    FoundIsValid(cfg, q.name);
    var t := Find(cfg.defaults, q.name).value;
    var o := Requested(Lookup(s.overrides, q.name), q);
    var s' := Update(cfg, s, q);
    assert Lookup(s'.overrides, q.name) == Stored(t, o);
    assert Lookup(s'.live, q.name) == Running(t, o, cfg.accepted, Lookup(s.live, q.name));
    assert o.custom == "" || o.custom in cfg.accepted;
  }

  lemma UpdateLeavesOthers(cfg: Config, s: State, q: Request, name: string)
    requires name != q.name
    ensures Lookup(Update(cfg, s, q).overrides, name) == Lookup(s.overrides, name)
    ensures Lookup(Update(cfg, s, q).live, name) == Lookup(s.live, name)
  {
  }

  // ---------- runs ----------

  function UpdateAll(cfg: Config, s: State, qs: seq<Request>): State {
    if qs == [] then s else Update(cfg, UpdateAll(cfg, s, qs[..|qs| - 1]), qs[|qs| - 1])
  }

  predicate OnByDefault(cfg: Config, name: string) {
    var t := Find(cfg.defaults, name);
    t.None? || !t.value.disabled || !t.value.hasFn
  }

  /** After any sequence of requests, admissible or not, every task that is on by default
      runs on exactly the schedule a restart would give it. */
  lemma {:induction false} RunStaysInSync(cfg: Config, s: State, qs: seq<Request>, name: string)
    requires ValidConfig(cfg) && Inv(cfg, s)
    requires OnByDefault(cfg, name) && InSync(cfg, s, name)
    ensures InSync(cfg, UpdateAll(cfg, s, qs), name)
    ensures Inv(cfg, UpdateAll(cfg, s, qs))
  {
    if qs != [] {
      var init, q := qs[..|qs| - 1], qs[|qs| - 1];
      RunStaysInSync(cfg, s, init, name);
      var before := UpdateAll(cfg, s, init);
      UpdateKeepsInv(cfg, before, q);
      if q.name != name {
        UpdateLeavesOthers(cfg, before, q, name);
      } else if Admissible(cfg, q) {
        UpdateInSyncIff(cfg, before, q);
      }
    }
  }

  // ---------- what an operator last asked for ----------

  /** The last enabled state and schedule the admissible requests gave for the task. */
  function LastAsked(cfg: Config, qs: seq<Request>, name: string): Override {
    if qs == [] then Override(true, "")
    else
      var before, q := LastAsked(cfg, qs[..|qs| - 1], name), qs[|qs| - 1];
      if q.name != name || !Admissible(cfg, q) then before
      else Override(if q.enabled.Some? then q.enabled.value else before.enabled,
                    if q.schedule.Some? then q.schedule.value else before.custom)
  }

  /** The same for the scheduler: a stored custom schedule equal to the default, or none. */
  predicate SameWish(a: Override, b: Override, t: Task) {
    a.enabled == b.enabled && EffectiveSchedule(t, a) == EffectiveSchedule(t, b)
  }

  function WishOf(stored: Option<Override>): Override {
    if stored.Some? then stored.value else Override(true, "")
  }

  /** Dropping overrides that say what the default says loses nothing of what was asked. */
  lemma {:induction false} StoreKeepsWish(cfg: Config, qs: seq<Request>, name: string)
    requires ValidConfig(cfg) && Find(cfg.defaults, name).Some?
    ensures var t := Find(cfg.defaults, name).value;
      SameWish(WishOf(Lookup(UpdateAll(cfg, State(map[], map[]), qs).overrides, name)), LastAsked(cfg, qs, name), t)
  {
    if qs != [] {
      StoreKeepsWish(cfg, qs[..|qs| - 1], name);
      FoundIsValid(cfg, name);
      UpdateLeavesOrStores(cfg, UpdateAll(cfg, State(map[], map[]), qs[..|qs| - 1]), qs[|qs| - 1], name);
    }
  }

  lemma {:induction false} UpdateLeavesOrStores(cfg: Config, s: State, q: Request, name: string)
    requires ValidConfig(cfg) && Find(cfg.defaults, name).Some?
    ensures var t := Find(cfg.defaults, name).value;
      WishOf(Lookup(Update(cfg, s, q).overrides, name)) ==
      if q.name != name || !Admissible(cfg, q) then WishOf(Lookup(s.overrides, name))
      else WishOf(Stored(t, Requested(Lookup(s.overrides, name), q)))
  {
  }

  /** The live overrides and entries do not depend on what was live before. */
  lemma {:induction false} SameOverrides(cfg: Config, live: map<string, string>, qs: seq<Request>)
    ensures UpdateAll(cfg, State(map[], live), qs).overrides == UpdateAll(cfg, State(map[], map[]), qs).overrides
  {
    if qs != [] {
      SameOverrides(cfg, live, qs[..|qs| - 1]);
    }
  }

  ghost predicate JustStarted(cfg: Config, s: State) {
    s.overrides == map[] && (forall name :: InSync(cfg, s, name))
  }

  lemma StartedInv(cfg: Config, s: State)
    requires JustStarted(cfg, s)
    ensures Inv(cfg, s)
  {
    forall n | n in s.live ensures Find(cfg.defaults, n).Some? && Find(cfg.defaults, n).value.hasFn {
      assert InSync(cfg, s, n);
    }
  }

  /** From a fresh start, a task that is on by default runs exactly when it was last asked
      to, on the schedule last asked for. */
  lemma {:induction false} RunsAsLastAsked(cfg: Config, s: State, qs: seq<Request>, name: string)
    requires ValidConfig(cfg) && JustStarted(cfg, s)
    requires Find(cfg.defaults, name).Some? && !Find(cfg.defaults, name).value.disabled && Find(cfg.defaults, name).value.hasFn
    ensures var t, asked := Find(cfg.defaults, name).value, LastAsked(cfg, qs, name);
      Lookup(UpdateAll(cfg, s, qs).live, name) == if asked.enabled then Some(EffectiveSchedule(t, asked)) else None
  {
    StartedInv(cfg, s);
    assert InSync(cfg, s, name);
    RunStaysInSync(cfg, s, qs, name);
    StoreKeepsWish(cfg, qs, name);
    SameOverrides(cfg, s.live, qs);
    FoundIsValid(cfg, name);
  }

  // ---------- the exception ----------

  /** Enabling a task that is off by default, nothing else stored, does not survive. */
  lemma {:induction false} EnabledTaskIsOffAfterRestart(cfg: Config, s: State, name: string)
    requires ValidConfig(cfg) && Inv(cfg, s) && name !in s.overrides
    requires Find(cfg.defaults, name).Some? && Find(cfg.defaults, name).value.disabled && Find(cfg.defaults, name).value.hasFn
    ensures var s' := Update(cfg, s, Request(name, Some(true), None));
      name in s'.live && Rebuilt(cfg, s'.overrides, name).None?
  {
    FoundIsValid(cfg, name);
  }

  /** And merely changing the schedule of such a task turns it on. */
  lemma {:induction false} ReschedulingTurnsOn(cfg: Config, s: State, name: string, schedule: string)
    requires ValidConfig(cfg) && Inv(cfg, s) && name !in s.overrides && name !in s.live
    requires Find(cfg.defaults, name).Some? && Find(cfg.defaults, name).value.disabled && Find(cfg.defaults, name).value.hasFn
    requires schedule in cfg.validated
    ensures Lookup(Update(cfg, s, Request(name, None, Some(schedule))).live, name) == Some(schedule)
  {
  }

  // ---------- overlapping requests ----------

  /** The two writes of a request, which no common lock keeps together. */
  datatype Write = Save(name: string, o: Override) | Apply(name: string, o: Override)

  function Do(cfg: Config, s: State, w: Write): State {
    var t := Find(cfg.defaults, w.name);
    if t.None? then s
    else match w
      case Save(name, o) => s.(overrides := Put(s.overrides, name, Stored(t.value, o)))
      case Apply(name, o) =>
        s.(live := Put(s.live, name, Running(t.value, o, cfg.accepted, Lookup(s.live, name))))
  }

  function DoAll(cfg: Config, s: State, ws: seq<Write>): State {
    if ws == [] then s else Do(cfg, DoAll(cfg, s, ws[..|ws| - 1]), ws[|ws| - 1])
  }

  /** A request on its own is its two writes, one after the other. */
  lemma {:induction false} UpdateIsTwoWrites(cfg: Config, s: State, q: Request)
    requires Admissible(cfg, q)
    ensures var o := Requested(Lookup(s.overrides, q.name), q);
      Update(cfg, s, q) == DoAll(cfg, s, [Save(q.name, o), Apply(q.name, o)])
  {
    var o := Requested(Lookup(s.overrides, q.name), q);
    var ws := [Save(q.name, o), Apply(q.name, o)];
    assert ws[..1] == [Save(q.name, o)] && ws[..1][..0] == [];
    assert DoAll(cfg, s, ws[..1]) == Do(cfg, s, ws[0]);
  }

  function LastSaved(ws: seq<Write>, name: string, before: Override): Override {
    if ws == [] then before
    else if ws[|ws| - 1].Save? && ws[|ws| - 1].name == name then ws[|ws| - 1].o
    else LastSaved(ws[..|ws| - 1], name, before)
  }

  function LastApplied(ws: seq<Write>, name: string, before: Override): Override {
    if ws == [] then before
    else if ws[|ws| - 1].Apply? && ws[|ws| - 1].name == name then ws[|ws| - 1].o
    else LastApplied(ws[..|ws| - 1], name, before)
  }

  function Outcome(t: Task, o: Override): Option<string> {
    if o.enabled then Some(EffectiveSchedule(t, o)) else None
  }

  ghost predicate Validated(cfg: Config, ws: seq<Write>) {
    forall i | 0 <= i < |ws| :: ws[i].o.custom == "" || ws[i].o.custom in cfg.accepted
  }

  /** The store follows the last save, the live entry the last apply. */
  ghost predicate Follows(cfg: Config, s: State, t: Task, saved: Override, applied: Override) {
    && Outcome(t, WishOf(Lookup(s.overrides, t.name))) == Outcome(t, saved)
    && Lookup(s.live, t.name) == Outcome(t, applied)
    && (t.name in s.overrides ==> s.overrides[t.name].custom == "" || s.overrides[t.name].custom in cfg.accepted)
  }

  lemma WriteFollows(cfg: Config, s: State, w: Write, t: Task, saved: Override, applied: Override)
    requires ValidConfig(cfg) && Find(cfg.defaults, t.name) == Some(t) && t.hasFn
    requires w.o.custom == "" || w.o.custom in cfg.accepted
    requires Follows(cfg, s, t, saved, applied)
    ensures Follows(cfg, Do(cfg, s, w), t, if w.Save? && w.name == t.name then w.o else saved,
                    if w.Apply? && w.name == t.name then w.o else applied)
  {
    FoundIsValid(cfg, t.name);
  }

  lemma {:induction false} WritesFollow(cfg: Config, s: State, ws: seq<Write>, t: Task, before: Override)
    requires ValidConfig(cfg) && Find(cfg.defaults, t.name) == Some(t) && t.hasFn && Validated(cfg, ws)
    requires Follows(cfg, s, t, before, before)
    ensures Follows(cfg, DoAll(cfg, s, ws), t, LastSaved(ws, t.name, before), LastApplied(ws, t.name, before))
  {
    if ws != [] {
      var init, w := ws[..|ws| - 1], ws[|ws| - 1];
      WritesFollow(cfg, s, init, t, before);
      WriteFollows(cfg, DoAll(cfg, s, init), w, t, LastSaved(init, t.name, before), LastApplied(init, t.name, before));
    }
  }

  /** Whatever overlapping requests interleave their writes, a task that is on by default ends
      in sync if and only if the last save and the last apply want the same of it. */
  lemma {:induction false} OverlapInSyncIff(cfg: Config, s: State, ws: seq<Write>, t: Task)
    requires ValidConfig(cfg) && Inv(cfg, s) && Validated(cfg, ws)
    requires Find(cfg.defaults, t.name) == Some(t) && t.hasFn && !t.disabled && InSync(cfg, s, t.name)
    ensures var before := WishOf(Lookup(s.overrides, t.name));
      InSync(cfg, DoAll(cfg, s, ws), t.name) <==>
      Outcome(t, LastSaved(ws, t.name, before)) == Outcome(t, LastApplied(ws, t.name, before))
  {
    var before := WishOf(Lookup(s.overrides, t.name));
    FoundIsValid(cfg, t.name);
    WritesFollow(cfg, s, ws, t, before);
  }

  /** One request to enable and one to disable a task, both read before either writes: the
      store says on, the task is off, and stays so until a restart. */
  lemma {:induction false} OverlappingRequestsDisagree(cfg: Config, s: State, t: Task)
    requires ValidConfig(cfg) && Inv(cfg, s) && t.name !in s.overrides
    requires Find(cfg.defaults, t.name) == Some(t) && t.hasFn && !t.disabled && InSync(cfg, s, t.name)
    ensures var off := Requested(None, Request(t.name, Some(false), None));
      var on := Requested(None, Request(t.name, Some(true), None));
      var end := DoAll(cfg, s, [Save(t.name, off), Save(t.name, on), Apply(t.name, on), Apply(t.name, off)]);
      t.name !in end.live && Rebuilt(cfg, end.overrides, t.name) == Some(t.schedule)
  {
    var off, on := Override(false, ""), Override(true, "");
    var ws := [Save(t.name, off), Save(t.name, on), Apply(t.name, on), Apply(t.name, off)];
    FoundIsValid(cfg, t.name);
    WritesFollow(cfg, s, ws, t, WishOf(None));
    assert LastApplied(ws, t.name, on) == off;
    assert ws[..3][..2] == ws[..2];
    assert LastSaved(ws[..2], t.name, on) == LastSaved(ws[..3], t.name, on) == LastSaved(ws, t.name, on) == on;
  }
}
