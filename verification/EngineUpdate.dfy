/**
 The engine update protocol: one background run at a time saves a new engine version,
 builds it, and puts the old version back if the build does not succeed.

 Three services share it.  The update service serialises `Apply` with a lock, guards it
 with a persisted flag and keeps a cancel handle for the run; the docker service registers
 at most one build, whoever asked for it; the engine configuration is read through a cache
 that anyone may refresh and the run invalidates.  `Next` gives the effect of every atomic
 step, so a run of the system is any interleaving of these steps.
 */
module EngineUpdate {
  import opened Common

  datatype Pair = Pair(version: string, commit: string)

  /** An unset setting falls back to the environment or the built-in default. */
  function Effective(saved: Pair, fallback: Pair): Pair {
    Pair(if saved.version != "" then saved.version else fallback.version,
         if saved.commit != "" then saved.commit else fallback.commit)
  }

  datatype Phase =
    | Spawned
    | HavePrevVersion(pv: string)
    | HavePrev(prev: Pair)
    | Saved(prev: Pair)                          // new pair persisted
    | Invalidated(prev: Pair)                    // configuration cache dropped
    | Registered(prev: Pair)                     // build registered
    | Refreshed(prev: Pair)                      // refresh before reading the version returned
    | HaveVersion(prev: Pair, bv: string)        // version read
    | RefreshedAgain(prev: Pair, bv: string)     // refresh before reading the commit returned
    | Building(prev: Pair, target: Pair)         // version and commit read
    | Failed(prev: Pair)                         // not built
    | Reverted                                   // previous pair persisted again
    | Done(ok: bool)
    | HandleCleared(ok: bool)

  /** A live run: what it was asked for, and the pair persisted when it was started. */
  datatype Run = Run(asked: Pair, before: Pair, phase: Phase, stopped: bool)

  datatype Owner = ByRun(run: nat) | ByHand(build: nat)

  /** Where the holder of the apply lock is. */
  datatype Applying = Checking(asked: Pair) | FlagClear(asked: Pair) | NoBuild(asked: Pair) | Flagged(asked: Pair)

  datatype State = State(
    updating: bool, saved: Pair,
    applying: Option<Applying>, handle: Option<nat>, runs: map<nat, Run>,
    registered: Option<Owner>, byHand: set<nat>,
    cache: Pair, warm: bool, refreshing: Option<string>)

  datatype Event =
    // Apply, under its lock
    | ApplyLock(asked: Pair)
    | ApplyCheckFlag(read: bool)  // a failed read of the flag counts as not set
    | ApplyCheckBuild
    | ApplySaveFlag
    | ApplyStart(id: nat)
    // the background run
    | ReadPrevVersion(id: nat)
    | ReadPrevCommit(id: nat)
    | SaveNew(id: nat)            // fails when the run's context is over
    | DropCache(id: nat)
    | Register(id: nat)           // refused while another build is registered
    | FinishRefresh(id: nat)
    | ReadVersion(id: nat)
    | FinishRefreshAgain(id: nat)
    | ReadCommit(id: nat)
    | EndBuild(id: nat, ok: bool)
    | SavePrev(id: nat)
    | DropCacheAgain(id: nat)
    | ClearHandle(id: nat)
    | ClearFlag(id: nat)
    // everyone else
    | Cancel
    | Deadline(id: nat)
    | CancelBuild
    | BeginByHand(build: nat)
    | EndByHand(build: nat)
    | BeginRefresh
    | EndRefresh
    | Expire
    | Configure(saved: Pair)      // an operator edits the settings
    | ResetStale

  /** The configuration cache is read, refreshed and dropped under its own lock. */
  predicate CacheUnlocked(s: State) {
    s.refreshing.None?
  }

  predicate CanOccur(s: State, e: Event) {
    match e
    case ApplyLock(_) => s.applying.None?
    case ApplyCheckFlag(_) => s.applying.Some? && s.applying.value.Checking?
    case ApplyCheckBuild => s.applying.Some? && s.applying.value.FlagClear?
    case ApplySaveFlag => s.applying.Some? && s.applying.value.NoBuild?
    case ApplyStart(id) => s.applying.Some? && s.applying.value.Flagged? && id !in s.runs
    case ReadPrevVersion(id) => id in s.runs && s.runs[id].phase.Spawned?
    case ReadPrevCommit(id) => id in s.runs && s.runs[id].phase.HavePrevVersion?
    case SaveNew(id) => id in s.runs && s.runs[id].phase.HavePrev?
    case DropCache(id) => id in s.runs && s.runs[id].phase.Saved? && CacheUnlocked(s)
    case Register(id) => id in s.runs && s.runs[id].phase.Invalidated?
    case FinishRefresh(id) => id in s.runs && s.runs[id].phase.Registered? && CacheUnlocked(s) && s.warm
    case ReadVersion(id) => id in s.runs && s.runs[id].phase.Refreshed? && CacheUnlocked(s)
    case FinishRefreshAgain(id) => id in s.runs && s.runs[id].phase.HaveVersion? && CacheUnlocked(s) && s.warm
    case ReadCommit(id) => id in s.runs && s.runs[id].phase.RefreshedAgain? && CacheUnlocked(s)
    case EndBuild(id, _) => id in s.runs && s.runs[id].phase.Building?
    case SavePrev(id) => id in s.runs && s.runs[id].phase.Failed?
    case DropCacheAgain(id) => id in s.runs && s.runs[id].phase.Reverted? && CacheUnlocked(s)
    case ClearHandle(id) => id in s.runs && s.runs[id].phase.Done?
    case ClearFlag(id) => id in s.runs && s.runs[id].phase.HandleCleared?
    case Deadline(id) => id in s.runs
    case BeginByHand(b) => b !in s.byHand
    case EndByHand(b) => b in s.byHand
    case BeginRefresh => CacheUnlocked(s) && !s.warm
    case EndRefresh => s.refreshing.Some?
    case _ => true
  }

  function Goto(s: State, id: nat, phase: Phase): State
    requires id in s.runs
  {
    s.(runs := s.runs[id := s.runs[id].(phase := phase)])
  }

  function Next(s: State, e: Event, fallback: Pair): State
    requires CanOccur(s, e)
  {
    match e
    case ApplyLock(asked) => s.(applying := Some(Checking(asked)))
    case ApplyCheckFlag(read) =>
      s.(applying := if s.updating && read then None else Some(FlagClear(s.applying.value.asked)))
    case ApplyCheckBuild =>
      s.(applying := if s.registered.Some? then None else Some(NoBuild(s.applying.value.asked)))
    case ApplySaveFlag =>
      s.(updating := true, applying := Some(Flagged(s.applying.value.asked)))
    case ApplyStart(id) =>
      s.(applying := None, handle := Some(id),
         runs := s.runs[id := Run(s.applying.value.asked, s.saved, Spawned, false)])
    case ReadPrevVersion(id) => Goto(s, id, HavePrevVersion(s.saved.version))
    case ReadPrevCommit(id) => Goto(s, id, HavePrev(Pair(s.runs[id].phase.pv, s.saved.commit)))
    case SaveNew(id) =>
      if s.runs[id].stopped then Goto(s, id, Done(false))
      else Goto(s.(saved := s.runs[id].asked), id, Saved(s.runs[id].phase.prev))
    case DropCache(id) => Goto(s.(warm := false), id, Invalidated(s.runs[id].phase.prev))
    case Register(id) =>
      if s.registered.Some? then Goto(s, id, Failed(s.runs[id].phase.prev))
      else Goto(s.(registered := Some(ByRun(id))), id, Registered(s.runs[id].phase.prev))
    case FinishRefresh(id) => Goto(s, id, Refreshed(s.runs[id].phase.prev))
    case ReadVersion(id) => Goto(s, id, HaveVersion(s.runs[id].phase.prev, s.cache.version))
    case FinishRefreshAgain(id) => Goto(s, id, RefreshedAgain(s.runs[id].phase.prev, s.runs[id].phase.bv))
    case ReadCommit(id) =>
      Goto(s, id, Building(s.runs[id].phase.prev, Pair(s.runs[id].phase.bv, s.cache.commit)))
    case EndBuild(id, ok) =>
      Goto(s.(registered := None), id, if ok then Done(true) else Failed(s.runs[id].phase.prev))
    case SavePrev(id) => Goto(s.(saved := s.runs[id].phase.prev), id, Reverted)
    case DropCacheAgain(id) => Goto(s.(warm := false), id, Done(false))
    case ClearHandle(id) => Goto(s.(handle := None), id, HandleCleared(s.runs[id].phase.ok))
    case ClearFlag(id) => s.(updating := false, runs := s.runs - {id})
    case Cancel =>
      if s.handle.Some? && s.handle.value in s.runs then Stop(s, s.handle.value) else s
    case Deadline(id) => Stop(s, id)
    case CancelBuild => s      // only makes the registered build likelier to end
    case BeginByHand(b) =>
      if s.registered.Some? then s else s.(registered := Some(ByHand(b)), byHand := s.byHand + {b})
    case EndByHand(b) => s.(registered := None, byHand := s.byHand - {b})
    case BeginRefresh => s.(refreshing := Some(Effective(s.saved, fallback).version))
    case EndRefresh =>
      s.(cache := Pair(s.refreshing.value, Effective(s.saved, fallback).commit), warm := true, refreshing := None)
    case Expire => s.(warm := false)
    case Configure(saved) => s.(saved := saved)
    case ResetStale => s.(updating := false)
  }

  function Stop(s: State, id: nat): State
    requires id in s.runs
  {
    s.(runs := s.runs[id := s.runs[id].(stopped := true)])
  }

  // ---------- premises ----------

  /** The version settings are not edited while an update runs, the stale flag is only
      reset at startup, before any update, and `Apply` can read the flag. */
  predicate Benign(s: State, e: Event) {
    && (e.ApplyCheckFlag? ==> e.read)
    && ((e.Configure? || e.ResetStale?) ==> s.runs == map[] && s.applying.None?)
  }

  predicate Initial(s: State) {
    && !s.updating && s.applying.None? && s.handle.None? && s.runs == map[]
    && s.registered.None? && s.byHand == {} && s.refreshing.None? && !s.warm
  }

  ghost predicate IsBenignRun(trace: seq<State>, events: seq<Event>, fallback: Pair) {
    && |trace| == |events| + 1
    && Initial(trace[0])
    && forall i | 0 <= i < |events| ::
         CanOccur(trace[i], events[i]) && Benign(trace[i], events[i]) && trace[i + 1] == Next(trace[i], events[i], fallback)
  }

  // ---------- the invariant ----------

  /** Nobody but one worker, or nobody at all, is past the guard flag. */
  ghost predicate OneRun(s: State) {
    && (forall a, b | a in s.runs && b in s.runs :: a == b)
    && (s.applying.Some? && !s.applying.value.Checking? ==> s.runs == map[])
    && (s.applying.Some? && (s.applying.value.FlagClear? || s.applying.value.NoBuild?) ==> !s.updating)
    && (s.updating <==> s.runs != map[] || (s.applying.Some? && s.applying.value.Flagged?))
  }

  ghost predicate HandleInv(s: State) {
    && (s.handle.Some? ==> s.handle.value in s.runs)
    && (forall id | id in s.runs :: !s.runs[id].phase.HandleCleared? <==> s.handle == Some(id))
  }

  predicate InBuild(phase: Phase) {
    phase.Registered? || phase.Refreshed? || phase.HaveVersion? || phase.RefreshedAgain? || phase.Building?
  }

  ghost predicate BuildInv(s: State) {
    && (forall id | id in s.runs :: InBuild(s.runs[id].phase) <==> s.registered == Some(ByRun(id)))
    && (forall b :: b in s.byHand <==> s.registered == Some(ByHand(b)))
    && (s.registered.Some? && s.registered.value.ByRun? ==> s.registered.value.run in s.runs)
  }

  /** The pair a run leaves persisted at each point of its life. */
  ghost predicate SavedInv(s: State, r: Run) {
    match r.phase
    case Spawned => s.saved == r.before
    case HavePrevVersion(pv) => s.saved == r.before && pv == r.before.version
    case HavePrev(prev) => s.saved == r.before == prev
    case Reverted => s.saved == r.before
    case Done(ok) => s.saved == if ok then r.asked else r.before
    case HandleCleared(ok) => s.saved == if ok then r.asked else r.before
    case _ => s.saved == r.asked && r.phase.prev == r.before
  }

  /** From the moment the run has dropped the cache, nothing but its own pair gets in. */
  ghost predicate CacheInv(s: State, r: Run, fallback: Pair) {
    var own := Effective(r.asked, fallback);
    && (r.phase.Invalidated? || InBuild(r.phase) ==>
          && (s.refreshing.Some? ==> s.refreshing.value == own.version)
          && (s.warm ==> s.cache == own))
    && (InBuild(r.phase) && !r.phase.Registered? ==> s.cache == own)
    && (r.phase.HaveVersion? || r.phase.RefreshedAgain? ==> r.phase.bv == own.version)
    && (r.phase.Building? ==> r.phase.target == own)
  }

  ghost predicate Inv(s: State, fallback: Pair) {
    && OneRun(s) && HandleInv(s) && BuildInv(s)
    && forall id | id in s.runs :: SavedInv(s, s.runs[id]) && CacheInv(s, s.runs[id], fallback)
  }

  /** The steps of the run's own thread, in four stretches. */
  predicate Opening(e: Event) {
    e.ReadPrevVersion? || e.ReadPrevCommit? || e.SaveNew?
  }

  predicate Entering(e: Event) {
    e.DropCache? || e.Register? || e.FinishRefresh?
  }

  predicate Compiling(e: Event) {
    e.ReadVersion? || e.FinishRefreshAgain? || e.ReadCommit? || e.EndBuild?
  }

  predicate Closing(e: Event) {
    e.SavePrev? || e.DropCacheAgain? || e.ClearHandle? || e.ClearFlag?
  }

  predicate Own(e: Event) {
    Opening(e) || Entering(e) || Compiling(e) || Closing(e)
  }

  lemma ClearFlagKeepsOneRun(s: State, e: Event, fallback: Pair)
    requires Inv(s, fallback) && CanOccur(s, e) && e.ClearFlag?
    ensures OneRun(Next(s, e, fallback)) && Next(s, e, fallback).runs == map[] && !Next(s, e, fallback).updating
  {
    assert forall a | a in s.runs :: a == e.id;
  }

  lemma OwnStepKeepsOneRun(s: State, e: Event, fallback: Pair)
    requires Inv(s, fallback) && CanOccur(s, e) && Own(e) && !e.ClearFlag?
    ensures OneRun(Next(s, e, fallback))
  {
    var s' := Next(s, e, fallback);
    assert s'.runs.Keys == s.runs.Keys && e.id in s'.runs;
    assert s'.applying == s.applying && s'.updating == s.updating;
  }

  lemma OtherStepKeepsOneRun(s: State, e: Event, fallback: Pair)
    requires Inv(s, fallback) && CanOccur(s, e) && Benign(s, e) && !Own(e)
    ensures OneRun(Next(s, e, fallback))
  {
    var s' := Next(s, e, fallback);
    if e.ApplyStart? {
      assert s.runs == map[];
      assert e.id in s'.runs;
    } else {
      assert s'.runs.Keys == s.runs.Keys;
      assert s.runs == map[] <==> s.runs.Keys == {};
      assert s'.runs == map[] <==> s'.runs.Keys == {};
    }
  }

  lemma OwnStepKeepsHandle(s: State, e: Event, fallback: Pair)
    requires Inv(s, fallback) && CanOccur(s, e) && Own(e)
    ensures HandleInv(Next(s, e, fallback))
  {
    assert e.id in s.runs && forall a | a in s.runs :: a == e.id;
    var s' := Next(s, e, fallback);
    assert s'.runs.Keys == if e.ClearFlag? then {} else s.runs.Keys;
    assert e.ClearFlag? ==> s.handle.None?;
    assert !e.ClearHandle? ==> s'.handle == s.handle;
  }

  lemma OtherStepKeepsHandle(s: State, e: Event, fallback: Pair)
    requires Inv(s, fallback) && CanOccur(s, e) && Benign(s, e) && !Own(e)
    ensures HandleInv(Next(s, e, fallback))
  {
    var s' := Next(s, e, fallback);
    if e.ApplyStart? {
      assert s.runs == map[];
    } else {
      assert s'.runs.Keys == s.runs.Keys && s'.handle == s.handle;
      assert forall id | id in s.runs :: s'.runs[id].phase == s.runs[id].phase;
    }
  }

  lemma OpeningKeepsBuild(s: State, e: Event, fallback: Pair)
    requires Inv(s, fallback) && CanOccur(s, e) && Opening(e)
    ensures BuildInv(Next(s, e, fallback))
  {
    assert e.id in s.runs && forall a | a in s.runs :: a == e.id;
  }

  lemma EnteringKeepsBuild(s: State, e: Event, fallback: Pair)
    requires Inv(s, fallback) && CanOccur(s, e) && Entering(e)
    ensures BuildInv(Next(s, e, fallback))
  {
    assert e.id in s.runs && forall a | a in s.runs :: a == e.id;
  }

  lemma CompilingKeepsBuild(s: State, e: Event, fallback: Pair)
    requires Inv(s, fallback) && CanOccur(s, e) && Compiling(e)
    ensures BuildInv(Next(s, e, fallback))
  {
    assert e.id in s.runs && forall a | a in s.runs :: a == e.id;
  }

  lemma ClosingKeepsBuild(s: State, e: Event, fallback: Pair)
    requires Inv(s, fallback) && CanOccur(s, e) && Closing(e)
    ensures BuildInv(Next(s, e, fallback))
  {
    assert e.id in s.runs && forall a | a in s.runs :: a == e.id;
  }

  lemma OtherStepKeepsBuild(s: State, e: Event, fallback: Pair)
    requires Inv(s, fallback) && CanOccur(s, e) && Benign(s, e) && !Own(e)
    ensures BuildInv(Next(s, e, fallback))
  {
    var s' := Next(s, e, fallback);
    if e.ApplyStart? {
      assert s.runs == map[];
    } else {
      assert s'.runs.Keys == s.runs.Keys;
      assert forall id | id in s.runs :: s'.runs[id].phase == s.runs[id].phase;
    }
  }

  /** Every other step leaves a live run where it was, except that it may stop it. */
  lemma OthersLeaveRuns(s: State, e: Event, fallback: Pair, id: nat)
    requires Inv(s, fallback) && CanOccur(s, e) && Benign(s, e)
    requires !Own(e) && !e.ApplyStart? && id in Next(s, e, fallback).runs
    ensures id in s.runs && Next(s, e, fallback).saved == s.saved
    ensures Next(s, e, fallback).runs[id] in {s.runs[id], s.runs[id].(stopped := true)}
  {
  }

  lemma OpeningKeepsSaved(s: State, e: Event, fallback: Pair, id: nat)
    requires Inv(s, fallback) && CanOccur(s, e) && Opening(e) && id in Next(s, e, fallback).runs
    ensures var s' := Next(s, e, fallback); SavedInv(s', s'.runs[id])
  {
    assert id in s.runs && e.id == id;
  }

  lemma EnteringKeepsSaved(s: State, e: Event, fallback: Pair, id: nat)
    requires Inv(s, fallback) && CanOccur(s, e) && Entering(e) && id in Next(s, e, fallback).runs
    ensures var s' := Next(s, e, fallback); SavedInv(s', s'.runs[id])
  {
    assert id in s.runs && e.id == id;
  }

  lemma CompilingKeepsSaved(s: State, e: Event, fallback: Pair, id: nat)
    requires Inv(s, fallback) && CanOccur(s, e) && Compiling(e) && id in Next(s, e, fallback).runs
    ensures var s' := Next(s, e, fallback); SavedInv(s', s'.runs[id])
  {
    assert id in s.runs && e.id == id;
  }

  lemma ClosingKeepsSaved(s: State, e: Event, fallback: Pair, id: nat)
    requires Inv(s, fallback) && CanOccur(s, e) && Closing(e) && id in Next(s, e, fallback).runs
    ensures var s' := Next(s, e, fallback); SavedInv(s', s'.runs[id])
  {
    assert id in s.runs && e.id == id;
  }

  lemma StepKeepsSaved(s: State, e: Event, fallback: Pair, id: nat)
    requires Inv(s, fallback) && CanOccur(s, e) && Benign(s, e) && id in Next(s, e, fallback).runs
    ensures var s' := Next(s, e, fallback); SavedInv(s', s'.runs[id])
  {
    if Opening(e) {
      OpeningKeepsSaved(s, e, fallback, id);
    } else if Entering(e) {
      EnteringKeepsSaved(s, e, fallback, id);
    } else if Compiling(e) {
      CompilingKeepsSaved(s, e, fallback, id);
    } else if Closing(e) {
      ClosingKeepsSaved(s, e, fallback, id);
    } else if !e.ApplyStart? {
      OthersLeaveRuns(s, e, fallback, id);
    }
  }

  lemma OpeningKeepsCache(s: State, e: Event, fallback: Pair, id: nat)
    requires Inv(s, fallback) && CanOccur(s, e) && Opening(e) && id in Next(s, e, fallback).runs
    ensures var s' := Next(s, e, fallback); CacheInv(s', s'.runs[id], fallback)
  {
    assert id in s.runs && e.id == id;
  }

  lemma EnteringKeepsCache(s: State, e: Event, fallback: Pair, id: nat)
    requires Inv(s, fallback) && CanOccur(s, e) && Entering(e) && id in Next(s, e, fallback).runs
    ensures var s' := Next(s, e, fallback); CacheInv(s', s'.runs[id], fallback)
  {
    assert id in s.runs && e.id == id;
  }

  lemma CompilingKeepsCache(s: State, e: Event, fallback: Pair, id: nat)
    requires Inv(s, fallback) && CanOccur(s, e) && Compiling(e) && id in Next(s, e, fallback).runs
    ensures var s' := Next(s, e, fallback); CacheInv(s', s'.runs[id], fallback)
  {
    assert id in s.runs && e.id == id;
  }

  lemma ClosingKeepsCache(s: State, e: Event, fallback: Pair, id: nat)
    requires Inv(s, fallback) && CanOccur(s, e) && Closing(e) && id in Next(s, e, fallback).runs
    ensures var s' := Next(s, e, fallback); CacheInv(s', s'.runs[id], fallback)
  {
    assert id in s.runs && e.id == id;
  }

  lemma RefreshKeepsCache(s: State, e: Event, fallback: Pair, id: nat)
    requires Inv(s, fallback) && CanOccur(s, e) && (e.BeginRefresh? || e.EndRefresh?) && id in s.runs
    ensures CacheInv(Next(s, e, fallback), s.runs[id], fallback)
  {
    assert SavedInv(s, s.runs[id]) && CacheInv(s, s.runs[id], fallback);
  }

  lemma StepKeepsCache(s: State, e: Event, fallback: Pair, id: nat)
    requires Inv(s, fallback) && CanOccur(s, e) && Benign(s, e) && id in Next(s, e, fallback).runs
    ensures var s' := Next(s, e, fallback); CacheInv(s', s'.runs[id], fallback)
  {
    if Opening(e) {
      OpeningKeepsCache(s, e, fallback, id);
    } else if Entering(e) {
      EnteringKeepsCache(s, e, fallback, id);
    } else if Compiling(e) {
      CompilingKeepsCache(s, e, fallback, id);
    } else if Closing(e) {
      ClosingKeepsCache(s, e, fallback, id);
    } else if e.BeginRefresh? || e.EndRefresh? {
      RefreshKeepsCache(s, e, fallback, id);
    } else if !e.ApplyStart? {
      OthersLeaveRuns(s, e, fallback, id);
    }
  }

  lemma StepKeepsInv(s: State, e: Event, fallback: Pair)
    requires Inv(s, fallback) && CanOccur(s, e) && Benign(s, e)
    ensures Inv(Next(s, e, fallback), fallback)
  {
    var s' := Next(s, e, fallback);
    if Own(e) {
      if e.ClearFlag? {
        ClearFlagKeepsOneRun(s, e, fallback);
      } else {
        OwnStepKeepsOneRun(s, e, fallback);
      }
      OwnStepKeepsHandle(s, e, fallback);
      if Opening(e) {
        OpeningKeepsBuild(s, e, fallback);
      } else if Entering(e) {
        EnteringKeepsBuild(s, e, fallback);
      } else if Compiling(e) {
        CompilingKeepsBuild(s, e, fallback);
      } else {
        ClosingKeepsBuild(s, e, fallback);
      }
    } else {
      OtherStepKeepsOneRun(s, e, fallback);
      OtherStepKeepsHandle(s, e, fallback);
      OtherStepKeepsBuild(s, e, fallback);
    }
    forall id | id in s'.runs
      ensures SavedInv(s', s'.runs[id]) && CacheInv(s', s'.runs[id], fallback)
    {
      StepKeepsSaved(s, e, fallback, id);
      StepKeepsCache(s, e, fallback, id);
    }
  }

  lemma {:induction false} RunKeepsInv(trace: seq<State>, events: seq<Event>, fallback: Pair, n: nat)
    requires IsBenignRun(trace, events, fallback) && n <= |events|
    ensures Inv(trace[n], fallback)
  {
    if n > 0 {
      RunKeepsInv(trace, events, fallback, n - 1);
      StepKeepsInv(trace[n - 1], events[n - 1], fallback);
    }
  }

  // ---------- sequences of events ----------

  ghost predicate IsTrace(trace: seq<State>, s: State, events: seq<Event>, t: State, fallback: Pair) {
    && |trace| == |events| + 1 && trace[0] == s && trace[|events|] == t
    && forall i | 0 <= i < |events| :: CanOccur(trace[i], events[i]) && trace[i + 1] == Next(trace[i], events[i], fallback)
  }

  /** The events can occur one after the other from `s`, and end in `t`. */
  ghost predicate Leads(s: State, events: seq<Event>, t: State, fallback: Pair) {
    exists trace: seq<State> :: IsTrace(trace, s, events, t, fallback)
  }

  lemma LeadsNowhere(s: State, fallback: Pair)
    ensures Leads(s, [], s, fallback)
  {
    assert IsTrace([s], s, [], s, fallback);
  }

  /** One more event in front. */
  lemma LeadsFrom(s: State, e: Event, events: seq<Event>, t: State, fallback: Pair)
    requires CanOccur(s, e) && Leads(Next(s, e, fallback), events, t, fallback)
    ensures Leads(s, [e] + events, t, fallback)
  {
    var trace :| IsTrace(trace, Next(s, e, fallback), events, t, fallback);
    assert IsTrace([s] + trace, s, [e] + events, t, fallback);
  }

  lemma LeadsThrough(s: State, first: seq<Event>, t: State, second: seq<Event>, u: State, fallback: Pair)
    requires Leads(s, first, t, fallback) && Leads(t, second, u, fallback)
    ensures Leads(s, first + second, u, fallback)
  {
    var tr1 :| IsTrace(tr1, s, first, t, fallback);
    var tr2 :| IsTrace(tr2, t, second, u, fallback);
    TracesJoin(tr1, s, first, t, tr2, second, u, fallback);
  }

  lemma TracesJoin(tr1: seq<State>, s: State, first: seq<Event>, t: State, tr2: seq<State>, second: seq<Event>, u: State, fallback: Pair)
    requires IsTrace(tr1, s, first, t, fallback) && IsTrace(tr2, t, second, u, fallback)
    ensures IsTrace(tr1 + tr2[1..], s, first + second, u, fallback)
  {
    var tr, events := tr1 + tr2[1..], first + second;
    forall i | 0 <= i < |events| ensures CanOccur(tr[i], events[i]) && tr[i + 1] == Next(tr[i], events[i], fallback) {
      if i < |first| {
        assert tr[i] == tr1[i] && tr[i + 1] == tr1[i + 1] && events[i] == first[i];
      } else {
        var k := i - |first|;
        assert tr[i] == tr2[k] && tr[i + 1] == tr2[k + 1] && events[i] == second[k];
      }
    }
  }

  // ---------- one run, one build, the right handle, the right version ----------

  /** Everyone who is between registering a build and its end. */
  ghost predicate IsBuilding(s: State, owner: Owner) {
    match owner
    case ByRun(id) => id in s.runs && InBuild(s.runs[id].phase)
    case ByHand(b) => b in s.byHand
  }

  /** In every reachable state at most one run and one build are live, a build runs exactly
      while one is registered, and the cancel handle is that of the run still able to use it. */
  lemma OneRunOneBuild(trace: seq<State>, events: seq<Event>, fallback: Pair, n: nat)
    requires IsBenignRun(trace, events, fallback) && n <= |events|
    ensures forall a, b | a in trace[n].runs && b in trace[n].runs :: a == b
    ensures forall o :: IsBuilding(trace[n], o) <==> trace[n].registered == Some(o)
    ensures forall id :: trace[n].handle == Some(id) <==> id in trace[n].runs && !trace[n].runs[id].phase.HandleCleared?
  {
    RunKeepsInv(trace, events, fallback, n);
  }

  /** Clearing the handle never takes it from another run. */
  lemma CleanupClearsOwnHandle(trace: seq<State>, events: seq<Event>, fallback: Pair, n: nat)
    requires IsBenignRun(trace, events, fallback) && n < |events| && events[n].ClearHandle?
    ensures trace[n].handle == Some(events[n].id)
  {
    RunKeepsInv(trace, events, fallback, n);
  }

  /** The build of an update is a build of the pair it was asked for, never of the old one
      or of a mixture, however refreshes of the shared cache interleave with it. */
  lemma BuildsWhatWasAsked(trace: seq<State>, events: seq<Event>, fallback: Pair, n: nat)
    requires IsBenignRun(trace, events, fallback) && n < |events| && events[n].EndBuild?
    requires trace[n].runs[events[n].id].asked.version != ""
    ensures var r := trace[n].runs[events[n].id];
      r.phase.target == Pair(r.asked.version, if r.asked.commit != "" then r.asked.commit else fallback.commit)
  {
    RunKeepsInv(trace, events, fallback, n);
    assert CacheInv(trace[n], trace[n].runs[events[n].id], fallback);
  }

  // ---------- how an update ends ----------

  ghost predicate Built(events: seq<Event>, from: nat, to: nat, id: nat) {
    exists k | from < k < to && k < |events| :: events[k] == EndBuild(id, true)
  }

  /** The run that `ApplyStart` at `from` created is still live before step `n`. */
  ghost predicate LiveSince(trace: seq<State>, events: seq<Event>, from: nat, n: nat, id: nat)
    requires n < |trace| && from < |trace|
  {
    && trace[from].applying.Some?
    && id in trace[n].runs
    && var r := trace[n].runs[id];
       && r.asked == trace[from].applying.value.asked && r.before == trace[from].saved
       && (Built(events, from, n, id) <==> EndedWell(r.phase))
  }

  lemma StepTracksRun(trace: seq<State>, events: seq<Event>, fallback: Pair, from: nat, n: nat, id: nat)
    requires IsBenignRun(trace, events, fallback) && from < n < |events|
    requires LiveSince(trace, events, from, n, id) && events[n] != ClearFlag(id)
    ensures LiveSince(trace, events, from, n + 1, id)
  {
    RunKeepsInv(trace, events, fallback, n);
    NoStartUnderARun(trace[n], events[n], fallback, id);
    BuiltOneMore(events, from, n, id);
    PhaseAfter(trace[n], events[n], fallback, id);
  }

  lemma NoStartUnderARun(s: State, e: Event, fallback: Pair, id: nat)
    requires Inv(s, fallback) && CanOccur(s, e) && id in s.runs
    ensures !e.ApplyStart?
  {
  }

  lemma BuiltOneMore(events: seq<Event>, from: nat, n: nat, id: nat)
    requires from < n < |events|
    ensures Built(events, from, n + 1, id) <==> Built(events, from, n, id) || events[n] == EndBuild(id, true)
  {
    if events[n] == EndBuild(id, true) {
      assert from < n < n + 1;
    }
  }

  predicate EndedWell(phase: Phase) {
    phase == Done(true) || phase == HandleCleared(true)
  }

  lemma OpeningPhase(s: State, e: Event, fallback: Pair)
    requires CanOccur(s, e) && Opening(e)
    ensures var s', id := Next(s, e, fallback), e.id;
      && s'.runs == s.runs[id := s.runs[id].(phase := s'.runs[id].phase)]
      && !EndedWell(s.runs[id].phase) && !EndedWell(s'.runs[id].phase)
  {
  }

  lemma EnteringPhase(s: State, e: Event, fallback: Pair)
    requires CanOccur(s, e) && Entering(e)
    ensures var s', id := Next(s, e, fallback), e.id;
      && s'.runs == s.runs[id := s.runs[id].(phase := s'.runs[id].phase)]
      && !EndedWell(s.runs[id].phase) && !EndedWell(s'.runs[id].phase)
  {
  }

  lemma CompilingPhase(s: State, e: Event, fallback: Pair)
    requires CanOccur(s, e) && Compiling(e)
    ensures var s', id := Next(s, e, fallback), e.id;
      && s'.runs == s.runs[id := s.runs[id].(phase := s'.runs[id].phase)]
      && !EndedWell(s.runs[id].phase) && (EndedWell(s'.runs[id].phase) <==> e == EndBuild(id, true))
  {
  }

  lemma ClosingPhase(s: State, e: Event, fallback: Pair)
    requires CanOccur(s, e) && Closing(e) && !e.ClearFlag?
    ensures var s', id := Next(s, e, fallback), e.id;
      && s'.runs == s.runs[id := s.runs[id].(phase := s'.runs[id].phase)]
      && (EndedWell(s'.runs[id].phase) <==> EndedWell(s.runs[id].phase))
  {
  }

  lemma PhaseAfter(s: State, e: Event, fallback: Pair, id: nat)
    requires CanOccur(s, e) && id in s.runs && e != ClearFlag(id) && !e.ApplyStart?
    ensures var s' := Next(s, e, fallback);
      && id in s'.runs && s'.runs[id].asked == s.runs[id].asked && s'.runs[id].before == s.runs[id].before
      && (EndedWell(s'.runs[id].phase) <==> EndedWell(s.runs[id].phase) || e == EndBuild(id, true))
  {
    if Opening(e) {
      OpeningPhase(s, e, fallback);
    } else if Entering(e) {
      EnteringPhase(s, e, fallback);
    } else if Compiling(e) {
      CompilingPhase(s, e, fallback);
    } else if Closing(e) && !e.ClearFlag? {
      ClosingPhase(s, e, fallback);
    }
  }

  lemma {:induction false} TrackRun(trace: seq<State>, events: seq<Event>, fallback: Pair, from: nat, n: nat, id: nat)
    requires IsBenignRun(trace, events, fallback) && from < n <= |events|
    requires events[from] == ApplyStart(id)
    requires forall k | from < k < n :: events[k] != ClearFlag(id)
    ensures LiveSince(trace, events, from, n, id)
  {
    if n > from + 1 {
      TrackRun(trace, events, fallback, from, n - 1, id);
      StepTracksRun(trace, events, fallback, from, n - 1, id);
    } else {
      assert trace[n] == Next(trace[from], events[from], fallback);
    }
  }

  /** When a run ends, nothing is updating, no handle is left and the persisted pair is the
      one asked for exactly when the build succeeded, else the one from before the update. */
  lemma HowAnUpdateEnds(trace: seq<State>, events: seq<Event>, fallback: Pair, from: nat, to: nat, id: nat)
    requires IsBenignRun(trace, events, fallback) && from < to < |events|
    requires events[from] == ApplyStart(id) && events[to] == ClearFlag(id)
    requires forall k | from < k < to :: events[k] != ClearFlag(id)
    ensures var s' := trace[to + 1];
      && !s'.updating && s'.runs == map[] && s'.handle.None?
      && trace[from].applying.Some?
      && s'.saved == if Built(events, from, to, id) then trace[from].applying.value.asked else trace[from].saved
  {
    TrackRun(trace, events, fallback, from, to, id);
    RunKeepsInv(trace, events, fallback, to);
    RunKeepsInv(trace, events, fallback, to + 1);
    assert SavedInv(trace[to], trace[to].runs[id]);
    assert forall a | a in trace[to].runs :: a == id;
  }

  // ---------- what cancelling does ----------

  /** The run has not come to saving its pair. */
  predicate BeforeSave(s: State, id: nat) {
    id in s.runs && (s.runs[id].phase.Spawned? || s.runs[id].phase.HavePrevVersion? || s.runs[id].phase.HavePrev?)
  }

  /** The run's context was over before it came to saving its pair. */
  predicate CalledOff(s: State, id: nat) {
    id in s.runs && s.runs[id].stopped && (BeforeSave(s, id) || s.runs[id].phase.Done? || s.runs[id].phase.HandleCleared?)
  }

  lemma RunAfterStep(s: State, e: Event, fallback: Pair, id: nat)
    requires Inv(s, fallback) && CanOccur(s, e) && Benign(s, e) && id in s.runs && e != ClearFlag(id)
    ensures var s' := Next(s, e, fallback);
      && id in s'.runs
      && (!Own(e) ==> s'.runs[id] in {s.runs[id], s.runs[id].(stopped := true)})
      && (Own(e) ==> e.id == id && s'.runs[id].stopped == s.runs[id].stopped)
  {
    NoStartUnderARun(s, e, fallback, id);
    if !Own(e) {
      OthersLeaveRuns(s, e, fallback, id);
    }
  }

  lemma StaysBeforeSave(s: State, e: Event, fallback: Pair, id: nat)
    requires Inv(s, fallback) && CanOccur(s, e) && Benign(s, e) && BeforeSave(s, id) && e != SaveNew(id)
    ensures BeforeSave(Next(s, e, fallback), id)
  {
    RunAfterStep(s, e, fallback, id);
  }

  lemma StaysCalledOff(s: State, e: Event, fallback: Pair, id: nat)
    requires Inv(s, fallback) && CanOccur(s, e) && Benign(s, e) && CalledOff(s, id) && e != ClearFlag(id)
    ensures CalledOff(Next(s, e, fallback), id) && !(e.EndBuild? && e.id == id) && !(e.Register? && e.id == id)
  {
    RunAfterStep(s, e, fallback, id);
  }

  /** Cancelling, or the run's deadline, ends the context of the live run and of no other. */
  lemma CancelCallsOff(s: State, e: Event, fallback: Pair, id: nat)
    requires Inv(s, fallback) && BeforeSave(s, id) && (e.Cancel? || e == Deadline(id))
    ensures CanOccur(s, e) && CalledOff(Next(s, e, fallback), id)
    ensures Next(s, e, fallback) == s.(runs := s.runs[id := s.runs[id].(stopped := true)])
  {
  }

  lemma {:induction false} NotSavedYet(trace: seq<State>, events: seq<Event>, fallback: Pair, from: nat, n: nat, id: nat)
    requires IsBenignRun(trace, events, fallback) && from < n <= |events| && events[from] == ApplyStart(id)
    requires forall k | from < k < n :: events[k] != SaveNew(id)
    ensures BeforeSave(trace[n], id)
  {
    if n == from + 1 {
      assert trace[n] == Next(trace[from], events[from], fallback);
    } else {
      NotSavedYet(trace, events, fallback, from, n - 1, id);
      RunKeepsInv(trace, events, fallback, n - 1);
      StaysBeforeSave(trace[n - 1], events[n - 1], fallback, id);
    }
  }

  lemma {:induction false} IsCalledOff(trace: seq<State>, events: seq<Event>, fallback: Pair, from: nat, c: nat, n: nat, id: nat)
    requires IsBenignRun(trace, events, fallback) && from < c < n <= |events| && events[from] == ApplyStart(id)
    requires forall k | from < k < c :: events[k] != SaveNew(id)
    requires events[c].Cancel? || events[c] == Deadline(id)
    requires forall k | from < k < n :: events[k] != ClearFlag(id)
    ensures CalledOff(trace[n], id)
  {
    RunKeepsInv(trace, events, fallback, n - 1);
    if n == c + 1 {
      NotSavedYet(trace, events, fallback, from, c, id);
      CancelCallsOff(trace[c], events[c], fallback, id);
    } else {
      IsCalledOff(trace, events, fallback, from, c, n - 1, id);
      StaysCalledOff(trace[n - 1], events[n - 1], fallback, id);
    }
  }

  /** An update that is cancelled, or runs out of time, before it has saved its pair never
      registers or ends a build, and leaves the pair persisted that was there before it. */
  lemma CancelledUpdateChangesNothing(trace: seq<State>, events: seq<Event>, fallback: Pair, from: nat, c: nat, to: nat, id: nat)
    requires IsBenignRun(trace, events, fallback) && from < c < to < |events|
    requires events[from] == ApplyStart(id) && events[to] == ClearFlag(id)
    requires forall k | from < k < to :: events[k] != ClearFlag(id)
    requires events[c].Cancel? || events[c] == Deadline(id)
    requires forall k | from < k < c :: events[k] != SaveNew(id)
    ensures forall k | from < k < to :: !(events[k].EndBuild? && events[k].id == id)
    ensures forall k | c < k < to :: !(events[k].Register? && events[k].id == id)
    ensures trace[to + 1].saved == trace[from].saved
  {
    forall k | from < k < to
      ensures !(events[k].EndBuild? && events[k].id == id) && (k > c ==> !(events[k].Register? && events[k].id == id))
    {
      RunKeepsInv(trace, events, fallback, k);
      if k <= c {
        NotSavedYet(trace, events, fallback, from, k, id);
      } else {
        IsCalledOff(trace, events, fallback, from, c, k, id);
        StaysCalledOff(trace[k], events[k], fallback, id);
      }
    }
    HowAnUpdateEnds(trace, events, fallback, from, to, id);
  }

  // ---------- an update can always be worked off ----------

  /** The next step of a live run's own thread, or the refresh it is waiting for. */
  function OwnStep(s: State, id: nat): Event
    requires id in s.runs
  {
    if s.refreshing.Some? then EndRefresh
    else match s.runs[id].phase
      case Spawned => ReadPrevVersion(id)
      case HavePrevVersion(_) => ReadPrevCommit(id)
      case HavePrev(_) => SaveNew(id)
      case Saved(_) => DropCache(id)
      case Invalidated(_) => Register(id)
      case Registered(_) => if s.warm then FinishRefresh(id) else BeginRefresh
      case Refreshed(_) => ReadVersion(id)
      case HaveVersion(_, _) => if s.warm then FinishRefreshAgain(id) else BeginRefresh
      case RefreshedAgain(_, _) => ReadCommit(id)
      case Building(_, _) => EndBuild(id, false)
      case Failed(_) => SavePrev(id)
      case Reverted => DropCacheAgain(id)
      case Done(_) => ClearHandle(id)
      case HandleCleared(_) => ClearFlag(id)
  }

  function Rank(phase: Phase): nat {
    match phase
    case Spawned => 14 case HavePrevVersion(_) => 13 case HavePrev(_) => 12 case Saved(_) => 11
    case Invalidated(_) => 10 case Registered(_) => 9 case Refreshed(_) => 8 case HaveVersion(_, _) => 7
    case RefreshedAgain(_, _) => 6 case Building(_, _) => 5 case Failed(_) => 4 case Reverted => 3
    case Done(_) => 2 case HandleCleared(_) => 1
  }

  /** Every step takes the run closer to its end; between two of its steps there are at most
      the two halves of one refresh. */
  function Distance(s: State, id: nat): nat {
    if id !in s.runs then 0
    else 3 * Rank(s.runs[id].phase) + (if s.refreshing.Some? then 1 else if s.warm then 0 else 2)
  }

  lemma OwnStepCanOccur(s: State, id: nat)
    requires id in s.runs
    ensures CanOccur(s, OwnStep(s, id)) && Benign(s, OwnStep(s, id))
  {
  }

  lemma RefreshAdvances(s: State, id: nat, fallback: Pair)
    requires id in s.runs && (OwnStep(s, id).BeginRefresh? || OwnStep(s, id).EndRefresh?) && CanOccur(s, OwnStep(s, id))
    ensures Distance(Next(s, OwnStep(s, id), fallback), id) < Distance(s, id)
  {
  }

  lemma OpeningRanks(s: State, e: Event, fallback: Pair)
    requires CanOccur(s, e) && Opening(e)
    ensures e.id in Next(s, e, fallback).runs && Next(s, e, fallback).refreshing == s.refreshing
    ensures Rank(Next(s, e, fallback).runs[e.id].phase) < Rank(s.runs[e.id].phase)
  {
  }

  lemma EnteringRanks(s: State, e: Event, fallback: Pair)
    requires CanOccur(s, e) && Entering(e)
    ensures e.id in Next(s, e, fallback).runs && Next(s, e, fallback).refreshing == s.refreshing
    ensures Rank(Next(s, e, fallback).runs[e.id].phase) < Rank(s.runs[e.id].phase)
  {
  }

  lemma CompilingRanks(s: State, e: Event, fallback: Pair)
    requires CanOccur(s, e) && Compiling(e)
    ensures e.id in Next(s, e, fallback).runs && Next(s, e, fallback).refreshing == s.refreshing
    ensures Rank(Next(s, e, fallback).runs[e.id].phase) < Rank(s.runs[e.id].phase)
  {
  }

  lemma ClosingRanks(s: State, e: Event, fallback: Pair)
    requires CanOccur(s, e) && Closing(e) && !e.ClearFlag?
    ensures e.id in Next(s, e, fallback).runs && Next(s, e, fallback).refreshing == s.refreshing
    ensures Rank(Next(s, e, fallback).runs[e.id].phase) < Rank(s.runs[e.id].phase)
  {
  }

  lemma OwnStepAdvances(s: State, id: nat, fallback: Pair)
    requires id in s.runs && CanOccur(s, OwnStep(s, id))
    ensures Distance(Next(s, OwnStep(s, id), fallback), id) < Distance(s, id)
  {
    var e := OwnStep(s, id);
    if e.BeginRefresh? || e.EndRefresh? {
      RefreshAdvances(s, id, fallback);
    } else if Opening(e) {
      OpeningRanks(s, e, fallback);
    } else if Entering(e) {
      EnteringRanks(s, e, fallback);
    } else if Compiling(e) {
      CompilingRanks(s, e, fallback);
    } else if !e.ClearFlag? {
      ClosingRanks(s, e, fallback);
    }
  }

  /** A live run can be worked off: at most 44 further steps, none of them an operator's. */
  lemma {:induction false} RunCanEnd(s: State, id: nat, fallback: Pair) returns (events: seq<Event>, t: State)
    requires Inv(s, fallback) && id in s.runs
    ensures Leads(s, events, t, fallback) && |events| <= Distance(s, id) <= 44
    ensures forall e | e in events :: !e.Configure? && !e.ResetStale?
    ensures !t.updating && t.runs == map[]
    decreases Distance(s, id)
  {
    var e := OwnStep(s, id);
    OneStepOn(s, id, fallback);
    var s' := Next(s, e, fallback);
    var rest;
    if id in s'.runs {
      rest, t := RunCanEnd(s', id, fallback);
    } else {
      rest, t := [], s';
      LeadsNowhere(t, fallback);
    }
    LeadsFrom(s, e, rest, t, fallback);
    events := [e] + rest;
  }

  lemma OneStepOn(s: State, id: nat, fallback: Pair)
    requires Inv(s, fallback) && id in s.runs
    ensures var e := OwnStep(s, id);
      && CanOccur(s, e) && !e.Configure? && !e.ResetStale?
      && var s' := Next(s, e, fallback);
         && Inv(s', fallback) && Distance(s', id) < Distance(s, id) <= 44
         && (id !in s'.runs ==> s'.runs == map[] && !s'.updating)
  {
    var e := OwnStep(s, id);
    OwnStepCanOccur(s, id);
    OwnStepAdvances(s, id, fallback);
    StepKeepsInv(s, e, fallback);
    if id !in Next(s, e, fallback).runs {
      OnlyClearFlagEnds(s, e, fallback, id);
    }
  }

  lemma OnlyClearFlagEnds(s: State, e: Event, fallback: Pair, id: nat)
    requires Inv(s, fallback) && id in s.runs && CanOccur(s, e) && id !in Next(s, e, fallback).runs
    ensures Next(s, e, fallback).runs == map[] && !Next(s, e, fallback).updating
  {
    if e != ClearFlag(id) && !e.ApplyStart? {
      PhaseAfter(s, e, fallback, id);
    } else {
      NoStartUnderARun(s, e, fallback, id);
      ClearFlagKeepsOneRun(s, e, fallback);
    }
  }

  lemma StartAfterFlag(s: State, fallback: Pair)
    requires Inv(s, fallback) && s.runs == map[] && s.applying.Some? && s.applying.value.Flagged?
    ensures CanOccur(s, ApplyStart(0)) && Inv(Next(s, ApplyStart(0), fallback), fallback)
    ensures 0 in Next(s, ApplyStart(0), fallback).runs
  {
    StepKeepsInv(s, ApplyStart(0), fallback);
  }

  /** From no state of the invariant is the updating flag stuck: whether a run is live, `Apply`
      has set the flag and not yet started its run, or neither, some path of at most 45 steps,
      none of them an operator's, brings it down. */
  lemma FlagCanComeDown(s: State, fallback: Pair) returns (events: seq<Event>, t: State)
    requires Inv(s, fallback)
    ensures Leads(s, events, t, fallback) && |events| <= 45 && !t.updating
    ensures forall e | e in events :: !e.Configure? && !e.ResetStale?
  {
    if s.runs != map[] {
      var id :| id in s.runs;
      events, t := RunCanEnd(s, id, fallback);
    } else if s.updating {
      StartAfterFlag(s, fallback);
      var rest;
      rest, t := RunCanEnd(Next(s, ApplyStart(0), fallback), 0, fallback);
      LeadsFrom(s, ApplyStart(0), rest, t, fallback);
      events := [ApplyStart(0)] + rest;
    } else {
      events, t := [], s;
      LeadsNowhere(s, fallback);
    }
  }

  /** Outside an `Apply` that has just set it, the flag is up exactly while a run is live. */
  lemma FlagMeansRun(trace: seq<State>, events: seq<Event>, fallback: Pair, n: nat)
    requires IsBenignRun(trace, events, fallback) && n <= |events|
    requires trace[n].applying.None? || !trace[n].applying.value.Flagged?
    ensures trace[n].updating <==> trace[n].runs != map[]
  {
    RunKeepsInv(trace, events, fallback, n);
  }

  // ---------- why the premises are needed ----------

  function ApplySteps(asked: Pair, id: nat, read: bool): seq<Event> {
    [ApplyLock(asked), ApplyCheckFlag(read), ApplyCheckBuild, ApplySaveFlag, ApplyStart(id)]
  }

  /** No build in its way and no flag read, `Apply` raises the flag and starts the run with
      its own handle. */
  lemma ApplyGoesThrough(s: State, asked: Pair, id: nat, read: bool, fallback: Pair)
    requires s.applying.None? && !(s.updating && read) && s.registered.None? && id !in s.runs
    ensures Leads(s, ApplySteps(asked, id, read), AfterApply(s, asked, id), fallback)
  {
    var s1 := s.(applying := Some(Checking(asked)));
    var s2 := s.(applying := Some(FlagClear(asked)));
    var s3 := s.(applying := Some(NoBuild(asked)));
    var s4 := s.(updating := true, applying := Some(Flagged(asked)));
    var trace := [s, s1, s2, s3, s4, AfterApply(s, asked, id)];
    assert IsTrace(trace, s, ApplySteps(asked, id, read), AfterApply(s, asked, id), fallback);
  }

  /** Seeing the flag or a build, `Apply` ends there and changes nothing. */
  lemma ApplyIsTurnedAway(s: State, asked: Pair, read: bool, fallback: Pair)
    requires s.applying.None?
    ensures s.updating && read ==> Leads(s, [ApplyLock(asked), ApplyCheckFlag(true)], s, fallback)
    ensures !(s.updating && read) && s.registered.Some? ==>
              Leads(s, [ApplyLock(asked), ApplyCheckFlag(read), ApplyCheckBuild], s, fallback)
  {
    var s1, s2 := s.(applying := Some(Checking(asked))), s.(applying := Some(FlagClear(asked)));
    if s.updating && read {
      assert IsTrace([s, s1, s], s, [ApplyLock(asked), ApplyCheckFlag(true)], s, fallback);
    } else if s.registered.Some? {
      assert IsTrace([s, s1, s2, s], s, [ApplyLock(asked), ApplyCheckFlag(read), ApplyCheckBuild], s, fallback);
    }
  }

  /** A build by hand begins only on a free registry, keeps every update and every other build
      away, and is gone without a trace when it ends. */
  lemma HandBuildExcludes(s: State, b: nat, other: nat, asked: Pair, fallback: Pair)
    requires s.applying.None? && !s.updating && s.registered.None? && b !in s.byHand && other !in s.byHand && b != other
    ensures var s1 := Next(s, BeginByHand(b), fallback);
      && Leads(s1, [ApplyLock(asked), ApplyCheckFlag(true), ApplyCheckBuild], s1, fallback)
      && Next(s1, BeginByHand(other), fallback) == s1
      && CanOccur(s1, EndByHand(b)) && Next(s1, EndByHand(b), fallback) == s
  {
    var s1 := Next(s, BeginByHand(b), fallback);
    ApplyIsTurnedAway(s1, asked, true, fallback);
    assert s.byHand + {b} - {b} == s.byHand;
  }

  /** A cache that has expired, like one a run has dropped, is filled from the settings as they
      are then, an unset one falling back, before anything is read from it. */
  lemma ColdCacheReloads(s: State, fallback: Pair)
    requires s.refreshing.None?
    ensures var p := Pair(if s.saved.version != "" then s.saved.version else fallback.version,
                          if s.saved.commit != "" then s.saved.commit else fallback.commit);
      Leads(s, [Expire, BeginRefresh, EndRefresh], s.(cache := p, warm := true), fallback)
  {
    var p := Effective(s.saved, fallback);
    var s1 := s.(warm := false);
    var s2 := s1.(refreshing := Some(p.version));
    var t := s.(cache := p, warm := true);
    assert Next(s, Expire, fallback) == s1 && Next(s1, BeginRefresh, fallback) == s2 && Next(s2, EndRefresh, fallback) == t;
    LeadsNowhere(t, fallback);
    LeadsFrom(s2, EndRefresh, [], t, fallback);
    assert [EndRefresh] + [] == [EndRefresh];
    LeadsFrom(s1, BeginRefresh, [EndRefresh], t, fallback);
    assert [BeginRefresh] + [EndRefresh] == [BeginRefresh, EndRefresh];
    LeadsFrom(s, Expire, [BeginRefresh, EndRefresh], t, fallback);
    assert [Expire] + [BeginRefresh, EndRefresh] == [Expire, BeginRefresh, EndRefresh];
  }

  function AfterApply(s: State, asked: Pair, id: nat): State {
    s.(updating := true, handle := Some(id), runs := s.runs[id := Run(asked, s.saved, Spawned, false)])
  }

  /** Resetting the flag under a live run lets a second one start beside it, and the first
      one's cleanup then takes the second one's handle: the second can no longer be cancelled. */
  lemma ResetUnderARunAdmitsASecond(s: State, first: nat, second: nat, asked: Pair, fallback: Pair)
    requires Inv(s, fallback) && first in s.runs && s.runs[first].phase.Done?
    requires s.applying.None? && s.registered.None? && second !in s.runs
    ensures var s1 := Next(s, ResetStale, fallback);
      var s2 := AfterApply(s1, asked, second);
        && Leads(s1, ApplySteps(asked, second, true), s2, fallback)
        && first in s2.runs && second in s2.runs && s2.handle == Some(second)
        && CanOccur(s2, ClearHandle(first))
        && var s3 := Next(s2, ClearHandle(first), fallback);
           second in s3.runs && !s3.runs[second].stopped && Next(s3, Cancel, fallback) == s3
  {
    ApplyGoesThrough(Next(s, ResetStale, fallback), asked, second, true, fallback);
  }

  /** The flag is read under the caller's own context and a failed read is ignored, so an
      `Apply` whose caller is gone starts a second run whenever no build is registered. */
  lemma FailedReadAdmitsASecond(s: State, first: nat, second: nat, asked: Pair, fallback: Pair)
    requires Inv(s, fallback) && first in s.runs
    requires s.applying.None? && s.registered.None? && second !in s.runs
    ensures s.updating
    ensures var s' := AfterApply(s, asked, second);
      Leads(s, ApplySteps(asked, second, false), s', fallback)
      && first in s'.runs && second in s'.runs && s'.handle == Some(second)
  {
    ApplyGoesThrough(s, asked, second, false, fallback);
  }

  /** Editing the version settings while a build runs loses the edit or the update's own
      pair: if the build fails, the pair from before the update comes back over the edit. */
  lemma EditUnderARunIsLost(s: State, id: nat, edit: Pair, fallback: Pair)
    requires Inv(s, fallback) && id in s.runs && s.runs[id].phase.Building?
    requires edit != s.runs[id].before
    ensures var s1 := Next(s, Configure(edit), fallback);
      s1.saved == edit && CanOccur(s1, EndBuild(id, false))
      && var s2 := Next(s1, EndBuild(id, false), fallback);
         CanOccur(s2, SavePrev(id)) && Next(s2, SavePrev(id), fallback).saved == s.runs[id].before != edit
  {
    assert SavedInv(s, s.runs[id]);
  }

  // ---------- a run nobody interferes with ----------

  /** Where a run that has just been spawned ends when no other thread steps in between. */
  function AfterRun(s: State, id: nat, success: bool, fallback: Pair): State
    requires id in s.runs
  {
    var asked := s.runs[id].asked;
    var done := s.(updating := false, handle := None, runs := s.runs - {id});
    if s.runs[id].stopped then done
    else if s.registered.Some? then done.(warm := false)
    else if success then done.(saved := asked, cache := Effective(asked, fallback), warm := true)
    else done.(cache := Effective(asked, fallback), warm := false)
  }

  function RunSteps(s: State, id: nat, success: bool): seq<Event>
    requires id in s.runs
  {
    var reading := [ReadPrevVersion(id), ReadPrevCommit(id), SaveNew(id)];
    var reverting := [SavePrev(id), DropCacheAgain(id)];
    var cleanup := [ClearHandle(id), ClearFlag(id)];
    if s.runs[id].stopped then reading + cleanup
    else if s.registered.Some? then reading + [DropCache(id), Register(id)] + reverting + cleanup
    else reading + [DropCache(id), Register(id)] + BuildSteps(id, success) + (if success then [] else reverting) + cleanup
  }

  function BuildSteps(id: nat, success: bool): seq<Event> {
    [BeginRefresh, EndRefresh, FinishRefresh(id), ReadVersion(id)] + [FinishRefreshAgain(id), ReadCommit(id), EndBuild(id, success)]
  }

  lemma PreviousIsRead(s: State, id: nat, fallback: Pair)
    requires id in s.runs && s.runs[id].phase.Spawned?
    ensures Leads(s, [ReadPrevVersion(id), ReadPrevCommit(id)], Goto(s, id, HavePrev(s.saved)), fallback)
  {
    var s1, s2 := Goto(s, id, HavePrevVersion(s.saved.version)), Goto(s, id, HavePrev(s.saved));
    assert IsTrace([s, s1, s2], s, [ReadPrevVersion(id), ReadPrevCommit(id)], s2, fallback);
  }

  lemma NewIsSaved(s: State, id: nat, prev: Pair, fallback: Pair)
    requires id in s.runs && s.runs[id].phase == HavePrev(prev)
    ensures Leads(s, [SaveNew(id)],
                  if s.runs[id].stopped then Goto(s, id, Done(false)) else Goto(s.(saved := s.runs[id].asked), id, Saved(prev)),
                  fallback)
  {
    var t := Next(s, SaveNew(id), fallback);
    assert IsTrace([s, t], s, [SaveNew(id)], t, fallback);
  }

  lemma ReadingLeads(s: State, id: nat, fallback: Pair)
    requires id in s.runs && s.runs[id].phase.Spawned?
    ensures Leads(s, [ReadPrevVersion(id), ReadPrevCommit(id), SaveNew(id)],
                  if s.runs[id].stopped then Goto(s, id, Done(false)) else Goto(s.(saved := s.runs[id].asked), id, Saved(s.saved)),
                  fallback)
  {
    var asked, t := s.runs[id].asked, Goto(s, id, HavePrev(s.saved));
    var end := if s.runs[id].stopped then Goto(s, id, Done(false)) else Goto(s.(saved := asked), id, Saved(s.saved));
    PreviousIsRead(s, id, fallback);
    NewIsSaved(t, id, s.saved, fallback);
    GotoTwice(s, id, HavePrev(s.saved), Done(false));
    GotoTwice(s.(saved := asked), id, HavePrev(s.saved), Saved(s.saved));
    LeadsThrough(s, [ReadPrevVersion(id), ReadPrevCommit(id)], t, [SaveNew(id)], end, fallback);
    assert [ReadPrevVersion(id), ReadPrevCommit(id)] + [SaveNew(id)] == [ReadPrevVersion(id), ReadPrevCommit(id), SaveNew(id)];
  }

  lemma RegisteringLeads(s: State, id: nat, prev: Pair, fallback: Pair)
    requires id in s.runs && s.runs[id].phase == Saved(prev) && s.refreshing.None?
    ensures Leads(s, [DropCache(id), Register(id)],
                  if s.registered.Some? then Goto(s.(warm := false), id, Failed(prev))
                  else Goto(s.(warm := false, registered := Some(ByRun(id))), id, Registered(prev)), fallback)
  {
    var s1 := Goto(s.(warm := false), id, Invalidated(prev));
    var s2 := if s.registered.Some? then Goto(s.(warm := false), id, Failed(prev))
              else Goto(s.(warm := false, registered := Some(ByRun(id))), id, Registered(prev));
    assert IsTrace([s, s1, s2], s, [DropCache(id), Register(id)], s2, fallback);
  }

  lemma CacheReloads(s: State, fallback: Pair)
    requires s.refreshing.None? && !s.warm
    ensures Leads(s, [BeginRefresh, EndRefresh], s.(warm := true, cache := Effective(s.saved, fallback)), fallback)
  {
    var own := Effective(s.saved, fallback);
    var s1, s2 := s.(refreshing := Some(own.version)), s.(warm := true, cache := own);
    assert IsTrace([s, s1, s2], s, [BeginRefresh, EndRefresh], s2, fallback);
  }

  lemma VersionIsRead(s: State, id: nat, prev: Pair, fallback: Pair)
    requires id in s.runs && s.runs[id].phase == Registered(prev) && s.refreshing.None? && s.warm
    ensures Leads(s, [FinishRefresh(id), ReadVersion(id)], Goto(s, id, HaveVersion(prev, s.cache.version)), fallback)
  {
    var s1, s2 := Goto(s, id, Refreshed(prev)), Goto(s, id, HaveVersion(prev, s.cache.version));
    assert IsTrace([s, s1, s2], s, [FinishRefresh(id), ReadVersion(id)], s2, fallback);
  }

  lemma RefreshingLeads(s: State, id: nat, prev: Pair, fallback: Pair)
    requires id in s.runs && s.runs[id].phase == Registered(prev) && s.refreshing.None? && !s.warm
    ensures var own := Effective(s.saved, fallback);
      Leads(s, [BeginRefresh, EndRefresh, FinishRefresh(id), ReadVersion(id)],
            Goto(s.(warm := true, cache := own), id, HaveVersion(prev, own.version)), fallback)
  {
    var t := s.(warm := true, cache := Effective(s.saved, fallback));
    CacheReloads(s, fallback);
    VersionIsRead(t, id, prev, fallback);
    LeadsThrough(s, [BeginRefresh, EndRefresh], t, [FinishRefresh(id), ReadVersion(id)],
                 Goto(t, id, HaveVersion(prev, t.cache.version)), fallback);
    assert [BeginRefresh, EndRefresh] + [FinishRefresh(id), ReadVersion(id)]
        == [BeginRefresh, EndRefresh, FinishRefresh(id), ReadVersion(id)];
  }

  lemma CommitIsRead(s: State, id: nat, prev: Pair, bv: string, fallback: Pair)
    requires id in s.runs && s.runs[id].phase == HaveVersion(prev, bv) && s.refreshing.None? && s.warm
    ensures Leads(s, [FinishRefreshAgain(id), ReadCommit(id)], Goto(s, id, Building(prev, Pair(bv, s.cache.commit))), fallback)
  {
    var s1, s2 := Goto(s, id, RefreshedAgain(prev, bv)), Goto(s, id, Building(prev, Pair(bv, s.cache.commit)));
    assert IsTrace([s, s1, s2], s, [FinishRefreshAgain(id), ReadCommit(id)], s2, fallback);
  }

  lemma BuildEnds(s: State, id: nat, prev: Pair, target: Pair, success: bool, fallback: Pair)
    requires id in s.runs && s.runs[id].phase == Building(prev, target)
    ensures Leads(s, [EndBuild(id, success)],
                  Goto(s.(registered := None), id, if success then Done(true) else Failed(prev)), fallback)
  {
    var t := Next(s, EndBuild(id, success), fallback);
    assert IsTrace([s, t], s, [EndBuild(id, success)], t, fallback);
  }

  lemma CompilingLeads(s: State, id: nat, prev: Pair, bv: string, success: bool, fallback: Pair)
    requires id in s.runs && s.runs[id].phase == HaveVersion(prev, bv) && s.refreshing.None? && s.warm
    ensures Leads(s, [FinishRefreshAgain(id), ReadCommit(id), EndBuild(id, success)],
                  Goto(s.(registered := None), id, if success then Done(true) else Failed(prev)), fallback)
  {
    var target, last := Pair(bv, s.cache.commit), if success then Done(true) else Failed(prev);
    var t := Goto(s, id, Building(prev, target));
    CommitIsRead(s, id, prev, bv, fallback);
    BuildEnds(t, id, prev, target, success, fallback);
    GotoTwice(s.(registered := None), id, Building(prev, target), last);
    LeadsThrough(s, [FinishRefreshAgain(id), ReadCommit(id)], t, [EndBuild(id, success)],
                 Goto(s.(registered := None), id, last), fallback);
    assert [FinishRefreshAgain(id), ReadCommit(id)] + [EndBuild(id, success)]
        == [FinishRefreshAgain(id), ReadCommit(id), EndBuild(id, success)];
  }

  lemma BuildingLeads(s: State, id: nat, prev: Pair, success: bool, fallback: Pair)
    requires id in s.runs && s.runs[id].phase == Registered(prev) && s.refreshing.None? && !s.warm
    ensures Leads(s, BuildSteps(id, success),
                  Goto(s.(warm := true, cache := Effective(s.saved, fallback), registered := None), id,
                       if success then Done(true) else Failed(prev)), fallback)
  {
    var own := Effective(s.saved, fallback);
    var read := s.(warm := true, cache := own);
    var t := Goto(read, id, HaveVersion(prev, own.version));
    var last := if success then Done(true) else Failed(prev);
    RefreshingLeads(s, id, prev, fallback);
    CompilingLeads(t, id, prev, own.version, success, fallback);
    GotoTwice(read.(registered := None), id, HaveVersion(prev, own.version), last);
    assert Goto(t.(registered := None), id, last) == Goto(read.(registered := None), id, last);
    LeadsThrough(s, [BeginRefresh, EndRefresh, FinishRefresh(id), ReadVersion(id)], t,
                 [FinishRefreshAgain(id), ReadCommit(id), EndBuild(id, success)],
                 Goto(read.(registered := None), id, last), fallback);
  }

  lemma RevertingLeads(s: State, id: nat, prev: Pair, fallback: Pair)
    requires id in s.runs && s.runs[id].phase == Failed(prev) && s.refreshing.None?
    ensures Leads(s, [SavePrev(id), DropCacheAgain(id)], Goto(s.(saved := prev, warm := false), id, Done(false)), fallback)
  {
    var s1 := Goto(s.(saved := prev), id, Reverted);
    var s2 := Goto(s.(saved := prev, warm := false), id, Done(false));
    assert IsTrace([s, s1, s2], s, [SavePrev(id), DropCacheAgain(id)], s2, fallback);
  }

  lemma CleanupLeads(s: State, id: nat, fallback: Pair)
    requires id in s.runs && s.runs[id].phase.Done?
    ensures Leads(s, [ClearHandle(id), ClearFlag(id)], s.(handle := None, updating := false, runs := s.runs - {id}), fallback)
  {
    var s1 := Goto(s.(handle := None), id, HandleCleared(s.runs[id].phase.ok));
    var s2 := s.(handle := None, updating := false, runs := s.runs - {id});
    assert s1.runs - {id} == s.runs - {id};
    assert IsTrace([s, s1, s2], s, [ClearHandle(id), ClearFlag(id)], s2, fallback);
  }

  lemma GotoTwice(s: State, id: nat, p: Phase, q: Phase)
    requires id in s.runs
    ensures Goto(Goto(s, id, p), id, q) == Goto(s, id, q)
    ensures Goto(s, id, p).runs - {id} == s.runs - {id}
  {
  }

  /** The uninterrupted run is one of the runs of the state machine. */
  lemma UninterruptedRun(s: State, id: nat, success: bool, fallback: Pair)
    requires id in s.runs && s.runs[id].phase.Spawned? && s.refreshing.None?
    ensures Leads(s, RunSteps(s, id, success), AfterRun(s, id, success, fallback), fallback)
  {
    var r := s.runs[id];
    var cleanup := [ClearHandle(id), ClearFlag(id)];
    var steps := [ReadPrevVersion(id), ReadPrevCommit(id), SaveNew(id)];
    ReadingLeads(s, id, fallback);
    if r.stopped {
      var t := Goto(s, id, Done(false));
      CleanupLeads(t, id, fallback);
      GotoTwice(s, id, Done(false), Done(false));
      assert AfterRun(s, id, success, fallback) == t.(handle := None, updating := false, runs := t.runs - {id});
      LeadsThrough(s, steps, t, cleanup, AfterRun(s, id, success, fallback), fallback);
    } else {
      UnstoppedRun(s, id, success, fallback);
    }
  }

  lemma UnstoppedRun(s: State, id: nat, success: bool, fallback: Pair)
    requires id in s.runs && s.runs[id].phase.Spawned? && !s.runs[id].stopped && s.refreshing.None?
    ensures Leads(s, RunSteps(s, id, success), AfterRun(s, id, success, fallback), fallback)
  {
    var asked, prev := s.runs[id].asked, s.saved;
    var steps := [ReadPrevVersion(id), ReadPrevCommit(id), SaveNew(id)];
    var t := Goto(s.(saved := asked), id, Saved(prev));
    ReadingLeads(s, id, fallback);
    RegisteringLeads(t, id, prev, fallback);
    if s.registered.Some? {
      var u := Goto(s.(saved := asked, warm := false), id, Failed(prev));
      GotoTwice(s.(saved := asked, warm := false), id, Saved(prev), Failed(prev));
      LeadsThrough(s, steps, t, [DropCache(id), Register(id)], u, fallback);
      RevertAndClean(s, id, steps + [DropCache(id), Register(id)], u, prev, fallback);
      GotoTwice(s, id, Failed(prev), Failed(prev));
      assert AfterRun(s, id, success, fallback)
          == u.(saved := prev, warm := false, handle := None, updating := false, runs := u.runs - {id});
    } else {
      var base := s.(saved := asked, warm := false, registered := Some(ByRun(id)));
      var u := Goto(base, id, Registered(prev));
      GotoTwice(base, id, Saved(prev), Registered(prev));
      LeadsThrough(s, steps, t, [DropCache(id), Register(id)], u, fallback);
      BuildAndClean(s, id, steps + [DropCache(id), Register(id)], u, prev, success, fallback);
      GotoTwice(s, id, Registered(prev), Registered(prev));
      assert AfterRun(s, id, success, fallback)
          == u.(saved := if success then u.saved else prev, cache := Effective(u.saved, fallback), warm := success,
                registered := None, handle := None, updating := false, runs := u.runs - {id});
    }
  }

  lemma RevertAndClean(s: State, id: nat, steps: seq<Event>, u: State, prev: Pair, fallback: Pair)
    requires id in u.runs && u.runs[id].phase == Failed(prev) && u.refreshing.None?
    requires Leads(s, steps, u, fallback)
    ensures Leads(s, steps + [SavePrev(id), DropCacheAgain(id)] + [ClearHandle(id), ClearFlag(id)],
                  u.(saved := prev, warm := false, handle := None, updating := false, runs := u.runs - {id}), fallback)
  {
    var v := Goto(u.(saved := prev, warm := false), id, Done(false));
    RevertingLeads(u, id, prev, fallback);
    LeadsThrough(s, steps, u, [SavePrev(id), DropCacheAgain(id)], v, fallback);
    CleanupLeads(v, id, fallback);
    GotoTwice(u, id, Done(false), Done(false));
    LeadsThrough(s, steps + [SavePrev(id), DropCacheAgain(id)], v, [ClearHandle(id), ClearFlag(id)],
                 v.(handle := None, updating := false, runs := v.runs - {id}), fallback);
  }

  lemma BuildAndClean(s: State, id: nat, steps: seq<Event>, u: State, prev: Pair, success: bool, fallback: Pair)
    requires id in u.runs && u.runs[id].phase == Registered(prev) && u.refreshing.None? && !u.warm
    requires Leads(s, steps, u, fallback)
    ensures Leads(s, steps + BuildSteps(id, success) + (if success then [] else [SavePrev(id), DropCacheAgain(id)])
                     + [ClearHandle(id), ClearFlag(id)],
                  u.(saved := if success then u.saved else prev, cache := Effective(u.saved, fallback), warm := success,
                     registered := None, handle := None, updating := false, runs := u.runs - {id}), fallback)
  {
    var built := u.(warm := true, cache := Effective(u.saved, fallback), registered := None);
    var v := Goto(built, id, if success then Done(true) else Failed(prev));
    BuildingLeads(u, id, prev, success, fallback);
    LeadsThrough(s, steps, u, BuildSteps(id, success), v, fallback);
    GotoTwice(built, id, v.runs[id].phase, Done(false));
    if success {
      assert steps + BuildSteps(id, success) + [] == steps + BuildSteps(id, success);
      CleanupLeads(v, id, fallback);
      LeadsThrough(s, steps + BuildSteps(id, success), v, [ClearHandle(id), ClearFlag(id)],
                   v.(handle := None, updating := false, runs := v.runs - {id}), fallback);
    } else {
      RevertAndClean(s, id, steps + BuildSteps(id, success), v, prev, fallback);
    }
  }
}
