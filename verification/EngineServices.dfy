/**
 The update service, the docker service's build registry and the cached configuration as
 the objects they are, each method tied to the state machine of `EngineUpdate`: an
 uninterrupted `Apply` or background run ends where `ApplyGoesThrough` and
 `UninterruptedRun` say some run of the state machine ends.
 */
module EngineServices {
  import opened Common
  import opened EngineUpdate

  // ---------- which versions may be asked for ----------

  predicate IsSafeChar(c: char) {
    'a' <= c <= 'z' || 'A' <= c <= 'Z' || '0' <= c <= '9' || c in ".-_/"
  }

  /** Not empty, and of safe characters only. */
  predicate IsSafeRef(s: string) {
    s != "" && forall i | 0 <= i < |s| :: IsSafeChar(s[i])
  }

  /** By code point: a letter, a digit, or one of "-./_". */
  method IsSafeGitRef(s: string) returns (safe: bool)
    ensures safe <==> IsSafeRef(s)
    ensures safe <==> s != "" && forall i | 0 <= i < |s| ::
      45 <= s[i] as int <= 57 || 65 <= s[i] as int <= 90 || s[i] as int == 95 || 97 <= s[i] as int <= 122
  {
    if s == "" {
      return false;
    }
    for i := 0 to |s|
      invariant forall k | 0 <= k < i :: IsSafeChar(s[k])
    {
      if !IsSafeChar(s[i]) {
        return false;
      }
    }
    safe := true;
  }

  /** A version is needed, a commit is not. */
  predicate Askable(asked: Pair) {
    IsSafeRef(asked.version) && (asked.commit == "" || IsSafeRef(asked.commit))
  }

  method CheckAsked(asked: Pair) returns (safe: bool)
    ensures safe <==> Askable(asked)
  {
    safe := IsSafeGitRef(asked.version);
    if safe && asked.commit != "" {
      safe := IsSafeGitRef(asked.commit);
    }
  }

  // ---------- how an image is come by ----------

  datatype Method = Cached | Registry | Latest | Source

  /** What each attempt of a build would meet, and whether the context is over after it. */
  datatype Attempts = Attempts(
    hasImage: bool, exact: bool, overAfterExact: bool, latest: bool, overAfterLatest: bool, source: bool)

  /** The attempts a build makes, in order: whether it is made at all, its outcome, and
      whether a failure of it ends the build. */
  function Plan(force: bool, a: Attempts): seq<(Method, bool, bool, bool)> {
    [(Cached, !force, a.hasImage, false), (Registry, true, a.exact, a.overAfterExact),
     (Latest, !force, a.latest, a.overAfterLatest), (Source, true, a.source, true)]
  }

  /** The first attempt that is made and succeeds, unless an earlier one ended the build. */
  function FirstSuccess(plan: seq<(Method, bool, bool, bool)>): Option<Method> {
    if plan == [] then None
    else if !plan[0].1 then FirstSuccess(plan[1..])
    else if plan[0].2 then Some(plan[0].0)
    else if plan[0].3 then None
    else FirstSuccess(plan[1..])
  }

  lemma PlanInOrder(force: bool, a: Attempts)
    ensures FirstSuccess(Plan(force, a)) ==
      if !force && a.hasImage then Some(Cached)
      else if a.exact then Some(Registry)
      else if a.overAfterExact then None
      else if !force && a.latest then Some(Latest)
      else if !force && a.overAfterLatest then None
      else if a.source then Some(Source)
      else None
  {
    var plan := Plan(force, a);
    var p1 := plan[1..];
    var p2 := p1[1..];
    var p3 := p2[1..];
    assert p3 == [(Source, true, a.source, true)] && p3[1..] == [];
    assert FirstSuccess(p3) == if a.source then Some(Source) else None;
    assert p2[0] == (Latest, !force, a.latest, a.overAfterLatest);
    assert FirstSuccess(p2) == if !force && a.latest then Some(Latest) else if !force && a.overAfterLatest then None else FirstSuccess(p3);
    assert p1[0] == (Registry, true, a.exact, a.overAfterExact);
    assert FirstSuccess(p1) == if a.exact then Some(Registry) else if a.overAfterExact then None else FirstSuccess(p2);
  }

  datatype Built = Built(how: Method, pair: Pair)

  /** Which of the three settings a refresh manages to read. */
  datatype Reads = Reads(version: bool, commit: bool, repo: bool)

  const ALL_READ := Reads(true, true, true)

  class EngineHost {
    // persisted settings
    var updating: bool
    var savedVersion: string
    var savedCommit: string
    var savedRepo: string
    // update service: cancel handle and the contexts of the live runs (true once over)
    var cancel: Option<nat>
    var contexts: map<nat, bool>
    ghost var runs: map<nat, Run>
    // docker service
    var buildCancel: Option<Owner>
    var buildOver: bool               // the context of the registered build
    ghost var byHand: set<nat>
    // cached configuration
    var version: string
    var commit: string
    var repo: string
    var warm: bool
    const fallback: Pair
    const fallbackRepo: string

    constructor (savedVersion: string, savedCommit: string, savedRepo: string, fallback: Pair, fallbackRepo: string)
      ensures Valid() && Initial(View()) && View().saved == Pair(savedVersion, savedCommit)
      ensures this.savedRepo == savedRepo && this.fallback == fallback && this.fallbackRepo == fallbackRepo
    {
      updating, cancel, contexts, runs := false, None, map[], map[];
      buildCancel, buildOver, byHand, version, commit, repo, warm := None, false, {}, "", "", "", false;
      this.savedVersion, this.savedCommit, this.savedRepo := savedVersion, savedCommit, savedRepo;
      this.fallback, this.fallbackRepo := fallback, fallbackRepo;
    }

    ghost predicate Valid()
      reads this
    {
      contexts.Keys == runs.Keys && forall id | id in runs :: contexts[id] == runs[id].stopped
    }

    ghost function View(): State
      reads this
    {
      State(updating, Pair(savedVersion, savedCommit), None, cancel, runs, buildCancel, byHand,
            Pair(version, commit), warm, None)
    }

    // ---------- docker service ----------

    method BuildRunning() returns (running: bool)
      ensures running == buildCancel.Some?
    {
      running := buildCancel.Some?;
    }

    /** Refused while anyone's build is registered. */
    method BeginBuild(owner: Owner) returns (ok: bool)
      modifies this`buildCancel, this`buildOver
      ensures ok == old(buildCancel).None?
      ensures buildCancel == if ok then Some(owner) else old(buildCancel)
      ensures buildOver == (!ok && old(buildOver))
    {
      ok := buildCancel.None?;
      if ok {
        buildCancel, buildOver := Some(owner), false;
      }
    }

    /** Ends the context of the registered build; its registration stays until it exits. */
    method CancelBuild() returns (done: bool)
      modifies this`buildOver
      ensures done == buildCancel.Some?
      ensures buildOver == (done || old(buildOver))
    {
      done := buildCancel.Some?;
      if done {
        buildOver := true;
      }
    }

    /** Builds what the configuration says at that moment, by the first attempt that works;
        the registration is gone again in either case. */
    method BuildEngine(owner: Owner, force: bool, a: Attempts) returns (result: Result<Built>)
      modifies this`buildCancel, this`buildOver, this`version, this`commit, this`repo, this`warm
      ensures buildCancel == old(buildCancel)
      ensures result.Ok? <==> old(buildCancel).None? && FirstSuccess(Plan(force, a)).Some?
      ensures old(buildCancel).Some? || old(warm) ==> (version, commit, warm) == old((version, commit, warm))
      ensures old(buildCancel).None? && !old(warm) ==>
                warm && Pair(version, commit) == Effective(Pair(savedVersion, savedCommit), fallback)
      ensures result.Ok? ==> result.value == Built(FirstSuccess(Plan(force, a)).value, Pair(version, commit))
    {
      var ok := BeginBuild(owner);
      if !ok {
        return Err("engine build already in progress");
      }
      var v := TelemtVersion(ALL_READ);
      var c := TelemtCommit(ALL_READ);
      result := Obtain(force, a, Pair(v, c));
      buildCancel := None;
    }

    method Obtain(force: bool, a: Attempts, pair: Pair) returns (result: Result<Built>)
      ensures result.Ok? <==> FirstSuccess(Plan(force, a)).Some?
      ensures result.Ok? ==> result.value == Built(FirstSuccess(Plan(force, a)).value, pair)
    {
      PlanInOrder(force, a);
      if !force {
        if a.hasImage { return Ok(Built(Cached, pair)); }
      }
      if a.exact { return Ok(Built(Registry, pair)); }
      if a.overAfterExact { return Err("context over"); }
      if !force {
        if a.latest { return Ok(Built(Latest, pair)); }
        if a.overAfterLatest { return Err("context over"); }
      }
      if !a.source { return Err("all build strategies failed"); }
      return Ok(Built(Source, pair));
    }

    // ---------- cached configuration ----------

    method InvalidateCache()
      modifies this`warm
      ensures !warm
    {
      warm := false;
    }

    /** Afterwards the cache is warm; a cache that was warm already is left as it is, and so
        is each setting that cannot be read. */
    method Refresh(got: Reads)
      modifies this`version, this`commit, this`repo, this`warm
      ensures warm
      ensures version == if old(warm) || !got.version then old(version)
                         else if savedVersion != "" then savedVersion else fallback.version
      ensures commit == if old(warm) || !got.commit then old(commit)
                        else if savedCommit != "" then savedCommit else fallback.commit
      ensures repo == if old(warm) || !got.repo then old(repo)
                      else if savedRepo != "" then savedRepo else fallbackRepo
    {
      if warm {
        return;
      }
      if got.version {
        version := if savedVersion != "" then savedVersion else fallback.version;
      }
      if got.commit {
        commit := if savedCommit != "" then savedCommit else fallback.commit;
      }
      if got.repo {
        repo := if savedRepo != "" then savedRepo else fallbackRepo;
      }
      warm := true;
    }

    method TelemtVersion(got: Reads) returns (v: string)
      modifies this`version, this`commit, this`repo, this`warm
      ensures warm && v == version
      ensures got == ALL_READ ==> Pair(version, commit) == if old(warm) then old(Pair(version, commit))
                                                             else Effective(Pair(savedVersion, savedCommit), fallback)
    {
      Refresh(got);
      v := version;
    }

    method TelemtCommit(got: Reads) returns (c: string)
      modifies this`version, this`commit, this`repo, this`warm
      ensures warm && c == commit
      ensures got == ALL_READ ==> Pair(version, commit) == if old(warm) then old(Pair(version, commit))
                                                             else Effective(Pair(savedVersion, savedCommit), fallback)
    {
      Refresh(got);
      c := commit;
    }

    // ---------- update service ----------

    /** The guard at startup. */
    method ResetStaleUpdate()
      requires Valid()
      modifies this`updating
      ensures Valid() && View() == Next(old(View()), ResetStale, fallback) && !updating
    {
      if updating {
        updating := false;
      }
    }

    /** Starts a run exactly when none is seen up and nobody builds; otherwise changes nothing.
        `read` is whether the flag could be read under the caller's context. */
    method Apply(asked: Pair, id: nat, read: bool) returns (result: Result<nat>)
      requires Valid() && id !in runs
      modifies this
      ensures Valid() && (result.Ok? <==> Askable(asked) && !(old(updating) && read) && old(buildCancel).None?)
      ensures result.Err? ==> View() == old(View()) && contexts == old(contexts)
      ensures result.Err? && Askable(asked) ==>
                Leads(View(), [ApplyLock(asked), ApplyCheckFlag(true)], View(), fallback)
                || Leads(View(), [ApplyLock(asked), ApplyCheckFlag(read), ApplyCheckBuild], View(), fallback)
      ensures result.Ok? ==> updating && cancel == Some(id) && contexts == old(contexts)[id := false]
      ensures result.Ok? ==> result.value == id && View() == AfterApply(old(View()), asked, id)
      ensures result.Ok? ==> Leads(old(View()), ApplySteps(asked, id, read), View(), fallback)
    {
      var safe := CheckAsked(asked);
      if !safe {
        return Err("invalid version or commit: rejected by safety check");
      }
      ApplyIsTurnedAway(View(), asked, read, fallback);
      if read && updating {
        return Err("update already in progress");
      }
      var building := BuildRunning();
      if building {
        return Err("engine build already in progress");
      }
      ApplyGoesThrough(View(), asked, id, read, fallback);
      updating := true;
      contexts := contexts[id := false];
      runs := runs[id := Run(asked, Pair(savedVersion, savedCommit), Spawned, false)];
      cancel := Some(id);
      return Ok(id);
    }

    /** Ends the context of the run the handle belongs to, and of no other; repeating it changes
        nothing more. */
    method Cancel() returns (result: Result<nat>)
      requires Valid() && (cancel.Some? ==> cancel.value in runs)
      modifies this
      ensures Valid() && View() == Next(old(View()), EngineUpdate.Cancel, fallback)
      ensures result.Ok? <==> old(cancel).Some?
      ensures result.Ok? ==> result.value == old(cancel).value && contexts == old(contexts)[result.value := true]
      ensures result.Err? ==> contexts == old(contexts) && runs == old(runs)
      ensures cancel == old(cancel) && updating == old(updating)
      ensures Next(View(), EngineUpdate.Cancel, fallback) == View()
    {
      if cancel.None? {
        return Err("no update in progress to cancel");
      }
      contexts := contexts[cancel.value := true];
      runs := runs[cancel.value := runs[cancel.value].(stopped := true)];
      return Ok(cancel.value);
    }

    /** Saves the pair and builds it; puts the previous pair back if that fails. */
    method SaveAndBuild(id: nat, asked: Pair, a: Attempts)
      modifies this`savedVersion, this`savedCommit, this`warm, this`version, this`commit, this`repo, this`buildCancel, this`buildOver
      ensures var success := FirstSuccess(Plan(true, a)).Some?;
        && (savedVersion, savedCommit)
           == (if old(buildCancel).None? && success then (asked.version, asked.commit) else old((savedVersion, savedCommit)))
        && (warm <==> old(buildCancel).None? && success)
      ensures buildCancel == old(buildCancel)
      ensures Pair(version, commit) == if old(buildCancel).None? then Effective(asked, fallback) else old(Pair(version, commit))
    {
      var prevVersion, prevCommit := savedVersion, savedCommit;
      savedVersion, savedCommit := asked.version, asked.commit;
      InvalidateCache();
      var result := BuildEngine(ByRun(id), true, a);
      if result.Err? {
        savedVersion, savedCommit := prevVersion, prevCommit;
        InvalidateCache();
      }
    }

    /** A background run nobody interferes with ends where `UninterruptedRun` says the state
        machine ends. */
    method RunUpdateBackground(id: nat, asked: Pair, a: Attempts)
      requires Valid() && id in runs && runs[id].phase.Spawned? && runs[id].asked == asked
      modifies this
      ensures Valid() && View() == AfterRun(old(View()), id, FirstSuccess(Plan(true, a)).Some?, fallback)
      ensures !updating && cancel.None? && contexts == old(contexts) - {id} && buildCancel == old(buildCancel)
      ensures (savedVersion, savedCommit) ==
              if !old(contexts)[id] && old(buildCancel).None? && (a.exact || (!a.overAfterExact && a.source))
              then (asked.version, asked.commit) else old((savedVersion, savedCommit))
    {
      PlanInOrder(true, a);
      if !contexts[id] {
        SaveAndBuild(id, asked, a);
      }
      cancel := None;
      updating := false;
      contexts := contexts - {id};
      runs := runs - {id};
    }
  }
}
