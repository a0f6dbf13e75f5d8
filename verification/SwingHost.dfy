/**
 The container service's operations on one host: the running containers and the NAT
 rules are fields, and each operation is proved to take the step that the transition
 system of `SwingRouting` gives it.
 */
module SwingHost {
  import opened Common
  import opened SwingRouting

  /** The metrics port of the active side: the instance's own, or 100 above the lowest swing
      port listed. */
  ghost predicate IsActiveMetricsPort(primary: int, metricsPort: int, snap: set<int>, metrics: int) {
    && ((forall q | q in snap :: !(primary + 10000 <= q < primary + 10100)) ==> metrics == metricsPort)
    && (forall q | q in snap && primary + 10000 <= q < primary + 10100
                   && (forall u | u in snap && primary + 10000 <= u < primary + 10100 :: q <= u) :: metrics == q + 100)
  }

  /** There is exactly one such port. */
  lemma OneActiveMetricsPort(primary: int, metricsPort: int, snap: set<int>)
    ensures var a := ActivePort(primary, snap);
      forall m :: IsActiveMetricsPort(primary, metricsPort, snap, m) <==> m == if a == primary then metricsPort else a + 100
  {
    var swing := FirstRunning(primary, snap, 0);
    if swing.Some? {
      assert primary + 10000 <= swing.value < primary + 10100;
    }
  }

  /** In every settled state that is the metrics port of the container connections reach. */
  lemma MetricsOfReachedContainer(s: State, primary: int, metricsPort: int, m: int)
    requires Settled(s, primary) && IsActiveMetricsPort(primary, metricsPort, s.running, m)
    ensures exists q :: Reaches(s, primary, q) && q in s.running && m == if q == primary then metricsPort else q + 100
    ensures forall q | Reaches(s, primary, q) :: m == if q == primary then metricsPort else q + 100
  {
    OneActiveMetricsPort(primary, metricsPort, s.running);
    assert Owns(primary, primary);
    if AtPrimary(s, primary) {
      forall q | IsSwingPort(primary, q) ensures q !in s.running { assert Owns(primary, q); }
      assert Reaches(s, primary, primary);
    } else {
      var t :| AtSwing(s, primary, t);
      assert Owns(primary, t) && Reaches(s, primary, t);
      assert forall q | IsSwingPort(primary, q) :: Owns(primary, q);
      assert ActivePort(primary, s.running) == t;
    }
  }

  /** The container service's search for a running swing container. */
  method GetActiveSwingPort(primary: int, snap: set<int>) returns (port: int, found: bool)
    ensures found <==> exists q :: q in snap && primary + 10000 <= q < primary + 10100
    ensures found ==> port in snap && primary + 10000 <= port < primary + 10100
                      && forall q | q in snap && primary + 10000 <= q < primary + 10100 :: port <= q
    ensures !found ==> port == primary + 10000
    ensures FirstRunning(primary, snap, 0) == if found then Some(port) else None
  {
    for i := 0 to SWING_WINDOW
      invariant forall q | q in snap && primary + 10000 <= q < primary + 10100 :: primary + 10000 + i <= q
    {
      port := primary + SWING_OFFSET + i;
      if port in snap {
        LowestIsFirst(primary, snap, port);
        return port, true;
      }
    }
    NoneIsFirst(primary, snap);
    return primary + SWING_OFFSET, false;
  }

  lemma {:induction false} LowestIsFirst(primary: int, snap: set<int>, port: int)
    requires port in snap && IsSwingPort(primary, port)
    requires forall q | q in snap && primary + 10000 <= q < primary + 10100 :: port <= q
    ensures FirstRunning(primary, snap, 0) == Some(port)
  {
    var first := FirstRunning(primary, snap, 0);
    assert first.Some? ==> primary + 10000 <= first.value < primary + 10100;
  }

  lemma {:induction false} NoneIsFirst(primary: int, snap: set<int>)
    requires forall q | q in snap && primary + 10000 <= q < primary + 10100 :: false
    ensures FirstRunning(primary, snap, 0) == None
  {
  }

  method ResolveActivePorts(primary: int, metricsPort: int, snap: set<int>) returns (port: int, metrics: int)
    ensures port == ActivePort(primary, snap)
    ensures IsActiveMetricsPort(primary, metricsPort, snap, metrics)
  {
    port, metrics := primary, metricsPort;
    var swing, found := GetActiveSwingPort(primary, snap);
    if found {
      port, metrics := swing, swing + METRICS_OFFSET;
    }
  }

  /** The traffic service's own search: it finds the metrics port the container service
      names, on every listing. */
  method ResolveSwingMetricsPort(primary: int, metricsPort: int, snap: set<int>) returns (metrics: int)
    ensures IsActiveMetricsPort(primary, metricsPort, snap, metrics)
  {
    for i := 0 to SWING_WINDOW
      invariant forall q | q in snap && IsSwingPort(primary, q) :: primary + SWING_OFFSET + i <= q
    {
      var port := primary + SWING_OFFSET + i;
      if port in snap { return port + METRICS_OFFSET; }
    }
    return metricsPort;
  }

  class ContainerHost {
    var running: set<int>
    var rules: Rules

    /** iptables never holds a rule with a port it would refuse. */
    ghost predicate Valid()
      reads this
    {
      forall rule | rule in rules :: ValidPort(rule.0) && ValidPort(rule.1)
    }

    ghost function View(jobs: map<nat, Job>): State
      reads this
    {
      State(running, rules, jobs)
    }

    /** A query that fails finds no rule; only an impossible port is an error. */
    method HasPortRedirect(primary: int, port: int, asks: bool) returns (found: bool, ok: bool)
      ensures ok <==> 1 <= primary <= 65535 && 1 <= port <= 65535
      ensures found <==> ok && asks && (primary, port) in rules
    {
      if !ValidPort(primary) || !ValidPort(port) { return false, false; }
      found := asks && (primary, port) in rules;
      ok := true;
    }

    /** `asks` and `works` are whether iptables answers the query and carries out the change. */
    method AddPortRedirect(primary: int, port: int, asks: bool, works: bool) returns (ok: bool)
      modifies this`rules
      ensures ok <==> 1 <= primary <= 65535 && 1 <= port <= 65535 && (works || (asks && (primary, port) in old(rules)))
      ensures rules == if ok then old(rules) + {(primary, port)} else old(rules)
    {
      if !ValidPort(primary) || !ValidPort(port) { return false; }
      if asks && (primary, port) in rules { return true; }
      if !works { return false; }
      rules := rules + {(primary, port)};
      ok := true;
    }

    /** A rule it fails to see is left standing, without an error. */
    method RemovePortRedirect(primary: int, port: int, asks: bool, works: bool) returns (ok: bool)
      modifies this`rules
      ensures ok <==> 1 <= primary <= 65535 && 1 <= port <= 65535 && (works || !asks || (primary, port) !in old(rules))
      ensures rules == if ok && asks then old(rules) - {(primary, port)} else old(rules)
    {
      if !ValidPort(primary) || !ValidPort(port) { return false; }
      if !asks || (primary, port) !in rules { return true; }
      if !works { return false; }
      rules := rules - {(primary, port)};
      ok := true;
    }

    method FindFreeSwingPort(primary: int, free: set<int>) returns (port: int, metrics: int)
      ensures port == FreeSwingPort(primary, free, running, 0) && metrics == port + 100
    {
      for i := 0 to SWING_WINDOW
        invariant FreeSwingPort(primary, free, running, 0) == FreeSwingPort(primary, free, running, i)
      {
        port := primary + SWING_OFFSET + i;
        metrics := port + METRICS_OFFSET;
        if port !in free || metrics !in free { continue; }
        if port in running { continue; }
        return;
      }
      return primary + SWING_OFFSET, primary + SWING_OFFSET + METRICS_OFFSET;
    }

    /** `unseen` and `stuck` name the ports whose rule iptables fails to show, or to remove. */
    method CleanStalePortRedirects(primary: int, unseen: set<int>, stuck: set<int>)
      requires Valid()
      modifies this`rules
      ensures Valid()
      ensures rules == set rule | rule in old(rules) &&
                         !(rule.0 == primary && IsSwingPort(primary, rule.1) && rule.1 !in unseen + stuck)
    {
      for i := 0 to SWING_WINDOW
        invariant Valid()
        invariant rules == set rule | rule in old(rules) &&
                             !(rule.0 == primary && primary + SWING_OFFSET <= rule.1 < primary + SWING_OFFSET + i
                               && rule.1 !in unseen + stuck)
      {
        var port := primary + SWING_OFFSET + i;
        var redirected, ok := HasPortRedirect(primary, port, port !in unseen);
        if ok && redirected {
          var _ := RemovePortRedirect(primary, port, true, port !in stuck);
        }
      }
    }

    method ResolveSwingRoutingState(primary: int, snap: set<int>, free: set<int>, asks: bool, removes: bool)
      returns (r: Routing)
      requires Valid()
      modifies this`rules
      ensures Valid()
      ensures r == Resolve(primary, snap, running, SeenRules(old(rules), asks), free)
      ensures rules == RulesAfterResolve(primary, r, old(rules), removes)
    {
      var temp, swingRunning := GetActiveSwingPort(primary, snap);
      if !swingRunning {
        var freePort, _ := FindFreeSwingPort(primary, free);
        temp := freePort;
      }
      var redirectActive, ok := HasPortRedirect(primary, temp, asks);
      if !ok {
        redirectActive := false;
      }
      if !redirectActive {
        if temp in snap && primary !in snap {
          redirectActive := true;
        }
      }
      var target, draining := temp, primary;
      if redirectActive {
        target, draining := primary, temp;
      }
      var drainingRunning := draining in snap;
      if !drainingRunning {
        target := primary;
        var _ := RemovePortRedirect(primary, temp, true, removes);
      }
      r := Routing(target, draining, drainingRunning, redirectActive, temp);
    }

    /** An old container of that name is removed by force before the new one starts. */
    method RunInstance(port: int, started: bool)
      modifies this`running
      ensures running == if started then old(running) + {port} else old(running) - {port}
    {
      running := running - {port};
      if started {
        running := running + {port};
      }
    }

    method StartSwingDraining(primary: int, r: Routing, works: bool) returns (draining: Option<int>)
      requires Valid()
      modifies this`rules
      ensures Valid()
      ensures rules == RulesAfterFlip(primary, r, old(rules), works)
      ensures draining == if r.drainingRunning then Some(r.draining) else None
    {
      if !r.drainingRunning { return None; }
      ghost var rule := (primary, r.temp);
      assert if rule in rules then rules + {rule} == rules else rules - {rule} == rules;
      if r.redirectActive {
        var _ := RemovePortRedirect(primary, r.temp, true, works);
      } else {
        var _ := AddPortRedirect(primary, r.temp, true, works);
      }
      return Some(r.draining);
    }

    /** The draining loop polls every 5 seconds until the side is quiet, unreachable (`None`),
        or three minutes are over; `readings` are those of the ticks the timer leaves room
        for, one every 5 seconds.  Each way it ends, the container is stopped. */
    method Drain(port: int, readings: seq<Option<int>>, stops: bool) returns (ticks: nat)
      requires |readings| <= 3 * 60 / 5
      modifies this`running
      ensures ticks <= |readings|
      ensures forall i | 0 <= i < ticks :: readings[i].Some? && readings[i].value > 0
      ensures ticks < |readings| ==> readings[ticks].None? || readings[ticks].value <= 0
      ensures running == if stops then old(running) - {port} else old(running)
    {
      ticks := 0;
      while ticks < |readings|
        invariant ticks <= |readings|
        invariant forall i | 0 <= i < ticks :: readings[i].Some? && readings[i].value > 0
      {
        var conns := readings[ticks];
        if conns.None? || conns.value <= 0 { break; }
        ticks := ticks + 1;
      }
      if stops {
        running := running - {port};
      }
    }

    /** One undisturbed reload up to its drain, against the steps of the protocol. */
    method ReloadInstance(primary: int, free: set<int>, o: Outcome)
      returns (draining: Option<int>)
      requires Valid()
      modifies this
      ensures Valid()
      ensures var end := Replay(old(View(map[])), ReloadEvents(0, primary, free, o));
              && running == end.running && rules == end.rules
              && draining == if 0 in end.jobs && end.jobs[0].phase.Draining? then Some(end.jobs[0].phase.port) else None
    {
      var snap := if o.listed then running else {};
      var r := ResolveSwingRoutingState(primary, snap, free, o.asks, o.removes);
      ReplayReload(old(View(map[])), 0, primary, free, o);
      if !o.configured { return None; }
      RunInstance(r.target, o.started);
      if !o.started { return None; }
      draining := StartSwingDraining(primary, r, o.flipped);
    }

    /** The rule to the swing port found running, or else to the window's first port. */
    method DropActiveRedirect(primary: int, snap: set<int>, removes: bool)
      requires Valid()
      modifies this`rules
      ensures Valid()
      ensures rules == if removes then old(rules) - {(primary, RedirectPort(primary, snap))}
                       else old(rules)
    {
      var swing, found := GetActiveSwingPort(primary, snap);
      if found {
        var _ := RemovePortRedirect(primary, swing, true, removes);
      } else {
        var _ := RemovePortRedirect(primary, primary + SWING_OFFSET, true, removes);
      }
    }

    method StopInstance(primary: int, o: Stopping) returns (ok: bool)
      requires Valid()
      modifies this
      ensures Valid()
      ensures View(map[]) == AfterStop(old(View(map[])), primary, o)
      ensures ok == o.stops
    {
      var listed := if o.portListed then running else {};
      var name, _ := ResolveActivePorts(primary, 0, if o.nameListed then running else {});
      if o.stops {
        running := running - {name};
      }
      DropActiveRedirect(primary, listed, o.removes);
      ok := o.stops;
    }

    /** With no matching secret the start is refused before it touches anything. */
    method StartInstance(primary: int, matchingSecrets: nat, unseen: set<int>, stuck: set<int>, configured: bool, started: bool)
      returns (ok: bool)
      requires Valid()
      modifies this
      ensures Valid()
      ensures ok <==> matchingSecrets > 0 && configured && started
      ensures matchingSecrets == 0 ==> View(map[]) == old(View(map[]))
      ensures matchingSecrets > 0 && configured ==> View(map[]) == AfterStart(old(View(map[])), primary, started, unseen + stuck)
      ensures !configured ==> running == old(running)
    {
      if matchingSecrets == 0 { return false; }
      CleanStalePortRedirects(primary, unseen, stuck);
      if !configured { return false; }
      RunInstance(primary, started);
      ok := started;
    }
  }
}
