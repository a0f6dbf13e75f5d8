/**
 Swing routing: the zero-downtime reload protocol of the container service.

 An instance listens on its primary port.  A reload starts a second container on
 a port of the instance's swing window, redirects new connections to it with a
 NAT rule, and stops the old container once it has drained; the next reload swings
 back.  A container is named after its port, so the running containers are a set
 of ports, and a NAT rule is a (from, to) pair.

 `Next` gives the effect of every atomic step of the protocol, and a run
 interleaves the steps of any number of reload jobs, as the goroutines of a
 fleet-wide reload do.
 */
module SwingRouting {
  import opened Common

  const SWING_OFFSET := 10000
  const SWING_WINDOW := 100
  const METRICS_OFFSET := 100

  type Rules = set<(int, int)>

  predicate ValidPort(port: int) {
    1 <= port <= MAX_PORT
  }

  predicate IsSwingPort(primary: int, port: int) {
    primary + SWING_OFFSET <= port < primary + SWING_OFFSET + SWING_WINDOW
  }

  predicate Owns(primary: int, port: int) {
    port == primary || IsSwingPort(primary, port)
  }

  // ---------- searching the swing window ----------

  /** The first running container of the swing window, from offset `i` on. */
  function FirstRunning(primary: int, running: set<int>, i: nat): (r: Option<int>)
    requires i <= SWING_WINDOW
    ensures r.Some? ==> primary + SWING_OFFSET + i <= r.value && IsSwingPort(primary, r.value) && r.value in running
    ensures forall q :: primary + SWING_OFFSET + i <= q < (if r.Some? then r.value else primary + SWING_OFFSET + SWING_WINDOW)
                   ==> q !in running
    decreases SWING_WINDOW - i
  {
    if i == SWING_WINDOW then None
    else if primary + SWING_OFFSET + i in running then Some(primary + SWING_OFFSET + i)
    else FirstRunning(primary, running, i + 1)
  }

  predicate SwingPortUsable(port: int, free: set<int>, running: set<int>) {
    port in free && port + METRICS_OFFSET in free && port !in running
  }

  /** The first usable swing port from offset `i` on; the window's first port when there is none. */
  function FreeSwingPort(primary: int, free: set<int>, running: set<int>, i: nat): (port: int)
    requires i <= SWING_WINDOW
    ensures IsSwingPort(primary, port)
    ensures SwingPortUsable(port, free, running)
            || (port == primary + SWING_OFFSET
                && forall q :: primary + SWING_OFFSET + i <= q < primary + SWING_OFFSET + SWING_WINDOW
                          ==> !SwingPortUsable(q, free, running))
    ensures forall q :: primary + SWING_OFFSET + i <= q < port ==> !SwingPortUsable(q, free, running)
    decreases SWING_WINDOW - i
  {
    if i == SWING_WINDOW then primary + SWING_OFFSET
    else if SwingPortUsable(primary + SWING_OFFSET + i, free, running) then primary + SWING_OFFSET + i
    else FreeSwingPort(primary, free, running, i + 1)
  }

  /** In numbers: of the hundred ports from 10000 above the primary, the lowest that is free with
      the one 100 above it and not running; the first of them when there is none. */
  lemma {:induction false} FreeSwingPortIsLowest(primary: int, free: set<int>, running: set<int>)
    ensures var port := FreeSwingPort(primary, free, running, 0);
      && primary + 10000 <= port < primary + 10100
      && (forall q | primary + 10000 <= q < port :: !(q in free && q + 100 in free && q !in running))
      && ((port in free && port + 100 in free && port !in running)
          || (port == primary + 10000
              && forall q | primary + 10000 <= q < primary + 10100 :: !(q in free && q + 100 in free && q !in running)))
  {
    var port := FreeSwingPort(primary, free, running, 0);
    forall q | primary + 10000 <= q < port ensures !(q in free && q + 100 in free && q !in running) {
      assert !SwingPortUsable(q, free, running);
    }
    if !SwingPortUsable(port, free, running) {
      forall q | primary + 10000 <= q < primary + 10100 ensures !(q in free && q + 100 in free && q !in running) {
        assert !SwingPortUsable(q, free, running);
      }
    }
  }

  /** The port the panel, the stop operation and the metrics scraper believe to be serving. */
  function ActivePort(primary: int, running: set<int>): int {
    var swing := FirstRunning(primary, running, 0);
    if swing.Some? then swing.value else primary
  }

  /** The port whose rule a stop removes. */
  function RedirectPort(primary: int, running: set<int>): int {
    var swing := FirstRunning(primary, running, 0);
    if swing.Some? then swing.value else primary + SWING_OFFSET
  }

  // ---------- one reload's decision ----------

  datatype Routing = Routing(target: int, draining: int, drainingRunning: bool, redirectActive: bool, temp: int)

  /** What a reload decides from its listing `snap`, the rules it sees and the ports it finds free. */
  function Resolve(primary: int, snap: set<int>, running: set<int>, rules: Rules, free: set<int>): Routing {
    var swing := FirstRunning(primary, snap, 0);
    var temp := if swing.Some? then swing.value else FreeSwingPort(primary, free, running, 0);
    var active := (primary, temp) in rules || (temp in snap && primary !in snap);
    var draining := if active then temp else primary;
    var target := if active || draining !in snap then primary else temp;
    Routing(target, draining, draining in snap, active, temp)
  }

  /** A query of iptables that fails reads as no rule. */
  function SeenRules(rules: Rules, asks: bool): Rules {
    if asks then rules else {}
  }

  /** With nothing to drain, resolving also drops the rule of the swing port; whether that
      works is ignored. */
  function RulesAfterResolve(primary: int, r: Routing, rules: Rules, ok: bool): Rules {
    if r.drainingRunning || !ok then rules else rules - {(primary, r.temp)}
  }

  /** Rules after the flip.  A failed iptables call is logged and ignored, and a port
      beyond 65535 never gets as far as iptables. */
  function RulesAfterFlip(primary: int, r: Routing, rules: Rules, ok: bool): Rules {
    if !r.drainingRunning || !ok then rules
    else if r.redirectActive then rules - {(primary, r.temp)}
    else if ValidPort(primary) && ValidPort(r.temp) then rules + {(primary, r.temp)}
    else rules
  }

  /** The decision, by what is listed and seen.  Only with a container to drain does the swing
      port become the target. */
  lemma {:induction false} DecisionTable(p: int, snap: set<int>, running: set<int>, rules: Rules, free: set<int>)
    ensures var r, swing := Resolve(p, snap, running, rules, free), exists q :: q in snap && IsSwingPort(p, q);
      && IsSwingPort(p, r.temp)
      && (swing ==> r.temp in snap && forall q | q in snap && IsSwingPort(p, q) :: r.temp <= q)
      && (!swing ==> r.temp == FreeSwingPort(p, free, running, 0))
      && (swing && p !in snap ==> (r.target, r.draining, r.drainingRunning) == (p, r.temp, true))
      && (swing && p in snap && (p, r.temp) in rules ==> (r.target, r.draining, r.drainingRunning) == (p, r.temp, true))
      && (swing && p in snap && (p, r.temp) !in rules ==> (r.target, r.draining, r.drainingRunning) == (r.temp, p, true))
      && (!swing && p in snap && (p, r.temp) !in rules ==> (r.target, r.draining, r.drainingRunning) == (r.temp, p, true))
      && (!swing && (p !in snap || (p, r.temp) in rules) ==> r.target == p && !r.drainingRunning)
      && (r.drainingRunning ==> r.redirectActive == (r.target == p))
  {
  }

  // ---------- the transition system ----------

  datatype Phase =
    | Listed(snap: set<int>)    // running containers listed
    | Resolved(r: Routing)      // target and draining side chosen
    | Cleared(r: Routing)       // an old container of the target's name removed
    | Launched(r: Routing)      // target container started
    | Draining(port: int)       // rule flipped, waiting for `port` to go quiet

  datatype Job = Job(primary: int, phase: Phase)

  datatype State = State(running: set<int>, rules: Rules, jobs: map<nat, Job>)

  datatype Event =
    | Begin(id: nat, primary: int, listed: bool)  // a failed listing counts as an empty one
    | Settle(id: nat, free: set<int>, asks: bool, removes: bool)  // how its query and its removal of a rule go
    | Abort(id: nat)                              // the target's configuration could not be written
    | Clear(id: nat)
    | Launch(id: nat, ok: bool)
    | Flip(id: nat, ok: bool)
    | Tick(id: nat)                               // still connections on the draining side
    | Stop(id: nat, ok: bool)                     // drained, timed out, or metrics unreachable

  predicate CanOccur(s: State, e: Event) {
    match e
    case Begin(id, _, _) => id !in s.jobs
    case Settle(id, _, _, _) => id in s.jobs && s.jobs[id].phase.Listed?
    case Abort(id) => id in s.jobs && s.jobs[id].phase.Resolved?
    case Clear(id) => id in s.jobs && s.jobs[id].phase.Resolved?
    case Launch(id, _) => id in s.jobs && s.jobs[id].phase.Cleared?
    case Flip(id, _) => id in s.jobs && s.jobs[id].phase.Launched?
    case Tick(id) => id in s.jobs && s.jobs[id].phase.Draining?
    case Stop(id, _) => id in s.jobs && s.jobs[id].phase.Draining?
  }

  function Goto(s: State, id: nat, phase: Phase): State
    requires id in s.jobs
  {
    s.(jobs := s.jobs[id := Job(s.jobs[id].primary, phase)])
  }

  function Finish(s: State, id: nat): State {
    s.(jobs := map k | k in s.jobs && k != id :: s.jobs[k])
  }

  function Next(s: State, e: Event): State
    requires CanOccur(s, e)
  {
    match e
    case Begin(id, primary, listed) =>
      s.(jobs := s.jobs[id := Job(primary, Listed(if listed then s.running else {}))])
    case Settle(id, free, asks, removes) =>
      var p := s.jobs[id].primary;
      var r := Resolve(p, s.jobs[id].phase.snap, s.running, SeenRules(s.rules, asks), free);
      Goto(s.(rules := RulesAfterResolve(p, r, s.rules, removes)), id, Resolved(r))
    case Abort(id) => Finish(s, id)
    case Clear(id) =>
      var r := s.jobs[id].phase.r;
      Goto(s.(running := s.running - {r.target}), id, Cleared(r))
    case Launch(id, ok) =>
      var r := s.jobs[id].phase.r;
      if ok then Goto(s.(running := s.running + {r.target}), id, Launched(r)) else Finish(s, id)
    case Flip(id, ok) =>
      var p, r := s.jobs[id].primary, s.jobs[id].phase.r;
      var s' := s.(rules := RulesAfterFlip(p, r, s.rules, ok));
      if r.drainingRunning then Goto(s', id, Draining(r.draining)) else Finish(s', id)
    case Tick(id) => s
    case Stop(id, ok) =>
      var port := s.jobs[id].phase.port;
      Finish(if ok then s.(running := s.running - {port}) else s, id)
  }

  // ---------- what the protocol promises ----------

  ghost predicate HasRule(s: State, primary: int) {
    exists t :: (primary, t) in s.rules
  }

  /** New connections to `primary` may reach `port`. */
  ghost predicate Reaches(s: State, primary: int, port: int) {
    (primary, port) in s.rules || (port == primary && !HasRule(s, primary))
  }

  /** Wherever new connections to `primary` land, a container is running; they do land somewhere. */
  ghost predicate Available(s: State, primary: int) {
    && (exists port :: Reaches(s, primary, port))
    && forall port :: Reaches(s, primary, port) ==> port in s.running
  }

  // ---------- premises of a run ----------

  /** Primaries whose own ports do not collide and whose swing ports are real ports. */
  ghost predicate Separated(fleet: set<int>) {
    && (forall p | p in fleet :: 1 <= p && p + SWING_OFFSET + SWING_WINDOW <= MAX_PORT + 1)
    && (forall p, q | p in fleet && q in fleet && p != q ::
          !IsSwingPort(p, q) && (p + SWING_WINDOW <= q || q + SWING_WINDOW <= p))
  }

  /** No reload of an instance begins while an earlier one is under way or draining. */
  ghost predicate Serialised(s: State, e: Event) {
    e.Begin? ==> forall j | j in s.jobs :: s.jobs[j].primary != e.primary
  }

  predicate ListingWorks(e: Event) {
    e.Begin? ==> e.listed
  }

  /** A drained primary that would not stop runs beside the active swing container. */
  ghost predicate Doubled(s: State, p: int) {
    HasRule(s, p) && p in s.running
  }

  /** Flips work, and so does the query of the rules where it matters. */
  ghost predicate IptablesWorks(s: State, e: Event) {
    && (e.Flip? ==> e.ok)
    && (e.Settle? && e.id in s.jobs && Doubled(s, s.jobs[e.id].primary) ==> e.asks)
  }

  ghost predicate Benign(fleet: set<int>, s: State, e: Event) {
    && (e.Begin? ==> e.primary in fleet)
    && Serialised(s, e) && ListingWorks(e) && IptablesWorks(s, e)
  }

  ghost predicate AtPrimary(s: State, p: int) {
    && !HasRule(s, p)
    && forall q | Owns(p, q) :: q in s.running <==> q == p
  }

  ghost predicate AtSwing(s: State, p: int, t: int) {
    && IsSwingPort(p, t)
    && (forall u :: (p, u) in s.rules <==> u == t)
    && forall q | Owns(p, q) :: q in s.running <==> q == t
  }

  /** Exactly one container of the instance runs, and connections reach it. */
  ghost predicate Settled(s: State, p: int) {
    AtPrimary(s, p) || exists t :: AtSwing(s, p, t)
  }

  ghost predicate Quiescent(fleet: set<int>, s: State) {
    s.jobs == map[] && forall p | p in fleet :: Settled(s, p)
  }

  ghost predicate IsRun(trace: seq<State>, events: seq<Event>) {
    && |trace| == |events| + 1
    && forall i | 0 <= i < |events| :: CanOccur(trace[i], events[i]) && trace[i + 1] == Next(trace[i], events[i])
  }

  ghost predicate IsBenignRun(fleet: set<int>, trace: seq<State>, events: seq<Event>) {
    && IsRun(trace, events)
    && Quiescent(fleet, trace[0])
    && forall i | 0 <= i < |events| :: Benign(fleet, trace[i], events[i])
  }

  // ---------- the inductive invariant, instance by instance ----------

  ghost predicate Coherent(s: State, p: int, r: Routing) {
    && IsSwingPort(p, r.temp) && r.drainingRunning
    && if r.redirectActive then (p, r.temp) in s.rules && r.target == p && r.draining == r.temp
       else r.target == r.temp && r.draining == p && !HasRule(s, p)
            && forall q | q in s.running && IsSwingPort(p, q) :: q == r.temp
  }

  ghost predicate PhaseInv(s: State, p: int, phase: Phase) {
    match phase
    case Listed(snap) => forall q | Owns(p, q) :: q in snap <==> q in s.running
    case Resolved(r) => Coherent(s, p, r)
    case Cleared(r) => Coherent(s, p, r)
    case Launched(r) => Coherent(s, p, r) && r.target in s.running
    case Draining(port) => if port == p then HasRule(s, p) else IsSwingPort(p, port) && !HasRule(s, p)
  }

  ghost predicate RoutingInv(s: State, p: int) {
    && (forall q, t | q in s.running && t in s.running && IsSwingPort(p, q) && IsSwingPort(p, t) :: q == t)
    && (forall t | (p, t) in s.rules :: IsSwingPort(p, t) && t in s.running)
    && (HasRule(s, p) || p in s.running)
  }

  ghost predicate JobsInv(s: State, p: int) {
    && (forall j | j in s.jobs && s.jobs[j].primary == p :: PhaseInv(s, p, s.jobs[j].phase))
    && (forall j, k | j in s.jobs && k in s.jobs && s.jobs[j].primary == p && s.jobs[k].primary == p :: j == k)
  }

  ghost predicate InstanceInv(s: State, p: int) {
    RoutingInv(s, p) && JobsInv(s, p)
  }

  ghost predicate FleetInv(fleet: set<int>, s: State) {
    && (forall p | p in fleet :: InstanceInv(s, p))
    && (forall j | j in s.jobs :: s.jobs[j].primary in fleet)
  }

  function Actor(s: State, e: Event): int
    requires CanOccur(s, e)
  {
    if e.Begin? then e.primary else s.jobs[e.id].primary
  }

  /** A step of one instance leaves everything another instance owns as it was. */
  ghost predicate Untouched(s: State, s': State, p: int) {
    && (forall q | Owns(p, q) :: q in s'.running <==> q in s.running)
    && (forall t :: (p, t) in s'.rules <==> (p, t) in s.rules)
    && (forall j | j in s.jobs && s.jobs[j].primary == p :: j in s'.jobs && s'.jobs[j] == s.jobs[j])
    && (forall j | j in s'.jobs && s'.jobs[j].primary == p :: j in s.jobs && s'.jobs[j] == s.jobs[j])
  }

  /** A step changes only ports and rules of the instance it works for. */
  lemma StepChangesOwnPorts(s: State, e: Event)
    requires CanOccur(s, e) && InstanceInv(s, Actor(s, e))
    ensures forall q | !Owns(Actor(s, e), q) :: q in Next(s, e).running <==> q in s.running
    ensures forall p, t | p != Actor(s, e) :: (p, t) in Next(s, e).rules <==> (p, t) in s.rules
  {
    if !e.Begin? {
      assert PhaseInv(s, Actor(s, e), s.jobs[e.id].phase);
    }
  }

  lemma OwnPortsAreDisjoint(fleet: set<int>, p: int, a: int)
    requires Separated(fleet) && p in fleet && a in fleet && p != a
    ensures forall q | Owns(p, q) :: !Owns(a, q)
  {
  }

  lemma StepTouchesOneInstance(fleet: set<int>, s: State, e: Event, p: int)
    requires CanOccur(s, e) && InstanceInv(s, Actor(s, e))
    requires Separated(fleet) && p in fleet && Actor(s, e) in fleet && p != Actor(s, e)
    ensures Untouched(s, Next(s, e), p)
  {
    var s' := Next(s, e);
    StepChangesOwnPorts(s, e);
    OwnPortsAreDisjoint(fleet, p, Actor(s, e));
    assert forall q | Owns(p, q) :: q in s'.running <==> q in s.running;
  }

  lemma FrameInv(s: State, s': State, p: int)
    requires InstanceInv(s, p) && Untouched(s, s', p)
    ensures InstanceInv(s', p)
  {
    assert HasRule(s', p) <==> HasRule(s, p);
    assert RoutingInv(s', p);
    forall j | j in s'.jobs && s'.jobs[j].primary == p
      ensures PhaseInv(s', p, s'.jobs[j].phase)
    {
      assert PhaseInv(s, p, s.jobs[j].phase);
    }
  }

  /** The decision taken from an accurate listing matches the rules and the containers. */
  lemma ResolveIsCoherent(s: State, p: int, snap: set<int>, free: set<int>)
    requires RoutingInv(s, p) && PhaseInv(s, p, Listed(snap))
    ensures Coherent(s, p, Resolve(p, snap, s.running, s.rules, free))
  {
    var r := Resolve(p, snap, s.running, s.rules, free);
    assert Owns(p, p);
    if HasRule(s, p) {
      var t :| (p, t) in s.rules;
      assert Owns(p, t);
      assert r.temp == t;
    } else {
      assert (p, r.temp) !in s.rules;
      forall q | q in s.running && IsSwingPort(p, q)
        ensures q == r.temp
      {
        assert Owns(p, q);
      }
    }
  }

  lemma OwnStepKeepsInv(s: State, e: Event)
    requires CanOccur(s, e)
    requires var p := Actor(s, e);
             InstanceInv(s, p) && ValidPort(p) && p + SWING_OFFSET + SWING_WINDOW <= MAX_PORT + 1
    requires Serialised(s, e) && ListingWorks(e) && IptablesWorks(s, e)
    ensures InstanceInv(Next(s, e), Actor(s, e))
  {
    var p, s' := Actor(s, e), Next(s, e);
    if e.Begin? {
      assert HasRule(s', p) <==> HasRule(s, p);
      assert RoutingInv(s', p);
    } else if e.Settle? {
      SettleKeepsInv(s, e);
    } else if e.Flip? {
      FlipKeepsInv(s, e);
    } else {
      assert PhaseInv(s, p, s.jobs[e.id].phase);
      assert HasRule(s', p) <==> HasRule(s, p);
    }
  }

  lemma SettleKeepsInv(s: State, e: Event)
    requires CanOccur(s, e) && e.Settle? && IptablesWorks(s, e) && InstanceInv(s, Actor(s, e))
    ensures InstanceInv(Next(s, e), Actor(s, e)) && Next(s, e).rules == s.rules
  {
    var p, s' := Actor(s, e), Next(s, e);
    assert PhaseInv(s, p, s.jobs[e.id].phase);
    ResolveIsCoherent(s, p, s.jobs[e.id].phase.snap, e.free);
    if !e.asks { QueryIsNotNeeded(s, p, s.jobs[e.id].phase.snap, e.free); }
    assert HasRule(s', p) <==> HasRule(s, p);
  }

  /** The listing alone gives the decision away, unless both sides run with a rule set. */
  lemma QueryIsNotNeeded(s: State, p: int, snap: set<int>, free: set<int>)
    requires RoutingInv(s, p) && PhaseInv(s, p, Listed(snap)) && !Doubled(s, p)
    ensures Resolve(p, snap, s.running, {}, free) == Resolve(p, snap, s.running, s.rules, free)
  {
    assert Owns(p, p);
    if HasRule(s, p) {
      var t :| (p, t) in s.rules;
      assert Owns(p, t);
      assert FirstRunning(p, snap, 0) == Some(t) by { assert forall q | IsSwingPort(p, q) :: Owns(p, q); }
    }
  }

  lemma FlipKeepsInv(s: State, e: Event)
    requires CanOccur(s, e) && e.Flip? && e.ok
    requires var p := Actor(s, e);
             InstanceInv(s, p) && ValidPort(p) && p + SWING_OFFSET + SWING_WINDOW <= MAX_PORT + 1
    ensures InstanceInv(Next(s, e), Actor(s, e))
  {
    var p, s', r := Actor(s, e), Next(s, e), s.jobs[e.id].phase.r;
    assert PhaseInv(s, p, s.jobs[e.id].phase);
    if r.redirectActive {
      forall t ensures (p, t) !in s'.rules {
        if (p, t) in s.rules { assert t == r.temp; }
      }
    } else {
      assert (p, r.temp) in s'.rules;
    }
  }

  lemma StepKeepsInstance(fleet: set<int>, s: State, e: Event, p: int)
    requires CanOccur(s, e) && Benign(fleet, s, e) && InstanceInv(s, p) && InstanceInv(s, Actor(s, e))
    requires Separated(fleet) && p in fleet && Actor(s, e) in fleet
    ensures InstanceInv(Next(s, e), p)
  {
    if p == Actor(s, e) {
      OwnStepKeepsInv(s, e);
    } else {
      StepTouchesOneInstance(fleet, s, e, p);
      FrameInv(s, Next(s, e), p);
    }
  }

  lemma StepKeepsInv(fleet: set<int>, s: State, e: Event)
    requires Separated(fleet) && FleetInv(fleet, s) && CanOccur(s, e) && Benign(fleet, s, e)
    ensures FleetInv(fleet, Next(s, e))
  {
    forall p | p in fleet
      ensures InstanceInv(Next(s, e), p)
    {
      StepKeepsInstance(fleet, s, e, p);
    }
  }

  lemma SettledGivesInv(s: State, p: int)
    requires Settled(s, p) && s.jobs == map[]
    ensures InstanceInv(s, p) && Exact(s, p)
  {
    assert Owns(p, p);
    forall q | IsSwingPort(p, q) ensures Owns(p, q) {}
    if !AtPrimary(s, p) {
      var t :| AtSwing(s, p, t);
      assert (p, t) in s.rules;
    }
    ExactWithoutJob(s, p);
  }

  lemma {:induction false} RunKeepsInv(fleet: set<int>, trace: seq<State>, events: seq<Event>, n: nat)
    requires Separated(fleet) && IsBenignRun(fleet, trace, events) && n <= |events|
    ensures FleetInv(fleet, trace[n])
  {
    if n == 0 {
      forall p | p in fleet ensures InstanceInv(trace[0], p) {
        SettledGivesInv(trace[0], p);
      }
    } else {
      RunKeepsInv(fleet, trace, events, n - 1);
      StepKeepsInv(fleet, trace[n - 1], events[n - 1]);
    }
  }

  lemma InvGivesAvailability(s: State, p: int)
    requires RoutingInv(s, p)
    ensures Available(s, p)
  {
    if HasRule(s, p) {
      var t :| (p, t) in s.rules;
      assert Reaches(s, p, t);
    } else {
      assert Reaches(s, p, p);
    }
  }

  /**
   Availability.  In every state of every interleaving, whether or not containers start,
   configurations get written or drained containers stop, the port that new connections
   of every instance reach is a running container.
   */
  lemma AlwaysAvailable(fleet: set<int>, trace: seq<State>, events: seq<Event>, n: nat, p: int)
    requires Separated(fleet) && IsBenignRun(fleet, trace, events) && n <= |events| && p in fleet
    ensures Available(trace[n], p)
  {
    RunKeepsInv(fleet, trace, events, n);
    InvGivesAvailability(trace[n], p);
  }

  // ---------- active-port resolution against the real routing ----------

  ghost predicate StraySwing(s: State, p: int) {
    exists t :: IsSwingPort(p, t) && t in s.running && (p, t) !in s.rules
  }

  /** The resolvers name the port new connections reach, except exactly while a swing
      container runs without a rule to it. */
  lemma ResolutionMatchesRouting(s: State, p: int)
    requires RoutingInv(s, p)
    ensures Reaches(s, p, ActivePort(p, s.running)) <==> !StraySwing(s, p)
    ensures !StraySwing(s, p) ==> forall q :: Reaches(s, p, q) ==> q == ActivePort(p, s.running)
  {
    var a := ActivePort(p, s.running);
    if HasRule(s, p) {
      var t :| (p, t) in s.rules;
      assert a == t;
    } else if StraySwing(s, p) {
      var t :| IsSwingPort(p, t) && t in s.running && (p, t) !in s.rules;
      assert a == t;
    } else {
      assert a == p;
    }
  }

  lemma ReachableResolution(fleet: set<int>, trace: seq<State>, events: seq<Event>, n: nat, p: int)
    requires Separated(fleet) && IsBenignRun(fleet, trace, events) && n <= |events| && p in fleet
    ensures Reaches(trace[n], p, ActivePort(p, trace[n].running)) <==> !StraySwing(trace[n], p)
  {
    RunKeepsInv(fleet, trace, events, n);
    ResolutionMatchesRouting(trace[n], p);
  }

  // ---------- completed reloads alternate ----------

  /** Exactly the containers the protocol position calls for are running. */
  ghost predicate Exact(s: State, p: int) {
    forall q | Owns(p, q) :: q in s.running <==>
      Reaches(s, p, q) || exists j :: j in s.jobs && s.jobs[j].primary == p && Extra(s.jobs[j].phase, q)
  }

  predicate Extra(phase: Phase, q: int) {
    (phase.Launched? && q == phase.r.target) || (phase.Draining? && q == phase.port)
  }

  ghost predicate DrainPending(s: State, p: int) {
    exists j :: j in s.jobs && s.jobs[j].primary == p && s.jobs[j].phase.Draining?
  }

  function Finishes(p: int, s: State, e: Event): nat {
    if e.Stop? && CanOccur(s, e) && Actor(s, e) == p then 1 else 0
  }

  /** Drains of `p` finished within the first `n` steps. */
  function Completed(p: int, trace: seq<State>, events: seq<Event>, n: nat): nat
    requires n <= |events| && |trace| == |events| + 1
  {
    if n == 0 then 0 else Completed(p, trace, events, n - 1) + Finishes(p, trace[n - 1], events[n - 1])
  }

  /** The side connections reach, from the side of the start and the flips made since. */
  ghost predicate Parity(start: State, s: State, p: int, completed: nat) {
    HasRule(s, p) <==>
      ((if HasRule(start, p) then 1 else 0) + completed + (if DrainPending(s, p) then 1 else 0)) % 2 == 1
  }

  lemma FrameExact(start: State, s: State, s': State, p: int, completed: nat)
    requires Untouched(s, s', p)
    ensures Exact(s, p) ==> Exact(s', p)
    ensures Parity(start, s, p, completed) ==> Parity(start, s', p, completed)
  {
    assert HasRule(s', p) <==> HasRule(s, p);
    assert DrainPending(s', p) <==> DrainPending(s, p);
    if Exact(s, p) {
      forall q | Owns(p, q)
        ensures (exists j :: j in s.jobs && s.jobs[j].primary == p && Extra(s.jobs[j].phase, q))
           <==> (exists j :: j in s'.jobs && s'.jobs[j].primary == p && Extra(s'.jobs[j].phase, q))
      {
      }
    }
  }

  /** The container, if any, that job `j` adds to those connections reach. */
  ghost predicate ExactWith(s: State, p: int, phase: Phase) {
    forall q | Owns(p, q) :: q in s.running <==> Reaches(s, p, q) || Extra(phase, q)
  }

  lemma ExactOfJob(s: State, p: int, id: nat)
    requires JobsInv(s, p) && id in s.jobs && s.jobs[id].primary == p
    ensures Exact(s, p) <==> ExactWith(s, p, s.jobs[id].phase)
    ensures DrainPending(s, p) <==> s.jobs[id].phase.Draining?
  {
  }

  lemma ExactWithoutJob(s: State, p: int)
    requires forall j | j in s.jobs :: s.jobs[j].primary != p
    ensures Exact(s, p) <==> forall q | Owns(p, q) :: q in s.running <==> Reaches(s, p, q)
    ensures !DrainPending(s, p)
  {
  }

  lemma BeginKeepsExact(start: State, s: State, e: Event, completed: nat)
    requires CanOccur(s, e) && e.Begin? && Serialised(s, e) && e.listed
    requires InstanceInv(s, e.primary) && Exact(s, e.primary) && Parity(start, s, e.primary, completed)
    ensures Exact(Next(s, e), e.primary) && Parity(start, Next(s, e), e.primary, completed)
  {
    var p, s' := e.primary, Next(s, e);
    assert HasRule(s', p) <==> HasRule(s, p);
    ExactWithoutJob(s, p);
    assert JobsInv(s', p);
    ExactOfJob(s', p, e.id);
  }

  lemma FlipKeepsExact(start: State, s: State, e: Event, completed: nat)
    requires CanOccur(s, e) && e.Flip? && e.ok
    requires var p := Actor(s, e);
             InstanceInv(s, p) && Exact(s, p) && Parity(start, s, p, completed)
             && ValidPort(p) && p + SWING_OFFSET + SWING_WINDOW <= MAX_PORT + 1
    ensures Exact(Next(s, e), Actor(s, e)) && Parity(start, Next(s, e), Actor(s, e), completed)
  {
    var p, s', id := Actor(s, e), Next(s, e), e.id;
    var r := s.jobs[id].phase.r;
    assert PhaseInv(s, p, s.jobs[id].phase);
    ExactOfJob(s, p, id);
    FlipKeepsInv(s, e);
    ExactOfJob(s', p, id);
    if r.redirectActive {
      assert forall q | Reaches(s, p, q) :: q == r.temp;
      assert !HasRule(s', p);
    } else {
      assert (p, r.temp) in s'.rules;
      assert forall q | Reaches(s', p, q) :: q == r.temp;
    }
  }

  /** A step that moves no rule keeps where connections go. */
  lemma SameRulesSameRoute(s: State, s': State, p: int)
    requires s'.rules == s.rules
    ensures HasRule(s', p) <==> HasRule(s, p)
    ensures forall q :: Reaches(s', p, q) <==> Reaches(s, p, q)
  {
  }

  lemma StopKeepsExact(start: State, s: State, e: Event, completed: nat)
    requires CanOccur(s, e) && e.Stop? && e.ok
    requires var p := Actor(s, e);
             InstanceInv(s, p) && Exact(s, p) && Parity(start, s, p, completed)
    ensures Exact(Next(s, e), Actor(s, e))
    ensures Parity(start, Next(s, e), Actor(s, e), completed + 1)
  {
    var p, s', id := Actor(s, e), Next(s, e), e.id;
    assert PhaseInv(s, p, s.jobs[id].phase);
    SameRulesSameRoute(s, s', p);
    ExactOfJob(s, p, id);
    ExactWithoutJob(s', p);
  }

  lemma QuietStepKeepsExact(start: State, s: State, e: Event, completed: nat)
    requires CanOccur(s, e) && !e.Begin? && !e.Flip? && !e.Stop? && IptablesWorks(s, e)
    requires var p := Actor(s, e);
             InstanceInv(s, p) && Exact(s, p) && Parity(start, s, p, completed)
             && ValidPort(p) && p + SWING_OFFSET + SWING_WINDOW <= MAX_PORT + 1
    ensures Exact(Next(s, e), Actor(s, e))
    ensures Parity(start, Next(s, e), Actor(s, e), completed)
  {
    var p, s', id := Actor(s, e), Next(s, e), e.id;
    var phase := s.jobs[id].phase;
    assert PhaseInv(s, p, phase);
    if e.Settle? { ResolveIsCoherent(s, p, phase.snap, e.free); }
    SameRulesSameRoute(s, s', p);
    ExactOfJob(s, p, id);
    OwnStepKeepsInv(s, e);
    if id in s'.jobs { ExactOfJob(s', p, id); } else { ExactWithoutJob(s', p); }
  }

  lemma OwnStepKeepsExact(start: State, s: State, e: Event, completed: nat)
    requires CanOccur(s, e) && Serialised(s, e) && ListingWorks(e) && IptablesWorks(s, e) && (e.Stop? ==> e.ok)
    requires var p := Actor(s, e);
             InstanceInv(s, p) && Exact(s, p) && Parity(start, s, p, completed)
             && ValidPort(p) && p + SWING_OFFSET + SWING_WINDOW <= MAX_PORT + 1
    ensures Exact(Next(s, e), Actor(s, e))
    ensures Parity(start, Next(s, e), Actor(s, e), completed + if e.Stop? then 1 else 0)
  {
    if e.Begin? {
      BeginKeepsExact(start, s, e, completed);
    } else if e.Flip? {
      FlipKeepsExact(start, s, e, completed);
    } else if e.Stop? {
      StopKeepsExact(start, s, e, completed);
    } else {
      QuietStepKeepsExact(start, s, e, completed);
    }
  }

  lemma StepKeepsExact(fleet: set<int>, start: State, s: State, e: Event, p: int, completed: nat)
    requires CanOccur(s, e) && Benign(fleet, s, e) && (e.Stop? ==> e.ok)
    requires Separated(fleet) && p in fleet && Actor(s, e) in fleet && InstanceInv(s, Actor(s, e))
    requires Exact(s, p) && Parity(start, s, p, completed)
    ensures Exact(Next(s, e), p)
    ensures Parity(start, Next(s, e), p, completed + Finishes(p, s, e))
  {
    if p == Actor(s, e) {
      OwnStepKeepsExact(start, s, e, completed);
    } else {
      StepTouchesOneInstance(fleet, s, e, p);
      FrameExact(start, s, Next(s, e), p, completed);
    }
  }

  lemma BenignStep(fleet: set<int>, trace: seq<State>, events: seq<Event>, n: nat)
    requires Separated(fleet) && IsBenignRun(fleet, trace, events) && n < |events|
    ensures CanOccur(trace[n], events[n]) && Benign(fleet, trace[n], events[n])
    ensures Actor(trace[n], events[n]) in fleet && InstanceInv(trace[n], Actor(trace[n], events[n]))
    ensures trace[n + 1] == Next(trace[n], events[n])
  {
    RunKeepsInv(fleet, trace, events, n);
  }

  ghost predicate StopsSucceed(events: seq<Event>) {
    forall i | 0 <= i < |events| :: events[i].Stop? ==> events[i].ok
  }

  lemma StartIsExact(fleet: set<int>, s: State, p: int)
    requires Quiescent(fleet, s) && p in fleet
    ensures Exact(s, p) && Parity(s, s, p, 0)
  {
    SettledGivesInv(s, p);
    assert !DrainPending(s, p);
  }

  lemma {:induction false} RunKeepsExact(fleet: set<int>, trace: seq<State>, events: seq<Event>, n: nat, p: int)
    requires Separated(fleet) && IsBenignRun(fleet, trace, events) && n <= |events| && p in fleet
    requires StopsSucceed(events)
    ensures Exact(trace[n], p)
    ensures Parity(trace[0], trace[n], p, Completed(p, trace, events, n))
  {
    if n == 0 {
      StartIsExact(fleet, trace[0], p);
    } else {
      BenignStep(fleet, trace, events, n - 1);
      RunKeepsExact(fleet, trace, events, n - 1, p);
      StepKeepsExact(fleet, trace[0], trace[n - 1], events[n - 1], p, Completed(p, trace, events, n - 1));
    }
  }

  lemma ExactSettles(s: State, p: int)
    requires RoutingInv(s, p) && Exact(s, p)
    requires forall j | j in s.jobs :: s.jobs[j].primary != p
    ensures if HasRule(s, p) then exists t :: AtSwing(s, p, t) else AtPrimary(s, p)
  {
    ExactWithoutJob(s, p);
    if HasRule(s, p) {
      var t :| (p, t) in s.rules;
      assert AtSwing(s, p, t);
    }
  }

  lemma SettledSide(s: State, p: int)
    requires Settled(s, p)
    ensures AtPrimary(s, p) <==> !HasRule(s, p)
  {
    if !AtPrimary(s, p) {
      var t :| AtSwing(s, p, t);
      assert (p, t) in s.rules;
    }
  }

  lemma SideByParity(start: State, s: State, p: int, completed: nat)
    requires Settled(start, p) && RoutingInv(s, p) && Exact(s, p) && Parity(start, s, p, completed)
    requires forall j | j in s.jobs :: s.jobs[j].primary != p
    ensures if AtPrimary(start, p) == (completed % 2 == 0) then AtPrimary(s, p) else exists t :: AtSwing(s, p, t)
  {
    ExactSettles(s, p);
    ExactWithoutJob(s, p);
    SettledSide(start, p);
  }

  /**
   Alternation.  Over any interleaving in which drained containers do stop, an instance
   with no reload pending has exactly one container, and the side it is on is that of the
   start exactly after an even number of completed reloads.  Failed starts and aborted
   reloads do not count and change nothing.
   */
  lemma {:induction false} CompletedReloadsAlternate(fleet: set<int>, trace: seq<State>, events: seq<Event>, n: nat, p: int)
    requires Separated(fleet) && IsBenignRun(fleet, trace, events) && n <= |events| && p in fleet
    requires StopsSucceed(events)
    requires forall j | j in trace[n].jobs :: trace[n].jobs[j].primary != p
    ensures var start, even := AtPrimary(trace[0], p), Completed(p, trace, events, n) % 2 == 0;
            if start == even then AtPrimary(trace[n], p) else exists t :: AtSwing(trace[n], p, t)
  {
    RunKeepsInv(fleet, trace, events, n);
    RunKeepsExact(fleet, trace, events, n, p);
    assert Settled(trace[0], p);
    SideByParity(trace[0], trace[n], p, Completed(p, trace, events, n));
  }

  // ---------- stopping and starting an instance ----------

  /** How a stop goes: its two listings, for the rule's port and for the container's name, of
      which a failed one counts as empty; the container's stop; and the rule's removal. */
  datatype Stopping = Stopping(portListed: bool, nameListed: bool, stops: bool, removes: bool)

  function AfterStop(s: State, p: int, o: Stopping): State {
    var t := RedirectPort(p, if o.portListed then s.running else {});
    var name := ActivePort(p, if o.nameListed then s.running else {});
    s.(running := if o.stops then s.running - {name} else s.running,
       rules := if o.removes then s.rules - {(p, t)} else s.rules)
  }

  /** The window is cleared of rules, except those to the ports in `stuck`, which iptables
      fails to show or to remove. */
  function AfterStart(s: State, p: int, ok: bool, stuck: set<int>): State {
    s.(running := if ok then s.running + {p} else s.running - {p},
       rules := set rule | rule in s.rules && !(rule.0 == p && IsSwingPort(p, rule.1) && rule.1 !in stuck))
  }

  /** The stop takes the active container and not just the primary's name. */
  ghost predicate StopsActive(s: State, p: int, o: Stopping) {
    o.stops && (AtPrimary(s, p) || o.nameListed)
  }

  /** The stop leaves no rule: there was none, or the one it removes is the one there was. */
  ghost predicate StopsRedirect(s: State, p: int, o: Stopping) {
    AtPrimary(s, p) || (o.removes && (o.portListed || AtSwing(s, p, p + SWING_OFFSET)))
  }

  lemma {:induction false} NothingListed(p: int)
    ensures FirstRunning(p, {}, 0) == None && ActivePort(p, {}) == p
  {
  }

  lemma StopFromPrimary(s: State, p: int, o: Stopping)
    requires AtPrimary(s, p)
    ensures var s' := AfterStop(s, p, o);
            !HasRule(s', p) && forall q | Owns(p, q) :: q in s'.running <==> q == p && !o.stops
  {
    assert Owns(p, p);
    forall q | IsSwingPort(p, q) ensures q !in s.running { assert Owns(p, q); }
    NothingListed(p);
  }

  lemma StopFromSwing(s: State, p: int, t: int, o: Stopping)
    requires AtSwing(s, p, t)
    ensures var s' := AfterStop(s, p, o);
            && (forall q | Owns(p, q) :: q in s'.running <==> q == t && !(o.stops && o.nameListed))
            && (forall u :: (p, u) in s'.rules <==> u == t && !(o.removes && (o.portListed || t == p + SWING_OFFSET)))
  {
    assert Owns(p, p) && Owns(p, t);
    assert FirstRunning(p, s.running, 0) == Some(t) by {
      assert forall q | IsSwingPort(p, q) :: Owns(p, q);
    }
    NothingListed(p);
  }

  /** From either settled side, for each way the stop goes: no container is left exactly if the
      active one is stopped, no rule exactly if its removal meets the rule there was. */
  lemma StopLeavesNothing(s: State, p: int, o: Stopping)
    requires Settled(s, p)
    ensures var s' := AfterStop(s, p, o);
            && ((forall q | Owns(p, q) :: q !in s'.running) <==> StopsActive(s, p, o))
            && (!HasRule(s', p) <==> StopsRedirect(s, p, o))
  {
    assert Owns(p, p);
    if AtPrimary(s, p) {
      StopFromPrimary(s, p, o);
    } else {
      var t :| AtSwing(s, p, t);
      assert Owns(p, t) && (p, t) in s.rules;
      StopFromSwing(s, p, t, o);
    }
  }

  /** A start undoes whatever rules earlier reloads left in the window.  The instance serves
      exactly if every rule that stays leads to a swing container that still runs. */
  lemma StartEndsOnPrimary(s: State, p: int, stuck: set<int>)
    requires forall t | (p, t) in s.rules :: IsSwingPort(p, t)
    ensures var s' := AfterStart(s, p, true, stuck);
            && p in s'.running
            && (!HasRule(s', p) <==> forall t | (p, t) in s.rules :: t !in stuck)
            && (Available(s', p) <==> forall t | (p, t) in s.rules && t in stuck :: t in s.running)
  {
    var s' := AfterStart(s, p, true, stuck);
    assert forall t :: (p, t) in s'.rules <==> (p, t) in s.rules && t in stuck;
    if t :| (p, t) in s'.rules {
      assert Reaches(s', p, t);
    } else {
      assert Reaches(s', p, p);
    }
    forall t | (p, t) in s.rules && t in stuck && Available(s', p) ensures t in s.running {
      assert Reaches(s', p, t);
    }
  }

  ghost predicate Unstuck(s: State, p: int, stuck: set<int>) {
    forall t | AtSwing(s, p, t) :: t !in stuck
  }

  /** A restart from either side.  It settles on the primary exactly if the swing container, when
      there is one, stops and its rule goes at either of two attempts; it loses service exactly
      if that container stops and its rule stays. */
  lemma RestartSettlesOnPrimary(s: State, p: int, o: Stopping, stuck: set<int>)
    requires Settled(s, p)
    ensures var s' := AfterStart(AfterStop(s, p, o), p, true, stuck);
            var freed := StopsRedirect(s, p, o) || Unstuck(s, p, stuck);
            && (AtPrimary(s', p) <==> AtPrimary(s, p) || (StopsActive(s, p, o) && freed))
            && (Available(s', p) <==> !StopsActive(s, p, o) || freed)
  {
    assert Owns(p, p);
    if AtPrimary(s, p) {
      StopFromPrimary(s, p, o);
      StartEndsOnPrimary(AfterStop(s, p, o), p, stuck);
    } else {
      var t :| AtSwing(s, p, t);
      RestartFromSwing(s, p, t, o, stuck);
    }
  }

  lemma RestartFromSwing(s: State, p: int, t: int, o: Stopping, stuck: set<int>)
    requires AtSwing(s, p, t)
    ensures var s' := AfterStart(AfterStop(s, p, o), p, true, stuck);
            var freed := StopsRedirect(s, p, o) || Unstuck(s, p, stuck);
            && (AtPrimary(s', p) <==> StopsActive(s, p, o) && freed)
            && (Available(s', p) <==> !StopsActive(s, p, o) || freed)
  {
    var s1 := AfterStop(s, p, o);
    var s' := AfterStart(s1, p, true, stuck);
    assert (p, t) in s.rules && Owns(p, t);
    assert forall u | AtSwing(s, p, u) :: (p, u) in s.rules;
    StopFromSwing(s, p, t, o);
    StartEndsOnPrimary(s1, p, stuck);
    assert t in s'.running <==> !StopsActive(s, p, o);
    assert (p, t) in s1.rules <==> !StopsRedirect(s, p, o);
    assert HasRule(s', p) <==> (p, t) in s1.rules && t in stuck;
  }

  // ---------- each premise is needed ----------

  /** Replays the events that can occur, in order. */
  function Replay(s: State, events: seq<Event>): State
    decreases |events|
  {
    if events == [] then s
    else Replay(if CanOccur(s, events[0]) then Next(s, events[0]) else s, events[1..])
  }

  lemma {:induction false} ReplayOne(s: State, e: Event, rest: seq<Event>)
    requires CanOccur(s, e)
    ensures Replay(s, [e] + rest) == Replay(Next(s, e), rest)
  {
    assert ([e] + rest)[1..] == rest;
  }

  lemma {:induction false} ReplayAppend(s: State, a: seq<Event>, b: seq<Event>)
    ensures Replay(s, a + b) == Replay(Replay(s, a), b)
    decreases |a|
  {
    if a == [] {
      assert a + b == b;
    } else {
      assert (a + b)[1..] == a[1..] + b;
      ReplayAppend(if CanOccur(s, a[0]) then Next(s, a[0]) else s, a[1..], b);
    }
  }

  /** How everything a reload depends on turns out: the listing, the query and the removal of a
      rule, the configuration, the start, and the flip. */
  datatype Outcome = Outcome(listed: bool, asks: bool, removes: bool, configured: bool, started: bool, flipped: bool)

  /** A reload job up to its drain. */
  function ReloadEvents(id: nat, p: int, free: set<int>, o: Outcome): seq<Event> {
    [Begin(id, p, o.listed), Settle(id, free, o.asks, o.removes)] +
    if o.configured then [Clear(id), Launch(id, o.started), Flip(id, o.flipped)] else [Abort(id)]
  }

  function UntilDrain(id: nat, p: int, free: set<int>, flipped: bool): seq<Event> {
    ReloadEvents(id, p, free, Outcome(true, true, true, true, true, flipped))
  }

  /** The decision of a reload that nothing disturbs. */
  function Decision(s: State, p: int, free: set<int>, o: Outcome): Routing {
    Resolve(p, if o.listed then s.running else {}, s.running, SeenRules(s.rules, o.asks), free)
  }

  /** What a reload that nothing disturbs does, in closed form. */
  lemma {:induction false} ReplayReload(s: State, id: nat, p: int, free: set<int>, o: Outcome)
    requires id !in s.jobs
    ensures var r := Decision(s, p, free, o);
            var rules := RulesAfterResolve(p, r, s.rules, o.removes);
            Replay(s, ReloadEvents(id, p, free, o)) ==
            if !o.configured then State(s.running, rules, s.jobs)
            else if !o.started then State(s.running - {r.target}, rules, s.jobs)
            else State(s.running + {r.target}, RulesAfterFlip(p, r, rules, o.flipped),
                       if r.drainingRunning then s.jobs[id := Job(p, Draining(r.draining))] else s.jobs)
  {
    var r := Decision(s, p, free, o);
    var e := ReloadEvents(id, p, free, o);
    var s2 := State(s.running, RulesAfterResolve(p, r, s.rules, o.removes), s.jobs[id := Job(p, Resolved(r))]);
    ReplaySettle(s, id, p, free, o, e[2..]);
    assert [e[0], e[1]] + e[2..] == e;
    if o.configured {
      ReplayLaunch(s2, id, s.jobs, p, r, o.started, o.flipped);
    } else {
      ReplayOne(s2, Abort(id), []);
      assert Next(s2, Abort(id)).jobs == s.jobs;
    }
  }

  lemma {:induction false} ReplaySettle(s: State, id: nat, p: int, free: set<int>, o: Outcome, rest: seq<Event>)
    requires id !in s.jobs
    ensures var r := Decision(s, p, free, o);
            Replay(s, [Begin(id, p, o.listed), Settle(id, free, o.asks, o.removes)] + rest) ==
            Replay(State(s.running, RulesAfterResolve(p, r, s.rules, o.removes), s.jobs[id := Job(p, Resolved(r))]), rest)
  {
    var e1, e2 := Begin(id, p, o.listed), Settle(id, free, o.asks, o.removes);
    assert [e1, e2] + rest == [e1] + ([e2] + rest);
    ReplayOne(s, e1, [e2] + rest);
    ReplayOne(Next(s, e1), e2, rest);
    assert s.jobs[id := Next(s, e1).jobs[id]][id := Next(Next(s, e1), e2).jobs[id]] == s.jobs[id := Next(Next(s, e1), e2).jobs[id]];
  }

  lemma {:induction false} ReplayLaunch(s: State, id: nat, jobs: map<nat, Job>, p: int, r: Routing, started: bool, flipped: bool)
    requires id !in jobs && s.jobs == jobs[id := Job(p, Resolved(r))]
    ensures Replay(s, [Clear(id), Launch(id, started), Flip(id, flipped)]) ==
            if !started then State(s.running - {r.target}, s.rules, jobs)
            else State(s.running + {r.target}, RulesAfterFlip(p, r, s.rules, flipped),
                       if r.drainingRunning then jobs[id := Job(p, Draining(r.draining))] else jobs)
  {
    var s1 := Next(s, Clear(id));
    var s2 := Next(s1, Launch(id, started));
    ReplayOne(s, Clear(id), [Launch(id, started), Flip(id, flipped)]);
    ReplayOne(s1, Launch(id, started), [Flip(id, flipped)]);
    if started {
      assert s2 == State(s.running + {r.target}, s.rules, jobs[id := Job(p, Launched(r))]);
      var s3 := Next(s2, Flip(id, flipped));
      ReplayOne(s2, Flip(id, flipped), []);
      assert r.drainingRunning || s3.jobs == jobs;
    } else {
      assert s2.jobs == jobs;
    }
  }

  lemma {:induction false} PrimaryResolves(s: State, p: int, free: set<int>)
    requires AtPrimary(s, p)
    ensures var t := FreeSwingPort(p, free, s.running, 0);
            Resolve(p, s.running, s.running, s.rules, free) == Routing(t, p, true, false, t)
            && t !in s.running && t != p && FirstRunning(p, s.running, 0) == None
  {
    var t := FreeSwingPort(p, free, s.running, 0);
    assert Owns(p, p) && Owns(p, t);
    forall q | IsSwingPort(p, q) ensures q !in s.running { assert Owns(p, q); }
    assert (p, t) !in s.rules;
  }

  lemma SwingResolves(s: State, p: int, t: int, free: set<int>)
    requires AtSwing(s, p, t)
    ensures Resolve(p, s.running, s.running, s.rules, free) == Routing(p, t, true, true, t)
            && t in s.running && t != p && p !in s.running
  {
    assert Owns(p, p) && Owns(p, t);
    assert FirstRunning(p, s.running, 0) == Some(t) by {
      assert forall q | IsSwingPort(p, q) :: Owns(p, q);
    }
  }

  /** A reload that nothing disturbs, its drain included. */
  function FullReload(id: nat, p: int, free: set<int>, ok: bool): seq<Event> {
    UntilDrain(id, p, free, ok) + [Stop(id, true)]
  }

  lemma {:induction false} ReplayFullReload(s: State, id: nat, p: int, free: set<int>, ok: bool)
    requires s.jobs == map[] && Resolve(p, s.running, s.running, s.rules, free).drainingRunning
    ensures var r := Resolve(p, s.running, s.running, s.rules, free);
            var s' := Replay(s, FullReload(id, p, free, ok));
            s'.running == s.running + {r.target} - {r.draining} && s'.rules == RulesAfterFlip(p, r, s.rules, ok)
  {
    ReplayReload(s, id, p, free, Outcome(true, true, true, true, true, ok));
    var d := Replay(s, UntilDrain(id, p, free, ok));
    ReplayAppend(s, UntilDrain(id, p, free, ok), [Stop(id, true)]);
    ReplayOne(d, Stop(id, true), []);
  }

  lemma {:induction false} FromPrimary(s: State, id: nat, p: int, free: set<int>, ok: bool)
    requires AtPrimary(s, p) && s.jobs == map[] && ValidPort(p)
    ensures var s' := Replay(s, FullReload(id, p, free, ok));
            Available(s', p) <==> ok && ValidPort(FreeSwingPort(p, free, s.running, 0))
  {
    var t := FreeSwingPort(p, free, s.running, 0);
    PrimaryResolves(s, p, free);
    ReplayFullReload(s, id, p, free, ok);
    var s' := Replay(s, FullReload(id, p, free, ok));
    if ok && ValidPort(t) {
      assert Reaches(s', p, t);
    } else {
      assert !HasRule(s', p);
      assert Reaches(s', p, p);
    }
  }

  lemma {:induction false} FromSwing(s: State, id: nat, p: int, t: int, free: set<int>, ok: bool)
    requires AtSwing(s, p, t) && s.jobs == map[]
    ensures Available(Replay(s, FullReload(id, p, free, ok)), p) <==> ok
  {
    SwingResolves(s, p, t, free);
    ReplayFullReload(s, id, p, free, ok);
    var s' := Replay(s, FullReload(id, p, free, ok));
    if ok {
      assert !HasRule(s', p);
      assert Reaches(s', p, p);
    } else {
      assert (p, t) in s'.rules;
      assert Reaches(s', p, t);
    }
  }

  /**
   The flip's outcome is ignored by the code, so it alone decides whether the instance
   survives the drain that follows: from either side iptables must succeed, and on the way
   to the swing side the swing port must be a real port, which a primary above 55535 never
   offers.
   */
  lemma {:induction false} ReloadKeepsServiceIffRuleLands(s: State, id: nat, p: int, free: set<int>, ok: bool)
    requires Settled(s, p) && s.jobs == map[] && ValidPort(p)
    ensures var s' := Replay(s, FullReload(id, p, free, ok));
            && (Available(s', p) <==> ok && (AtPrimary(s, p) ==> ValidPort(FreeSwingPort(p, free, s.running, 0))))
            && (AtPrimary(s, p) && p > MAX_PORT - SWING_OFFSET ==> !Available(s', p))
  {
    if AtPrimary(s, p) {
      FromPrimary(s, id, p, free, ok);
    } else {
      var t :| AtSwing(s, p, t);
      FromSwing(s, id, p, t, free, ok);
    }
  }

  /** The instance has no container. */
  predicate Idle(s: State, p: int) {
    forall q | q in s.running :: !Owns(p, q)
  }

  /**
   A reload of an instance nothing of which runs, whatever else runs and whatever rules there
   are: it starts the primary and drains nothing.  Connections reach a container exactly when
   every rule that is left leads to one; so where rules only lead into the swing window,
   exactly when the only rule there was, if any, is the one the reload removes.
   */
  lemma {:induction false} IdleReloadStartsPrimary(s: State, id: nat, p: int, free: set<int>, o: Outcome)
    requires Idle(s, p) && id !in s.jobs && o.configured && o.started
    ensures var s', f := Replay(s, ReloadEvents(id, p, free, o)), FreeSwingPort(p, free, s.running, 0);
      && s'.running == s.running + {p} && s'.jobs == s.jobs
      && s'.rules == (if o.removes then s.rules - {(p, f)} else s.rules)
      && (Available(s', p) <==> forall t | (p, t) in s.rules && !(o.removes && t == f) :: t == p || t in s.running)
      && ((forall t | (p, t) in s.rules :: IsSwingPort(p, t)) ==>
            (Available(s', p) <==> forall t | (p, t) in s.rules :: o.removes && t == f))
  {
    var snap := if o.listed then s.running else {};
    ReplayReload(s, id, p, free, o);
    DecisionTable(p, snap, s.running, SeenRules(s.rules, o.asks), free);
    assert Owns(p, p);
    assert !exists q :: q in snap && IsSwingPort(p, q) by {
      forall q | q in snap ensures !IsSwingPort(p, q) { assert !Owns(p, q); }
    }
    IdleAvailable(s, Replay(s, ReloadEvents(id, p, free, o)), p, FreeSwingPort(p, free, s.running, 0), o.removes);
  }

  lemma IdleAvailable(s: State, s': State, p: int, f: int, removes: bool)
    requires Idle(s, p) && s'.running == s.running + {p}
    requires s'.rules == if removes then s.rules - {(p, f)} else s.rules
    ensures Available(s', p) <==> forall t | (p, t) in s.rules && !(removes && t == f) :: t == p || t in s.running
    ensures (forall t | (p, t) in s.rules :: IsSwingPort(p, t)) ==>
              (Available(s', p) <==> forall t | (p, t) in s.rules :: removes && t == f)
  {
    assert forall t :: (p, t) in s'.rules <==> (p, t) in s.rules && !(removes && t == f);
    if t :| (p, t) in s'.rules {
      assert Reaches(s', p, t);
    } else {
      assert Reaches(s', p, p);
    }
    forall t | Available(s', p) && (p, t) in s'.rules ensures t in s'.running {
      assert Reaches(s', p, t);
    }
    forall t | IsSwingPort(p, t) ensures t !in s.running && t != p {
      assert Owns(p, t);
    }
  }

  /**
   A drained container that will not stop does not hold the job: the reload is over, and both
   containers run.  Coming from the primary that is the one state in which a failed query of
   the rules matters; coming from the swing side it leaves a swing container no rule leads to,
   which the resolvers take for the active one.
   */
  lemma {:induction false} UnstoppedDrainLeavesBoth(s: State, id: nat, p: int, free: set<int>)
    requires Settled(s, p) && s.jobs == map[] && ValidPort(p) && p + SWING_OFFSET + SWING_WINDOW <= MAX_PORT + 1
    ensures var s' := Replay(s, UntilDrain(id, p, free, true) + [Stop(id, false)]);
            && s'.jobs == map[] && p in s'.running && s.running <= s'.running
            && (AtPrimary(s, p) ==> Doubled(s', p))
            && (!AtPrimary(s, p) ==> !HasRule(s', p) && StraySwing(s', p))
  {
    var o := Outcome(true, true, true, true, true, true);
    var d := Replay(s, UntilDrain(id, p, free, true));
    ReplayReload(s, id, p, free, o);
    ReplayAppend(s, UntilDrain(id, p, free, true), [Stop(id, false)]);
    assert Owns(p, p);
    if AtPrimary(s, p) {
      PrimaryResolves(s, p, free);
      assert (p, FreeSwingPort(p, free, s.running, 0)) in d.rules;
    } else {
      var t :| AtSwing(s, p, t);
      SwingResolves(s, p, t, free);
      assert (p, t) !in d.rules && t in d.running;
    }
    ReplayOne(d, Stop(id, false), []);
    assert Next(d, Stop(id, false)).jobs == map[];
  }

  /** A listing that fails counts as empty.  The reload then takes the running side for stopped:
      it removes the primary, or drops the rule of the swing port its search for a free one
      falls back on.  Service goes on exactly where that is another port than the active one,
      or the rule cannot be removed. */
  lemma {:induction false} FailedListingInterruptsService(s: State, id: nat, p: int, free: set<int>, asks: bool, removes: bool)
    requires Settled(s, p) && s.jobs == map[]
    ensures var s' := Replay(s, [Begin(id, p, false), Settle(id, free, asks, removes), Clear(id)]);
            Available(s', p) <==> exists t :: AtSwing(s, p, t) && (FreeSwingPort(p, free, s.running, 0) != t || !removes)
  {
    UnlistedReload(s, id, p, free, asks, removes);
    var s' := Replay(s, [Begin(id, p, false), Settle(id, free, asks, removes), Clear(id)]);
    if AtPrimary(s, p) {
      assert !HasRule(s', p);
      assert Reaches(s', p, p);
      assert forall t :: !AtSwing(s, p, t) by { assert forall t | AtSwing(s, p, t) :: (p, t) in s.rules; }
    } else {
      var t :| AtSwing(s, p, t);
      UnlistedFromSwing(s, s', p, t, removes, FreeSwingPort(p, free, s.running, 0));
      assert forall u | AtSwing(s, p, u) :: (p, u) in s.rules;
    }
  }

  /** It takes the primary's place and gives up the rule to the port it finds free. */
  lemma {:induction false} UnlistedReload(s: State, id: nat, p: int, free: set<int>, asks: bool, removes: bool)
    requires id !in s.jobs
    ensures var s' := Replay(s, [Begin(id, p, false), Settle(id, free, asks, removes), Clear(id)]);
            && s'.running == s.running - {p}
            && s'.rules == if removes then s.rules - {(p, FreeSwingPort(p, free, s.running, 0))} else s.rules
  {
    NothingListed(p);
    ReplayThree(s, id, p, free, Outcome(false, asks, removes, true, true, true));
  }

  lemma UnlistedFromSwing(s: State, s': State, p: int, t: int, removes: bool, f: int)
    requires AtSwing(s, p, t) && s'.running == s.running - {p}
    requires s'.rules == if removes then s.rules - {(p, f)} else s.rules
    ensures Available(s', p) <==> f != t || !removes
  {
    assert Owns(p, p) && Owns(p, t);
    if f != t || !removes {
      assert Reaches(s', p, t);
    } else {
      assert !HasRule(s', p);
      assert Reaches(s', p, p);
    }
  }

  lemma {:induction false} ReplayThree(s: State, id: nat, p: int, free: set<int>, o: Outcome)
    requires id !in s.jobs
    ensures var r := Decision(s, p, free, o);
            var s' := Replay(s, [Begin(id, p, o.listed), Settle(id, free, o.asks, o.removes), Clear(id)]);
            s'.running == s.running - {r.target} && s'.rules == RulesAfterResolve(p, r, s.rules, o.removes)
  {
    var r := Decision(s, p, free, o);
    var es := [Begin(id, p, o.listed), Settle(id, free, o.asks, o.removes)];
    assert es + [Clear(id)] == [es[0], es[1], Clear(id)];
    ReplaySettle(s, id, p, free, o, [Clear(id)]);
    ReplayOne(State(s.running, RulesAfterResolve(p, r, s.rules, o.removes), s.jobs[id := Job(p, Resolved(r))]), Clear(id), []);
  }

  /** A query of iptables that fails reads as no rule.  That matters exactly while a drained
      primary that would not stop runs beside the active swing container, which the reload then
      removes. */
  lemma {:induction false} FailedQueryInterruptsIff(s: State, id: nat, p: int, free: set<int>, removes: bool)
    requires RoutingInv(s, p) && id !in s.jobs
    ensures var s' := Replay(s, [Begin(id, p, true), Settle(id, free, false, removes), Clear(id)]);
            Available(s', p) <==> !Doubled(s, p)
  {
    var r := Resolve(p, s.running, s.running, {}, free);
    ReplayThree(s, id, p, free, Outcome(true, false, removes, true, true, true));
    var s' := Replay(s, [Begin(id, p, true), Settle(id, free, false, removes), Clear(id)]);
    assert r.drainingRunning && s'.rules == s.rules && s'.running == s.running - {r.target};
    if HasRule(s, p) {
      var t :| (p, t) in s.rules;
      assert r.temp == t && Reaches(s', p, t);
    } else {
      assert r.target != p && Reaches(s', p, p);
    }
  }

  // ---------- overlapping reloads of one instance ----------

  /** Two reloads of one instance from where the first begins to drain: the jobs, what the
      second decides, and what runs and is redirected by then. */
  datatype Overlap = Overlap(i: nat, j: nat, p: int, r: Routing, running: set<int>, rules: Rules)

  /** The second goes back to the side the first is about to stop. */
  ghost predicate Crossed(w: Overlap) {
    var r := w.r;
    && w.i != w.j && ValidPort(w.p) && IsSwingPort(w.p, r.temp) && ValidPort(r.temp)
    && r == (if r.redirectActive then Routing(w.p, r.temp, true, true, r.temp) else Routing(r.temp, w.p, true, false, r.temp))
    && (forall q | Owns(w.p, q) :: q in w.running <==> q == w.p || q == r.temp)
    && (forall t :: (w.p, t) in w.rules <==> r.redirectActive && t == r.temp)
  }

  /** The second reload's steps, its drain included, with the first one's stop after `k` of them. */
  function Interleaved(i: nat, j: nat, p: int, free: set<int>, k: nat): seq<Event>
    requires k <= 6
  {
    var second := FullReload(j, p, free, true);
    second[..k] + [Stop(i, true)] + second[k..]
  }

  /** The second reload's phase after `m` of its steps. */
  function PhaseAt(w: Overlap, m: nat): Phase {
    match m
    case 1 => Listed(w.running)
    case 2 => Resolved(w.r)
    case 3 => Cleared(w.r)
    case 4 => Launched(w.r)
    case _ => Draining(w.r.draining)
  }

  function JobsAt(w: Overlap, m: nat, stopped: bool): map<nat, Job> {
    var first := if stopped then map[] else map[w.i := Job(w.p, Draining(w.r.target))];
    if m == 0 || m >= 6 then first else first[w.j := Job(w.p, PhaseAt(w, m))]
  }

  /** The container both reloads are about is there until it is stopped or cleared, and again
      from the launch on unless the stop comes only then. */
  predicate TargetRuns(m: nat, k: nat, stopped: bool) {
    if m < 3 then !stopped else m > 3 && !(stopped && k > 3)
  }

  /** The state after `n` steps of `Interleaved`. */
  function StateAt(w: Overlap, k: nat, n: nat): State {
    var stopped := n > k;
    var m := if stopped then n - 1 else n;
    var running := if TargetRuns(m, k, stopped) then w.running + {w.r.target} else w.running - {w.r.target};
    State(if m >= 6 then running - {w.r.draining} else running,
          if m >= 5 then RulesAfterFlip(w.p, w.r, w.rules, true) else w.rules,
          JobsAt(w, m, stopped))
  }

  lemma FirstStops(w: Overlap, k: nat)
    requires Crossed(w) && 1 <= k <= 6
    ensures CanOccur(StateAt(w, k, k), Stop(w.i, true))
    ensures Next(StateAt(w, k, k), Stop(w.i, true)) == StateAt(w, k, k + 1)
  {
    var s, s' := StateAt(w, k, k), StateAt(w, k, k + 1);
    assert Next(s, Stop(w.i, true)).jobs == s'.jobs;
    assert Next(s, Stop(w.i, true)).running == s'.running;
  }

  lemma SecondSettles(w: Overlap, free: set<int>, running: set<int>)
    requires Crossed(w)
    ensures Resolve(w.p, w.running, running, w.rules, free) == w.r
  {
    assert Owns(w.p, w.p) && Owns(w.p, w.r.temp);
    assert FirstRunning(w.p, w.running, 0) == Some(w.r.temp) by {
      assert forall q | IsSwingPort(w.p, q) :: Owns(w.p, q);
    }
  }

  function SecondStep(w: Overlap, free: set<int>, m: nat): Event
    requires m <= 5
  {
    FullReload(w.j, w.p, free, true)[m]
  }

  lemma SecondOpens(w: Overlap, free: set<int>, k: nat, n: nat)
    requires Crossed(w) && 1 <= k <= 6 && n != k
    requires (if n < k then n else n - 1) <= 2
    ensures var e := SecondStep(w, free, if n < k then n else n - 1);
            CanOccur(StateAt(w, k, n), e) && Next(StateAt(w, k, n), e) == StateAt(w, k, n + 1)
  {
    var s, s', m := StateAt(w, k, n), StateAt(w, k, n + 1), if n < k then n else n - 1;
    var e := SecondStep(w, free, m);
    if e.Settle? { SecondSettles(w, free, s.running); }
    assert Owns(w.p, w.p) && Owns(w.p, w.r.temp);
    assert w.running + {w.r.target} == w.running;
    assert Next(s, e).jobs == s'.jobs;
  }

  lemma SecondCloses(w: Overlap, free: set<int>, k: nat, n: nat)
    requires Crossed(w) && 1 <= k <= 6 && n <= 6 && n != k
    requires 3 <= (if n < k then n else n - 1)
    ensures var e := SecondStep(w, free, if n < k then n else n - 1);
            CanOccur(StateAt(w, k, n), e) && Next(StateAt(w, k, n), e) == StateAt(w, k, n + 1)
  {
    var s, s', m := StateAt(w, k, n), StateAt(w, k, n + 1), if n < k then n else n - 1;
    var e := SecondStep(w, free, m);
    assert Next(s, e).jobs == s'.jobs;
    assert Next(s, e).running == s'.running;
  }

  lemma OverlapSteps(w: Overlap, free: set<int>, k: nat, n: nat)
    requires Crossed(w) && 1 <= k <= 6 && n <= 6
    ensures var e := Interleaved(w.i, w.j, w.p, free, k)[n];
            CanOccur(StateAt(w, k, n), e) && Next(StateAt(w, k, n), e) == StateAt(w, k, n + 1)
  {
    if n == k {
      FirstStops(w, k);
    } else if (if n < k then n else n - 1) <= 2 {
      SecondOpens(w, free, k, n);
    } else {
      SecondCloses(w, free, k, n);
    }
  }

  lemma {:induction false} ReplayOverlap(w: Overlap, free: set<int>, k: nat, n: nat)
    requires Crossed(w) && 1 <= k <= 6 && n <= 7
    ensures Replay(StateAt(w, k, 0), Interleaved(w.i, w.j, w.p, free, k)[..n]) == StateAt(w, k, n)
  {
    var es := Interleaved(w.i, w.j, w.p, free, k);
    if n > 0 {
      var s := StateAt(w, k, n - 1);
      ReplayOverlap(w, free, k, n - 1);
      OverlapSteps(w, free, k, n - 1);
      assert es[..n] == es[..n - 1] + [es[n - 1]];
      ReplayAppend(StateAt(w, k, 0), es[..n - 1], [es[n - 1]]);
      ReplayOne(s, es[n - 1], []);
    }
  }

  /** Connections reach the draining side until the flip and the target from then on. */
  lemma OverlapAvailable(w: Overlap, k: nat, n: nat)
    requires Crossed(w) && 1 <= k <= 6 && n <= 7
    ensures var m := if n > k then n - 1 else n;
            Available(StateAt(w, k, n), w.p) <==> m < 5 || TargetRuns(m, k, n > k)
  {
    var s, m := StateAt(w, k, n), if n > k then n - 1 else n;
    var q := if m < 5 then w.r.draining else w.r.target;
    assert Owns(w.p, w.p) && Owns(w.p, w.r.temp);
    assert w.r.redirectActive == (m < 5) ==> (w.p, w.r.temp) in s.rules;
    assert forall port :: Reaches(s, w.p, port) <==> port == q;
    assert Reaches(s, w.p, q);
    assert q in s.running <==> m < 5 || TargetRuns(m, k, n > k);
  }

  lemma OverlapEnds(w: Overlap, k: nat)
    requires Crossed(w) && 1 <= k <= 6
    ensures var end := StateAt(w, k, 7);
            if k > 3 then (forall q | Owns(w.p, q) :: q !in end.running) && (HasRule(end, w.p) <==> !w.r.redirectActive)
            else if w.r.redirectActive then AtPrimary(end, w.p) else AtSwing(end, w.p, w.r.temp)
  {
    var end := StateAt(w, k, 7);
    assert !w.r.redirectActive ==> (w.p, w.r.temp) in end.rules;
  }

  /** From either settled side, a reload that drains leaves a second one to cross it. */
  lemma FirstDrains(s: State, i: nat, j: nat, p: int, free: set<int>) returns (w: Overlap)
    requires Settled(s, p) && s.jobs == map[] && i != j
    requires ValidPort(p) && p + SWING_OFFSET + SWING_WINDOW <= MAX_PORT + 1
    ensures Crossed(w) && w.i == i && w.j == j && w.p == p && w.r.redirectActive == AtPrimary(s, p)
    ensures !AtPrimary(s, p) ==> AtSwing(s, p, w.r.temp)
    ensures forall k | 1 <= k <= 6 :: Replay(s, UntilDrain(i, p, free, true)) == StateAt(w, k, 0)
  {
    var d := Replay(s, UntilDrain(i, p, free, true));
    ReplayReload(s, i, p, free, Outcome(true, true, true, true, true, true));
    assert Owns(p, p);
    if AtPrimary(s, p) {
      PrimaryResolves(s, p, free);
      var t := FreeSwingPort(p, free, s.running, 0);
      assert Owns(p, t);
      w := Overlap(i, j, p, Routing(p, t, true, true, t), d.running, d.rules);
    } else {
      var t :| AtSwing(s, p, t);
      SwingResolves(s, p, t, free);
      assert Owns(p, t);
      w := Overlap(i, j, p, Routing(t, p, true, false, t), d.running, d.rules);
    }
    assert d.running + {w.r.target} == d.running;
    assert d.jobs == map[i := Job(p, Draining(w.r.target))];
  }

  /**
   Overlapping reloads.  A second reload begins while the first one's drain is due to stop the
   very side the second returns to.  From either settled side, service goes on through every
   step if and only if that stop comes before the second one's launch, the fourth of its steps;
   the instance then ends on the side it started from.  Otherwise none of its containers is
   left, and from the swing side the rule to a dead port stays.
   */
  lemma {:induction false} OverlapKeepsServiceIff(s: State, i: nat, j: nat, p: int, free: set<int>, free': set<int>, k: nat)
    requires Settled(s, p) && s.jobs == map[] && i != j && 1 <= k <= 6
    requires ValidPort(p) && p + SWING_OFFSET + SWING_WINDOW <= MAX_PORT + 1
    ensures var d, rest := Replay(s, UntilDrain(i, p, free, true)), Interleaved(i, j, p, free', k);
            var end := Replay(s, UntilDrain(i, p, free, true) + rest);
            && ((forall n | 0 <= n <= |rest| :: Available(Replay(d, rest[..n]), p)) <==> k <= 3)
            && (if k <= 3 then if AtPrimary(s, p) then AtPrimary(end, p) else exists t :: AtSwing(s, p, t) && AtSwing(end, p, t)
                else !Available(end, p) && (forall q | Owns(p, q) :: q !in end.running) && (HasRule(end, p) <==> !AtPrimary(s, p)))
  {
    var d, rest := Replay(s, UntilDrain(i, p, free, true)), Interleaved(i, j, p, free', k);
    var w := FirstDrains(s, i, j, p, free);
    ReplayAppend(s, UntilDrain(i, p, free, true), rest);
    forall n | 0 <= n <= |rest|
      ensures Replay(d, rest[..n]) == StateAt(w, k, n)
      ensures Available(Replay(d, rest[..n]), p) <==> (if n > k then n - 1 else n) < 5 || TargetRuns(if n > k then n - 1 else n, k, n > k)
    {
      ReplayOverlap(w, free', k, n);
      OverlapAvailable(w, k, n);
    }
    assert rest[..7] == rest;
    OverlapEnds(w, k);
  }
}
