/** The controller object: its fields are updated in place by the handlers, each proved against ControllerSpec. */
module ControllerObject {
  import opened Options
  import opened ControllerSpec

  // ---------------------------------------------------------------- NewController's checks

  datatype ConfigError =
    | SeededBadStatus(path: PathName)
    | SeededInFlight(stage: StageName)
    | SeededBadDesired(stage: StageName)
    | SeededBadActual(stage: StageName)
    | RouteFromUnknownPath(event: PathEvent)
    | RouteFromBadStatus(event: PathEvent)
    | PathRouteBroken(event: PathEvent)
    | CommandRouteBroken(command: ControlCommand)
    | TimeoutNotPositive

  /** What is wrong with a configuration. */
  predicate IsError(cfg: Config, s: State, e: ConfigError) {
    match e
    case SeededBadStatus(p) => p in s.paths && !s.paths[p].Valid()
    case SeededInFlight(n) => n in s.stages && s.stages[n].inFlightSince.Some?
    case SeededBadDesired(n) => n in s.stages && !s.stages[n].status.desired.Valid()
    case SeededBadActual(n) => n in s.stages && !s.stages[n].status.actual.Valid()
    case RouteFromUnknownPath(r) => r in cfg.pathEventRoutes && r.path !in s.paths
    case RouteFromBadStatus(r) => r in cfg.pathEventRoutes && !r.status.Valid()
    case PathRouteBroken(r) => r in cfg.pathEventRoutes && !Targets(cfg.pathEventRoutes[r], s)
    case CommandRouteBroken(c) => c in cfg.commandRoutes && !Targets(cfg.commandRoutes[c], s)
    case TimeoutNotPositive => cfg.inflightTimeout <= 0
  }

  /** A configuration without an error is exactly a valid seed. */
  lemma NoErrorIsValid(cfg: Config, s: State)
    requires s.listeners == []
    ensures (forall e :: !IsError(cfg, s, e)) <==> ValidSeed(cfg, s)
  {
    if forall e :: !IsError(cfg, s, e) {
      forall p | p in s.paths ensures s.paths[p].Valid() { assert !IsError(cfg, s, SeededBadStatus(p)); }
      forall n | n in s.stages
        ensures s.stages[n].inFlightSince.None? && s.stages[n].status.desired.Valid() && s.stages[n].status.actual.Valid()
      {
        assert !IsError(cfg, s, SeededInFlight(n)) && !IsError(cfg, s, SeededBadDesired(n)) && !IsError(cfg, s, SeededBadActual(n));
      }
      forall r | r in cfg.pathEventRoutes
        ensures r.path in s.paths && r.status.Valid() && Targets(cfg.pathEventRoutes[r], s)
      {
        assert !IsError(cfg, s, RouteFromUnknownPath(r)) && !IsError(cfg, s, RouteFromBadStatus(r)) && !IsError(cfg, s, PathRouteBroken(r));
      }
      forall c | c in cfg.commandRoutes ensures Targets(cfg.commandRoutes[c], s) { assert !IsError(cfg, s, CommandRouteBroken(c)); }
      assert !IsError(cfg, s, TimeoutNotPositive);
    }
  }

  /** Collects every error, and nothing else. */
  method CheckConfig(cfg: Config, s: State) returns (errs: set<ConfigError>)
    ensures forall e :: e in errs <==> IsError(cfg, s, e)
    ensures s.listeners == [] ==> (errs == {} <==> ValidSeed(cfg, s))
  {
    NoErrorIsValidIfEmpty(cfg, s);
    var paths := CheckPaths(cfg, s);
    var stages := CheckStages(cfg, s);
    var events := CheckPathRoutes(cfg, s);
    var commands := CheckCommandRoutes(cfg, s);
    errs := paths + stages + events + commands + if cfg.inflightTimeout <= 0 then {TimeoutNotPositive} else {};
  }

  lemma NoErrorIsValidIfEmpty(cfg: Config, s: State)
    ensures s.listeners == [] ==> ((forall e :: !IsError(cfg, s, e)) <==> ValidSeed(cfg, s))
  {
    if s.listeners == [] {
      NoErrorIsValid(cfg, s);
    }
  }

  method CheckPaths(cfg: Config, s: State) returns (errs: set<ConfigError>)
    ensures forall e :: e in errs <==> e.SeededBadStatus? && IsError(cfg, s, e)
  {
    errs := {};
    var todo := s.paths.Keys;
    while todo != {}
      invariant todo <= s.paths.Keys
      invariant forall e :: e in errs <==> e.SeededBadStatus? && IsError(cfg, s, e) && e.path !in todo
    {
      var p :| p in todo;
      if !s.paths[p].Valid() { errs := errs + {SeededBadStatus(p)}; }
      todo := todo - {p};
    }
  }

  method CheckStages(cfg: Config, s: State) returns (errs: set<ConfigError>)
    ensures forall e :: e in errs <==> (e.SeededInFlight? || e.SeededBadDesired? || e.SeededBadActual?) && IsError(cfg, s, e)
  {
    errs := {};
    var todo := s.stages.Keys;
    while todo != {}
      invariant todo <= s.stages.Keys
      invariant forall e :: e in errs <==>
        (e.SeededInFlight? || e.SeededBadDesired? || e.SeededBadActual?) && IsError(cfg, s, e) && e.stage !in todo
    {
      var n :| n in todo;
      if s.stages[n].inFlightSince.Some? { errs := errs + {SeededInFlight(n)}; }
      if !s.stages[n].status.desired.Valid() { errs := errs + {SeededBadDesired(n)}; }
      if !s.stages[n].status.actual.Valid() { errs := errs + {SeededBadActual(n)}; }
      todo := todo - {n};
    }
  }

  method CheckPathRoutes(cfg: Config, s: State) returns (errs: set<ConfigError>)
    ensures forall e :: e in errs <==>
      (e.RouteFromUnknownPath? || e.RouteFromBadStatus? || e.PathRouteBroken?) && IsError(cfg, s, e)
  {
    errs := {};
    var todo := cfg.pathEventRoutes.Keys;
    while todo != {}
      invariant todo <= cfg.pathEventRoutes.Keys
      invariant forall e :: e in errs <==>
        (e.RouteFromUnknownPath? || e.RouteFromBadStatus? || e.PathRouteBroken?) && IsError(cfg, s, e) && e.event !in todo
    {
      var r :| r in todo;
      if r.path !in s.paths { errs := errs + {RouteFromUnknownPath(r)}; }
      if !r.status.Valid() { errs := errs + {RouteFromBadStatus(r)}; }
      if !Targets(cfg.pathEventRoutes[r], s) { errs := errs + {PathRouteBroken(r)}; }
      todo := todo - {r};
    }
  }

  method CheckCommandRoutes(cfg: Config, s: State) returns (errs: set<ConfigError>)
    ensures forall e :: e in errs <==> e.CommandRouteBroken? && IsError(cfg, s, e)
  {
    errs := {};
    var todo := cfg.commandRoutes.Keys;
    while todo != {}
      invariant todo <= cfg.commandRoutes.Keys
      invariant forall e :: e in errs <==> e.CommandRouteBroken? && IsError(cfg, s, e) && e.command !in todo
    {
      var c :| c in todo;
      if !Targets(cfg.commandRoutes[c], s) { errs := errs + {CommandRouteBroken(c)}; }
      todo := todo - {c};
    }
  }

  // ---------------------------------------------------------------- the object

  /** The listener calls an effect stands for. */
  function CallsOf(r: Effect): (cs: seq<(ListenerId, Snapshot)>) {
    CallAll(r.calls, StatusOf(r.state))
  }

  function CallAll(ls: seq<ListenerId>, snapshot: Snapshot): (cs: seq<(ListenerId, Snapshot)>) {
    seq(|ls|, i requires 0 <= i < |ls| => (ls[i], snapshot))
  }

  /** The goroutines a pass starts: one, for the desired state, per launching stage, and no other. */
  ghost predicate OncePerLaunch(ls: seq<(StageName, StageState)>, stages: map<StageName, Stage>, timeout: int, rs: Readings)
    requires rs.Keys <= stages.Keys
  {
    forall l :: multiset(ls)[l] == (if l.0 in rs && Launches(stages[l.0], timeout, rs[l.0]) && l.1 == stages[l.0].status.desired then 1 else 0)
  }

  lemma NoLaunch(stages: map<StageName, Stage>, timeout: int)
    ensures OncePerLaunch([], stages, timeout, map[])
  {
  }

  lemma OneMore(ls: seq<(StageName, StageState)>, stages: map<StageName, Stage>, timeout: int, rs: Readings, n: StageName, r: Reading)
    requires rs.Keys <= stages.Keys && n in stages && n !in rs && OncePerLaunch(ls, stages, timeout, rs)
    ensures OncePerLaunch(if Launches(stages[n], timeout, r) then ls + [(n, stages[n].status.desired)] else ls, stages, timeout, rs[n := r])
  {
    hide Launches;
  }

  class Controller {
    const cfg: Config
    var paths: map<PathName, PathStatus>
    var stages: map<StageName, Stage>
    var listeners: seq<ListenerId>
    var told: seq<(ListenerId, Snapshot)>       // the listener calls made so far
    var launched: seq<(StageName, StageState)>  // the operation goroutines started so far
    var waitGroup: nat
    var clock: Time

    function Current(): (s: State)
      reads this
    {
      State(paths, stages, listeners)
    }

    ghost predicate Valid()
      reads this
    {
      Wired(cfg, Current())
    }

    constructor (cfg: Config, seed: State, now: Time)
      requires ValidSeed(cfg, seed)
      ensures Valid() && Current() == seed && this.cfg == cfg
      ensures told == [] && launched == [] && waitGroup == 0 && clock == now
    {
      this.cfg := cfg;
      paths, stages, listeners := seed.paths, seed.stages, seed.listeners;
      told, launched, waitGroup, clock := [], [], 0, now;
    }

    method Status() returns (snapshot: Snapshot)
      ensures snapshot == StatusOf(Current())
    {
      var out: map<StageName, StageStatus> := map[];
      var todo := stages.Keys;
      while todo != {}
        invariant todo <= stages.Keys
        invariant out == map n | n in stages.Keys - todo :: stages[n].status
      {
        var n :| n in todo;
        out := out[n := stages[n].status];
        todo := todo - {n};
      }
      assert out == StatusOf(Current()).stages;
      snapshot := Snapshot(paths, out);
    }

    method NotifyListeners()
      modifies this`told
      ensures told == old(told) + CallAll(listeners, StatusOf(Current()))
    {
      if |listeners| == 0 {
        return;
      }
      var snapshot := Status();
      var i := 0;
      while i < |listeners|
        invariant 0 <= i <= |listeners|
        invariant told == old(told) + CallAll(listeners[..i], snapshot)
      {
        told := told + [(listeners[i], snapshot)];
        assert CallAll(listeners[..i + 1], snapshot) == CallAll(listeners[..i], snapshot) + [(listeners[i], snapshot)];
        i := i + 1;
      }
      assert listeners[..i] == listeners;
    }

    method ApplyDesiredStageTarget(t: StageTarget) returns (reply: Reply)
      requires t.stage in stages
      modifies this`stages, this`told
      ensures var r := ApplyTarget(old(Current()), t);
        Current() == r.state && reply == r.reply && told == old(told) + CallsOf(r)
    {
      if stages[t.stage].status.desired == t.state {
        return Done;
      }
      if !t.prerequisite(Current()) {
        return Failed(PrerequisiteNotMet);
      }
      stages := stages[t.stage := stages[t.stage].(status := stages[t.stage].status.(desired := t.state))];
      NotifyListeners();
      return Done;
    }

    method OnControl(cmd: ControlCommand) returns (reply: Reply)
      requires Valid()
      modifies this`stages, this`told
      ensures Valid()
      ensures var r := HandleControl(cfg, old(Current()), cmd);
        Current() == r.state && reply == r.reply && told == old(told) + CallsOf(r)
    {
      HandleKeepsShape(cfg, Current(), Entry(Action.OnControl(cmd), map[]));
      if cmd !in cfg.commandRoutes {
        return Failed(UnknownCommand);
      }
      assert Targets(cfg.commandRoutes[cmd], Current());
      reply := ApplyDesiredStageTarget(cfg.commandRoutes[cmd]);
    }

    method OnPathEvent(e: PathEvent) returns (reply: Reply)
      requires Valid()
      modifies this`paths, this`stages, this`told
      ensures Valid()
      ensures var r := HandlePathEvent(cfg, old(Current()), e);
        Current() == r.state && reply == r.reply && told == old(told) + CallsOf(r)
    {
      HandleKeepsShape(cfg, Current(), Entry(OnPath(e), map[]));
      if e.path !in paths {
        return Failed(UnknownPath);
      }
      if !e.status.Valid() {
        return Failed(InvalidPathStatus);
      }
      assert e in cfg.pathEventRoutes ==> Targets(cfg.pathEventRoutes[e], Current());
      paths := paths[e.path := e.status];
      if e !in cfg.pathEventRoutes {
        return Done;
      }
      reply := ApplyDesiredStageTarget(cfg.pathEventRoutes[e]);
    }

    method OnStageEvent(e: StageEvent) returns (reply: Reply)
      requires Valid()
      modifies this`stages, this`told
      ensures Valid()
      ensures var r := HandleStageEvent(old(Current()), e);
        Current() == r.state && reply == r.reply && told == old(told) + CallsOf(r)
    {
      HandleKeepsShape(cfg, Current(), Entry(OnStage(e), map[]));
      if e.stage !in stages {
        return Failed(UnknownStage);
      }
      if !e.state.Valid() {
        return Failed(InvalidStageState);
      }
      var stage := stages[e.stage];
      var changed := stage.status.actual != e.state;
      stages := stages[e.stage := stage.(status := stage.status.(actual := e.state), inFlightSince := None)];
      if changed {
        NotifyListeners();
      }
      return Done;
    }

    method OnAddListener(l: Option<ListenerId>) returns (reply: Reply)
      requires Valid()
      modifies this`listeners, this`told
      ensures Valid()
      ensures var r := HandleAddListener(old(Current()), l);
        Current() == r.state && reply == r.reply && told == old(told) + CallsOf(r)
    {
      HandleKeepsShape(cfg, Current(), Entry(AddListener(l), map[]));
      if l.None? {
        return Failed(NilListener);
      }
      listeners := listeners + [l.value];
      var snapshot := Status();
      told := told + [(l.value, snapshot)];
      return Done;
    }

    method OnRemoveListener(l: ListenerId) returns (reply: Reply)
      requires Valid()
      modifies this`listeners
      ensures Valid()
      ensures var r := HandleRemoveListener(old(Current()), l); Current() == r.state && reply == r.reply
    {
      HandleKeepsShape(cfg, Current(), Entry(RemoveListener(l), map[]));
      var i := 0;
      while i < |listeners|
        invariant 0 <= i <= |listeners| && listeners == old(listeners)
        invariant forall j :: 0 <= j < i ==> listeners[j] != l
      {
        if listeners[i] == l {
          listeners := listeners[..i] + listeners[i + 1..];
          return Done;
        }
        i := i + 1;
      }
      return Failed(NotRegistered);
    }

    /** A failed operation's clear; it names the stage, not the launch it belongs to. */
    method OnClear(n: StageName)
      requires Valid() && n in stages
      modifies this`stages
      ensures Valid() && Current() == HandleClear(old(Current()), n).state
    {
      HandleKeepsShape(cfg, Current(), Entry(ClearInFlight(n), map[]));
      stages := stages[n := stages[n].(inFlightSince := None)];
    }

    /** The wall clock: any time that is not before the last reading. */
    method Now() returns (t: Time)
      modifies this`clock
      ensures old(clock) <= t == clock
    {
      var elapsed: nat :| true;
      clock := clock + elapsed;
      t := clock;
    }

    /**
     * One pass over the stages in whatever order the map yields them. It computes ReconcilePass for
     * the clock as it read it, and starts exactly one goroutine for every stage that launches.
     */
    method OnReconcile() returns (ghost rs: Readings)
      requires Valid()
      modifies this`stages, this`launched, this`waitGroup, this`clock
      ensures Valid() && rs.Keys == old(stages).Keys && old(clock) <= clock
      ensures forall n :: n in rs ==> old(clock) <= rs[n].check <= rs[n].launch <= clock
      ensures Current() == ReconcilePass(old(Current()), cfg.inflightTimeout, rs)
      ensures old(launched) <= launched
      ensures waitGroup - old(waitGroup) == |launched| - |old(launched)|
      ensures OncePerLaunch(launched[|old(launched)|..], old(stages), cfg.inflightTimeout, rs)
    {
      hide OncePerLaunch, Launches, ReconcileStage, Wired;
      ghost var before := stages;
      ghost var fresh_: seq<(StageName, StageState)> := [];
      rs := map[];
      NoLaunch(before, cfg.inflightTimeout);
      var todo := stages.Keys;
      while todo != {}
        invariant todo <= before.Keys && rs.Keys == before.Keys - todo && old(clock) <= clock
        invariant forall n :: n in rs ==> old(clock) <= rs[n].check <= rs[n].launch <= clock
        invariant stages == map n | n in before :: if n in rs then ReconcileStage(before[n], cfg.inflightTimeout, rs[n]) else before[n]
        invariant launched == old(launched) + fresh_ && waitGroup == old(waitGroup) + |fresh_|
        invariant OncePerLaunch(fresh_, before, cfg.inflightTimeout, rs)
      {
        var n :| n in todo;
        var launch, check := ReconcileOne(n);
        OneMore(fresh_, before, cfg.inflightTimeout, rs, n, Reading(check, launch));
        rs := rs[n := Reading(check, launch)];
        if Launches(before[n], cfg.inflightTimeout, rs[n]) {
          fresh_ := fresh_ + [(n, before[n].status.desired)];
        }
        todo := todo - {n};
      }
      assert stages == ReconcilePass(old(Current()), cfg.inflightTimeout, rs).stages;
      assert launched[|old(launched)|..] == fresh_;
      HandleKeepsShape(cfg, old(Current()), Entry(Reconcile, rs));
    }

    method ReconcileOne(n: StageName) returns (ghost launch: Time, ghost check: Time)
      requires n in stages
      modifies this`stages, this`launched, this`waitGroup, this`clock
      ensures old(clock) <= check <= launch <= clock
      ensures stages == old(stages)[n := ReconcileStage(old(stages)[n], cfg.inflightTimeout, Reading(check, launch))]
      ensures var launches := Launches(old(stages)[n], cfg.inflightTimeout, Reading(check, launch));
        && launched == old(launched) + (if launches then [(n, old(stages)[n].status.desired)] else [])
        && waitGroup == old(waitGroup) + (if launches then 1 else 0)
    {
      var stage := stages[n];
      check, launch := clock, clock;
      if stage.status.desired == stage.status.actual {
        stages := stages[n := stage.(inFlightSince := None)];
        return;
      }
      var target := stage.status.desired;
      if stage.inFlightSince.Some? {
        var now := Now();
        check, launch := now, now;
        if now - stage.inFlightSince.value < cfg.inflightTimeout {
          target := NoTarget;
        }
      }
      if target == NoTarget || target !in stage.ops {
        assert stages[n := stages[n]] == stages;
        return;
      }
      var now := Now();
      launch := now;
      stages := stages[n := stage.(inFlightSince := Some(now))];
      waitGroup := waitGroup + 1;
      launched := launched + [(n, target)];
    }

    /** Shutdown: stops what runs, whatever the stop operation returns, and tells the listeners. */
    method OnTeardown()
      requires Valid()
      modifies this`stages, this`told
      ensures Valid()
      ensures var r := HandleTeardown(old(Current())); Current() == r.state && told == old(told) + CallsOf(r)
    {
      ghost var before := stages;
      HandleKeepsShape(cfg, Current(), Entry(Teardown, map[]));
      var todo := stages.Keys;
      while todo != {}
        invariant todo <= before.Keys && told == old(told)
        invariant stages == map n | n in before :: if n in todo then before[n] else TeardownStage(before[n])
      {
        var n :| n in todo;
        var stage := stages[n];
        if stage.status.actual == Running && Stopped in stage.ops {
          stages := stages[n := stage.(status := StageStatus(Stopped, Stopped), inFlightSince := None)];
        }
        todo := todo - {n};
      }
      assert stages == HandleTeardown(old(Current())).state.stages;
      NotifyListeners();
    }
  }
}
