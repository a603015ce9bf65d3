/** The wiring of run(): its routes and seeded stages, and what they guarantee over every run before Teardown. */
module ControllerWiring {
  import opened Options
  import opened ControllerSpec
  import opened ControllerHistory

  const Ingress0 := "ingress0"
  const Normalized := "normalized"
  const MediaMTX := "mediamtx"
  const Normalize := "normalize"
  const ScaleAndEgress := "scale_and_egress"
  const SingleStageEgress := "single_stage_egress"

  const StartEgress := ControlCommand("egress", "start")
  const StopEgress := ControlCommand("egress", "stop")
  const IngressReady := PathEvent(Ingress0, Ready)
  const IngressNotReady := PathEvent(Ingress0, NotReady)

  predicate IngressIsReady(s: State) {
    Ingress0 in s.paths && s.paths[Ingress0] == Ready
  }

  predicate NoPrerequisite(s: State) {
    true
  }

  /** The stage the egress commands drive. */
  function Egress(singleStage: bool): (n: StageName) {
    if singleStage then SingleStageEgress else ScaleAndEgress
  }

  function Wiring(singleStage: bool, timeout: int): (cfg: Config) {
    Config(
      if singleStage then map[]
      else map[IngressReady := StageTarget(Normalize, Running, NoPrerequisite),
               IngressNotReady := StageTarget(Normalize, Stopped, NoPrerequisite)],
      map[StartEgress := StageTarget(Egress(singleStage), Running, IngressIsReady),
          StopEgress := StageTarget(Egress(singleStage), Stopped, NoPrerequisite)],
      timeout)
  }

  function SeedStage(desired: StageState): (stage: Stage) {
    Stage(StageStatus(desired, Stopped), {Running, Stopped}, None)
  }

  function Seed(): (s: State) {
    State(map[Ingress0 := Unknown, Normalized := Unknown],
          map[MediaMTX := SeedStage(Running), Normalize := SeedStage(Stopped),
              ScaleAndEgress := SeedStage(Stopped), SingleStageEgress := SeedStage(Stopped)],
          [])
  }

  lemma SeedIsValid(singleStage: bool, timeout: int)
    requires timeout > 0
    ensures ValidSeed(Wiring(singleStage, timeout), Seed()) && ProperOps(Seed())
  {
  }

  ghost predicate BeforeTeardown(log: seq<Entry>) {
    forall i :: 0 <= i < |log| ==> log[i].action != Teardown
  }

  // ---------------------------------------------------------------- histories read off the log alone

  /** The last valid status reported for ingress0. */
  function IngressStatus(log: seq<Entry>): (st: PathStatus) {
    if log == [] then Unknown
    else
      var e := log[|log| - 1];
      if e.action.OnPath? && e.action.path.path == Ingress0 && e.action.path.status.Valid() then e.action.path.status
      else IngressStatus(log[..|log| - 1])
  }

  /** Running after ingress0 was last reported ready, stopped after not-ready; unknown is ignored. */
  function IngressWants(log: seq<Entry>): (st: StageState) {
    if log == [] then Stopped
    else
      var e := log[|log| - 1];
      if e.action == OnPath(IngressReady) then Running
      else if e.action == OnPath(IngressNotReady) then Stopped
      else IngressWants(log[..|log| - 1])
  }

  ghost function Desired(cfg: Config, log: seq<Entry>, n: StageName): (st: StageState)
    requires Wired(cfg, Seed()) && WellTimed(Seed(), log) && n in Seed().stages
  {
    After(cfg, Seed(), log).stages[n].status.desired
  }

  // ---------------------------------------------------------------- one step

  lemma RoutesOfWiring(singleStage: bool, timeout: int, s: State, a: Action)
    requires SameShape(Seed(), s)
    ensures var t := RoutedTo(Wiring(singleStage, timeout), s, a);
      if a == OnPath(IngressReady) then t == if singleStage then None else Some(StageTarget(Normalize, Running, NoPrerequisite))
      else if a == OnPath(IngressNotReady) then t == if singleStage then None else Some(StageTarget(Normalize, Stopped, NoPrerequisite))
      else if a == OnControl(StartEgress) then t == Some(StageTarget(Egress(singleStage), Running, IngressIsReady)) && Recorded(s, a) == s
      else if a == OnControl(StopEgress) then t == Some(StageTarget(Egress(singleStage), Stopped, NoPrerequisite))
      else t == None
  {
    hide SameShape, Egress;
    SeedPaths(s);
  }

  lemma SeedPaths(s: State)
    requires SameShape(Seed(), s)
    ensures Ingress0 in s.paths
  {
  }

  lemma ShapeTransitive(s: State, t: State, u: State)
    requires SameShape(s, t) && SameShape(t, u)
    ensures SameShape(s, u)
  {
  }

  /** Desired states change by the routes only. */
  lemma DesiredStep(singleStage: bool, timeout: int, s: State, e: Entry, n: StageName)
    requires SameShape(Seed(), s) && Wired(Wiring(singleStage, timeout), s) && Covered(s, e)
    requires e.action != Teardown && n in s.stages
    ensures SameShape(Seed(), Handle(Wiring(singleStage, timeout), s, e).state)
    ensures var d, d' := s.stages[n].status.desired, Handle(Wiring(singleStage, timeout), s, e).state.stages[n].status.desired;
      d' == if !singleStage && n == Normalize && e.action == OnPath(IngressReady) then Running
            else if !singleStage && n == Normalize && e.action == OnPath(IngressNotReady) then Stopped
            else if n == Egress(singleStage) && e.action == OnControl(StopEgress) then Stopped
            else if n == Egress(singleStage) && e.action == OnControl(StartEgress) && IngressIsReady(s) then Running
            else d
  {
    hide Handle, Wiring, RoutedTo, Recorded, SameShape, Seed;
    RoutesOfWiring(singleStage, timeout, s, e.action);
    DesiredByRoute(Wiring(singleStage, timeout), s, e, n);
    ShapeTransitive(Seed(), s, Handle(Wiring(singleStage, timeout), s, e).state);
  }

  lemma PathStep(cfg: Config, s: State, e: Entry)
    requires Wired(cfg, s) && Covered(s, e) && Ingress0 in s.paths
    ensures SameShape(s, Handle(cfg, s, e).state)
    ensures Handle(cfg, s, e).state.paths[Ingress0] ==
      if e.action.OnPath? && e.action.path.path == Ingress0 && e.action.path.status.Valid() then e.action.path.status
      else s.paths[Ingress0]
  {
    HandleKeepsShape(cfg, s, e);
  }

  // ---------------------------------------------------------------- whole runs

  /** Two-stage wiring: what normalize is asked to do is exactly what ingress0's history wants. */
  lemma {:induction false} NormalizeFollowsIngress(timeout: int, log: seq<Entry>)
    requires timeout > 0 && WellTimed(Seed(), log) && BeforeTeardown(log)
    ensures Wired(Wiring(false, timeout), Seed())
    ensures Desired(Wiring(false, timeout), log, Normalize) == IngressWants(log)
  {
    hide Handle, Wiring, Seed;
    SeedIsValid(false, timeout);
    SeedStages();
    if log != [] {
      var k := |log| - 1;
      NormalizeFollowsIngress(timeout, log[..k]);
      assert EntryTimed(Seed(), log[k]);
      DesiredStep(false, timeout, After(Wiring(false, timeout), Seed(), log[..k]), log[k], Normalize);
    }
  }

  lemma SeedStages()
    ensures {MediaMTX, Normalize, ScaleAndEgress, SingleStageEgress} == Seed().stages.Keys
    ensures Ingress0 in Seed().paths && Seed().paths[Ingress0] == Unknown
    ensures forall n :: n in Seed().stages ==> Seed().stages[n].status.desired == if n == MediaMTX then Running else Stopped
  {
  }

  /** The stored status of ingress0 is the last valid report. */
  lemma {:induction false} PathFollowsReports(singleStage: bool, timeout: int, log: seq<Entry>)
    requires timeout > 0 && WellTimed(Seed(), log)
    ensures Wired(Wiring(singleStage, timeout), Seed())
    ensures var s := After(Wiring(singleStage, timeout), Seed(), log);
      Ingress0 in s.paths && s.paths[Ingress0] == IngressStatus(log)
  {
    hide Handle, Wiring, Seed;
    SeedIsValid(singleStage, timeout);
    SeedStages();
    if log != [] {
      var k := |log| - 1;
      PathFollowsReports(singleStage, timeout, log[..k]);
      assert EntryTimed(Seed(), log[k]);
      PathStep(Wiring(singleStage, timeout), After(Wiring(singleStage, timeout), Seed(), log[..k]), log[k]);
    }
  }

  /** Egress is asked to run only by the start command, and only while ingress0 was last reported ready. */
  lemma EgressStartsOnlyWhenReady(singleStage: bool, timeout: int, log: seq<Entry>, i: nat)
    requires timeout > 0 && WellTimed(Seed(), log) && BeforeTeardown(log) && i < |log|
    requires WellTimed(Seed(), log[..i]) && WellTimed(Seed(), log[..i + 1])
    ensures Wired(Wiring(singleStage, timeout), Seed()) && Egress(singleStage) in Seed().stages
    ensures Desired(Wiring(singleStage, timeout), log[..i + 1], Egress(singleStage)) == Running
         && Desired(Wiring(singleStage, timeout), log[..i], Egress(singleStage)) != Running
        ==> log[i].action == OnControl(StartEgress) && IngressStatus(log[..i]) == Ready
  {
    hide Handle, Wiring, Seed;
    SeedIsValid(singleStage, timeout);
    SeedStages();
    var cfg := Wiring(singleStage, timeout);
    var s := After(cfg, Seed(), log[..i]);
    assert EntryTimed(Seed(), log[i]);
    assert log[..i + 1][..i] == log[..i];
    DesiredStep(singleStage, timeout, s, log[i], Egress(singleStage));
    PathFollowsReports(singleStage, timeout, log[..i]);
  }

  /** Stages no route reaches keep their seeded desired state; mediamtx is always wanted. */
  lemma {:induction false} UnroutedStagesStay(singleStage: bool, timeout: int, log: seq<Entry>, n: StageName)
    requires timeout > 0 && WellTimed(Seed(), log) && BeforeTeardown(log)
    requires n in Seed().stages && n != Egress(singleStage) && (n == Normalize ==> singleStage)
    ensures Wired(Wiring(singleStage, timeout), Seed())
    ensures Desired(Wiring(singleStage, timeout), log, n) == if n == MediaMTX then Running else Stopped
  {
    hide Handle, Wiring, Seed;
    SeedIsValid(singleStage, timeout);
    SeedStages();
    if log != [] {
      var k := |log| - 1;
      UnroutedStagesStay(singleStage, timeout, log[..k], n);
      assert EntryTimed(Seed(), log[k]);
      DesiredStep(singleStage, timeout, After(Wiring(singleStage, timeout), Seed(), log[..k]), log[k], n);
    }
  }

  /** A subscriber's path view can be stale: a report on a path without a route tells no listener. */
  lemma PathViewCanBeStale(timeout: int)
    requires timeout > 0
    ensures Wired(Wiring(false, timeout), Seed())
    ensures var s := Seed().(listeners := [0]);
      && Wired(Wiring(false, timeout), s)
      && var r := HandlePathEvent(Wiring(false, timeout), s, PathEvent(Normalized, Ready));
         r.reply == Done && r.calls == [] && StatusOf(r.state).paths != StatusOf(s).paths
  {
    SeedIsValid(false, timeout);
    var s := Seed().(listeners := [0]);
    assert forall t: StageTarget :: Targets(t, Seed()) ==> Targets(t, s);
    var r := HandlePathEvent(Wiring(false, timeout), s, PathEvent(Normalized, Ready));
    assert r.state.paths[Normalized] != s.paths[Normalized];
  }
}
