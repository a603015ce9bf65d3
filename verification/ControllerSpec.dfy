/**
 * The controller's handlers as functions on its state. Everything that changes the state runs on
 * one goroutine, so a run is a sequence of these handlers; ControllerConcurrency shows that every
 * interleaving of the goroutines around it amounts to such a sequence.
 */
module ControllerSpec {
  import opened Options

  type PathName = string
  type StageName = string
  type ListenerId = nat
  type Time = int

  datatype PathStatus = Unknown | Ready | NotReady | BadStatus(text: string) {
    predicate Valid() { !BadStatus? }
  }

  datatype StageState = Running | Stopped | NoTarget | BadState(text: string) {
    predicate Valid() { Running? || Stopped? }
  }

  datatype StageStatus = StageStatus(desired: StageState, actual: StageState)

  /** A stage: its status, the states it has an operation for, and when its last operation was launched. */
  datatype Stage = Stage(status: StageStatus, ops: set<StageState>, inFlightSince: Option<Time>) {
    predicate Converged() { status.desired == status.actual }
  }

  datatype State = State(paths: map<PathName, PathStatus>, stages: map<StageName, Stage>, listeners: seq<ListenerId>)

  datatype Snapshot = Snapshot(paths: map<PathName, PathStatus>, stages: map<StageName, StageStatus>)

  datatype PathEvent = PathEvent(path: PathName, status: PathStatus)
  datatype StageEvent = StageEvent(stage: StageName, state: StageState)
  datatype ControlCommand = ControlCommand(component: string, action: string)

  /** What a route asks for. A route without a prerequisite carries one that always holds. */
  datatype StageTarget = StageTarget(stage: StageName, state: StageState, prerequisite: State -> bool)

  datatype Config = Config(pathEventRoutes: map<PathEvent, StageTarget>,
                           commandRoutes: map<ControlCommand, StageTarget>,
                           inflightTimeout: int)

  /** What the goroutine takes off the actions channel. */
  datatype Action =
    | OnPath(path: PathEvent)
    | OnStage(stage: StageEvent)
    | OnControl(command: ControlCommand)
    | AddListener(added: Option<ListenerId>)
    | RemoveListener(removed: ListenerId)
    | GetStatus
    | Reconcile
    | ClearInFlight(name: StageName)
    | Teardown

  datatype Error =
    | UnknownCommand | UnknownPath | InvalidPathStatus | UnknownStage | InvalidStageState
    | PrerequisiteNotMet | NilListener | NotRegistered

  datatype Reply = Done | Failed(error: Error) | Status(snapshot: Snapshot)

  /** A handler's outcome: the new state, the reply, and the listeners it calls with the new status. */
  datatype Effect = Effect(state: State, reply: Reply, calls: seq<ListenerId>)

  /** The clock as one reconcile pass reads it for one stage: in planReconcile, then at the launch. */
  datatype Reading = Reading(check: Time, launch: Time)
  type Readings = map<StageName, Reading>

  /** One handled action; the readings matter for a reconcile only. */
  datatype Entry = Entry(action: Action, readings: Readings)

  // ---------------------------------------------------------------- what NewController demands

  /** Every route leads to an existing stage that has an operation for the wanted state. */
  ghost predicate Wired(cfg: Config, s: State) {
    && (forall e :: e in cfg.pathEventRoutes ==> Targets(cfg.pathEventRoutes[e], s))
    && (forall c :: c in cfg.commandRoutes ==> Targets(cfg.commandRoutes[c], s))
  }

  predicate Targets(t: StageTarget, s: State) {
    t.stage in s.stages && t.state in s.stages[t.stage].ops
  }

  ghost predicate ValidSeed(cfg: Config, s: State) {
    && (forall p :: p in s.paths ==> s.paths[p].Valid())
    && (forall n :: n in s.stages ==>
          s.stages[n].inFlightSince.None? && s.stages[n].status.desired.Valid() && s.stages[n].status.actual.Valid())
    && (forall e :: e in cfg.pathEventRoutes ==> e.path in s.paths && e.status.Valid())
    && Wired(cfg, s)
    && cfg.inflightTimeout > 0
    && s.listeners == []
  }

  // ---------------------------------------------------------------- handlers

  function StatusOf(s: State): (r: Snapshot) {
    Snapshot(s.paths, map n | n in s.stages :: s.stages[n].status)
  }

  function ApplyTarget(s: State, t: StageTarget): (r: Effect)
    requires t.stage in s.stages
  {
    var stage := s.stages[t.stage];
    if stage.status.desired == t.state then Effect(s, Done, [])
    else if !t.prerequisite(s) then Effect(s, Failed(PrerequisiteNotMet), [])
    else
      var stage' := stage.(status := stage.status.(desired := t.state));
      Effect(s.(stages := s.stages[t.stage := stage']), Done, s.listeners)
  }

  function HandlePathEvent(cfg: Config, s: State, e: PathEvent): (r: Effect)
    requires Wired(cfg, s)
  {
    if e.path !in s.paths then Effect(s, Failed(UnknownPath), [])
    else if !e.status.Valid() then Effect(s, Failed(InvalidPathStatus), [])
    else
      var s' := s.(paths := s.paths[e.path := e.status]);
      if e in cfg.pathEventRoutes then
        assert Targets(cfg.pathEventRoutes[e], s);
        ApplyTarget(s', cfg.pathEventRoutes[e])
      else Effect(s', Done, [])
  }

  function HandleControl(cfg: Config, s: State, cmd: ControlCommand): (r: Effect)
    requires Wired(cfg, s)
  {
    if cmd !in cfg.commandRoutes then Effect(s, Failed(UnknownCommand), [])
    else
      assert Targets(cfg.commandRoutes[cmd], s);
      ApplyTarget(s, cfg.commandRoutes[cmd])
  }

  function HandleStageEvent(s: State, e: StageEvent): (r: Effect) {
    if e.stage !in s.stages then Effect(s, Failed(UnknownStage), [])
    else if !e.state.Valid() then Effect(s, Failed(InvalidStageState), [])
    else
      var stage := s.stages[e.stage];
      var stage' := stage.(status := stage.status.(actual := e.state), inFlightSince := None);
      Effect(s.(stages := s.stages[e.stage := stage']), Done,
             if stage.status.actual != e.state then s.listeners else [])
  }

  function HandleAddListener(s: State, l: Option<ListenerId>): (r: Effect) {
    if l.None? then Effect(s, Failed(NilListener), [])
    else Effect(s.(listeners := s.listeners + [l.value]), Done, [l.value])
  }

  /** The first occurrence of l, or the length when there is none. */
  function IndexOf(ls: seq<ListenerId>, l: ListenerId): (i: nat)
    ensures i <= |ls|
    ensures forall j :: 0 <= j < i ==> ls[j] != l
    ensures i < |ls| ==> ls[i] == l
  {
    if ls == [] || ls[0] == l then 0 else 1 + IndexOf(ls[1..], l)
  }

  function HandleRemoveListener(s: State, l: ListenerId): (r: Effect) {
    var i := IndexOf(s.listeners, l);
    if i == |s.listeners| then Effect(s, Failed(NotRegistered), [])
    else Effect(s.(listeners := s.listeners[..i] + s.listeners[i + 1..]), Done, [])
  }

  function HandleClear(s: State, n: StageName): (r: Effect) {
    if n !in s.stages then Effect(s, Done, [])
    else Effect(s.(stages := s.stages[n := s.stages[n].(inFlightSince := None)]), Done, [])
  }

  /** The state to drive the stage to, NoTarget while its last operation may still be at work. */
  function PlanReconcile(stage: Stage, timeout: int, check: Time): (target: StageState) {
    if stage.inFlightSince.None? then stage.status.desired
    else if check - stage.inFlightSince.value < timeout then NoTarget
    else stage.status.desired
  }

  /** Whether a reconcile pass launches an operation for this stage. */
  predicate Launches(stage: Stage, timeout: int, r: Reading) {
    && !stage.Converged()
    && PlanReconcile(stage, timeout, r.check) != NoTarget
    && PlanReconcile(stage, timeout, r.check) in stage.ops
  }

  function ReconcileStage(stage: Stage, timeout: int, r: Reading): (stage': Stage) {
    if stage.Converged() then stage.(inFlightSince := None)
    else if Launches(stage, timeout, r) then stage.(inFlightSince := Some(r.launch))
    else stage
  }

  /** A whole pass; Go visits the stages in any order. */
  function ReconcilePass(s: State, timeout: int, rs: Readings): (s': State)
    requires s.stages.Keys <= rs.Keys
  {
    s.(stages := map n | n in s.stages :: ReconcileStage(s.stages[n], timeout, rs[n]))
  }

  predicate TornDown(stage: Stage) {
    stage.status.actual == Running && Stopped in stage.ops
  }

  function TeardownStage(stage: Stage): (stage': Stage) {
    if TornDown(stage) then stage.(status := StageStatus(Stopped, Stopped), inFlightSince := None) else stage
  }

  function HandleTeardown(s: State): (r: Effect) {
    Effect(s.(stages := map n | n in s.stages :: TeardownStage(s.stages[n])), Done, s.listeners)
  }

  predicate Covered(s: State, e: Entry) {
    e.action.Reconcile? ==> s.stages.Keys <= e.readings.Keys
  }

  function Handle(cfg: Config, s: State, e: Entry): (r: Effect)
    requires Wired(cfg, s) && Covered(s, e)
  {
    match e.action
    case OnPath(p) => HandlePathEvent(cfg, s, p)
    case OnStage(p) => HandleStageEvent(s, p)
    case OnControl(c) => HandleControl(cfg, s, c)
    case AddListener(l) => HandleAddListener(s, l)
    case RemoveListener(l) => HandleRemoveListener(s, l)
    case GetStatus => Effect(s, Status(StatusOf(s)), [])
    case Reconcile => Effect(ReconcilePass(s, cfg.inflightTimeout, e.readings), Done, [])
    case ClearInFlight(n) => HandleClear(s, n)
    case Teardown => HandleTeardown(s)
  }

  // ---------------------------------------------------------------- runs of handlers

  /** Same paths, same stages, same operations. */
  ghost predicate SameShape(s: State, t: State) {
    && s.paths.Keys == t.paths.Keys
    && s.stages.Keys == t.stages.Keys
    && forall n :: n in s.stages ==> s.stages[n].ops == t.stages[n].ops
  }

  lemma HandleKeepsShape(cfg: Config, s: State, e: Entry)
    requires Wired(cfg, s) && Covered(s, e)
    ensures SameShape(s, Handle(cfg, s, e).state) && Wired(cfg, Handle(cfg, s, e).state)
  {
    var t := Handle(cfg, s, e).state;
    assert SameShape(s, t);
    assert forall x: StageTarget :: Targets(x, s) ==> Targets(x, t);
  }

  /** Every reconcile entry of the log read the clock for every stage, the launch not before the check. */
  ghost predicate WellTimed(s: State, log: seq<Entry>) {
    forall i :: 0 <= i < |log| ==> EntryTimed(s, log[i])
  }

  predicate EntryTimed(s: State, e: Entry) {
    && Covered(s, e)
    && (e.action.Reconcile? ==> forall n :: n in s.stages ==> e.readings[n].check <= e.readings[n].launch)
  }

  /** The state after handling the log one entry after the other. */
  ghost function After(cfg: Config, s: State, log: seq<Entry>): (t: State)
    requires Wired(cfg, s) && WellTimed(s, log)
    ensures SameShape(s, t) && Wired(cfg, t)
  {
    if log == [] then s
    else
      var k := |log| - 1;
      var u := After(cfg, s, log[..k]);
      assert EntryTimed(s, log[k]);
      HandleKeepsShape(cfg, u, log[k]);
      Handle(cfg, u, log[k]).state
  }

  lemma AfterAppend(cfg: Config, s: State, log: seq<Entry>, e: Entry)
    requires Wired(cfg, s) && WellTimed(s, log) && EntryTimed(s, e)
    ensures WellTimed(s, log + [e])
    ensures After(cfg, s, log + [e]) == Handle(cfg, After(cfg, s, log), e).state
  {
    assert (log + [e])[..|log|] == log;
  }

  lemma {:induction false} AfterConcat(cfg: Config, s: State, a: seq<Entry>, b: seq<Entry>)
    requires Wired(cfg, s) && WellTimed(s, a + b)
    ensures WellTimed(s, a) && WellTimed(After(cfg, s, a), b)
    ensures After(cfg, s, a + b) == After(cfg, After(cfg, s, a), b)
  {
    assert a == (a + b)[..|a|];
    assert forall i :: 0 <= i < |b| ==> b[i] == (a + b)[|a| + i];
    if b == [] {
      assert a + b == a;
    } else {
      var k := |b| - 1;
      assert (a + b)[..|a + b| - 1] == a + b[..k];
      AfterConcat(cfg, s, a, b[..k]);
    }
  }
}
