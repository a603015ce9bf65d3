/** Whole-run properties of the controller: launches, wiring, convergence and what listeners are told. */
module ControllerHistory {
  import opened Options
  import opened ControllerSpec

  // ---------------------------------------------------------------- launches and clears

  /** What one entry means for a stage's in-flight marker. */
  datatype Mark = Launched(at: Time) | Cleared

  function MarksOf(timeout: int, s: State, e: Entry, n: StageName): (ms: seq<Mark>)
    requires n in s.stages && Covered(s, e)
  {
    var stage := s.stages[n];
    match e.action
    case OnStage(p) => if p.stage == n && p.state.Valid() then [Cleared] else []
    case ClearInFlight(m) => if m == n then [Cleared] else []
    case Teardown => if TornDown(stage) then [Cleared] else []
    case Reconcile =>
      if stage.Converged() then [Cleared]
      else if Launches(stage, timeout, e.readings[n]) then [Launched(e.readings[n].launch)]
      else []
    case _ => []
  }

  /** All launches and clears of a stage over a run, in order. */
  ghost function Marks(cfg: Config, s: State, log: seq<Entry>, n: StageName): (ms: seq<Mark>)
    requires Wired(cfg, s) && WellTimed(s, log) && n in s.stages
  {
    if log == [] then []
    else
      var k := |log| - 1;
      assert EntryTimed(s, log[k]);
      Marks(cfg, s, log[..k], n) + MarksOf(cfg.inflightTimeout, After(cfg, s, log[..k]), log[k], n)
  }

  /** The marker after one entry is what the entry's mark says, and unchanged without one. */
  lemma MarkDecidesInFlight(cfg: Config, s: State, e: Entry, n: StageName)
    requires Wired(cfg, s) && Covered(s, e) && n in s.stages
    ensures SameShape(s, Handle(cfg, s, e).state)
    ensures var ms, stage' := MarksOf(cfg.inflightTimeout, s, e, n), Handle(cfg, s, e).state.stages[n];
      stage'.inFlightSince ==
        if ms == [] then s.stages[n].inFlightSince
        else match ms[0] case Cleared => None case Launched(t) => Some(t)
  {
    HandleKeepsShape(cfg, s, e);
  }

  /** An adjacent pair of launches is at least the timeout apart. */
  ghost predicate Spaced(ms: seq<Mark>, timeout: int) {
    forall i :: 0 <= i < |ms| - 1 && ms[i].Launched? && ms[i + 1].Launched? ==> ms[i + 1].at - ms[i].at >= timeout
  }

  /** The marker a run of marks leaves behind. */
  function LastMark(ms: seq<Mark>): (since: Option<Time>) {
    if ms == [] || ms[|ms| - 1].Cleared? then None else Some(ms[|ms| - 1].at)
  }

  lemma MarkStep(timeout: int, s: State, e: Entry, n: StageName, ms: seq<Mark>)
    requires n in s.stages && Covered(s, e) && EntryTimed(s, e)
    requires Spaced(ms, timeout) && s.stages[n].inFlightSince == LastMark(ms)
    ensures Spaced(ms + MarksOf(timeout, s, e, n), timeout)
  {
  }

  lemma {:induction false} MarksInvariant(cfg: Config, s: State, log: seq<Entry>, n: StageName)
    requires Wired(cfg, s) && WellTimed(s, log) && n in s.stages && s.stages[n].inFlightSince.None?
    ensures Spaced(Marks(cfg, s, log, n), cfg.inflightTimeout)
    ensures After(cfg, s, log).stages[n].inFlightSince == LastMark(Marks(cfg, s, log, n))
  {
    hide Handle, MarksOf, Spaced;
    if log == [] {
      NoMarks(cfg.inflightTimeout);
    } else {
      var k := |log| - 1;
      MarksInvariant(cfg, s, log[..k], n);
      var u := After(cfg, s, log[..k]);
      assert EntryTimed(s, log[k]) && EntryTimed(u, log[k]);
      MarkDecidesInFlight(cfg, u, log[k], n);
      MarkStep(cfg.inflightTimeout, u, log[k], n, Marks(cfg, s, log[..k], n));
      AtMostOneMark(cfg.inflightTimeout, u, log[k], n);
    }
  }

  lemma NoMarks(timeout: int)
    ensures Spaced([], timeout)
  {
  }

  lemma AtMostOneMark(timeout: int, s: State, e: Entry, n: StageName)
    requires n in s.stages && Covered(s, e)
    ensures |MarksOf(timeout, s, e, n)| <= 1
  {
  }

  lemma {:induction false} SpacedLaunches(ms: seq<Mark>, timeout: int, i: nat, j: nat)
    requires Spaced(ms, timeout) && timeout > 0
    requires i < j < |ms| && ms[i].Launched? && (forall k :: i < k <= j ==> ms[k].Launched?)
    ensures ms[j].at - ms[i].at >= timeout
  {
    if i + 1 < j {
      SpacedLaunches(ms, timeout, i, j - 1);
    }
  }

  /** Two launches of a stage are at least inflightTimeout apart unless the marker was cleared in between. */
  lemma LaunchesApartOrCleared(cfg: Config, s: State, log: seq<Entry>, n: StageName, i: nat, j: nat)
    requires ValidSeed(cfg, s) && WellTimed(s, log) && n in s.stages
    requires i < j < |Marks(cfg, s, log, n)|
    requires Marks(cfg, s, log, n)[i].Launched? && Marks(cfg, s, log, n)[j].Launched?
    ensures var ms := Marks(cfg, s, log, n);
      ms[j].at - ms[i].at >= cfg.inflightTimeout || exists k :: i < k < j && ms[k].Cleared?
  {
    MarksInvariant(cfg, s, log, n);
    var ms := Marks(cfg, s, log, n);
    if forall k :: i < k < j ==> !ms[k].Cleared? {
      SpacedLaunches(ms, cfg.inflightTimeout, i, j);
    }
  }

  // ---------------------------------------------------------------- desired states

  /** The target an action is routed to, if it is one the controller accepts. */
  function RoutedTo(cfg: Config, s: State, a: Action): (t: Option<StageTarget>) {
    match a
    case OnPath(p) =>
      if p.path in s.paths && p.status.Valid() && p in cfg.pathEventRoutes then Some(cfg.pathEventRoutes[p]) else None
    case OnControl(c) => if c in cfg.commandRoutes then Some(cfg.commandRoutes[c]) else None
    case _ => None
  }

  /** The state prerequisites see: a path event is recorded before its route is followed. */
  function Recorded(s: State, a: Action): (s': State) {
    if a.OnPath? then s.(paths := s.paths[a.path.path := a.path.status]) else s
  }

  /** Apart from Teardown a desired state changes only to the state of a route whose prerequisite holds. */
  lemma DesiredByRoute(cfg: Config, s: State, e: Entry, n: StageName)
    requires Wired(cfg, s) && Covered(s, e) && n in s.stages && e.action != Teardown
    ensures SameShape(s, Handle(cfg, s, e).state)
    ensures var t := RoutedTo(cfg, s, e.action);
      Handle(cfg, s, e).state.stages[n].status.desired ==
        if t.Some? && t.value.stage == n && t.value.prerequisite(Recorded(s, e.action)) then t.value.state
        else s.stages[n].status.desired
  {
    HandleKeepsShape(cfg, s, e);
  }

  // ---------------------------------------------------------------- validity

  ghost predicate ValidStates(s: State) {
    && (forall p :: p in s.paths ==> s.paths[p].Valid())
    && (forall n :: n in s.stages ==> s.stages[n].status.desired.Valid() && s.stages[n].status.actual.Valid())
  }

  /** Operations exist for running and stopped only, as the container factory registers them. */
  ghost predicate ProperOps(s: State) {
    forall n :: n in s.stages ==> s.stages[n].ops <= {Running, Stopped}
  }

  lemma HandleKeepsValid(cfg: Config, s: State, e: Entry)
    requires Wired(cfg, s) && Covered(s, e) && ProperOps(s) && ValidStates(s)
    ensures ValidStates(Handle(cfg, s, e).state)
  {
    match e.action
    case OnPath(p) =>
      if p in cfg.pathEventRoutes {
        assert Targets(cfg.pathEventRoutes[p], s);
      }
    case OnControl(c) =>
      if c in cfg.commandRoutes {
        assert Targets(cfg.commandRoutes[c], s);
      }
    case _ =>
  }

  /** Key sets never change and every path and stage state stays valid over any run. */
  lemma {:induction false} RunKeepsShapeAndValidity(cfg: Config, s: State, log: seq<Entry>)
    requires ValidSeed(cfg, s) && ProperOps(s) && WellTimed(s, log)
    ensures SameShape(s, After(cfg, s, log)) && ValidStates(After(cfg, s, log))
  {
    hide Handle;
    if log != [] {
      var k := |log| - 1;
      RunKeepsShapeAndValidity(cfg, s, log[..k]);
      assert EntryTimed(s, log[k]);
      HandleKeepsValid(cfg, After(cfg, s, log[..k]), log[k]);
    }
  }

  /** A rejected action changes no stage, no path but the reported one, and calls nobody. */
  lemma RejectedChangesNothing(cfg: Config, s: State, e: Entry)
    requires Wired(cfg, s) && Covered(s, e) && Handle(cfg, s, e).reply.Failed?
    ensures var r := Handle(cfg, s, e);
      && r.calls == [] && r.state.stages == s.stages && r.state.listeners == s.listeners
      && (!e.action.OnPath? ==> r.state == s)
      && (e.action.OnPath? && r.reply != Failed(PrerequisiteNotMet) ==> r.state == s)
      && (e.action.OnPath? && r.reply == Failed(PrerequisiteNotMet) ==>
            r.state.paths == s.paths[e.action.path.path := e.action.path.status])
  {
  }

  // ---------------------------------------------------------------- what listeners are told

  /** Listeners are called with the new status exactly when some stage status may have changed. */
  lemma UntoldMeansUnchanged(cfg: Config, s: State, e: Entry)
    requires Wired(cfg, s) && Covered(s, e)
    ensures var r := Handle(cfg, s, e);
      && (r.calls == [] || r.calls == r.state.listeners || (e.action.AddListener? && r.calls == [e.action.added.value]))
      && (StatusOf(r.state).stages != StatusOf(s).stages ==> r.calls == s.listeners == r.state.listeners)
  {
    var r := Handle(cfg, s, e);
    HandleKeepsShape(cfg, s, e);
    if r.calls != s.listeners || r.state.listeners != s.listeners {
      forall n | n in s.stages
        ensures r.state.stages[n].status == s.stages[n].status
      {
      }
      assert StatusOf(r.state).stages == StatusOf(s).stages;
    }
  }

  /**
   * A report that changes a path behind the listeners' backs: it is accepted and new, and it has no
   * route, or the routed stage is already wanted as it says, or the route's prerequisite fails.
   */
  ghost predicate Unannounced(cfg: Config, s: State, e: PathEvent)
    requires Wired(cfg, s)
  {
    && e.path in s.paths && e.status.Valid() && s.paths[e.path] != e.status
    && (e in cfg.pathEventRoutes ==>
          var t := cfg.pathEventRoutes[e];
          assert Targets(t, s);
          s.stages[t.stage].status.desired == t.state || !t.prerequisite(s.(paths := s.paths[e.path := e.status])))
  }

  /** A path event calls the listeners exactly when it is accepted and its route asks for a change it may make. */
  lemma PathEventToldIff(cfg: Config, s: State, e: PathEvent)
    requires Wired(cfg, s)
    ensures var r := HandlePathEvent(cfg, s, e);
      r.calls != [] <==>
        && s.listeners != [] && e.path in s.paths && e.status.Valid() && e in cfg.pathEventRoutes
        && var t := cfg.pathEventRoutes[e];
          && Targets(t, s) && s.stages[t.stage].status.desired != t.state
          && t.prerequisite(s.(paths := s.paths[e.path := e.status]))
  {
    if e in cfg.pathEventRoutes { assert Targets(cfg.pathEventRoutes[e], s); }
  }

  /** With listeners registered, a path event changes the paths and calls nobody exactly when it is unannounced. */
  lemma PathViewStaleIff(cfg: Config, s: State, e: PathEvent)
    requires Wired(cfg, s) && s.listeners != []
    ensures var r := HandlePathEvent(cfg, s, e);
      r.calls == [] && StatusOf(r.state).paths != StatusOf(s).paths <==> Unannounced(cfg, s, e)
  {
    if e.path in s.paths {
      assert e.status != s.paths[e.path] <==> s.paths[e.path := e.status] != s.paths by {
        assert s.paths[e.path := e.status][e.path] == e.status;
        assert s.paths[e.path] == e.status ==> s.paths[e.path := e.status] == s.paths;
      }
    }
    if e in cfg.pathEventRoutes { assert Targets(cfg.pathEventRoutes[e], s); }
  }

  /** What handling entry i of a log does. */
  ghost function EffectAt(cfg: Config, s: State, log: seq<Entry>, i: nat): (r: Effect)
    requires Wired(cfg, s) && WellTimed(s, log) && i < |log|
  {
    assert EntryTimed(s, log[i]);
    Handle(cfg, After(cfg, s, log[..i]), log[i])
  }

  /** The last status a log reports for a path, or what it was before. */
  function Reported(log: seq<Entry>, p: PathName, before: PathStatus): (st: PathStatus) {
    if log == [] then before
    else
      var e := log[|log| - 1];
      if e.action.OnPath? && e.action.path.path == p && e.action.path.status.Valid() then e.action.path.status
      else Reported(log[..|log| - 1], p, before)
  }

  lemma PathsByEntry(cfg: Config, s: State, e: Entry, p: PathName)
    requires Wired(cfg, s) && Covered(s, e) && p in s.paths
    ensures var r := Handle(cfg, s, e).state;
      p in r.paths && r.paths[p] ==
        if e.action.OnPath? && e.action.path.path == p && e.action.path.status.Valid() then e.action.path.status else s.paths[p]
  {
  }

  /** Over every log a path has the last status reported for it. */
  lemma {:induction false} PathsByReports(cfg: Config, s: State, log: seq<Entry>, p: PathName)
    requires Wired(cfg, s) && WellTimed(s, log) && p in s.paths
    ensures p in After(cfg, s, log).paths && After(cfg, s, log).paths[p] == Reported(log, p, s.paths[p])
  {
    hide Handle;
    if log != [] {
      var k := |log| - 1;
      PathsByReports(cfg, s, log[..k], p);
      assert EntryTimed(s, log[k]);
      PathsByEntry(cfg, After(cfg, s, log[..k]), log[k], p);
    }
  }

  /** From place k of the log on, l is registered and never called. */
  ghost predicate Untold(cfg: Config, s: State, log: seq<Entry>, l: ListenerId, k: nat)
    requires Wired(cfg, s) && WellTimed(s, log)
  {
    k <= |log| && forall i :: k <= i < |log| ==> l in After(cfg, s, log[..i]).listeners && l !in EffectAt(cfg, s, log, i).calls
  }

  /** An action that changes the paths without calling a registered listener is an unannounced report. */
  lemma UntoldChangeIsUnannounced(cfg: Config, s: State, e: Entry, l: ListenerId)
    requires Wired(cfg, s) && Covered(s, e) && l in s.listeners && l !in Handle(cfg, s, e).calls
    ensures Handle(cfg, s, e).state.paths != s.paths ==> e.action.OnPath? && Unannounced(cfg, s, e.action.path)
  {
    if Handle(cfg, s, e).state.paths != s.paths {
      UntoldMeansUnchanged(cfg, s, e);
      PathViewStaleIff(cfg, s, e.action.path);
    }
  }

  /** Since a registered listener was last called, the paths have changed only by unannounced reports. */
  lemma {:induction false} ViewChangesUnannounced(cfg: Config, s: State, log: seq<Entry>, l: ListenerId, k: nat)
    requires Wired(cfg, s) && WellTimed(s, log) && k <= |log| && Untold(cfg, s, log, l, k)
    requires After(cfg, s, log).paths != After(cfg, s, log[..k]).paths
    ensures exists i :: k <= i < |log| && UnannouncedAt(cfg, s, log, i)
  {
    hide Handle, Unannounced, UnannouncedAt, Untold, EffectAt, After;
    var n := |log| - 1;
    assert log[..|log|] == log;
    UntoldLast(cfg, s, log, l, k);
    if !UnannouncedAt(cfg, s, log, n) {
      assert log[..n][..k] == log[..k];
      ViewChangesUnannounced(cfg, s, log[..n], l, k);
      var i :| k <= i < n && UnannouncedAt(cfg, s, log[..n], i);
      UnannouncedPrefix(cfg, s, log, n, i);
    }
  }

  /** Entry i of the log is an unannounced report. */
  ghost predicate UnannouncedAt(cfg: Config, s: State, log: seq<Entry>, i: nat)
    requires Wired(cfg, s) && WellTimed(s, log) && i < |log|
  {
    log[i].action.OnPath? && Unannounced(cfg, After(cfg, s, log[..i]), log[i].action.path)
  }

  lemma UnannouncedPrefix(cfg: Config, s: State, log: seq<Entry>, n: nat, i: nat)
    requires Wired(cfg, s) && WellTimed(s, log) && i < n <= |log|
    ensures UnannouncedAt(cfg, s, log[..n], i) <==> UnannouncedAt(cfg, s, log, i)
  {
    hide Unannounced;
    assert log[..n][..i] == log[..i];
  }

  lemma UntoldLast(cfg: Config, s: State, log: seq<Entry>, l: ListenerId, k: nat)
    requires Wired(cfg, s) && WellTimed(s, log) && Untold(cfg, s, log, l, k) && k < |log|
    ensures Untold(cfg, s, log[..|log| - 1], l, k)
    ensures UnannouncedAt(cfg, s, log, |log| - 1) || After(cfg, s, log).paths == After(cfg, s, log[..|log| - 1]).paths
  {
    hide Handle, Unannounced;
    var n := |log| - 1;
    assert l in After(cfg, s, log[..n]).listeners && l !in EffectAt(cfg, s, log, n).calls;
    assert EntryTimed(s, log[n]);
    UntoldChangeIsUnannounced(cfg, After(cfg, s, log[..n]), log[n], l);
    UntoldBefore(cfg, s, log, l, k);
  }

  lemma UntoldBefore(cfg: Config, s: State, log: seq<Entry>, l: ListenerId, k: nat)
    requires Wired(cfg, s) && WellTimed(s, log) && Untold(cfg, s, log, l, k) && k < |log|
    ensures Untold(cfg, s, log[..|log| - 1], l, k)
  {
    hide Handle, After;
    var n := |log| - 1;
    forall i | k <= i < n
      ensures l in After(cfg, s, log[..n][..i]).listeners && l !in EffectAt(cfg, s, log[..n], i).calls
    {
      assert log[..n][..i] == log[..i] && l !in EffectAt(cfg, s, log, i).calls;
    }
  }

  // ---------------------------------------------------------------- convergence

  function Unconverged(s: State): (ns: set<StageName>) {
    set n | n in s.stages && !s.stages[n].Converged()
  }

  /** An entry of a quiet stretch: no desired state is asked for and every event reports a desired state reached. */
  ghost predicate Quiet(s: State, e: Entry) {
    match e.action
    case OnPath(_) => false
    case OnControl(_) => false
    case Teardown => false
    case OnStage(p) => p.stage in s.stages ==> p.state == s.stages[p.stage].status.desired || !p.state.Valid()
    case _ => true
  }

  ghost predicate QuietLog(s: State, log: seq<Entry>) {
    forall i :: 0 <= i < |log| ==> Quiet(s, log[i])
  }

  ghost predicate SameDesired(s: State, t: State) {
    && s.stages.Keys == t.stages.Keys
    && forall n :: n in s.stages ==> s.stages[n].status.desired == t.stages[n].status.desired
  }

  lemma QuietStep(cfg: Config, s: State, u: State, e: Entry)
    requires Wired(cfg, u) && Covered(u, e) && SameDesired(s, u) && Quiet(s, e)
    ensures var v := Handle(cfg, u, e).state;
      && SameDesired(s, v)
      && forall n :: n in u.stages && u.stages[n].Converged() ==> v.stages[n].Converged()
  {
    HandleKeepsShape(cfg, u, e);
  }

  /** Over a quiet stretch desired states stay and a converged stage stays converged: the backlog only shrinks. */
  lemma {:induction false} BacklogShrinks(cfg: Config, s: State, log: seq<Entry>)
    requires Wired(cfg, s) && WellTimed(s, log) && QuietLog(s, log)
    ensures SameDesired(s, After(cfg, s, log))
    ensures Unconverged(After(cfg, s, log)) <= Unconverged(s)
    ensures |Unconverged(After(cfg, s, log))| <= |Unconverged(s)|
  {
    hide Handle;
    if log != [] {
      var k := |log| - 1;
      BacklogShrinks(cfg, s, log[..k]);
      assert EntryTimed(s, log[k]) && Quiet(s, log[k]);
      QuietStep(cfg, s, After(cfg, s, log[..k]), log[k]);
    }
    SubsetSize(Unconverged(After(cfg, s, log)), Unconverged(s));
  }

  lemma SubsetSize<T>(a: set<T>, b: set<T>)
    requires a <= b
    ensures |a| <= |b|
  {
    assert b == a + (b - a);
  }

  /** Entry i of the log launches an operation for the stage. */
  ghost predicate LaunchesAt(cfg: Config, s: State, log: seq<Entry>, n: StageName, i: nat)
    requires Wired(cfg, s) && WellTimed(s, log) && n in s.stages && i < |log|
  {
    && log[i].action.Reconcile?
    && assert EntryTimed(s, log[i]); Launches(After(cfg, s, log[..i]).stages[n], cfg.inflightTimeout, log[i].readings[n])
  }

  /** Every launched operation succeeds and its event arrives. */
  ghost predicate Delivered(cfg: Config, s: State, log: seq<Entry>, n: StageName)
    requires Wired(cfg, s) && WellTimed(s, log) && n in s.stages
  {
    forall i :: 0 <= i < |log| && LaunchesAt(cfg, s, log, n, i) ==>
      exists j :: i < j < |log| && log[j].action == OnStage(StageEvent(n, s.stages[n].status.desired))
  }

  /** Some pass came late enough that an operation launched before this stretch has timed out. */
  ghost predicate Overdue(cfg: Config, s: State, log: seq<Entry>, n: StageName)
    requires WellTimed(s, log) && n in s.stages
  {
    exists i :: 0 <= i < |log| && log[i].action.Reconcile? && n in log[i].readings &&
      (s.stages[n].inFlightSince.Some? ==> log[i].readings[n].check - s.stages[n].inFlightSince.value >= cfg.inflightTimeout)
  }

  /** Before its first launch in a stretch, a stage is idle or still waits for the earlier operation. */
  lemma {:induction false} InFlightOrigin(cfg: Config, s: State, log: seq<Entry>, n: StageName)
    requires Wired(cfg, s) && WellTimed(s, log) && n in s.stages
    requires forall i :: 0 <= i < |log| ==> !LaunchesAt(cfg, s, log, n, i)
    ensures var since := After(cfg, s, log).stages[n].inFlightSince;
      since.None? || since == s.stages[n].inFlightSince
  {
    hide Handle, Launches;
    if log != [] {
      var k := |log| - 1;
      forall i | 0 <= i < k
        ensures !LaunchesAt(cfg, s, log[..k], n, i)
      {
        assert !LaunchesAt(cfg, s, log, n, i) && log[..k][..i] == log[..i];
      }
      InFlightOrigin(cfg, s, log[..k], n);
      assert EntryTimed(s, log[k]) && !LaunchesAt(cfg, s, log, n, k);
      MarkDecidesInFlight(cfg, After(cfg, s, log[..k]), log[k], n);
    }
  }

  lemma StaysConverged(cfg: Config, s: State, a: seq<Entry>, b: seq<Entry>, n: StageName)
    requires Wired(cfg, s) && WellTimed(s, a + b) && WellTimed(s, a) && QuietLog(s, a + b) && n in s.stages
    requires After(cfg, s, a).stages[n].Converged()
    ensures After(cfg, s, a + b).stages[n].Converged()
  {
    hide After;
    AfterConcat(cfg, s, a, b);
    assert QuietLog(s, a) by {
      forall i | 0 <= i < |a| ensures Quiet(s, a[i]) { assert a[i] == (a + b)[i]; }
    }
    BacklogShrinks(cfg, s, a);
    var t := After(cfg, s, a);
    assert QuietLog(t, b) by {
      forall i | 0 <= i < |b| ensures Quiet(t, b[i]) { assert b[i] == (a + b)[|a| + i]; }
    }
    BacklogShrinks(cfg, t, b);
    assert n !in Unconverged(t);
  }

  /** A delivered event converges the stage for the rest of the stretch. */
  lemma EventConverges(cfg: Config, s: State, log: seq<Entry>, n: StageName, j: nat)
    requires Wired(cfg, s) && WellTimed(s, log) && QuietLog(s, log) && n in s.stages
    requires j < |log| && log[j].action == OnStage(StageEvent(n, s.stages[n].status.desired))
    requires s.stages[n].status.desired.Valid()
    ensures After(cfg, s, log).stages[n].Converged()
  {
    hide After;
    var a, b := log[..j], log[j + 1..];
    assert log[..j + 1] == a + [log[j]] && log == log[..j + 1] + b;
    assert WellTimed(s, a) && EntryTimed(s, log[j]);
    BacklogShrinks(cfg, s, a);
    AfterAppend(cfg, s, a, log[j]);
    StaysConverged(cfg, s, log[..j + 1], b, n);
  }

  /** A stretch reaches a launch or convergence for the stage at its overdue pass. */
  lemma OverdueLaunches(cfg: Config, s: State, log: seq<Entry>, n: StageName)
    requires Wired(cfg, s) && WellTimed(s, log) && QuietLog(s, log) && n in s.stages
    requires Overdue(cfg, s, log, n)
    requires s.stages[n].status.desired.Valid() && s.stages[n].status.desired in s.stages[n].ops
    ensures (exists i :: 0 <= i < |log| && LaunchesAt(cfg, s, log, n, i))
         || After(cfg, s, log).stages[n].Converged()
  {
    hide After;
    if forall i :: 0 <= i < |log| ==> !LaunchesAt(cfg, s, log, n, i) {
      var p :| 0 <= p < |log| && log[p].action.Reconcile? && n in log[p].readings &&
        (s.stages[n].inFlightSince.Some? ==> log[p].readings[n].check - s.stages[n].inFlightSince.value >= cfg.inflightTimeout);
      var a, b := log[..p], log[p..];
      assert log == a + b && WellTimed(s, a);
      forall i | 0 <= i < p
        ensures !LaunchesAt(cfg, s, a, n, i)
      {
        assert !LaunchesAt(cfg, s, log, n, i) && a[..i] == log[..i];
      }
      InFlightOrigin(cfg, s, a, n);
      BacklogShrinks(cfg, s, a);
      assert !LaunchesAt(cfg, s, log, n, p);
      StaysConverged(cfg, s, a, b, n);
    }
  }

  /**
   * Convergence: over a quiet stretch in which every stage had an overdue pass and every launched
   * operation was answered by its event, no stage is left unconverged...
   */
  lemma Converges(cfg: Config, s: State, log: seq<Entry>)
    requires Wired(cfg, s) && WellTimed(s, log) && QuietLog(s, log)
    requires forall n :: n in s.stages ==>
      s.stages[n].status.desired.Valid() && s.stages[n].status.desired in s.stages[n].ops
    requires forall n :: n in s.stages ==> Delivered(cfg, s, log, n) && Overdue(cfg, s, log, n)
    ensures Unconverged(After(cfg, s, log)) == {}
  {
    var t := After(cfg, s, log);
    forall n | n in s.stages
      ensures t.stages[n].Converged()
    {
      assert Delivered(cfg, s, log, n) && Overdue(cfg, s, log, n);
      OverdueLaunches(cfg, s, log, n);
      if i :| 0 <= i < |log| && LaunchesAt(cfg, s, log, n, i) {
        var j :| i < j < |log| && log[j].action == OnStage(StageEvent(n, s.stages[n].status.desired));
        EventConverges(cfg, s, log, n, j);
      }
    }
  }

  /** ...and from then on a quiet run launches nothing. */
  lemma ConvergedLaunchesNothing(cfg: Config, s: State, log: seq<Entry>, n: StageName, i: nat)
    requires Wired(cfg, s) && WellTimed(s, log) && QuietLog(s, log) && n in s.stages && i < |log|
    requires Unconverged(s) == {}
    ensures !LaunchesAt(cfg, s, log, n, i)
  {
    BacklogShrinks(cfg, s, log[..i]);
    assert n !in Unconverged(After(cfg, s, log[..i]));
  }
}
