/**
 * The stop and start operations of a stage, in Go and in C, against a containerd that answers
 * every call in any way its state allows while tasks exit and objects vanish under their feet,
 * and, once a newer operation has taken over, while that operation makes objects of its own.
 */
module StageOps {
  import opened Options

  datatype Task = NoTask | Created | Started | Exited

  /** What containerd holds under the stage's container id. */
  datatype World = World(container: bool, task: Task) {
    predicate Sound() { task != NoTask ==> container }
  }

  datatype Rc = Ok | NotFound | Error

  datatype Call =
    | LoadContainer | LoadTask | Wait | Kill | DeleteTask(force: bool) | DeleteContainer
    | CreateContainer | CreateTask | StartTask
    | SawSupersede

  /** A call as containerd got it, how it was answered, and whether a newer operation had taken over by then. */
  datatype Issued = Issued(call: Call, world: World, rc: Rc, late: bool)

  predicate Mutates(c: Call) {
    c.Kill? || c.DeleteTask? || c.DeleteContainer? || c.CreateContainer? || c.CreateTask? || c.StartTask?
  }

  /** What may happen meanwhile: a task exits, or a task or an idle container is removed. */
  predicate Decays(w: World, w': World) {
    && w'.Sound()
    && (w'.container ==> w.container)
    && (w'.task == w.task || w'.task == NoTask || (w.task == Started && w'.task == Exited))
  }

  /** The answers the world allows; a failed call may have taken effect all the same. */
  predicate Answer(c: Call, w: World, rc: Rc, w': World) {
    match c
    case LoadContainer => w' == w && (rc == Ok ==> w.container) && (rc == NotFound ==> !w.container)
    case LoadTask => w' == w && (rc == Ok ==> w.task != NoTask) && (rc == NotFound ==> w.task == NoTask)
    case Wait => w' == w && (rc == Ok ==> w.task != NoTask) && (rc == NotFound ==> w.task == NoTask)
    case Kill => w' == w && (rc == Ok ==> w.task != NoTask) && (rc == NotFound ==> w.task != Started)
    case DeleteTask(force) =>
      || (rc == NotFound && w.task == NoTask && w' == w)
      || (rc == Error && w' == w)
      || (rc != NotFound && w.task != NoTask && (force || w.task != Started) && w' == w.(task := NoTask))
    case DeleteContainer =>
      || (rc == NotFound && !w.container && w' == w)
      || (rc == Error && w' == w)
      || (rc != NotFound && w.container && w.task == NoTask && w' == World(false, NoTask))
    case CreateContainer =>
      (rc != Ok && w' == w) || (rc != NotFound && !w.container && w' == World(true, NoTask))
    case CreateTask =>
      (rc != Ok && w' == w) || (rc != NotFound && w.container && w.task == NoTask && w' == w.(task := Created))
    case StartTask =>
      (rc != Ok && w' == w) || (rc != NotFound && w.task == Created && w' == w.(task := Started))
    case SawSupersede => w' == w
  }

  // ---------------------------------------------------------------- what traces must satisfy

  /** A task is signalled only after its exit was subscribed to. */
  ghost predicate WaitsBeforeKill(t: seq<Issued>) {
    forall i :: 0 <= i < |t| && t[i].call == Kill ==> Subscribed(t[..i])
  }

  ghost predicate Subscribed(t: seq<Issued>) {
    exists j :: 0 <= j < |t| && t[j].call == Wait && t[j].rc == Ok
  }

  /**
   * A container is deleted only when no task is left, a task that may still run is deleted only by
   * force, and nothing is created.
   */
  predicate StopCall(i: Issued) {
    && (i.call == DeleteContainer ==> i.world.task == NoTask)
    && (i.call == DeleteTask(false) ==> i.world.task != Started)
    && !i.call.CreateContainer? && !i.call.CreateTask? && !i.call.StartTask?
  }

  /** Every call is made as the owner of the stage and keeps the rules of a stop. */
  ghost predicate StopCalls(t: seq<Issued>) {
    forall i :: 0 <= i < |t| ==> !t[i].late && StopCall(t[i])
  }

  /** Once an operation has seen that it was superseded it changes nothing any more. */
  ghost predicate QuietOnceSuperseded(t: seq<Issued>) {
    forall i, j :: 0 <= i < j < |t| && t[i].call == SawSupersede ==> !Mutates(t[j].call)
  }

  lemma WaitsConcat(a: seq<Issued>, b: seq<Issued>)
    requires WaitsBeforeKill(a) && WaitsBeforeKill(b)
    ensures WaitsBeforeKill(a + b)
  {
    var t := a + b;
    forall i | 0 <= i < |t| && t[i].call == Kill
      ensures Subscribed(t[..i])
    {
      if i < |a| {
        assert t[..i] == a[..i];
      } else {
        assert b[i - |a|].call == Kill && t[..i] == a + b[..i - |a|];
        var j :| 0 <= j < i - |a| && b[j].call == Wait && b[j].rc == Ok;
        assert t[..i][|a| + j] == b[j];
      }
    }
  }

  ghost predicate GoTrace(t: seq<Issued>) {
    WaitsBeforeKill(t) && StopCalls(t)
  }

  lemma GoTraceConcat(a: seq<Issued>, b: seq<Issued>)
    requires GoTrace(a) && GoTrace(b)
    ensures GoTrace(a + b)
  {
    WaitsConcat(a, b);
  }

  lemma GoTraceOne(i: Issued)
    requires !i.late && StopCall(i) && i.call != Kill
    ensures GoTrace([i])
  {
  }

  // ---------------------------------------------------------------- containerd

  datatype Ending = ExitSeen | GraceOver | Cancelled

  /**
   * What may happen in between: while the operation owns its stage things only decay; once a newer
   * operation has taken over anything may be there.
   */
  ghost predicate MayBecome(w: World, w': World, superseded: bool) {
    w'.Sound() && (!superseded ==> Decays(w, w'))
  }

  class Daemon {
    var world: World
    var trace: seq<Issued>
    var superseded: bool
    /** No other operation works on the stage. */
    const alone: bool

    ghost predicate Valid()
      reads this
    {
      world.Sound() && (alone ==> !superseded)
    }

    /** Time passes. */
    method Interfere()
      requires Valid()
      modifies this`world, this`superseded
      ensures Valid() && MayBecome(old(world), world, superseded) && (old(superseded) ==> superseded)
    {
      var w, s, a := world, superseded, alone;
      assert s ==> s && (a ==> !s);
      var s': bool :| (s ==> s') && (a ==> !s');
      assert Decays(w, w);
      var w': World :| w'.Sound() && (!s' ==> Decays(w, w'));
      world, superseded := w', s';
    }

    method Invoke(call: Call) returns (rc: Rc, ghost i: Issued)
      requires Valid() && call != SawSupersede
      modifies this
      ensures Valid() && (old(superseded) ==> superseded)
      ensures trace == old(trace) + [i]
      ensures i.call == call && i.rc == rc && i.late == superseded
      ensures MayBecome(old(world), i.world, superseded) && Answer(call, i.world, rc, world)
    {
      Interfere();
      var w := world;
      assert Answer(call, w, Error, w);
      var r, w' :| Answer(call, w, r, w');
      assert Answer(call, w, r, w');
      i := Issued(call, w, r, superseded);
      trace := trace + [Issued(call, w, r, superseded)];
      world, rc := w', r;
    }

    /** The select on the exit channel, the grace period and the context. */
    method AwaitExit() returns (how: Ending)
      requires Valid()
      modifies this`world, this`superseded
      ensures Valid() && MayBecome(old(world), world, superseded) && (old(superseded) ==> superseded)
      ensures how == ExitSeen && !superseded ==> world.task != Started
    {
      Interfere();
      var w, s := world, superseded;
      how :| how == ExitSeen && !s ==> w.task != Started;
    }

    /** A safe point: has a newer operation taken over this stage? */
    method CheckSuperseded() returns (yes: bool, ghost i: Issued)
      requires Valid()
      modifies this
      ensures Valid() && MayBecome(old(world), world, superseded) && (old(superseded) ==> superseded)
      ensures yes == superseded && i.call == SawSupersede && i.late == superseded
      ensures trace == if yes then old(trace) + [i] else old(trace)
    {
      Interfere();
      yes := superseded;
      i := Issued(SawSupersede, world, Ok, superseded);
      if yes {
        trace := trace + [Issued(SawSupersede, world, Ok, superseded)];
      }
    }
  }

  // ---------------------------------------------------------------- Go

  /** Signals and reaps the task; success leaves none. */
  method GoDeleteTask(d: Daemon) returns (ok: bool, ghost t: seq<Issued>)
    requires d.Valid() && d.alone
    modifies d
    ensures d.Valid() && (d.world.container ==> old(d.world.container))
    ensures d.trace == old(d.trace) + t && GoTrace(t)
    ensures ok ==> d.world.task == NoTask
  {
    var rc, wait := d.Invoke(Wait);
    t := [wait];
    if rc != Ok {
      return rc == NotFound, t;
    }
    ghost var kill;
    rc, kill := d.Invoke(Kill);
    t := [wait, kill];
    assert [wait][0].call == Wait && Subscribed([wait]);
    assert t[..1] == [wait];
    if rc == Error {
      return false, t;
    }
    var how := d.AwaitExit();
    ghost var del;
    rc, del := d.Invoke(DeleteTask(how != ExitSeen));
    t := [wait, kill, del];
    assert t[..1] == [wait];
    return rc != Error, t;
  }

  /** The stop closure: success leaves neither task nor container. */
  method GoStop(d: Daemon) returns (ok: bool, ghost t: seq<Issued>)
    requires d.Valid() && d.alone
    modifies d
    ensures d.Valid()
    ensures d.trace == old(d.trace) + t && GoTrace(t)
    ensures ok ==> d.world == World(false, NoTask)
  {
    hide GoTrace;
    var rc, i := d.Invoke(LoadContainer);
    GoTraceOne(i);
    t := [i];
    if rc != Ok {
      return rc == NotFound, t;
    }
    rc, i := d.Invoke(LoadTask);
    GoTraceOne(i);
    GoTraceConcat(t, [i]);
    t := t + [i];
    if rc == Error {
      return false, t;
    }
    if rc == Ok {
      var done;
      ghost var t';
      done, t' := GoDeleteTask(d);
      GoTraceConcat(t, t');
      t := t + t';
      if !done {
        return false, t;
      }
    }
    rc, i := d.Invoke(DeleteContainer);
    GoTraceOne(i);
    GoTraceConcat(t, [i]);
    return rc == Ok, t + [i];
  }

  /** The start closure: it cleans up, then creates one container, one task and starts it. */
  method GoStart(d: Daemon) returns (ok: bool, ghost t: seq<Issued>, ghost made: seq<Issued>)
    requires d.Valid() && d.alone
    modifies d
    ensures d.Valid()
    ensures d.trace == old(d.trace) + t + made && GoTrace(t)
    ensures forall k :: 0 <= k < |made| ==> !made[k].late
    ensures made != [] ==> made[0].world == World(false, NoTask)
    ensures Calls(made) <= [CreateContainer, CreateTask, StartTask]
    ensures ok ==> Calls(made) == [CreateContainer, CreateTask, StartTask] && d.world == World(true, Started)
  {
    hide GoTrace;
    made := [];
    ok, t := GoStop(d);
    if !ok {
      return;
    }
    var rc, i := d.Invoke(CreateContainer);
    made := [i];
    if rc != Ok {
      return false, t, made;
    }
    rc, i := d.Invoke(CreateTask);
    made := made + [i];
    if rc != Ok {
      return false, t, made;
    }
    rc, i := d.Invoke(StartTask);
    made := made + [i];
    return rc == Ok, t, made;
  }

  ghost function Calls(t: seq<Issued>): (cs: seq<Call>)
    ensures |cs| == |t|
  {
    seq(|t|, i requires 0 <= i < |t| => t[i].call)
  }

  // ---------------------------------------------------------------- C

  datatype Waited = WaitOk | WaitTimeout | WaitNotFound | WaitError

  /** What the joined waiter thread reports: an exit, a timeout, a missing task or an error. */
  method JoinWaiter(d: Daemon) returns (w: Waited, ghost i: Issued)
    requires d.Valid()
    modifies d
    ensures d.Valid() && (old(d.superseded) ==> d.superseded) && MayBecome(old(d.world), d.world, d.superseded)
    ensures !d.superseded ==> (w == WaitOk ==> d.world.task != Started) && (w == WaitNotFound ==> d.world.task == NoTask)
    ensures d.trace == old(d.trace) + [i] && i.call == Wait && (i.late ==> d.superseded)
  {
    var rc;
    rc, i := d.Invoke(Wait);
    if rc == NotFound {
      return WaitNotFound, i;
    }
    if rc == Error {
      return WaitError, i;
    }
    var how := d.AwaitExit();
    return if how == ExitSeen then WaitOk else WaitTimeout, i;
  }

  /**
   * The trace of a C operation so far. `own` says what its calls must be like while it owns the
   * stage. It has changed at most one thing after it was superseded, nothing after it saw that, and
   * while it is not superseded nothing of the kind has happened at all.
   */
  ghost predicate CTrace(t: seq<Issued>, own: Issued -> bool, superseded: bool) {
    && QuietOnceSuperseded(t)
    && (forall i :: 0 <= i < |t| && !t[i].late ==> own(t[i]))
    && (forall i, j :: 0 <= i < j < |t| && Late(t[i]) ==> !Late(t[j]))
    && (!superseded ==> forall i :: 0 <= i < |t| ==> !t[i].late && t[i].call != SawSupersede)
  }

  /** A call that changes something although a newer operation has taken over. */
  predicate Late(i: Issued) { i.late && Mutates(i.call) }

  /** So far nothing has been changed late, and supersede has not been seen. */
  ghost predicate Clean(t: seq<Issued>, own: Issued -> bool) {
    forall i :: 0 <= i < |t| ==> t[i].call != SawSupersede && !Late(t[i]) && (!t[i].late ==> own(t[i]))
  }

  predicate AnyCall(i: Issued) { true }

  lemma StillOwner(t: seq<Issued>, own: Issued -> bool)
    requires CTrace(t, own, false)
    ensures Clean(t, own)
  {
  }

  /** One more call. */
  lemma GoOn(t: seq<Issued>, i: Issued, own: Issued -> bool, superseded: bool)
    requires Clean(t, own) && (!i.late ==> own(i)) && i.call != SawSupersede
    requires !superseded ==> !i.late && forall k :: 0 <= k < |t| ==> !t[k].late
    ensures CTrace(t + [i], own, superseded)
    ensures !Mutates(i.call) ==> Clean(t + [i], own)
  {
  }

  /** One more call that changes nothing. */
  lemma LookOn(t: seq<Issued>, i: Issued, own: Issued -> bool, superseded: bool)
    requires CTrace(t, own, true) && (!superseded ==> CTrace(t, own, false)) && !Mutates(i.call) && i.call != SawSupersede
    requires (!i.late ==> own(i)) && (i.late ==> superseded)
    ensures CTrace(t + [i], own, superseded)
  {
  }

  /** The safe point that ends an operation, and a call after it that changes nothing. */
  lemma GiveUp(t: seq<Issued>, i: Issued, own: Issued -> bool)
    requires CTrace(t, own, true) && i.call == SawSupersede && i.late
    ensures CTrace(t + [i], own, true)
    ensures forall j: Issued :: j.call == Wait && (!j.late ==> own(j)) ==> CTrace(t + [i] + [j], own, true)
  {
  }

  lemma Weaken(t: seq<Issued>, own: Issued -> bool, superseded: bool)
    requires CTrace(t, own, superseded)
    ensures CTrace(t, own, true)
  {
  }

  lemma EmptyTrace(own: Issued -> bool)
    ensures Clean([], own) && CTrace([], own, false)
  {
  }

  lemma CTraceConcat(a: seq<Issued>, b: seq<Issued>, own: Issued -> bool, superseded: bool)
    requires CTrace(a, own, false) && CTrace(b, own, superseded)
    ensures CTrace(a + b, own, superseded)
  {
    var t := a + b;
    forall i, j | 0 <= i < j < |t| && Late(t[i]) ensures !Late(t[j]) {
      assert i >= |a| && t[i] == b[i - |a|] && t[j] == b[j - |a|];
    }
    forall i, j | 0 <= i < j < |t| && t[i].call == SawSupersede ensures !Mutates(t[j].call) {
      assert i >= |a| && t[i] == b[i - |a|] && t[j] == b[j - |a|];
    }
  }

  lemma OwnWeaker(t: seq<Issued>, superseded: bool)
    requires CTrace(t, StopCall, superseded)
    ensures CTrace(t, AnyCall, superseded)
  {
  }

  /**
   * Safe points guard every step. A run that is never superseded and returns 0 leaves neither task
   * nor container; one that saw supersede returns 0 and leaves things as they are; and at most one
   * change goes to the newer operation's objects, when supersede comes after the last safe point.
   */
  method CStop(d: Daemon, expired: bool, threadFails: bool) returns (ok: bool, ghost t: seq<Issued>)
    requires d.Valid()
    modifies d
    ensures d.Valid() && (old(d.superseded) ==> d.superseded)
    ensures d.trace == old(d.trace) + t && CTrace(t, StopCall, d.superseded)
    ensures ok && !d.superseded ==> d.world == World(false, NoTask)
  {
    hide CTrace, Clean;
    ghost var i;
    t := [];
    var over, rc;
    EmptyTrace(StopCall);
    Weaken(t, StopCall, false);
    over, i := d.CheckSuperseded();
    if over { GiveUp(t, i, StopCall); return true, t + [i]; }
    if expired { return false, t; }
    rc, i := d.Invoke(LoadContainer);
    NoneLate(t);
    GoOn(t, i, StopCall, d.superseded);
    t := t + [i];
    if rc != Ok { return rc == NotFound, t; }
    Weaken(t, StopCall, d.superseded);
    over, i := d.CheckSuperseded();
    if over { GiveUp(t, i, StopCall); return true, t + [i]; }
    ghost var more;
    ok, more := CStopTask(d, threadFails);
    CTraceConcat(t, more, StopCall, d.superseded);
    t := t + more;
  }

  /**
   * The stop of a container that is there. Between a missing task and the deletion of its container
   * there is no safe point: that deletion is the call that can hit a newer operation's container.
   */
  method CStopTask(d: Daemon, threadFails: bool) returns (ok: bool, ghost t: seq<Issued>)
    requires d.Valid() && !d.superseded
    modifies d
    ensures d.Valid()
    ensures d.trace == old(d.trace) + t && CTrace(t, StopCall, d.superseded)
    ensures ok && !d.superseded ==> d.world == World(false, NoTask)
  {
    hide CTrace, Clean;
    EmptyTrace(StopCall);
    var over;
    var rc, i := d.Invoke(LoadTask);
    NoneLate([]);
    GoOn([], i, StopCall, d.superseded);
    t := [] + [i];
    if rc == NotFound {
      NotLateAfter([], i);
      rc, i := d.Invoke(DeleteContainer);
      GoOn(t, i, StopCall, d.superseded);
      return rc == Ok, t + [i];
    }
    if rc == Error { return false, t; }
    Weaken(t, StopCall, d.superseded);
    over, i := d.CheckSuperseded();
    if over { GiveUp(t, i, StopCall); return true, t + [i]; }
    if threadFails { return false, t; }
    ghost var more;
    ok, more := CReap(d);
    CTraceConcat(t, more, StopCall, d.superseded);
    t := t + more;
  }

  lemma NoneLate(t: seq<Issued>)
    requires t == []
    ensures forall k :: 0 <= k < |t| ==> !t[k].late
  {
  }

  lemma OwnerNotLate(t: seq<Issued>, own: Issued -> bool)
    requires CTrace(t, own, false)
    ensures forall k :: 0 <= k < |t| ==> !t[k].late
  {
  }

  lemma NotLateAfter(t: seq<Issued>, i: Issued)
    requires forall k :: 0 <= k < |t| ==> !t[k].late
    ensures !i.late ==> forall k :: 0 <= k < |t + [i]| ==> !(t + [i])[k].late
  {
  }

  /**
   * The second half of the stop: the waiter thread, the signal, the task, the container. The thread
   * subscribes some time before it is joined, not necessarily before the signal.
   */
  method CReap(d: Daemon) returns (ok: bool, ghost t: seq<Issued>)
    requires d.Valid()
    modifies d
    ensures d.Valid() && (old(d.superseded) ==> d.superseded)
    ensures d.trace == old(d.trace) + t && CTrace(t, StopCall, d.superseded)
    ensures ok && !d.superseded ==> d.world == World(false, NoTask)
  {
    hide CTrace, Clean;
    ghost var i, j;
    t := [];
    var over, w, rc;
    EmptyTrace(StopCall);
    Weaken(t, StopCall, false);
    over, i := d.CheckSuperseded();
    if over {
      GiveUp(t, i, StopCall);
      w, j := JoinWaiter(d);
      return true, t + [i] + [j];
    }
    rc, w, t := CSignal(d);
    if rc == Error { return false, t; }
    Weaken(t, StopCall, d.superseded);
    over, i := d.CheckSuperseded();
    if over { GiveUp(t, i, StopCall); return true, t + [i]; }
    if w == WaitError { return false, t; }
    ghost var more;
    ok, more := CDelete(d, w);
    CTraceConcat(t, more, StopCall, d.superseded);
    t := t + more;
  }

  /** The signal, for which the client reports a missing task as success, and the join of the waiter. */
  method CSignal(d: Daemon) returns (rc: Rc, w: Waited, ghost t: seq<Issued>)
    requires d.Valid() && !d.superseded
    modifies d
    ensures d.Valid()
    ensures d.trace == old(d.trace) + t && CTrace(t, StopCall, d.superseded)
    ensures !d.superseded ==> (w == WaitOk ==> d.world.task != Started) && (w == WaitNotFound ==> d.world.task == NoTask)
  {
    hide CTrace, Clean;
    ghost var i, j;
    EmptyTrace(StopCall);
    rc, i := d.Invoke(Kill);
    NoneLate([]);
    GoOn([], i, StopCall, d.superseded);
    t := [] + [i];
    Weaken(t, StopCall, d.superseded);
    w, j := JoinWaiter(d);
    LookOn(t, j, StopCall, d.superseded);
    t := t + [j];
  }

  /** The end of the stop: the task, unless it was gone already, and the container. */
  method CDelete(d: Daemon, w: Waited) returns (ok: bool, ghost t: seq<Issued>)
    requires d.Valid() && w != WaitError && !d.superseded
    requires (w == WaitOk ==> d.world.task != Started) && (w == WaitNotFound ==> d.world.task == NoTask)
    modifies d
    ensures d.Valid()
    ensures d.trace == old(d.trace) + t && CTrace(t, StopCall, d.superseded)
    ensures ok && !d.superseded ==> d.world == World(false, NoTask)
  {
    hide CTrace, Clean;
    ghost var i;
    t := [];
    var over, rc;
    EmptyTrace(StopCall);
    if w == WaitOk || w == WaitTimeout {
      rc, i := d.Invoke(DeleteTask(w == WaitTimeout));
      NoneLate(t);
      GoOn(t, i, StopCall, d.superseded);
      t := t + [i];
      if rc == Error { return false, t; }  // the client reports a missing task as success
    }
    Weaken(t, StopCall, d.superseded);
    over, i := d.CheckSuperseded();
    if over { GiveUp(t, i, StopCall); return true, t + [i]; }
    StillOwner(t, StopCall);
    OwnerNotLate(t, StopCall);
    rc, i := d.Invoke(DeleteContainer);
    GoOn(t, i, StopCall, d.superseded);
    return rc == Ok, t + [i];
  }

  /** The creating half of the start. */
  method CCreate(d: Daemon) returns (ok: bool, ghost t: seq<Issued>)
    requires d.Valid() && !d.superseded
    modifies d
    ensures d.Valid()
    ensures d.trace == old(d.trace) + t && CTrace(t, AnyCall, d.superseded)
    ensures ok && !d.superseded ==> d.world == World(true, Started)
  {
    hide CTrace, Clean;
    ghost var i;
    var rc, over;
    t := [];
    EmptyTrace(AnyCall);
    rc, i := d.Invoke(CreateContainer);
    NoneLate(t);
    GoOn(t, i, AnyCall, d.superseded);
    t := t + [i];
    if rc != Ok { return false, t; }
    Weaken(t, AnyCall, d.superseded);
    over, i := d.CheckSuperseded();
    if over { GiveUp(t, i, AnyCall); return true, t + [i]; }
    StillOwner(t, AnyCall);
    OwnerNotLate(t, AnyCall);
    rc, i := d.Invoke(CreateTask);
    GoOn(t, i, AnyCall, d.superseded);
    t := t + [i];
    if rc != Ok { return false, t; }
    Weaken(t, AnyCall, d.superseded);
    over, i := d.CheckSuperseded();
    if over { GiveUp(t, i, AnyCall); return true, t + [i]; }
    StillOwner(t, AnyCall);
    OwnerNotLate(t, AnyCall);
    rc, i := d.Invoke(StartTask);
    GoOn(t, i, AnyCall, d.superseded);
    return rc == Ok, t + [i];
  }

  /**
   * Start: the nested stop shares the token, so whoever of the two sees supersede, nothing changes
   * after it, and between them they change at most one thing too late. The deadline may pass before
   * the nested stop looks at it again.
   */
  method CStart(d: Daemon, expired: bool, expiredInStop: bool, threadFails: bool, specFails: bool)
    returns (ok: bool, ghost t: seq<Issued>)
    requires d.Valid()
    modifies d
    ensures d.Valid() && (old(d.superseded) ==> d.superseded)
    ensures d.trace == old(d.trace) + t && CTrace(t, AnyCall, d.superseded)
    ensures ok && !d.superseded ==> d.world == World(true, Started)
  {
    hide CTrace;
    ghost var i, more;
    var over;
    EmptyTrace(AnyCall);
    Weaken([], AnyCall, false);
    over, i := d.CheckSuperseded();
    if over { GiveUp([], i, AnyCall); return true, [] + [i]; }
    if expired { return false, []; }
    ok, t := CStop(d, expiredInStop, threadFails);
    OwnWeaker(t, d.superseded);
    if !ok { return; }
    Weaken(t, AnyCall, d.superseded);
    over, i := d.CheckSuperseded();
    if over { GiveUp(t, i, AnyCall); return true, t + [i]; }
    if specFails { return false, t; }
    over, i := d.CheckSuperseded();
    if over { GiveUp(t, i, AnyCall); return true, t + [i]; }
    ok, more := CCreate(d);
    CTraceConcat(t, more, AnyCall, d.superseded);
    t := t + more;
  }

  /** Two calls that change something, both after a newer operation took over: never in one C operation. */
  lemma AtMostOneLateChange(t: seq<Issued>, own: Issued -> bool, superseded: bool, i: nat, j: nat)
    requires CTrace(t, own, superseded) && i < |t| && j < |t| && Late(t[i]) && Late(t[j])
    ensures i == j
  {
    assert forall k, l :: 0 <= k < l < |t| && Late(t[k]) ==> !Late(t[l]);
  }
}
