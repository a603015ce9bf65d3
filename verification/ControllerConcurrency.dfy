/**
 * The controller goroutine among its submitters, the ticker, failing operations and websocket
 * writers, as a labelled transition system over the bounded actions channel and the one-deep slots.
 */
module ControllerConcurrency {
  import opened Options
  import opened ControllerSpec
  import opened ControllerHistory

  type CallId = nat
  type OpId = nat

  /** A Submit call. begun and ended count the entries handled when it was made and when it returned; point is its entry. */
  datatype Call =
    | Sending(action: Action, begun: nat)
    | Waiting(action: Action, begun: nat)
    | Replied(action: Action, begun: nat, reply: Reply, point: nat)
    | Returned(action: Action, begun: nat, reply: Reply, point: nat, ended: nat)

  /** What travels through the channel; requests without a sender want no reply. */
  datatype Message = Message(action: Action, from: Option<CallId>)

  /** An operation goroutine: at work, failed and sending its clear, or about to call Done. */
  datatype Op = Working(stage: StageName, target: StageState) | Clearing(stage: StageName) | Finishing

  /** The three non-blocking selects of a listener call. */
  datatype Phase = Offer | Drain | Retry

  datatype Pc =
    | Idle
    | Reconciling(from: Option<CallId>, todo: set<StageName>, rs: Readings)
    | Notifying(from: Option<CallId>, reply: Reply, snapshot: Snapshot, rest: seq<ListenerId>, phase: Phase)

  /** A websocket client: its slot, what its listener was called with and what its writer took out. */
  datatype Client = Client(slot: Option<Snapshot>, published: seq<Snapshot>, received: seq<Snapshot>) {
    function Seen(): (r: seq<Snapshot>) {
      received + if slot.Some? then [slot.value] else []
    }
  }

  datatype System = System(
    state: State, pc: Pc, queue: seq<Message>, calls: map<CallId, Call>, clients: map<ListenerId, Client>,
    ops: map<OpId, Op>, waitGroup: int, now: Time,
    log: seq<Entry>, sent: seq<Message>, finished: nat)

  datatype Step =
    | Invoke(call: CallId, action: Action)
    | Send(call: CallId)
    | RequestReconcile
    | Take
    | ReconcileOne(name: StageName, check: Time, launch: Time, op: OpId)
    | EndPass
    | CallListener
    | EndAction
    | Return(call: CallId)
    | OpFails(op: OpId)
    | OpClears(op: OpId)
    | OpDone(op: OpId)
    | Receive(client: ListenerId)
    | Tick(time: Time)

  function ClientOf(s: System, l: ListenerId): (c: Client) {
    if l in s.clients then s.clients[l] else Client(None, [], [])
  }

  /** A send proceeds into the buffer, or straight to the waiting goroutine. */
  predicate Room(capacity: nat, s: System) {
    |s.queue| < capacity || (s.queue == [] && s.pc.Idle?)
  }

  predicate Submittable(a: Action) {
    !a.Reconcile? && !a.ClearInFlight?
  }

  ghost predicate Enabled(cfg: Config, capacity: nat, s: System, step: Step) {
    match step
    case Invoke(c, a) => c !in s.calls && Submittable(a)
    case Send(c) => c in s.calls && s.calls[c].Sending? && Room(capacity, s)
    case RequestReconcile => Room(capacity, s)
    case Take => s.pc.Idle? && s.queue != [] && Wired(cfg, s.state)
    case ReconcileOne(n, check, launch, op) =>
      s.pc.Reconciling? && n in s.pc.todo && n in s.state.stages && s.now <= check <= launch && op !in s.ops
    case EndPass => s.pc.Reconciling? && s.pc.todo == {}
    case CallListener => s.pc.Notifying? && s.pc.rest != []
    case EndAction => s.pc.Notifying? && s.pc.rest == []
    case Return(c) => c in s.calls && s.calls[c].Replied?
    case OpFails(o) => o in s.ops && s.ops[o].Working?
    case OpClears(o) => o in s.ops && s.ops[o].Clearing? && Room(capacity, s)
    case OpDone(o) => o in s.ops && !s.ops[o].Clearing?
    case Receive(l) => ClientOf(s, l).slot.Some?
    case Tick(t) => s.now <= t
  }

  function Enqueue(s: System, m: Message): (t: System) {
    s.(queue := s.queue + [m], sent := s.sent + [m])
  }

  /** One select of the listener call in progress. */
  function Select(c: Client, snapshot: Snapshot, phase: Phase): (r: (Client, Option<Phase>)) {
    match phase
    case Offer =>
      var c := c.(published := c.published + [snapshot]);
      if c.slot.None? then (c.(slot := Some(snapshot)), None) else (c, Some(Drain))
    case Drain => (c.(slot := None), Some(Retry))
    case Retry => (if c.slot.None? then c.(slot := Some(snapshot)) else c, None)
  }

  ghost function Next(cfg: Config, capacity: nat, s: System, step: Step): (t: System)
    requires Enabled(cfg, capacity, s, step)
  {
    match step
    case Invoke(c, a) => s.(calls := s.calls[c := Sending(a, |s.log|)])
    case Send(c) =>
      Enqueue(s, Message(s.calls[c].action, Some(c))).(calls := s.calls[c := Waiting(s.calls[c].action, s.calls[c].begun)])
    case RequestReconcile => Enqueue(s, Message(Reconcile, None))
    case Take =>
      var m := s.queue[0];
      var s := s.(queue := s.queue[1..]);
      if m.action.Reconcile? then s.(pc := Reconciling(m.from, s.state.stages.Keys, map[]))
      else
        var e := Entry(m.action, map[]);
        var r := Handle(cfg, s.state, e);
        s.(state := r.state, log := s.log + [e], pc := Notifying(m.from, r.reply, StatusOf(r.state), r.calls, Offer))
    case ReconcileOne(n, check, launch, op) =>
      var stage, r := s.state.stages[n], Reading(check, launch);
      var launching := Launches(stage, cfg.inflightTimeout, r);
      s.(state := s.state.(stages := s.state.stages[n := ReconcileStage(stage, cfg.inflightTimeout, r)]),
         pc := s.pc.(todo := s.pc.todo - {n}, rs := s.pc.rs[n := r]),
         ops := if launching then s.ops[op := Working(n, stage.status.desired)] else s.ops,
         waitGroup := if launching then s.waitGroup + 1 else s.waitGroup,
         now := launch)
    case EndPass =>
      s.(log := s.log + [Entry(Reconcile, s.pc.rs)], pc := Notifying(s.pc.from, Done, StatusOf(s.state), [], Offer))
    case CallListener =>
      var l := s.pc.rest[0];
      var r := Select(ClientOf(s, l), s.pc.snapshot, s.pc.phase);
      s.(clients := s.clients[l := r.0],
         pc := if r.1.Some? then s.pc.(phase := r.1.value) else s.pc.(rest := s.pc.rest[1..], phase := Offer))
    case EndAction =>
      s.(pc := Idle,
         calls := if s.pc.from.Some? && s.pc.from.value in s.calls && s.calls[s.pc.from.value].Waiting?
                  then s.calls[s.pc.from.value := Answer(s.calls[s.pc.from.value], s.pc.reply, |s.log|)] else s.calls)
    case Return(c) =>
      var call := s.calls[c];
      s.(calls := s.calls[c := Returned(call.action, call.begun, call.reply, call.point, |s.log|)])
    case OpFails(o) => s.(ops := s.ops[o := Clearing(s.ops[o].stage)])
    case OpClears(o) => Enqueue(s, Message(ClearInFlight(s.ops[o].stage), None)).(ops := s.ops[o := Finishing])
    case OpDone(o) => s.(ops := s.ops - {o}, waitGroup := s.waitGroup - 1, finished := s.finished + 1)
    case Receive(l) =>
      var c := ClientOf(s, l);
      s.(clients := s.clients[l := c.(slot := None, received := c.received + [c.slot.value])])
    case Tick(t) => s.(now := t)
  }

  function Answer(call: Call, reply: Reply, handled: nat): (r: Call)
    requires call.Waiting?
  {
    Replied(call.action, call.begun, reply, if handled == 0 then 0 else handled - 1)
  }

  function Start(seed: State, now: Time): (s: System) {
    System(seed, Idle, [], map[], map[], map[], 0, now, [], [], 0)
  }

  // ---------------------------------------------------------------- the log explains the state

  /** The state in the middle of a pass: the visited stages are reconciled, the others untouched. */
  function Partial(base: State, timeout: int, rs: Readings): (s: State) {
    base.(stages := map n | n in base.stages ::
      if n in rs then ReconcileStage(base.stages[n], timeout, rs[n]) else base.stages[n])
  }

  ghost predicate LogSound(cfg: Config, seed: State, s: System) {
    Wired(cfg, seed) && WellTimed(seed, s.log)
  }

  ghost predicate Explained(cfg: Config, seed: State, s: System)
    requires LogSound(cfg, seed, s)
  {
    var base := After(cfg, seed, s.log);
    if s.pc.Reconciling? then
      && s.pc.rs.Keys == base.stages.Keys - s.pc.todo && s.pc.todo <= base.stages.Keys
      && (forall n :: n in s.pc.rs ==> s.pc.rs[n].check <= s.pc.rs[n].launch)
      && s.state == Partial(base, cfg.inflightTimeout, s.pc.rs)
    else s.state == base
  }

  /** Messages are handled in the order they were sent, none lost and none twice. */
  ghost predicate InOrder(s: System) {
    var taken := |s.log| + if s.pc.Reconciling? then 1 else 0;
    && taken <= |s.sent|
    && s.queue == s.sent[taken..]
    && (forall i :: 0 <= i < |s.log| ==> s.log[i].action == s.sent[i].action)
    && (s.pc.Reconciling? ==> s.sent[|s.log|] == Message(Reconcile, s.pc.from))
    && (s.pc.Notifying? ==> s.log != [] && s.sent[|s.log| - 1].from == s.pc.from)
  }

  ghost predicate LogInv(cfg: Config, seed: State, s: System) {
    LogSound(cfg, seed, s) && Explained(cfg, seed, s) && InOrder(s)
  }

  lemma PassStep(cfg: Config, base: State, rs: Readings, n: StageName, r: Reading)
    requires n in base.stages && n !in rs
    ensures var s := Partial(base, cfg.inflightTimeout, rs);
      && n in s.stages && s.stages[n] == base.stages[n]
      && s.(stages := s.stages[n := ReconcileStage(s.stages[n], cfg.inflightTimeout, r)])
         == Partial(base, cfg.inflightTimeout, rs[n := r])
  {
    var s := Partial(base, cfg.inflightTimeout, rs);
    assert s.stages[n := ReconcileStage(s.stages[n], cfg.inflightTimeout, r)]
        == Partial(base, cfg.inflightTimeout, rs[n := r]).stages;
  }

  lemma WholePass(cfg: Config, base: State, rs: Readings)
    requires rs.Keys == base.stages.Keys
    ensures Partial(base, cfg.inflightTimeout, rs) == ReconcilePass(base, cfg.inflightTimeout, rs)
  {
    assert Partial(base, cfg.inflightTimeout, rs).stages == ReconcilePass(base, cfg.inflightTimeout, rs).stages;
  }

  lemma NoPass(cfg: Config, base: State)
    ensures Partial(base, cfg.inflightTimeout, map[]) == base
  {
    assert Partial(base, cfg.inflightTimeout, map[]).stages == base.stages;
  }

  lemma LogKept(cfg: Config, capacity: nat, seed: State, s: System, step: Step)
    requires LogInv(cfg, seed, s) && Enabled(cfg, capacity, s, step)
    ensures LogSound(cfg, seed, Next(cfg, capacity, s, step))
    ensures Explained(cfg, seed, Next(cfg, capacity, s, step))
  {
    hide Handle, Partial, ReconcilePass, Select, InOrder, StatusOf, Launches, ReconcileStage;
    var base := After(cfg, seed, s.log);
    match step
    case Take =>
      var m := s.queue[0];
      if m.action.Reconcile? {
        NoPass(cfg, base);
      } else {
        AfterAppend(cfg, seed, s.log, Entry(m.action, map[]));
      }
    case ReconcileOne(n, check, launch, op) =>
      PassStep(cfg, base, s.pc.rs, n, Reading(check, launch));
    case EndPass =>
      var e := Entry(Reconcile, s.pc.rs);
      assert s.pc.rs.Keys == base.stages.Keys;
      AfterAppend(cfg, seed, s.log, e);
      WholePass(cfg, base, s.pc.rs);
      PassEntry(cfg, base, e);
    case _ =>
  }

  lemma PassEntry(cfg: Config, s: State, e: Entry)
    requires Wired(cfg, s) && e.action == Reconcile && s.stages.Keys <= e.readings.Keys
    ensures Handle(cfg, s, e) == Effect(ReconcilePass(s, cfg.inflightTimeout, e.readings), Done, [])
  {
  }

  lemma OrderEnqueue(s: System, m: Message)
    requires InOrder(s)
    ensures InOrder(Enqueue(s, m))
  {
    var taken := |s.log| + if s.pc.Reconciling? then 1 else 0;
    assert s.sent[taken..] + [m] == (s.sent + [m])[taken..];
  }

  lemma OrderTake(s: System, t: System)
    requires InOrder(s) && s.pc.Idle? && s.queue != []
    requires t.queue == s.queue[1..] && t.sent == s.sent
    requires
      || (s.queue[0].action.Reconcile? && t.pc.Reconciling? && t.pc.from == s.queue[0].from && t.log == s.log)
      || (t.pc.Notifying? && t.pc.from == s.queue[0].from && t.log == s.log + [Entry(s.queue[0].action, map[])])
    ensures InOrder(t)
  {
    var k := |s.log|;
    assert s.queue[0] == s.sent[k] && s.queue[1..] == s.sent[k + 1..];
  }

  lemma OrderKept(cfg: Config, capacity: nat, s: System, step: Step)
    requires InOrder(s) && Enabled(cfg, capacity, s, step)
    ensures InOrder(Next(cfg, capacity, s, step))
  {
    hide Handle, Select, StatusOf, Launches, ReconcileStage, InOrder;
    var t := Next(cfg, capacity, s, step);
    match step
    case Send(c) => OrderEnqueue(s, Message(s.calls[c].action, Some(c))); OrderFrame(Enqueue(s, Message(s.calls[c].action, Some(c))), t);
    case RequestReconcile => OrderEnqueue(s, Message(Reconcile, None));
    case OpClears(o) => OrderEnqueue(s, Message(ClearInFlight(s.ops[o].stage), None)); OrderFrame(Enqueue(s, Message(ClearInFlight(s.ops[o].stage), None)), t);
    case Take => OrderTake(s, t);
    case EndPass => OrderEndPass(s, t);
    case _ => OrderFrame(s, t);
  }

  lemma OrderFrame(s: System, t: System)
    requires InOrder(s) && t.log == s.log && t.sent == s.sent && t.queue == s.queue
    requires t.pc.Reconciling? == s.pc.Reconciling? && (t.pc.Notifying? ==> s.pc.Notifying?)
    requires t.pc.Reconciling? || t.pc.Notifying? ==> t.pc.from == s.pc.from
    ensures InOrder(t)
  {
  }

  lemma OrderEndPass(s: System, t: System)
    requires InOrder(s) && s.pc.Reconciling? && t.pc.Notifying? && t.pc.from == s.pc.from
    requires t.queue == s.queue && t.sent == s.sent && t.log == s.log + [Entry(Reconcile, s.pc.rs)]
    ensures InOrder(t)
  {
  }

  // ---------------------------------------------------------------- calls

  /** The reply handler i of the log gives. */
  ghost function ReplyAt(cfg: Config, seed: State, log: seq<Entry>, i: nat): (r: Reply)
    requires Wired(cfg, seed) && WellTimed(seed, log) && i < |log|
  {
    assert EntryTimed(seed, log[i]);
    Handle(cfg, After(cfg, seed, log[..i]), log[i]).reply
  }

  /** How many entries of the log have been dealt with completely, reply included. */
  function Completed(s: System): (k: int) {
    |s.log| - if s.pc.Notifying? then 1 else 0
  }

  /** Entry i of the log answers call c with the given reply, and was handled after the call was made. */
  ghost predicate Answers(cfg: Config, seed: State, s: System, c: CallId, call: Call, i: nat)
    requires LogSound(cfg, seed, s)
  {
    && i < Completed(s) && i < |s.sent| && call.begun <= i
    && (call.Replied? || call.Returned?)
    && s.sent[i] == Message(call.action, Some(c))
    && call.reply == ReplyAt(cfg, seed, s.log, i)
  }

  ghost predicate CallSound(cfg: Config, seed: State, s: System, c: CallId, call: Call)
    requires LogSound(cfg, seed, s)
  {
    match call
    case Sending(_, b) => b <= |s.log| && forall i :: 0 <= i < |s.sent| ==> s.sent[i].from != Some(c)
    case Waiting(a, b) => forall i :: 0 <= i < |s.sent| && s.sent[i].from == Some(c) ==> b <= i && s.sent[i].action == a
    case Replied(_, _, _, i) => Answers(cfg, seed, s, c, call, i)
    case Returned(_, _, _, i, e) => Answers(cfg, seed, s, c, call, i) && i < e <= |s.log|
  }

  /** Every sent message with a sender belongs to a call that has been sent, and to no other message. */
  ghost predicate SendersSound(s: System) {
    && (forall i :: 0 <= i < |s.sent| && s.sent[i].from.Some? ==> s.sent[i].from.value in s.calls)
    && (forall i, j :: 0 <= i < j < |s.sent| && s.sent[i].from.Some? ==> s.sent[i].from != s.sent[j].from)
  }

  ghost predicate CallsSound(cfg: Config, seed: State, s: System)
    requires LogSound(cfg, seed, s)
  {
    && (forall c :: c in s.calls ==> CallSound(cfg, seed, s, c, s.calls[c]))
    && SendersSound(s)
    && (s.pc.Notifying? ==> s.log != [] && s.pc.reply == ReplyAt(cfg, seed, s.log, |s.log| - 1))
  }

  lemma ReplyStable(cfg: Config, seed: State, log: seq<Entry>, e: Entry, i: nat)
    requires Wired(cfg, seed) && WellTimed(seed, log) && EntryTimed(seed, e) && i < |log|
    ensures WellTimed(seed, log + [e]) && ReplyAt(cfg, seed, log + [e], i) == ReplyAt(cfg, seed, log, i)
  {
    assert (log + [e])[..i] == log[..i];
  }

  /** A call stays sound when messages are sent by others and entries are handled. */
  lemma CallFrame(cfg: Config, seed: State, s: System, t: System, c: CallId, call: Call)
    requires LogSound(cfg, seed, s) && LogSound(cfg, seed, t) && CallSound(cfg, seed, s, c, call)
    requires t.log == s.log || (t.log != [] && s.log == t.log[..|t.log| - 1])
    requires Completed(s) <= Completed(t)
    requires t.sent == s.sent || (t.sent != [] && s.sent == t.sent[..|t.sent| - 1] && t.sent[|s.sent|].from != Some(c))
    ensures CallSound(cfg, seed, t, c, call)
  {
    hide Handle, After;
    if (call.Replied? || call.Returned?) && t.log != s.log {
      var e := t.log[|s.log|];
      assert t.log == s.log + [e] && EntryTimed(seed, e);
      ReplyStable(cfg, seed, s.log, e, call.point);
    }
  }

  lemma SendersEnqueue(s: System, m: Message)
    requires SendersSound(s)
    requires m.from.Some? ==> m.from.value in s.calls && forall i :: 0 <= i < |s.sent| ==> s.sent[i].from != m.from
    ensures SendersSound(Enqueue(s, m))
  {
  }

  /** The last entry answers the action just ended. */
  lemma EndAnswers(cfg: Config, seed: State, s: System, t: System, c: CallId)
    requires LogSound(cfg, seed, s) && InOrder(s) && CallsSound(cfg, seed, s)
    requires s.pc.Notifying? && s.pc.from == Some(c) && c in s.calls && s.calls[c].Waiting?
    requires t.log == s.log && t.sent == s.sent && !t.pc.Notifying?
    ensures LogSound(cfg, seed, t) && CallSound(cfg, seed, t, c, Answer(s.calls[c], s.pc.reply, |s.log|))
  {
    hide Handle, After;
    assert CallSound(cfg, seed, s, c, s.calls[c]);
  }

  /** The sender of the action being dealt with still waits for its reply. */
  lemma SenderWaits(cfg: Config, seed: State, s: System)
    requires LogSound(cfg, seed, s) && InOrder(s) && CallsSound(cfg, seed, s)
    requires s.pc.Notifying? && s.pc.from.Some?
    ensures s.pc.from.value in s.calls && s.calls[s.pc.from.value].Waiting?
  {
    hide Handle, After;
    var c := s.pc.from.value;
    assert s.sent[|s.log| - 1].from == Some(c);
    assert CallSound(cfg, seed, s, c, s.calls[c]);
  }

  lemma StepExtendsLog(cfg: Config, capacity: nat, s: System, step: Step)
    requires Enabled(cfg, capacity, s, step)
    ensures var t := Next(cfg, capacity, s, step);
      && (t.log == s.log || (t.log != [] && s.log == t.log[..|t.log| - 1] && t.pc.Notifying?))
      && (t.pc.Notifying? && t.log == s.log ==> s.pc.Notifying? && t.pc.reply == s.pc.reply)
  {
    hide Handle, Select, StatusOf, Launches, ReconcileStage, Wired;
    var t := Next(cfg, capacity, s, step);
    assert t.log != s.log ==> t.log[..|s.log|] == s.log;
  }

  lemma StepExtendsSent(cfg: Config, capacity: nat, s: System, step: Step)
    requires Enabled(cfg, capacity, s, step)
    ensures var t := Next(cfg, capacity, s, step);
      && (t.sent == s.sent || (t.sent != [] && s.sent == t.sent[..|t.sent| - 1]
           && t.sent[|s.sent|].from == if step.Send? then Some(step.call) else None))
      && (step.Send? ==> t.sent == s.sent + [Message(s.calls[step.call].action, Some(step.call))])
  {
    hide Handle, Select, StatusOf, Launches, ReconcileStage, Wired;
    var t := Next(cfg, capacity, s, step);
    assert t.sent != s.sent ==> t.sent[..|s.sent|] == s.sent;
  }

  lemma StepExtendsCalls(cfg: Config, capacity: nat, s: System, step: Step)
    requires Enabled(cfg, capacity, s, step)
    ensures var t := Next(cfg, capacity, s, step); s.calls.Keys <= t.calls.Keys && Completed(s) <= Completed(t)
  {
    hide Handle, Select, StatusOf, Launches, ReconcileStage, Wired;
  }

  /** What a step may do to the log, the messages sent and the calls. */
  lemma StepExtends(cfg: Config, capacity: nat, s: System, step: Step)
    requires Enabled(cfg, capacity, s, step)
    ensures var t := Next(cfg, capacity, s, step);
      && (t.log == s.log || (t.log != [] && s.log == t.log[..|t.log| - 1] && t.pc.Notifying?))
      && (t.sent == s.sent || (t.sent != [] && s.sent == t.sent[..|t.sent| - 1]
           && t.sent[|s.sent|].from == if step.Send? then Some(step.call) else None))
      && s.calls.Keys <= t.calls.Keys
      && Completed(s) <= Completed(t)
      && (step.Send? ==> t.sent == s.sent + [Message(s.calls[step.call].action, Some(step.call))])
      && (t.pc.Notifying? && t.log == s.log ==> s.pc.Notifying? && t.pc.reply == s.pc.reply)
  {
    hide Next, Completed, Handle, Wired;
    StepExtendsLog(cfg, capacity, s, step);
    StepExtendsSent(cfg, capacity, s, step);
    StepExtendsCalls(cfg, capacity, s, step);
  }

  lemma CallsKept(cfg: Config, capacity: nat, seed: State, s: System, step: Step)
    requires LogInv(cfg, seed, s) && CallsSound(cfg, seed, s) && Enabled(cfg, capacity, s, step)
    requires LogSound(cfg, seed, Next(cfg, capacity, s, step))
    ensures var t := Next(cfg, capacity, s, step);
      && SendersSound(t)
      && forall c :: c in t.calls ==> CallSound(cfg, seed, t, c, t.calls[c])
  {
    hide Handle, After, Select, StatusOf, Launches, ReconcileStage, InOrder, Explained, CallSound, SendersSound;
    var t := Next(cfg, capacity, s, step);
    StepExtends(cfg, capacity, s, step);
    SendersKept(cfg, capacity, seed, s, step);
    forall c | c in t.calls
      ensures CallSound(cfg, seed, t, c, t.calls[c])
    {
      OneCallKept(cfg, capacity, seed, s, step, c);
    }
  }

  lemma SendersKept(cfg: Config, capacity: nat, seed: State, s: System, step: Step)
    requires LogInv(cfg, seed, s) && CallsSound(cfg, seed, s) && Enabled(cfg, capacity, s, step)
    ensures SendersSound(Next(cfg, capacity, s, step))
  {
    hide Handle, After, Select, StatusOf, Launches, ReconcileStage, InOrder, Explained, SendersSound;
    var t := Next(cfg, capacity, s, step);
    StepExtends(cfg, capacity, s, step);
    if t.sent == s.sent {
      SendersFrame(s, t);
    } else {
      var m := t.sent[|s.sent|];
      if step.Send? {
        assert CallSound(cfg, seed, s, step.call, s.calls[step.call]);
      }
      SendersEnqueue(s, m);
      assert t.sent == s.sent + [m];
      SendersFrame(Enqueue(s, m), t);
    }
  }

  lemma SendersFrame(s: System, t: System)
    requires SendersSound(s) && t.sent == s.sent && s.calls.Keys <= t.calls.Keys
    ensures SendersSound(t)
  {
  }

  /** The record a step leaves for a call it touches. */
  lemma CallTouched(cfg: Config, capacity: nat, s: System, step: Step, c: CallId)
    requires Enabled(cfg, capacity, s, step) && c in Next(cfg, capacity, s, step).calls
    ensures var t := Next(cfg, capacity, s, step);
      || (c in s.calls && t.calls[c] == s.calls[c] && !(step.Send? && step.call == c))
      || (step == Invoke(c, t.calls[c].action) && c !in s.calls && t.calls[c] == Sending(step.action, |s.log|))
      || (step == Send(c) && c in s.calls && s.calls[c].Sending? && t.calls[c] == Waiting(s.calls[c].action, s.calls[c].begun))
      || (step.EndAction? && c in s.calls && s.calls[c].Waiting? && s.pc.Notifying? && s.pc.from == Some(c)
          && t.calls[c] == Answer(s.calls[c], s.pc.reply, |s.log|))
      || (step == Return(c) && c in s.calls && s.calls[c].Replied?
          && t.calls[c] == Returned(s.calls[c].action, s.calls[c].begun, s.calls[c].reply, s.calls[c].point, |s.log|))
  {
    hide Handle, Select, StatusOf, Launches, ReconcileStage;
  }

  lemma OneCallKept(cfg: Config, capacity: nat, seed: State, s: System, step: Step, c: CallId)
    requires LogInv(cfg, seed, s) && CallsSound(cfg, seed, s) && Enabled(cfg, capacity, s, step)
    requires LogSound(cfg, seed, Next(cfg, capacity, s, step)) && c in Next(cfg, capacity, s, step).calls
    ensures var t := Next(cfg, capacity, s, step); CallSound(cfg, seed, t, c, t.calls[c])
  {
    hide Next, Handle, After, Explained, LogSound, ReplyAt, InOrder, CallSound, SendersSound;
    var t := Next(cfg, capacity, s, step);
    StepExtends(cfg, capacity, s, step);
    CallTouched(cfg, capacity, s, step, c);
    assert c in s.calls ==> CallSound(cfg, seed, s, c, s.calls[c]);
    if step == Send(c) {
      SendSound(cfg, seed, s, t, c);
    } else if step.EndAction? && t.calls[c] != s.calls[c] {
      EndFrame(cfg, capacity, s);
      EndAnswers(cfg, seed, s, t, c);
    } else {
      if c !in s.calls {
        InvokeSound(cfg, seed, s, c, t.calls[c]);
      } else if step == Return(c) && t.calls[c] != s.calls[c] {
        ReturnSound(cfg, seed, s, c, t.calls[c]);
      }
      CallFrame(cfg, seed, s, t, c, t.calls[c]);
    }
  }

  lemma EndFrame(cfg: Config, capacity: nat, s: System)
    requires Enabled(cfg, capacity, s, EndAction)
    ensures var t := Next(cfg, capacity, s, EndAction); t.log == s.log && t.sent == s.sent && t.pc.Idle?
  {
  }

  lemma InvokeSound(cfg: Config, seed: State, s: System, c: CallId, call: Call)
    requires LogSound(cfg, seed, s) && SendersSound(s) && c !in s.calls
    requires call.Sending? && call.begun == |s.log|
    ensures CallSound(cfg, seed, s, c, call)
  {
  }

  lemma SendSound(cfg: Config, seed: State, s: System, t: System, c: CallId)
    requires LogSound(cfg, seed, s) && LogSound(cfg, seed, t) && InOrder(s)
    requires c in s.calls && s.calls[c].Sending? && CallSound(cfg, seed, s, c, s.calls[c])
    requires c in t.calls && t.calls[c] == Waiting(s.calls[c].action, s.calls[c].begun)
    requires t.sent == s.sent + [Message(s.calls[c].action, Some(c))]
    ensures CallSound(cfg, seed, t, c, t.calls[c])
  {
  }

  lemma ReturnSound(cfg: Config, seed: State, s: System, c: CallId, call: Call)
    requires LogSound(cfg, seed, s) && c in s.calls && s.calls[c].Replied? && CallSound(cfg, seed, s, c, s.calls[c])
    requires call == Returned(s.calls[c].action, s.calls[c].begun, s.calls[c].reply, s.calls[c].point, |s.log|)
    ensures CallSound(cfg, seed, s, c, call)
  {
    hide Handle, After;
  }

  lemma ReplyKept(cfg: Config, capacity: nat, seed: State, s: System, step: Step)
    requires LogInv(cfg, seed, s) && CallsSound(cfg, seed, s) && Enabled(cfg, capacity, s, step)
    requires LogSound(cfg, seed, Next(cfg, capacity, s, step))
    ensures var t := Next(cfg, capacity, s, step);
      t.pc.Notifying? ==> t.log != [] && t.pc.reply == ReplyAt(cfg, seed, t.log, |t.log| - 1)
  {
    hide Handle, After, Select, StatusOf, Launches, ReconcileStage, InOrder, CallSound, SendersSound;
    var t := Next(cfg, capacity, s, step);
    StepExtends(cfg, capacity, s, step);
    if t.log != s.log {
      var e := t.log[|s.log|];
      assert t.log[..|s.log|] == s.log && EntryTimed(seed, e);
      if step.EndPass? {
        PassEntry(cfg, After(cfg, seed, s.log), e);
      }
    }
  }

  // ---------------------------------------------------------------- operations

  /** The stages one pass launches an operation for. */
  function LaunchedIn(base: State, timeout: int, rs: Readings): (ns: set<StageName>) {
    set n | n in base.stages && n in rs && Launches(base.stages[n], timeout, rs[n])
  }

  /** How many operations a log launches. */
  ghost function LaunchCount(cfg: Config, seed: State, log: seq<Entry>): (k: nat)
    requires Wired(cfg, seed) && WellTimed(seed, log)
  {
    if log == [] then 0
    else
      var k := |log| - 1;
      LaunchCount(cfg, seed, log[..k]) +
      if log[k].action.Reconcile? then |LaunchedIn(After(cfg, seed, log[..k]), cfg.inflightTimeout, log[k].readings)| else 0
  }

  /** The wait group counts the live operations, which are the launched ones less the finished ones. */
  ghost predicate OpsCounted(cfg: Config, seed: State, s: System)
    requires LogSound(cfg, seed, s)
  {
    && s.waitGroup == |s.ops|
    && s.waitGroup == LaunchCount(cfg, seed, s.log) - s.finished +
         if s.pc.Reconciling? then |LaunchedIn(After(cfg, seed, s.log), cfg.inflightTimeout, s.pc.rs)| else 0
  }

  lemma LaunchedStep(base: State, timeout: int, rs: Readings, n: StageName, r: Reading)
    requires n in base.stages && n !in rs
    ensures |LaunchedIn(base, timeout, rs[n := r])|
         == |LaunchedIn(base, timeout, rs)| + if Launches(base.stages[n], timeout, r) then 1 else 0
  {
    hide Launches;
    var old_, new_ := LaunchedIn(base, timeout, rs), LaunchedIn(base, timeout, rs[n := r]);
    assert n !in old_;
    assert new_ == if Launches(base.stages[n], timeout, r) then old_ + {n} else old_;
  }

  lemma CountAppend(cfg: Config, seed: State, log: seq<Entry>, e: Entry)
    requires Wired(cfg, seed) && WellTimed(seed, log) && EntryTimed(seed, e)
    ensures WellTimed(seed, log + [e])
    ensures LaunchCount(cfg, seed, log + [e]) == LaunchCount(cfg, seed, log) +
      if e.action.Reconcile? then |LaunchedIn(After(cfg, seed, log), cfg.inflightTimeout, e.readings)| else 0
  {
    assert (log + [e])[..|log|] == log;
  }

  lemma MapSizes(ops: map<OpId, Op>, o: OpId, op: Op)
    ensures |ops[o := op]| == if o in ops then |ops| else |ops| + 1
    ensures |ops - {o}| == if o in ops then |ops| - 1 else |ops|
  {
    assert ops[o := op].Keys == ops.Keys + {o};
    assert (ops - {o}).Keys == ops.Keys - {o};
  }

  /** The steps outside the goroutine's own actions leave the counters, the log and the pass alone. */
  lemma OpsFrame(cfg: Config, capacity: nat, s: System, step: Step)
    requires Enabled(cfg, capacity, s, step)
    requires !step.Take? && !step.ReconcileOne? && !step.EndPass? && !step.OpFails? && !step.OpClears? && !step.OpDone?
    ensures var t := Next(cfg, capacity, s, step);
      && t.ops == s.ops && t.waitGroup == s.waitGroup && t.finished == s.finished && t.log == s.log
      && t.pc.Reconciling? == s.pc.Reconciling? && (s.pc.Reconciling? ==> t.pc.rs == s.pc.rs)
  {
    hide Select, Wired;
  }

  lemma OpsOperation(cfg: Config, capacity: nat, s: System, step: Step)
    requires Enabled(cfg, capacity, s, step) && (step.OpFails? || step.OpClears? || step.OpDone?)
    ensures var t := Next(cfg, capacity, s, step);
      && t.pc == s.pc && t.log == s.log
      && |t.ops| - t.waitGroup == |s.ops| - s.waitGroup && t.waitGroup + t.finished == s.waitGroup + s.finished
  {
    var o := step.op;
    MapSizes(s.ops, o, Finishing);
    MapSizes(s.ops, o, if step.OpFails? then Clearing(s.ops[o].stage) else Finishing);
  }

  lemma OpsTake(cfg: Config, capacity: nat, seed: State, s: System)
    requires LogSound(cfg, seed, s) && OpsCounted(cfg, seed, s) && Enabled(cfg, capacity, s, Take)
    requires LogSound(cfg, seed, Next(cfg, capacity, s, Take))
    ensures OpsCounted(cfg, seed, Next(cfg, capacity, s, Take))
  {
    hide Handle, After, StatusOf, Launches, LaunchedIn, LaunchCount, Wired, WellTimed;
    if s.queue[0].action.Reconcile? {
      NothingLaunched(After(cfg, seed, s.log), cfg.inflightTimeout);
    } else {
      CountAppend(cfg, seed, s.log, Entry(s.queue[0].action, map[]));
    }
  }

  lemma OpsEndPass(cfg: Config, capacity: nat, seed: State, s: System)
    requires LogSound(cfg, seed, s) && OpsCounted(cfg, seed, s) && Enabled(cfg, capacity, s, EndPass)
    requires LogSound(cfg, seed, Next(cfg, capacity, s, EndPass))
    ensures OpsCounted(cfg, seed, Next(cfg, capacity, s, EndPass))
  {
    hide Handle, After, StatusOf, Launches, LaunchedIn, LaunchCount, Wired;
    var e := Entry(Reconcile, s.pc.rs);
    assert Next(cfg, capacity, s, EndPass).log[|s.log|] == e;
    CountAppend(cfg, seed, s.log, e);
  }

  lemma OpsKept(cfg: Config, capacity: nat, seed: State, s: System, step: Step)
    requires LogInv(cfg, seed, s) && OpsCounted(cfg, seed, s) && Enabled(cfg, capacity, s, step)
    requires LogSound(cfg, seed, Next(cfg, capacity, s, step))
    ensures OpsCounted(cfg, seed, Next(cfg, capacity, s, step))
  {
    hide Next, Enabled, After, InOrder, LaunchedIn, LaunchCount, Wired, WellTimed, Explained;
    match step
    case Take => OpsTake(cfg, capacity, seed, s);
    case ReconcileOne(n, check, launch, op) => OpsReconcileOne(cfg, capacity, seed, s, n, check, launch, op);
    case EndPass => OpsEndPass(cfg, capacity, seed, s);
    case OpFails(_) => OpsOperation(cfg, capacity, s, step);
    case OpClears(_) => OpsOperation(cfg, capacity, s, step);
    case OpDone(_) => OpsOperation(cfg, capacity, s, step);
    case _ => OpsFrame(cfg, capacity, s, step);
  }

  lemma OpsReconcileOne(cfg: Config, capacity: nat, seed: State, s: System, n: StageName, check: Time, launch: Time, op: OpId)
    requires LogInv(cfg, seed, s) && OpsCounted(cfg, seed, s) && Enabled(cfg, capacity, s, ReconcileOne(n, check, launch, op))
    ensures LogSound(cfg, seed, Next(cfg, capacity, s, ReconcileOne(n, check, launch, op)))
    ensures OpsCounted(cfg, seed, Next(cfg, capacity, s, ReconcileOne(n, check, launch, op)))
  {
    hide Handle, After, Launches, ReconcileStage, InOrder, LaunchedIn, LaunchCount, Partial, Wired, WellTimed;
    var base := After(cfg, seed, s.log);
    PassStep(cfg, base, s.pc.rs, n, Reading(check, launch));
    LaunchedStep(base, cfg.inflightTimeout, s.pc.rs, n, Reading(check, launch));
    MapSizes(s.ops, op, Working(n, base.stages[n].status.desired));
  }

  lemma NothingLaunched(base: State, timeout: int)
    ensures LaunchedIn(base, timeout, map[]) == {}
  {
  }

  // ---------------------------------------------------------------- subscribers

  /** xs appears in ys in order, possibly with gaps. */
  predicate Subsequence<T(==)>(xs: seq<T>, ys: seq<T>) {
    xs == [] ||
    (ys != [] && (Subsequence(xs, ys[..|ys| - 1])
               || (xs[|xs| - 1] == ys[|ys| - 1] && Subsequence(xs[..|xs| - 1], ys[..|ys| - 1]))))
  }

  lemma SubsequenceAppend<T>(xs: seq<T>, ys: seq<T>, y: T)
    requires Subsequence(xs, ys)
    ensures Subsequence(xs, ys + [y]) && Subsequence(xs + [y], ys + [y])
  {
    assert (ys + [y])[..|ys|] == ys && (xs + [y])[..|xs|] == xs;
  }

  lemma {:induction false} SubsequenceDrop<T>(xs: seq<T>, ys: seq<T>)
    requires Subsequence(xs, ys) && xs != []
    ensures Subsequence(xs[..|xs| - 1], ys)
  {
    var zs := ys[..|ys| - 1];
    if Subsequence(xs, zs) {
      SubsequenceDrop(xs, zs);
    }
  }

  /** The progress of a listener call on one client; Offer stands for no call in progress. */
  ghost predicate ClientSound(c: Client, phase: Phase, snapshot: Snapshot) {
    match phase
    case Offer =>
      && Subsequence(c.Seen(), c.published)
      && (c.published == [] ==> c.Seen() == [])
      && (c.published != [] ==> c.Seen() != [] && c.Seen()[|c.Seen()| - 1] == c.published[|c.published| - 1])
    case _ =>
      && c.published != [] && c.published[|c.published| - 1] == snapshot
      && Subsequence(c.Seen(), c.published[..|c.published| - 1])
      && (phase == Retry ==> c.slot.None?)
  }

  function PhaseOf(s: System, l: ListenerId): (p: Phase) {
    if s.pc.Notifying? && s.pc.rest != [] && s.pc.rest[0] == l then s.pc.phase else Offer
  }

  function Calling(s: System): (snapshot: Snapshot) {
    if s.pc.Notifying? then s.pc.snapshot else StatusOf(s.state)
  }

  ghost predicate ClientsSound(s: System) {
    && (forall l :: ClientSound(ClientOf(s, l), PhaseOf(s, l), Calling(s)))
    && (s.pc.Notifying? && s.pc.rest == [] ==> s.pc.phase == Offer)
  }

  /** One select of the listener call, with the second offer never dropping the snapshot. */
  lemma SelectSound(c: Client, snapshot: Snapshot, phase: Phase)
    requires ClientSound(c, phase, snapshot)
    ensures var r := Select(c, snapshot, phase);
      && ClientSound(r.0, if r.1.Some? then r.1.value else Offer, snapshot)
      && (r.1.None? ==> r.0.slot == Some(snapshot) && r.0.published != [] && r.0.published[|r.0.published| - 1] == snapshot)
  {
    hide Subsequence;
    var seen := c.Seen();
    match phase
    case Offer =>
      SubsequenceAppend(seen, c.published, snapshot);
      assert (c.published + [snapshot])[..|c.published|] == c.published;
      assert Select(c, snapshot, phase).0.Seen() == if c.slot.None? then seen + [snapshot] else seen;
    case Drain =>
      if c.slot.Some? {
        SubsequenceDrop(seen, c.published[..|c.published| - 1]);
        assert seen[..|seen| - 1] == c.received;
      }
      assert Select(c, snapshot, phase).0.Seen() == c.received;
    case Retry =>
      var ys := c.published[..|c.published| - 1];
      SubsequenceAppend(seen, ys, snapshot);
      assert ys + [snapshot] == c.published;
      assert Select(c, snapshot, phase).0.Seen() == seen + [snapshot];
  }

  lemma ReceiveSound(c: Client, snapshot: Snapshot, phase: Phase)
    requires ClientSound(c, phase, snapshot) && c.slot.Some?
    ensures ClientSound(c.(slot := None, received := c.received + [c.slot.value]), phase, snapshot)
  {
    assert c.(slot := None, received := c.received + [c.slot.value]).Seen() == c.Seen();
  }

  /** Only a listener call, or the client's own writer, touches a client. */
  lemma ClientFrame(cfg: Config, capacity: nat, s: System, step: Step, l: ListenerId)
    requires ClientsSound(s) && Enabled(cfg, capacity, s, step) && !step.CallListener?
    ensures var t, c := Next(cfg, capacity, s, step), ClientOf(s, l);
      && ClientOf(t, l) == (if step == Receive(l) then c.(slot := None, received := c.received + [c.slot.value]) else c)
      && PhaseOf(t, l) == PhaseOf(s, l)
      && (PhaseOf(s, l) != Offer ==> Calling(t) == Calling(s))
      && (t.pc.Notifying? && t.pc.rest == [] ==> t.pc.phase == Offer)
  {
    hide Handle, StatusOf, Launches, ReconcileStage, ClientSound;
  }

  lemma ClientsKept(cfg: Config, capacity: nat, s: System, step: Step)
    requires ClientsSound(s) && Enabled(cfg, capacity, s, step)
    ensures ClientsSound(Next(cfg, capacity, s, step))
  {
    hide Handle, StatusOf, Launches, ReconcileStage, ClientSound;
    var t := Next(cfg, capacity, s, step);
    forall l
      ensures ClientSound(ClientOf(t, l), PhaseOf(t, l), Calling(t))
    {
      var c := ClientOf(s, l);
      assert ClientSound(c, PhaseOf(s, l), Calling(s));
      if step.CallListener? {
        SelectSound(ClientOf(s, s.pc.rest[0]), s.pc.snapshot, s.pc.phase) by {
          assert ClientSound(ClientOf(s, s.pc.rest[0]), PhaseOf(s, s.pc.rest[0]), Calling(s));
        }
      } else {
        ClientFrame(cfg, capacity, s, step, l);
        if step == Receive(l) {
          ReceiveSound(c, Calling(s), PhaseOf(s, l));
        }
        if PhaseOf(t, l) == Offer {
          OfferIgnoresSnapshot(ClientOf(t, l), Calling(s), Calling(t));
        }
      }
    }
    if !step.CallListener? {
      ClientFrame(cfg, capacity, s, step, 0);
    }
  }

  lemma OfferIgnoresSnapshot(c: Client, a: Snapshot, b: Snapshot)
    ensures ClientSound(c, Offer, a) == ClientSound(c, Offer, b)
  {
  }

  /** What a client was last told about the stages is what they are. */
  ghost predicate UpToDate(s: System, l: ListenerId) {
    var c := ClientOf(s, l);
    c.published != [] && c.published[|c.published| - 1].stages == StatusOf(s.state).stages
  }

  ghost predicate Told(s: System) {
    && (s.pc.Notifying? ==> s.pc.snapshot == StatusOf(s.state))
    && forall l :: l in s.state.listeners ==> UpToDate(s, l) || (s.pc.Notifying? && l in s.pc.rest)
  }

  lemma ReconcileKeepsStatus(s: State, n: StageName, timeout: int, r: Reading)
    requires n in s.stages
    ensures StatusOf(s.(stages := s.stages[n := ReconcileStage(s.stages[n], timeout, r)])) == StatusOf(s)
  {
    var s' := s.(stages := s.stages[n := ReconcileStage(s.stages[n], timeout, r)]);
    assert StatusOf(s').stages == StatusOf(s).stages;
  }

  /** Whoever is registered afterwards is called, or was registered before. */
  lemma ListenersStep(cfg: Config, s: State, e: Entry)
    requires Wired(cfg, s) && Covered(s, e)
    ensures var r := Handle(cfg, s, e); forall l :: l in r.state.listeners ==> l in r.calls || l in s.listeners
  {
  }

  lemma ToldKept(cfg: Config, capacity: nat, s: System, step: Step)
    requires ClientsSound(s) && Told(s) && Enabled(cfg, capacity, s, step)
    ensures Told(Next(cfg, capacity, s, step))
  {
    hide Handle, StatusOf, Launches, ReconcileStage, ClientSound;
    var t := Next(cfg, capacity, s, step);
    match step
    case Take =>
      if !s.queue[0].action.Reconcile? {
        UntoldMeansUnchanged(cfg, s.state, Entry(s.queue[0].action, map[]));
        ListenersStep(cfg, s.state, Entry(s.queue[0].action, map[]));
      }
    case ReconcileOne(n, check, launch, op) =>
      ReconcileKeepsStatus(s.state, n, cfg.inflightTimeout, Reading(check, launch));
    case CallListener =>
      var l := s.pc.rest[0];
      assert ClientSound(ClientOf(s, l), PhaseOf(s, l), Calling(s));
      SelectSound(ClientOf(s, l), s.pc.snapshot, s.pc.phase);
      forall k | k in t.state.listeners
        ensures UpToDate(t, k) || (t.pc.Notifying? && k in t.pc.rest)
      {
        assert UpToDate(s, k) || k in s.pc.rest;
        assert k in s.pc.rest ==> k == l || k in s.pc.rest[1..];
      }
    case _ =>
  }

  // ---------------------------------------------------------------- every run

  ghost predicate Inv(cfg: Config, seed: State, s: System) {
    LogInv(cfg, seed, s) && CallsSound(cfg, seed, s) && OpsCounted(cfg, seed, s) && ClientsSound(s) && Told(s)
  }

  /** The system a sequence of steps leads to, if every step was possible when it was taken. */
  ghost function Final(cfg: Config, capacity: nat, seed: State, now: Time, steps: seq<Step>): (r: Option<System>) {
    if steps == [] then Some(Start(seed, now))
    else
      var k := |steps| - 1;
      var p := Final(cfg, capacity, seed, now, steps[..k]);
      if p.Some? && Enabled(cfg, capacity, p.value, steps[k]) then Some(Next(cfg, capacity, p.value, steps[k])) else None
  }

  lemma InvKept(cfg: Config, capacity: nat, seed: State, s: System, step: Step)
    requires Inv(cfg, seed, s) && Enabled(cfg, capacity, s, step)
    ensures Inv(cfg, seed, Next(cfg, capacity, s, step))
  {
    hide Next, Enabled, Explained, InOrder, OpsCounted, ClientsSound, Told, CallSound, SendersSound;
    LogKept(cfg, capacity, seed, s, step);
    OrderKept(cfg, capacity, s, step);
    CallsKept(cfg, capacity, seed, s, step);
    ReplyKept(cfg, capacity, seed, s, step);
    OpsKept(cfg, capacity, seed, s, step);
    ClientsKept(cfg, capacity, s, step);
    ToldKept(cfg, capacity, s, step);
  }

  lemma {:induction false} RunsKeepInv(cfg: Config, capacity: nat, seed: State, now: Time, steps: seq<Step>)
    requires ValidSeed(cfg, seed) && Final(cfg, capacity, seed, now, steps).Some?
    ensures Inv(cfg, seed, Final(cfg, capacity, seed, now, steps).value)
  {
    hide Next, Enabled, Inv;
    if steps == [] {
      StartInv(cfg, seed, now);
    } else {
      var k := |steps| - 1;
      RunsKeepInv(cfg, capacity, seed, now, steps[..k]);
      InvKept(cfg, capacity, seed, Final(cfg, capacity, seed, now, steps[..k]).value, steps[k]);
    }
  }

  lemma StartInv(cfg: Config, seed: State, now: Time)
    requires ValidSeed(cfg, seed)
    ensures Inv(cfg, seed, Start(seed, now))
  {
  }

  /**
   * Linearizability: a returned Submit was handled by exactly one entry of the log, after the call
   * was made and before it returned, and its reply is that handler's reply in the sequential run.
   */
  lemma SubmitIsLinearizable(cfg: Config, capacity: nat, seed: State, now: Time, steps: seq<Step>, c: CallId)
    requires ValidSeed(cfg, seed) && Final(cfg, capacity, seed, now, steps).Some?
    requires var s := Final(cfg, capacity, seed, now, steps).value; c in s.calls && s.calls[c].Returned?
    ensures var s := Final(cfg, capacity, seed, now, steps).value;
      var call := s.calls[c];
      && LogSound(cfg, seed, s)
      && call.begun <= call.point < call.ended <= |s.log| <= |s.sent|
      && s.log[call.point].action == call.action && s.sent[call.point].from == Some(c)
      && call.reply == ReplyAt(cfg, seed, s.log, call.point)
      && (forall i :: 0 <= i < |s.sent| && s.sent[i].from == Some(c) ==> i == call.point)
  {
    hide Final, Handle, After;
    RunsKeepInv(cfg, capacity, seed, now, steps);
    var s := Final(cfg, capacity, seed, now, steps).value;
    assert CallSound(cfg, seed, s, c, s.calls[c]);
  }

  /** Between actions the state is the sequential run of everything taken off the channel, in the order it was sent. */
  lemma StateIsSequential(cfg: Config, capacity: nat, seed: State, now: Time, steps: seq<Step>)
    requires ValidSeed(cfg, seed) && Final(cfg, capacity, seed, now, steps).Some?
    requires Final(cfg, capacity, seed, now, steps).value.pc.Idle?
    ensures var s := Final(cfg, capacity, seed, now, steps).value;
      && LogSound(cfg, seed, s) && s.state == After(cfg, seed, s.log)
      && |s.log| + |s.queue| == |s.sent| && s.queue == s.sent[|s.log|..]
      && (forall i :: 0 <= i < |s.log| ==> s.log[i].action == s.sent[i].action)
      && (s.queue != [] ==> Enabled(cfg, capacity, s, Take))
  {
    hide Final, CallsSound, OpsCounted, ClientsSound, Told, Handle, Next;
    RunsKeepInv(cfg, capacity, seed, now, steps);
  }

  /** No action loses its reply: whoever sent the one being dealt with is still waiting for it. */
  lemma NoReplyIsLost(cfg: Config, capacity: nat, seed: State, now: Time, steps: seq<Step>)
    requires ValidSeed(cfg, seed) && Final(cfg, capacity, seed, now, steps).Some?
    requires var s := Final(cfg, capacity, seed, now, steps).value; s.pc.Notifying? && s.pc.from.Some?
    ensures var s := Final(cfg, capacity, seed, now, steps).value;
      s.pc.from.value in s.calls && s.calls[s.pc.from.value].Waiting?
  {
    hide Final, OpsCounted, ClientsSound, Told, CallSound, SendersSound;
    RunsKeepInv(cfg, capacity, seed, now, steps);
    SenderWaits(cfg, seed, Final(cfg, capacity, seed, now, steps).value);
  }

  /** The wait group never drifts, not even inside a pass. */
  lemma WaitGroupCountsLaunches(cfg: Config, capacity: nat, seed: State, now: Time, steps: seq<Step>)
    requires ValidSeed(cfg, seed) && Final(cfg, capacity, seed, now, steps).Some?
    ensures var s := Final(cfg, capacity, seed, now, steps).value;
      LogSound(cfg, seed, s) && OpsCounted(cfg, seed, s) && s.waitGroup >= 0
  {
    hide Final, CallsSound, ClientsSound, Told, Handle, Next;
    RunsKeepInv(cfg, capacity, seed, now, steps);
  }

  /** In every concurrent run, too, two launches for a stage are a timeout apart or separated by a clear. */
  lemma ConcurrentLaunchesApart(cfg: Config, capacity: nat, seed: State, now: Time, steps: seq<Step>, n: StageName)
    requires ValidSeed(cfg, seed) && Final(cfg, capacity, seed, now, steps).Some? && n in seed.stages
    ensures var log := Final(cfg, capacity, seed, now, steps).value.log;
      && WellTimed(seed, log)
      && var ms := Marks(cfg, seed, log, n);
        forall i, j :: 0 <= i < j < |ms| && ms[i].Launched? && ms[j].Launched? ==>
          ms[j].at - ms[i].at >= cfg.inflightTimeout || exists k :: i < k < j && ms[k].Cleared?
  {
    hide Final, CallsSound, OpsCounted, ClientsSound, Told, Explained, InOrder, Marks, Handle, Next;
    RunsKeepInv(cfg, capacity, seed, now, steps);
    var log := Final(cfg, capacity, seed, now, steps).value.log;
    var ms := Marks(cfg, seed, log, n);
    forall i, j | 0 <= i < j < |ms| && ms[i].Launched? && ms[j].Launched?
      ensures ms[j].at - ms[i].at >= cfg.inflightTimeout || exists k :: i < k < j && ms[k].Cleared?
    {
      LaunchesApartOrCleared(cfg, seed, log, n, i, j);
    }
  }

  /** What a client received, then its slot, is an in-order part of what was published to it. */
  lemma ClientSeesInOrder(cfg: Config, capacity: nat, seed: State, now: Time, steps: seq<Step>, l: ListenerId)
    requires ValidSeed(cfg, seed) && Final(cfg, capacity, seed, now, steps).Some?
    ensures var c := ClientOf(Final(cfg, capacity, seed, now, steps).value, l); Subsequence(c.Seen(), c.published)
  {
    hide Final, LogInv, CallsSound, OpsCounted, Told, ClientSound, Subsequence;
    RunsKeepInv(cfg, capacity, seed, now, steps);
    var s := Final(cfg, capacity, seed, now, steps).value;
    assert ClientSound(ClientOf(s, l), PhaseOf(s, l), Calling(s));
    SoundMeansInOrder(ClientOf(s, l), PhaseOf(s, l), Calling(s));
  }

  lemma SoundMeansInOrder(c: Client, phase: Phase, snapshot: Snapshot)
    requires ClientSound(c, phase, snapshot)
    ensures Subsequence(c.Seen(), c.published)
  {
    hide Subsequence;
    if phase != Offer {
      var ys := c.published[..|c.published| - 1];
      SubsequenceAppend(c.Seen(), ys, snapshot);
      assert c.published == ys + [snapshot];
    }
  }

  /** Between actions a registered client has seen, or will see next, the current stage statuses. */
  lemma ClientIsUpToDate(cfg: Config, capacity: nat, seed: State, now: Time, steps: seq<Step>, l: ListenerId)
    requires ValidSeed(cfg, seed) && Final(cfg, capacity, seed, now, steps).Some?
    requires var s := Final(cfg, capacity, seed, now, steps).value; s.pc.Idle? && l in s.state.listeners
    ensures var s := Final(cfg, capacity, seed, now, steps).value;
      var c := ClientOf(s, l);
      && c.published != [] && c.Seen() != []
      && c.Seen()[|c.Seen()| - 1] == c.published[|c.published| - 1]
      && c.published[|c.published| - 1].stages == StatusOf(s.state).stages
  {
    hide Final, LogInv, CallsSound, OpsCounted, Subsequence;
    RunsKeepInv(cfg, capacity, seed, now, steps);
    var s := Final(cfg, capacity, seed, now, steps).value;
    assert ClientSound(ClientOf(s, l), PhaseOf(s, l), Calling(s));
  }
}
