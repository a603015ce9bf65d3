/** What a subscriber knows of the paths, over every concurrent run: exactly when its view is out of date. */
module ControllerPathView {
  import opened Options
  import opened ControllerSpec
  import opened ControllerHistory
  import opened ControllerConcurrency

  /** The last thing published to l is the status after the first k entries, and none of the later ones called l. */
  ghost predicate PublishedAt(cfg: Config, seed: State, s: System, l: ListenerId, k: nat)
    requires LogSound(cfg, seed, s)
  {
    var c := ClientOf(s, l);
    && k <= |s.log| && c.published != []
    && c.published[|c.published| - 1] == StatusOf(After(cfg, seed, s.log[..k]))
    && Untold(cfg, seed, s.log, l, k)
  }

  /** A registered listener is about to be called, or has been called since its view could have changed unheard. */
  ghost predicate Informed(cfg: Config, seed: State, s: System, l: ListenerId)
    requires LogSound(cfg, seed, s)
  {
    (s.pc.Notifying? && l in s.pc.rest) || exists k: nat :: PublishedAt(cfg, seed, s, l, k)
  }

  ghost predicate AllInformed(cfg: Config, seed: State, s: System)
    requires LogSound(cfg, seed, s)
  {
    forall l :: l in s.state.listeners ==> Informed(cfg, seed, s, l)
  }

  lemma InformedFrame(cfg: Config, seed: State, s: System, t: System, l: ListenerId)
    requires LogSound(cfg, seed, s) && LogSound(cfg, seed, t) && Informed(cfg, seed, s, l)
    requires t.log == s.log && ClientOf(t, l).published == ClientOf(s, l).published
    requires s.pc.Notifying? && l in s.pc.rest ==> t.pc.Notifying? && l in t.pc.rest
    ensures Informed(cfg, seed, t, l)
  {
    hide Untold, StatusOf, After;
    if !(s.pc.Notifying? && l in s.pc.rest) {
      var k: nat :| PublishedAt(cfg, seed, s, l, k);
      assert PublishedAt(cfg, seed, t, l, k);
    }
  }

  lemma UntoldExtends(cfg: Config, seed: State, log: seq<Entry>, e: Entry, l: ListenerId, k: nat)
    requires Wired(cfg, seed) && WellTimed(seed, log) && EntryTimed(seed, e) && k <= |log| && Untold(cfg, seed, log, l, k)
    requires l in After(cfg, seed, log).listeners && Covered(After(cfg, seed, log), e)
    requires l !in Handle(cfg, After(cfg, seed, log), e).calls
    ensures WellTimed(seed, log + [e]) && Untold(cfg, seed, log + [e], l, k) && (log + [e])[..k] == log[..k]
  {
    hide Handle, After;
    var more := log + [e];
    forall i | k <= i < |more|
      ensures l in After(cfg, seed, more[..i]).listeners && l !in EffectAt(cfg, seed, more, i).calls
    {
      if i == |log| {
        assert more[..i] == log;
      } else {
        assert more[..i] == log[..i] && l !in EffectAt(cfg, seed, log, i).calls;
      }
    }
  }

  /** An action that does not call l leaves what was published to it where it was. */
  lemma InformedThrough(cfg: Config, seed: State, s: System, t: System, e: Entry, l: ListenerId)
    requires LogSound(cfg, seed, s) && LogSound(cfg, seed, t) && Informed(cfg, seed, s, l) && !s.pc.Notifying?
    requires EntryTimed(seed, e) && t.log == s.log + [e] && ClientOf(t, l).published == ClientOf(s, l).published
    requires l in After(cfg, seed, s.log).listeners && Covered(After(cfg, seed, s.log), e)
    requires l !in Handle(cfg, After(cfg, seed, s.log), e).calls
    ensures Informed(cfg, seed, t, l)
  {
    hide Handle, After, Untold, StatusOf;
    var k: nat :| PublishedAt(cfg, seed, s, l, k);
    UntoldExtends(cfg, seed, s.log, e, l, k);
    assert PublishedAt(cfg, seed, t, l, k);
  }

  lemma TakeInforms(cfg: Config, capacity: nat, seed: State, s: System, l: ListenerId)
    requires Inv(cfg, seed, s) && AllInformed(cfg, seed, s) && Enabled(cfg, capacity, s, Take) && !s.queue[0].action.Reconcile?
    requires LogSound(cfg, seed, Next(cfg, capacity, s, Take)) && l in Next(cfg, capacity, s, Take).state.listeners
    ensures Informed(cfg, seed, Next(cfg, capacity, s, Take), l)
  {
    hide Handle, After, Untold, StatusOf, CallsSound, OpsCounted, ClientsSound, Told, Informed, Partial;
    var t, e := Next(cfg, capacity, s, Take), Entry(s.queue[0].action, map[]);
    assert t.log[|s.log|] == e && EntryTimed(seed, e);
    ListenersStep(cfg, s.state, e);
    if l in Handle(cfg, s.state, e).calls {
      AboutToBeCalled(cfg, seed, t, l);
    } else {
      assert Informed(cfg, seed, s, l);
      InformedThrough(cfg, seed, s, t, e, l);
    }
  }

  lemma AboutToBeCalled(cfg: Config, seed: State, t: System, l: ListenerId)
    requires LogSound(cfg, seed, t) && t.pc.Notifying? && l in t.pc.rest
    ensures Informed(cfg, seed, t, l)
  {
  }

  lemma EndPassInforms(cfg: Config, capacity: nat, seed: State, s: System, l: ListenerId)
    requires Inv(cfg, seed, s) && AllInformed(cfg, seed, s) && Enabled(cfg, capacity, s, EndPass)
    requires LogSound(cfg, seed, Next(cfg, capacity, s, EndPass)) && l in Next(cfg, capacity, s, EndPass).state.listeners
    ensures Informed(cfg, seed, Next(cfg, capacity, s, EndPass), l)
  {
    hide After, Untold, StatusOf, CallsSound, OpsCounted, ClientsSound, Told, Informed, ReconcilePass;
    var t, e := Next(cfg, capacity, s, EndPass), Entry(Reconcile, s.pc.rs);
    assert t.log[|s.log|] == e && EntryTimed(seed, e);
    assert Informed(cfg, seed, s, l);
    InformedThrough(cfg, seed, s, t, e, l);
  }

  /** A finished call publishes the current status. */
  lemma CallInforms(cfg: Config, capacity: nat, seed: State, s: System, l: ListenerId)
    requires Inv(cfg, seed, s) && AllInformed(cfg, seed, s) && Enabled(cfg, capacity, s, CallListener)
    requires LogSound(cfg, seed, Next(cfg, capacity, s, CallListener)) && l in s.state.listeners
    ensures Informed(cfg, seed, Next(cfg, capacity, s, CallListener), l)
  {
    hide After, Untold, StatusOf, CallsSound, OpsCounted, ClientSound, Informed, Partial, InOrder;
    var t, m := Next(cfg, capacity, s, CallListener), s.pc.rest[0];
    assert Informed(cfg, seed, s, l);
    assert ClientSound(ClientOf(s, m), PhaseOf(s, m), Calling(s));
    SelectSound(ClientOf(s, m), s.pc.snapshot, s.pc.phase);
    if l in t.pc.rest {
      AboutToBeCalled(cfg, seed, t, l);
    } else if l == m {
      CalledNow(cfg, seed, t, l);
    } else {
      assert l !in s.pc.rest;
      InformedFrame(cfg, seed, s, t, l);
    }
  }

  lemma CalledNow(cfg: Config, seed: State, t: System, l: ListenerId)
    requires LogSound(cfg, seed, t) && ClientOf(t, l).published != []
    requires ClientOf(t, l).published[|ClientOf(t, l).published| - 1] == StatusOf(After(cfg, seed, t.log))
    ensures Informed(cfg, seed, t, l)
  {
    hide After, StatusOf;
    assert t.log[..|t.log|] == t.log;
    assert PublishedAt(cfg, seed, t, l, |t.log|);
  }

  /** The other steps leave the log, the registered listeners and the listeners still to be called alone. */
  lemma OtherSteps(cfg: Config, capacity: nat, s: System, step: Step)
    requires Enabled(cfg, capacity, s, step) && !step.CallListener? && !step.EndPass?
    requires step.Take? ==> s.queue[0].action.Reconcile?
    ensures var t := Next(cfg, capacity, s, step);
      && t.log == s.log && t.state.listeners == s.state.listeners
      && (s.pc.Notifying? && s.pc.rest != [] ==> t.pc == s.pc)
  {
    hide Handle, StatusOf, Select, Launches, ReconcileStage, Wired;
  }

  lemma AllInformedKept(cfg: Config, capacity: nat, seed: State, s: System, step: Step)
    requires Inv(cfg, seed, s) && AllInformed(cfg, seed, s) && Enabled(cfg, capacity, s, step)
    requires LogSound(cfg, seed, Next(cfg, capacity, s, step))
    ensures AllInformed(cfg, seed, Next(cfg, capacity, s, step))
  {
    hide Next, Enabled, Informed, LogInv, CallsSound, OpsCounted, ClientsSound, Told;
    var t := Next(cfg, capacity, s, step);
    forall l | l in t.state.listeners ensures Informed(cfg, seed, t, l) {
      StepInforms(cfg, capacity, seed, s, step, l);
    }
  }

  lemma StepInforms(cfg: Config, capacity: nat, seed: State, s: System, step: Step, l: ListenerId)
    requires Inv(cfg, seed, s) && AllInformed(cfg, seed, s) && Enabled(cfg, capacity, s, step)
    requires LogSound(cfg, seed, Next(cfg, capacity, s, step)) && l in Next(cfg, capacity, s, step).state.listeners
    ensures Informed(cfg, seed, Next(cfg, capacity, s, step), l)
  {
    hide Next, Enabled, Informed, LogInv, CallsSound, OpsCounted, ClientSound, Told;
    if step.Take? && TakesAction(s) {
      TakeInforms(cfg, capacity, seed, s, l);
    } else if step.EndPass? {
      EndPassInforms(cfg, capacity, seed, s, l);
    } else if step.CallListener? {
      CallKeepsState(cfg, capacity, s);
      CallInforms(cfg, capacity, seed, s, l);
    } else {
      TakeOrNot(cfg, capacity, s, step);
      OtherSteps(cfg, capacity, s, step);
      ClientFrame(cfg, capacity, s, step, l);
      assert Informed(cfg, seed, s, l);
      InformedFrame(cfg, seed, s, Next(cfg, capacity, s, step), l);
    }
  }

  ghost predicate TakesAction(s: System) {
    s.queue != [] && !s.queue[0].action.Reconcile?
  }

  lemma TakeOrNot(cfg: Config, capacity: nat, s: System, step: Step)
    requires Enabled(cfg, capacity, s, step) && !(step.Take? && TakesAction(s))
    ensures step.Take? ==> s.queue != [] && s.queue[0].action.Reconcile?
  {
  }

  lemma CallKeepsState(cfg: Config, capacity: nat, s: System)
    requires Enabled(cfg, capacity, s, CallListener)
    ensures Next(cfg, capacity, s, CallListener).state == s.state
  {
  }

  lemma {:induction false} RunsInform(cfg: Config, capacity: nat, seed: State, now: Time, steps: seq<Step>)
    requires ValidSeed(cfg, seed) && Final(cfg, capacity, seed, now, steps).Some?
    ensures var s := Final(cfg, capacity, seed, now, steps).value; LogSound(cfg, seed, s) && AllInformed(cfg, seed, s)
  {
    hide Next, Enabled, Informed, Explained, InOrder, CallsSound, OpsCounted, ClientsSound, Told;
    RunsKeepInv(cfg, capacity, seed, now, steps);
    if steps == [] {
      assert Start(seed, now).state.listeners == [];
    } else {
      var k := |steps| - 1;
      RunsInform(cfg, capacity, seed, now, steps[..k]);
      RunsKeepInv(cfg, capacity, seed, now, steps[..k]);
      AllInformedKept(cfg, capacity, seed, Final(cfg, capacity, seed, now, steps[..k]).value, steps[k]);
    }
  }

  /**
   * Between actions a registered client was last told of the paths at some place of the log, has
   * not been called since, and differs from the current paths exactly by the reports since then;
   * if it differs at all, one of them was unannounced.
   */
  lemma ClientPathView(cfg: Config, capacity: nat, seed: State, now: Time, steps: seq<Step>, l: ListenerId) returns (k: nat)
    requires ValidSeed(cfg, seed) && Final(cfg, capacity, seed, now, steps).Some?
    requires var s := Final(cfg, capacity, seed, now, steps).value; s.pc.Idle? && l in s.state.listeners
    ensures var s := Final(cfg, capacity, seed, now, steps).value;
      && LogSound(cfg, seed, s) && PublishedAt(cfg, seed, s, l, k)
      && var seen := ClientOf(s, l).published[|ClientOf(s, l).published| - 1].paths;
        && seen.Keys == s.state.paths.Keys
        && (forall p :: p in seen ==> s.state.paths[p] == Reported(s.log[k..], p, seen[p]))
        && (seen != s.state.paths ==> exists i :: k <= i < |s.log| && UnannouncedAt(cfg, seed, s.log, i))
  {
    hide Final, CallsSound, OpsCounted, ClientsSound, Told, Untold, After, UnannouncedAt, InOrder;
    RunsKeepInv(cfg, capacity, seed, now, steps);
    RunsInform(cfg, capacity, seed, now, steps);
    var s := Final(cfg, capacity, seed, now, steps).value;
    assert Informed(cfg, seed, s, l);
    k :| PublishedAt(cfg, seed, s, l, k);
    var u := After(cfg, seed, s.log[..k]);
    assert s.log == s.log[..k] + s.log[k..];
    AfterConcat(cfg, seed, s.log[..k], s.log[k..]);
    forall p | p in u.paths ensures s.state.paths[p] == Reported(s.log[k..], p, u.paths[p]) {
      PathsByReports(cfg, u, s.log[k..], p);
    }
    if u.paths != s.state.paths {
      ViewChangesUnannounced(cfg, seed, s.log, l, k);
    }
  }
}
