/**
 Safety of the managed pool over every run: generations, operations and shutdown.
 */
module PoolSafety {
  import opened Wrappers
  import opened PoolModel

  // ------------------------------------------------------------- invariants

  // At most one generation is healthy and it is the current, newest one.
  ghost predicate GenerationsOk(s: Pool) {
    && (forall g :: g in s.gens <==> 1 <= g < s.nextGeneration)
    && s.nextGeneration == s.current + 1
    && s.current == s.recycleCount + 1
    && (forall g <- s.gens :: s.gens[g] == GenHealthy ==> g == s.current)
    && (s.phase != Finished ==> forall g <- s.gens :: s.gens[g] == GenHealthy ==> g in s.live)
    && (forall g <- s.live :: g in s.gens)
    && (forall g <- s.retiring :: g in s.gens && s.gens[g] != GenHealthy)
  }

  ghost predicate OpOk(s: Pool, o: nat)
    requires o in s.ops
  {
    var op := s.ops[o];
    && o < s.nextOperation
    && op.gen in s.gens
    && (op.interrupted.Some? ==> TellsOutcome(op.interrupted.value, op))
    && (op.sent <==> o in s.dispatches)
    && (!op.working ==> op.driverSettled || op.interrupted.Some? || op.expired)
  }

  // An interruption says not_sent exactly when the operation had not been dispatched; only the
  // deadline of a transaction always says unknown.
  predicate TellsOutcome(i: Interrupt, op: Op) {
    if i.cause == TransactionTimeout then i.outcome == Unknown && op.kind.Transaction?
    else i.outcome == OutcomeOf(op)
  }

  ghost predicate OperationsOk(s: Pool) {
    && (forall o <- s.ops :: OpOk(s, o))
    && (forall o <- s.dispatches :: o in s.ops)
    && (forall o :: s.dispatches[o] <= 1)
  }

  predicate Stopped(op: Op) {
    op.active ==> op.interrupted.Some? || op.expired
  }

  // The active operations of a generation that is not healthy are stopped. `ex` holds a
  // generation whose poisoning is under way.
  ghost predicate PoisonedStopped(s: Pool, ex: set<nat>) {
    forall o <- s.ops ::
      (s.ops[o].gen in s.gens && s.gens[s.ops[o].gen] != GenHealthy && s.ops[o].gen !in ex)
      ==> Stopped(s.ops[o])
  }

  // Shutdown freezes admission, and after its forced phase every active operation is stopped.
  ghost predicate ShutdownOk(s: Pool) {
    && (s.shutdownStarted <==> s.state in {Closing, Closed})
    && (s.shutdownStarted <==> s.phase != Open)
    && (s.shutdownStarted <==> s.admitted.Some?)
    && (s.state == Closed ==> s.phase == Finished)
    && (s.shutdownStarted ==> s.ops.Keys == s.admitted.value.ops && s.gens.Keys == s.admitted.value.gens)
    && (s.phase in {Forced, Finished} ==> forall o <- s.ops :: Stopped(s.ops[o]))
  }

  ghost predicate Inv(s: Pool, ex: set<nat>) {
    GenerationsOk(s) && OperationsOk(s) && PoisonedStopped(s, ex) && ShutdownOk(s)
  }

  ghost predicate CurrentHealthy(s: Pool) {
    s.current in s.gens && s.gens[s.current] == GenHealthy
  }

  // What holds between turns besides the invariant.
  ghost predicate Settled(s: Pool) {
    && s.state != Poisoned
    && (s.state in {Healthy, Recycling} ==> CurrentHealthy(s))
  }

  // ------------------------------------------------------------- monotonicity

  // What no later step changes about an operation.
  predicate OpLater(a: Op, b: Op) {
    && b.gen == a.gen && b.kind == a.kind
    && (a.interrupted.Some? ==> b.interrupted == a.interrupted && b.sent == a.sent)
    && (a.sent ==> b.sent)
    && (a.expired ==> b.expired)
    && (b.active ==> a.active)
  }

  ghost predicate Later(s: Pool, t: Pool) {
    && (forall o <- s.ops :: o in t.ops && OpLater(s.ops[o], t.ops[o]))
    && (forall g <- s.gens :: g in t.gens && (t.gens[g] == GenHealthy ==> s.gens[g] == GenHealthy))
    && s.dispatches <= t.dispatches
    && (s.shutdownStarted ==> t.shutdownStarted && t.admitted == s.admitted)
    && (s.state == Closed ==> t.state == Closed)
  }

  lemma LaterTransitive(s: Pool, t: Pool, u: Pool)
    requires Later(s, t) && Later(t, u)
    ensures Later(s, u)
  {
    forall o | o in s.ops ensures o in u.ops && OpLater(s.ops[o], u.ops[o]) {
      assert o in t.ops && OpLater(t.ops[o], u.ops[o]);
    }
  }

  // While no generation is healthy, a hook can only stop operations and start shutdown.
  ghost predicate Frozen(s: Pool, t: Pool) {
    && t.gens == s.gens && t.current == s.current && t.live == s.live
    && t.nextGeneration == s.nextGeneration && t.recycleCount == s.recycleCount
    && t.retiring == s.retiring && t.recoveryEpoch == s.recoveryEpoch
    && t.ops.Keys == s.ops.Keys
    && (t.shutdownStarted == s.shutdownStarted ==> t.state == s.state && t.phase == s.phase)
  }

  // A re-entrant call keeps everything that can be kept in the middle of a turn.
  ghost predicate Keeps(s: Pool, t: Pool, ex: set<nat>) {
    && Inv(t, ex)
    && Later(s, t)
    && (Settled(s) ==> Settled(t))
    && (!CurrentHealthy(s) ==> Frozen(s, t))
  }

  lemma KeepsTransitive(s: Pool, t: Pool, u: Pool, ex: set<nat>)
    requires Inv(s, ex) && Keeps(s, t, ex) && Keeps(t, u, ex)
    ensures Keeps(s, u, ex)
  {
    LaterTransitive(s, t, u);
  }

  lemma KeepsItself(s: Pool, ex: set<nat>)
    requires Inv(s, ex)
    ensures Keeps(s, s, ex)
  {
  }

  // --------------------------------------------------------- one operation

  // A change to one operation, and whether it was dispatched.
  ghost predicate EditsOne(s: Pool, t: Pool, o: nat) {
    && o in s.ops && o in t.ops
    && t == s.(ops := s.ops[o := t.ops[o]], dispatches := t.dispatches)
    && OpLater(s.ops[o], t.ops[o])
    && (Stopped(s.ops[o]) ==> Stopped(t.ops[o]))
  }

  lemma EditKeepsOperations(s: Pool, t: Pool, o: nat)
    requires OperationsOk(s) && EditsOne(s, t, o) && OpOk(t, o)
    requires t.dispatches == s.dispatches
             || (t.dispatches == s.dispatches + multiset{o} && s.dispatches[o] == 0)
    ensures OperationsOk(t)
  {
    forall x | x in t.ops ensures OpOk(t, x) {
      assert OpOk(s, x);
    }
  }

  lemma EditKeeps(s: Pool, t: Pool, o: nat, ex: set<nat>)
    requires Inv(s, ex) && EditsOne(s, t, o) && OperationsOk(t) && s.dispatches <= t.dispatches
    ensures Keeps(s, t, ex)
  {
    hide OperationsOk, OpOk;
    assert t.ops.Keys == s.ops.Keys;
  }

  lemma EditOpKeeps(s: Pool, o: nat, op: Op, ex: set<nat>)
    requires Inv(s, ex) && o in s.ops && OpLater(s.ops[o], op)
    requires op.sent == s.ops[o].sent && op.interrupted == s.ops[o].interrupted
    requires Stopped(s.ops[o]) ==> Stopped(op)
    requires !op.working ==> op.driverSettled || op.interrupted.Some? || op.expired
    ensures Keeps(s, s.(ops := s.ops[o := op]), ex)
  {
    var t := s.(ops := s.ops[o := op]);
    assert OpOk(s, o);
    EditKeepsOperations(s, t, o);
    EditKeeps(s, t, o, ex);
  }

  // ------------------------------------------------------------ hooks and calls

  lemma {:induction false} RunHookKeeps(s: Pool, hook: Hook, ex: set<nat>)
    requires Inv(s, ex)
    ensures Keeps(s, RunHook(s, hook), ex)
    decreases hook, 0
  {
    match hook
    case Quiet =>
    case Then(action, rest) =>
      RunActionKeeps(s, action, ex);
      RunHookKeeps(RunAction(s, action), rest, ex);
      KeepsTransitive(s, RunAction(s, action), RunHook(s, hook), ex);
  }

  lemma {:induction false} RunActionKeeps(s: Pool, action: Action, ex: set<nat>)
    requires Inv(s, ex)
    ensures Keeps(s, RunAction(s, action), ex)
    decreases action, 0
  {
    match action
    case CallClose(hook) => CloseKeeps(s, hook, ex);
    case CallAbort(o, plan) => AbortKeeps(s, o, plan, ex);
    case CallStart(kind, hook) => StartKeeps(s, kind, hook, ex);
    case CallBootstrap(o) => BeginKeeps(s, o, ex);
    case CallTimeout(o, expiry) => TimeoutKeeps(s, o, expiry, ex);
    case CallExpire(o, hook) => ExpireKeeps(s, o, hook, ex);
    case CallQueryFails(o, hook) => FailTransactionKeeps(s, o, hook, ex);
  }

  lemma {:induction false} CloseKeeps(s: Pool, hook: Hook, ex: set<nat>)
    requires Inv(s, ex)
    ensures Keeps(s, Close(s, hook), ex)
    ensures Close(s, hook).shutdownStarted
    decreases hook, 2
  {
    if !s.shutdownStarted {
      var s1 := s.(shutdownStarted := true, phase := Draining,
                   admitted := Some(Admitted(s.ops.Keys, s.gens.Keys)), state := Closing);
      ShutdownKeeps(s, ex);
      hide Inv, Keeps;
      RunHookKeeps(s1, hook, ex);
      HookLater(s1, hook, ex);
      KeepsTransitive(s, s1, RunHook(s1, hook), ex);
    }
  }

  lemma ShutdownKeeps(s: Pool, ex: set<nat>)
    requires Inv(s, ex) && !s.shutdownStarted
    ensures Keeps(s, s.(shutdownStarted := true, phase := Draining,
                        admitted := Some(Admitted(s.ops.Keys, s.gens.Keys)), state := Closing), ex)
  {
    SameOperations(s, s.(shutdownStarted := true, phase := Draining,
                         admitted := Some(Admitted(s.ops.Keys, s.gens.Keys)), state := Closing), ex);
    hide OperationsOk, PoisonedStopped;
  }

  lemma HookLater(s: Pool, hook: Hook, ex: set<nat>)
    requires Keeps(s, RunHook(s, hook), ex)
    ensures s.shutdownStarted ==> RunHook(s, hook).shutdownStarted
  {
    hide Inv, Settled, Frozen;
  }

  lemma AdmitOperations(s: Pool, op: Op)
    requires OperationsOk(s) && op.gen in s.gens && !op.sent && op.interrupted.None? && op.working
    ensures OperationsOk(Admit(s, op)) && s.nextOperation !in s.ops
  {
    assert s.nextOperation !in s.ops && s.nextOperation !in s.dispatches;
    forall o | o in Admit(s, op).ops ensures OpOk(Admit(s, op), o) {
      assert o != s.nextOperation ==> OpOk(s, o);
    }
  }

  lemma AdmitKeeps(s: Pool, op: Op, ex: set<nat>)
    requires Inv(s, ex) && Admits(s)
    requires op.gen == s.current && op.active && !op.sent && op.interrupted.None? && op.working
    ensures Keeps(s, Admit(s, op), ex)
  {
    AdmitOperations(s, op);
    AdmitLater(s, op);
    AdmitStopped(s, op, ex);
    hide OperationsOk, PoisonedStopped, Later;
  }

  lemma AdmitLater(s: Pool, op: Op)
    requires s.nextOperation !in s.ops
    ensures Later(s, Admit(s, op))
  {
  }

  lemma AdmitStopped(s: Pool, op: Op, ex: set<nat>)
    requires PoisonedStopped(s, ex) && s.nextOperation !in s.ops
    requires op.gen in s.gens && s.gens[op.gen] == GenHealthy
    ensures PoisonedStopped(Admit(s, op), ex)
  {
  }

  lemma {:induction false} StartKeeps(s: Pool, kind: Kind, hook: Hook, ex: set<nat>)
    requires Inv(s, ex)
    ensures Keeps(s, Start(s, kind, hook), ex)
    decreases hook, 2
  {
    if Admits(s) {
      var op := Op(s.current, kind, true, true, false, false, false, None, false);
      var s1 := Admit(s, op);
      AdmitKeeps(s, op, ex);
      RunHookKeeps(s1, hook, ex);
      KeepsTransitive(s, s1, RunHook(s1, hook), ex);
    }
  }

  lemma {:induction false} TimeoutKeeps(s: Pool, o: nat, expiry: Expiry, ex: set<nat>)
    requires Inv(s, ex)
    ensures Keeps(s, Timeout(s, o, expiry), ex)
    decreases expiry
  {
    if Interruptible(s, o) {
      var s1 := s.(ops := s.ops[o := Interrupted(s.ops[o], QueryTimeout)]);
      var s2 := RunHook(s1, expiry.timedOut);
      InterruptOneKeeps(s, o, Interrupted(s.ops[o], QueryTimeout), ex);
      RunHookKeeps(s1, expiry.timedOut, ex);
      KeepsTransitive(s, s1, s2, ex);
      StoppedLater(s1, s2, o);
      PoisonKeeps(s2, s.ops[o].gen, o, expiry.plan, ex);
      KeepsTransitive(s, s2, Timeout(s, o, expiry), ex);
    }
  }

  lemma {:induction false} ExpireKeeps(s: Pool, o: nat, hook: Hook, ex: set<nat>)
    requires Inv(s, ex)
    ensures Keeps(s, ExpireTransaction(s, o, hook), ex)
    decreases hook, 1
  {
    if Interruptible(s, o) && s.ops[o].kind.Transaction? && !s.ops[o].expired {
      var op := s.ops[o].(interrupted := Some(Interrupt(TransactionTimeout, Unknown)), expired := true);
      var s1 := s.(ops := s.ops[o := op]);
      InterruptOneKeeps(s, o, op, ex);
      RunHookKeeps(s1, hook, ex);
      KeepsTransitive(s, s1, RunHook(s1, hook), ex);
    }
  }

  lemma {:induction false} FailTransactionKeeps(s: Pool, o: nat, hook: Hook, ex: set<nat>)
    requires Inv(s, ex)
    ensures Keeps(s, FailTransaction(s, o, hook), ex)
    decreases hook, 1
  {
    hide Inv, Settled, Frozen;
    var s1 := RunHook(s, hook);
    RunHookKeeps(s, hook, ex);
    if o in s1.ops && s1.ops[o].kind.Transaction? {
      var op := s1.ops[o].(expired := true);
      EditOpKeeps(s1, o, op, ex);
      KeepsTransitive(s, s1, s1.(ops := s1.ops[o := op]), ex);
    }
  }

  lemma BeginKeeps(s: Pool, o: nat, ex: set<nat>)
    requires Inv(s, ex)
    ensures Keeps(s, Begin(s, o), ex)
  {
    hide Inv, Keeps, Settled, Frozen;
    KeepsItself(s, ex);
    if Runnable(s, o) {
      if MayProceed(s.ops[o]) {
        EditOpKeeps(s, o, s.ops[o].(bootstrapStarted := true), ex);
      } else {
        EditOpKeeps(s, o, s.ops[o].(working := false), ex);
      }
    }
  }

  // Changing operations only by stopping them, never with outcome not_sent after dispatch.
  ghost predicate OnlyStops(s: Pool, t: Pool) {
    && t == s.(ops := t.ops)
    && t.ops.Keys == s.ops.Keys
    && (forall o <- s.ops ::
          t.ops[o] == s.ops[o]
          || (s.ops[o].interrupted.None? && t.ops[o].interrupted.Some?
              && TellsOutcome(t.ops[o].interrupted.value, s.ops[o])
              && t.ops[o] == s.ops[o].(interrupted := t.ops[o].interrupted, expired := t.ops[o].expired)
              && (s.ops[o].expired ==> t.ops[o].expired)))
  }

  lemma OnlyStopsKeepsOperations(s: Pool, t: Pool)
    requires OperationsOk(s) && OnlyStops(s, t)
    ensures OperationsOk(t)
  {
    forall o | o in t.ops ensures OpOk(t, o) {
      assert OpOk(s, o);
    }
  }

  lemma OnlyStopsKeepsInv(s: Pool, t: Pool, ex: set<nat>)
    requires Inv(s, ex) && OnlyStops(s, t)
    ensures Inv(t, ex)
  {
    OnlyStopsKeepsOperations(s, t);
    hide OperationsOk;
  }

  lemma OnlyStopsKeeps(s: Pool, t: Pool, ex: set<nat>)
    requires Inv(s, ex) && OnlyStops(s, t)
    ensures Keeps(s, t, ex)
  {
    OnlyStopsKeepsInv(s, t, ex);
    OnlyStopsLater(s, t);
    hide Inv, Later, Settled, Frozen, OnlyStops;
  }

  lemma OnlyStopsLater(s: Pool, t: Pool)
    requires OnlyStops(s, t)
    ensures Later(s, t) && Frozen(s, t) && (Settled(s) ==> Settled(t))
  {
  }

  lemma InterruptOneKeeps(s: Pool, o: nat, op: Op, ex: set<nat>)
    requires Inv(s, ex) && Interruptible(s, o)
    requires op == s.ops[o].(interrupted := op.interrupted, expired := op.expired)
    requires op.interrupted.Some? && TellsOutcome(op.interrupted.value, op)
    requires s.ops[o].expired ==> op.expired
    ensures Keeps(s, s.(ops := s.ops[o := op]), ex)
  {
    OnlyStopsKeeps(s, s.(ops := s.ops[o := op]), ex);
  }

  lemma {:induction false} AbortKeeps(s: Pool, o: nat, plan: PoisonPlan, ex: set<nat>)
    requires Inv(s, ex)
    ensures Keeps(s, Abort(s, o, plan), ex)
    decreases plan, 1
  {
    if Interruptible(s, o) && !s.ops[o].expired {
      var op := s.ops[o];
      var s1 := s.(ops := s.ops[o := Interrupted(op, QueryAborted)]);
      InterruptOneKeeps(s, o, Interrupted(op, QueryAborted), ex);
      if !op.kind.Transaction? && op.bootstrapStarted && !op.sent {
        PoisonKeeps(s1, op.gen, o, plan, ex);
        KeepsTransitive(s, s1, Poison(s1, op.gen, o, plan), ex);
      }
    }
  }

  // Interrupting every active operation of some generations.
  lemma InterruptAllKeeps(s: Pool, gens: set<nat>, trigger: Option<nat>, cause: Cause, ex: set<nat>)
    requires Inv(s, ex) && cause != TransactionTimeout
    ensures OnlyStops(s, InterruptAll(s, gens, trigger, cause))
    ensures Keeps(s, InterruptAll(s, gens, trigger, cause), ex)
    ensures var t := InterruptAll(s, gens, trigger, cause);
            t.ops.Keys == s.ops.Keys
            && forall o <- t.ops :: t.ops[o].gen in gens && trigger != Some(o) ==> Stopped(t.ops[o])
  {
    var t := InterruptAll(s, gens, trigger, cause);
    InterruptAllOnlyStops(s, gens, trigger, cause);
    OnlyStopsKeeps(s, t, ex);
  }

  lemma InterruptAllOnlyStops(s: Pool, gens: set<nat>, trigger: Option<nat>, cause: Cause)
    requires cause != TransactionTimeout
    ensures OnlyStops(s, InterruptAll(s, gens, trigger, cause))
  {
    assert InterruptAll(s, gens, trigger, cause).ops.Keys == s.ops.Keys;
  }

  lemma MarkPoisoned(s: Pool, g: nat, ex: set<nat>)
    requires Inv(s, ex) && g in s.gens && s.gens[g] == GenHealthy
    ensures var s1 := s.(gens := s.gens[g := GenPoisoned]);
            Inv(s1, ex + {g}) && Later(s, s1) && !CurrentHealthy(s1) && g == s1.current
  {
    var s1 := s.(gens := s.gens[g := GenPoisoned]);
    forall o | o in s1.ops ensures OpOk(s1, o) {
      assert OpOk(s, o);
    }
    assert s1.gens.Keys == s.gens.Keys;
  }

  // Poisoning is over for g once its operations are stopped.
  lemma PoisonCovered(s: Pool, g: nat, trigger: nat, cause: Cause, ex: set<nat>)
    requires Inv(s, ex + {g}) && trigger in s.ops && Stopped(s.ops[trigger]) && cause != TransactionTimeout
    ensures var t := InterruptAll(s, {g}, Some(trigger), cause);
            Inv(t, ex) && Later(s, t) && Frozen(s, t)
  {
    InterruptAllKeeps(s, {g}, Some(trigger), cause, ex + {g});
    var t := InterruptAll(s, {g}, Some(trigger), cause);
    assert t.ops.Keys == s.ops.Keys;
    forall o | o in t.ops && t.ops[o].gen == g ensures Stopped(t.ops[o]) {
      assert OpLater(s.ops[o], t.ops[o]);
    }
  }

  lemma {:induction false} TransitionKeeps(s: Pool, to: ClientState, hook: Hook, ex: set<nat>)
    requires Inv(s, ex) && !s.shutdownStarted && to !in {Closing, Closed}
    ensures var t := Transition(s, to, hook);
            && Inv(t, ex) && Later(s, t)
            && (!CurrentHealthy(s) ==> Frozen(s.(state := to), t))
            && (Settled(s.(state := to)) ==> Settled(t))
    decreases hook, 1
  {
    var s1 := s.(state := to);
    assert Inv(s1, ex) && Later(s, s1);
    if s.state != to {
      RunHookKeeps(s1, hook, ex);
      LaterTransitive(s, s1, RunHook(s1, hook));
    } else {
      assert s1 == s;
    }
  }

  lemma StoppedLater(s: Pool, t: Pool, o: nat)
    requires o in s.ops && Stopped(s.ops[o]) && Later(s, t)
    ensures o in t.ops && Stopped(t.ops[o])
  {
    assert OpLater(s.ops[o], t.ops[o]);
  }

  // The end of a poisoning that meets shutdown.
  lemma PoisonMeetsShutdown(s: Pool, s1: Pool, g: nat, trigger: nat, ex: set<nat>)
    requires Inv(s1, ex + {g}) && Later(s, s1) && s1.shutdownStarted
    requires trigger in s.ops && Stopped(s.ops[trigger]) && g in s1.gens && s1.gens[g] != GenHealthy
    ensures var t := InterruptAll(s1, {g}, Some(trigger), ClientClosing);
            Inv(t, ex) && Later(s, t) && Settled(t) && g in t.gens && t.gens[g] != GenHealthy
  {
    StoppedLater(s, s1, trigger);
    PoisonCovered(s1, g, trigger, ClientClosing, ex);
    LaterTransitive(s, s1, InterruptAll(s1, {g}, Some(trigger), ClientClosing));
  }

  lemma ShutdownSettled(s: Pool, ex: set<nat>)
    requires Inv(s, ex)
    ensures s.shutdownStarted ==> Settled(s)
  {
  }

  lemma NextEpoch(s: Pool, ex: set<nat>)
    requires Inv(s, ex)
    ensures var t := s.(recoveryEpoch := s.recoveryEpoch + 1); Inv(t, ex) && Later(s, t)
  {
    var t := s.(recoveryEpoch := s.recoveryEpoch + 1);
    assert forall o <- t.ops :: OpOk(s, o) ==> OpOk(t, o);
  }

  // The recycling half of a poisoning, once its first hook has returned.
  lemma {:induction false} RecycleKeeps(s: Pool, g: nat, trigger: nat, plan: PoisonPlan, ex: set<nat>)
    requires Inv(s, ex + {g}) && !s.shutdownStarted && s.state == Poisoned
    requires g == s.current && g in s.gens && s.gens[g] == GenPoisoned
    requires trigger in s.ops && Stopped(s.ops[trigger])
    ensures var t := Recycle(s, g, trigger, plan);
            Inv(t, ex) && Later(s, t) && Settled(t) && g in t.gens && t.gens[g] != GenHealthy
    decreases plan, 0, 1
  {
    hide Inv, Later, Settled;
    var s3 := InterruptAll(s, {g}, Some(trigger), GenerationRecycled);
    PoisonCovered(s, g, trigger, GenerationRecycled, ex);
    var s4 := Transition(s3, Recycling, plan.recycling);
    TransitionKeeps(s3, Recycling, plan.recycling, ex);
    LaterTransitive(s, s3, s4);
    ShutdownSettled(s4, ex);
    if !s4.shutdownStarted {
      var s5 := s4.(recoveryEpoch := s4.recoveryEpoch + 1);
      NextEpoch(s4, ex);
      ReplaceKeeps(s5, g, plan, ex);
      LaterTransitive(s4, s5, Replace(s5, g, plan));
      LaterTransitive(s, s4, Replace(s5, g, plan));
    }
  }

  // Poisoning keeps the invariant, whatever its hooks do, and leaves the client settled.
  lemma {:induction false} PoisonKeeps(s: Pool, g: nat, trigger: nat, plan: PoisonPlan, ex: set<nat>)
    requires Inv(s, ex)
    requires trigger in s.ops && Stopped(s.ops[trigger])
    ensures Keeps(s, Poison(s, g, trigger, plan), ex)
    ensures g in s.gens ==> g in Poison(s, g, trigger, plan).gens && Poison(s, g, trigger, plan).gens[g] != GenHealthy
    decreases plan, 0, 2
  {
    hide OperationsOk, PoisonedStopped;
    if g in s.gens && s.gens[g] == GenHealthy {
      var s1 := s.(gens := s.gens[g := GenPoisoned]);
      MarkPoisoned(s, g, ex);
      if s1.shutdownStarted {
        PoisonMeetsShutdown(s, s1, g, trigger, ex);
      } else {
        var s2 := Transition(s1, Poisoned, plan.poisoned);
        TransitionKeeps(s1, Poisoned, plan.poisoned, ex + {g});
        LaterTransitive(s, s1, s2);
        if s2.shutdownStarted {
          PoisonMeetsShutdown(s, s2, g, trigger, ex);
        } else {
          StoppedLater(s, s2, trigger);
          RecycleKeeps(s2, g, trigger, plan, ex);
          LaterTransitive(s, s2, Recycle(s2, g, trigger, plan));
        }
      }
    }
  }

  // A change that leaves operations, admission and shutdown alone keeps what is said of them.
  lemma SameOperations(s: Pool, t: Pool, ex: set<nat>)
    requires Inv(s, ex) && t.ops == s.ops && t.nextOperation == s.nextOperation && t.dispatches == s.dispatches
    requires s.gens.Keys <= t.gens.Keys
    requires forall g <- s.gens :: t.gens[g] == s.gens[g] || (s.gens[g] != GenHealthy && t.gens[g] != GenHealthy)
    requires forall g <- t.gens :: g in s.gens || t.gens[g] == GenHealthy
    ensures OperationsOk(t) && PoisonedStopped(t, ex)
  {
    forall o | o in t.ops ensures OpOk(t, o) {
      assert OpOk(s, o);
    }
  }

  lemma {:induction false} ReplaceKeeps(s: Pool, g: nat, plan: PoisonPlan, ex: set<nat>)
    requires Inv(s, ex) && !s.shutdownStarted && s.state == Recycling
    requires g == s.current && g in s.gens && s.gens[g] == GenPoisoned
    ensures var t := Replace(s, g, plan);
            Inv(t, ex) && Later(s, t) && Settled(t) && g in t.gens && t.gens[g] != GenHealthy
    decreases plan, 0, 0
  {
    if plan.createFails {
      var s1 := Transition(s, Failed, plan.failed);
      TransitionKeeps(s, Failed, plan.failed, ex);
      RetiringKeeps(s1, g, ex);
      hide Inv, Later, Settled;
      LaterTransitive(s, s1, Replace(s, g, plan));
    } else {
      CreatedKeeps(s, g, plan, ex);
    }
  }

  lemma RetiringKeeps(s: Pool, g: nat, ex: set<nat>)
    requires Inv(s, ex) && g in s.gens && s.gens[g] != GenHealthy
    requires Settled(s)
    ensures var t := s.(gens := s.gens[g := GenRetiring], retiring := s.retiring[g := None]);
            Inv(t, ex) && Later(s, t) && Settled(t) && t.gens[g] != GenHealthy
  {
    var t := s.(gens := s.gens[g := GenRetiring], retiring := s.retiring[g := None]);
    SameOperations(s, t, ex);
    hide OperationsOk, PoisonedStopped;
    assert t.gens.Keys == s.gens.Keys;
  }

  lemma CreatedGenerations(s: Pool, g: nat, plan: PoisonPlan)
    requires GenerationsOk(s) && !plan.createFails && g == s.current && g in s.gens && s.gens[g] != GenHealthy
    ensures GenerationsOk(Replace(s, g, plan))
  {
  }

  lemma CreatedLater(s: Pool, g: nat, plan: PoisonPlan)
    requires GenerationsOk(s) && !plan.createFails && g == s.current && g in s.gens && s.gens[g] != GenHealthy
    ensures Later(s, Replace(s, g, plan))
  {
  }

  lemma CreatedKeeps(s: Pool, g: nat, plan: PoisonPlan, ex: set<nat>)
    requires Inv(s, ex) && !s.shutdownStarted && s.state == Recycling && !plan.createFails
    requires g == s.current && g in s.gens && s.gens[g] == GenPoisoned
    ensures var t := Replace(s, g, plan);
            Inv(t, ex) && Later(s, t) && Settled(t) && g in t.gens && t.gens[g] != GenHealthy
  {
    SameOperations(s, Replace(s, g, plan), ex);
    CreatedGenerations(s, g, plan);
    CreatedLater(s, g, plan);
    hide OperationsOk, PoisonedStopped, GenerationsOk, Later;
  }

  // ------------------------------------------------------------ whole turns

  lemma DispatchKeeps(s: Pool, o: nat)
    requires Inv(s, {}) && Runnable(s, o) && MayProceed(s.ops[o])
    ensures Keeps(s, s.(ops := s.ops[o := s.ops[o].(sent := true)], dispatches := s.dispatches + multiset{o}), {})
  {
    var t := s.(ops := s.ops[o := s.ops[o].(sent := true)], dispatches := s.dispatches + multiset{o});
    assert OpOk(s, o);
    EditKeepsOperations(s, t, o);
    EditKeeps(s, t, o, {});
  }

  // What a whole turn keeps.
  ghost predicate TurnKeeps(s: Pool, t: Pool) {
    Inv(t, {}) && Later(s, t) && (Settled(s) ==> Settled(t))
  }

  lemma WorkKeeps(s: Pool, e: Event)
    requires Inv(s, {}) && (e.Bootstrap? || e.Dispatch? || e.WorkEnds? || e.GraceExpires?)
    ensures Keeps(s, Step(s, e), {})
  {
    hide Inv, Keeps, Settled, Frozen;
    KeepsItself(s, {});
    match e
    case Bootstrap(o, late, expiry) =>
      BeginKeeps(s, o, {});
      TimeoutKeeps(s, o, expiry, {});
      ExpireKeeps(s, o, expiry.timedOut, {});
    case Dispatch(o, late, expiry) =>
      if Runnable(s, o) {
        TimeoutKeeps(s, o, expiry, {});
        ExpireKeeps(s, o, expiry.timedOut, {});
        if MayProceed(s.ops[o]) {
          DispatchKeeps(s, o);
        } else {
          EditOpKeeps(s, o, s.ops[o].(working := false), {});
        }
      }
    case WorkEnds(o) =>
      if o in s.ops {
        EditOpKeeps(s, o, s.ops[o].(working := false, driverSettled := true), {});
      }
    case GraceExpires(o, plan) =>
      if o in s.ops && GraceApplies(s.ops[o]) {
        PoisonKeeps(s, s.ops[o].gen, o, plan, {});
      }
  }

  lemma WorkIsDone(s: Pool, o: nat, ex: set<nat>)
    requires Inv(s, ex)
    ensures o in s.ops && !s.ops[o].working ==> s.ops[o].driverSettled || s.ops[o].interrupted.Some? || s.ops[o].expired
  {
    if o in s.ops {
      assert OpOk(s, o);
    }
  }

  lemma FinishKeeps(s: Pool, o: nat, hook: Hook)
    requires Inv(s, {})
    ensures Keeps(s, Step(s, Finish(o, hook)), {})
  {
    hide Inv, Settled, Frozen;
    KeepsItself(s, {});
    var s1 := RunHook(s, hook);
    RunHookKeeps(s, hook, {});
    WorkIsDone(s1, o, {});
    if o in s.ops && o in s1.ops {
      var op := s1.ops[o].(active := false, expired := s1.ops[o].expired || s1.ops[o].kind.Transaction?);
      EditOpKeeps(s1, o, op, {});
      KeepsTransitive(s, s1, s1.(ops := s1.ops[o := op]), {});
    }
  }

  lemma RetireKeeps(s: Pool, g: nat, ok: bool)
    requires Inv(s, {}) && g in s.retiring
    ensures TurnKeeps(s, Unretire(s, g, ok))
  {
    SameOperations(s, Unretire(s, g, ok), {});
  }

  lemma AnnounceKeeps(s: Pool, to: ClientState, hook: Hook)
    requires Inv(s, {}) && Settled(s) && !s.shutdownStarted
    requires to == Failed || (to == Healthy && s.state == Recycling)
    ensures TurnKeeps(s, Transition(s, to, hook))
  {
    TransitionKeeps(s, to, hook, {});
  }

  lemma TurnsTransitive(s: Pool, t: Pool, u: Pool)
    requires TurnKeeps(s, t) && TurnKeeps(t, u)
    ensures TurnKeeps(s, u)
  {
    hide Inv, Later, Settled;
    LaterTransitive(s, t, u);
  }

  // Only a client that is not shutting down changes its state when a retirement ends.
  lemma RetiresTo(s: Pool, g: nat, ok: bool, hook: Hook)
    requires ShutdownOk(s) && g in s.retiring
    ensures var s1, t := Unretire(s, g, ok), Retire(s, g, ok, hook);
            || t == s1
            || (!s1.shutdownStarted && ok && s1.state == Recycling && t == Transition(s1, Healthy, hook))
            || (!s1.shutdownStarted && !ok && t == Transition(s1, Failed, hook))
  {
    hide Transition;
  }

  lemma InvShutdown(s: Pool)
    requires Inv(s, {})
    ensures ShutdownOk(s)
  {
    hide ShutdownOk;
  }

  lemma RetiredKeeps(s: Pool, g: nat, ok: bool, hook: Hook)
    requires Inv(s, {}) && Settled(s)
    ensures TurnKeeps(s, Retire(s, g, ok, hook))
  {
    hide Inv, Settled, Later, Transition, ShutdownOk, Unretire;
    if g in s.retiring {
      var s1 := Unretire(s, g, ok);
      InvShutdown(s);
      RetireKeeps(s, g, ok);
      RetiresTo(s, g, ok, hook);
      hide Retire;
      if Retire(s, g, ok, hook) != s1 {
        var to := if ok then Healthy else Failed;
        AnnounceKeeps(s1, to, hook);
        TurnsTransitive(s, s1, Transition(s1, to, hook));
      }
    } else {
      SameKeeps(s);
    }
  }

  lemma SameKeeps(s: Pool)
    requires Inv(s, {}) && Settled(s)
    ensures TurnKeeps(s, s)
  {
    hide Inv, Settled;
  }

  lemma ForcedKeeps(s: Pool)
    requires Inv(s, {}) && s.phase == Draining && forall o <- s.ops :: Stopped(s.ops[o])
    ensures TurnKeeps(s, s.(phase := Forced))
  {
    SameOperations(s, s.(phase := Forced), {});
    hide OperationsOk, PoisonedStopped;
  }

  lemma AllStopped(s: Pool)
    requires Inv(s, {}) && s.phase == Draining
    ensures forall o <- s.ops :: s.ops[o].gen in s.live || Stopped(s.ops[o])
  {
    forall o | o in s.ops ensures s.ops[o].gen in s.live || Stopped(s.ops[o]) {
      assert OpOk(s, o);
    }
  }

  lemma ForceKeeps(s: Pool)
    requires Inv(s, {}) && s.phase == Draining
    ensures TurnKeeps(s, Step(s, ForceShutdown))
  {
    var s1 := InterruptAll(s, s.live, None, ClientClosing);
    AllStopped(s);
    InterruptAllKeeps(s, s.live, None, ClientClosing, {});
    hide Inv, Later, Settled;
    ForcedKeeps(s1);
    LaterTransitive(s, s1, s1.(phase := Forced));
  }

  lemma ClearKeeps(s: Pool)
    requires Inv(s, {}) && s.phase == Forced
    ensures TurnKeeps(s, s.(phase := Finished, live := {}, state := Closed))
  {
    SameOperations(s, s.(phase := Finished, live := {}, state := Closed), {});
  }

  lemma ShutdownDoneKeeps(s: Pool, hook: Hook)
    requires Inv(s, {}) && s.phase == Forced
    ensures TurnKeeps(s, EndShutdown(s, hook))
  {
    ShutdownSettled(s, {});
    assert s.state != Closed;
    hide Inv, Later, Settled;
    var s1 := s.(phase := Finished, live := {}, state := Closed);
    ClearKeeps(s);
    RunHookKeeps(s1, hook, {});
    LaterTransitive(s, s1, RunHook(s1, hook));
  }

  // Every turn keeps the invariant and leaves the client settled.
  lemma StepKeeps(s: Pool, e: Event)
    requires Inv(s, {}) && Settled(s)
    ensures TurnKeeps(s, Step(s, e))
  {
    hide Inv, Later, Settled, Frozen, RunHook, Start, Close, Abort, Timeout, ExpireTransaction, FailTransaction, Retire;
    KeepsItself(s, {});
    match e
    case Notified(hook) => RunHookKeeps(s, hook, {});
    case StartCall(kind, hook) => StartKeeps(s, kind, hook, {});
    case CloseCall(hook) => CloseKeeps(s, hook, {});
    case Bootstrap(_, _, _) => WorkKeeps(s, e);
    case Dispatch(_, _, _) => WorkKeeps(s, e);
    case TimeoutFires(o, expiry) => TimeoutKeeps(s, o, expiry, {});
    case AbortSignal(o, plan) => AbortKeeps(s, o, plan, {});
    case TransactionExpires(o, hook) => ExpireKeeps(s, o, hook, {});
    case TransactionQueryFails(o, hook) => FailTransactionKeeps(s, o, hook, {});
    case WorkEnds(_) => WorkKeeps(s, e);
    case GraceExpires(_, _) => WorkKeeps(s, e);
    case Finish(o, hook) => FinishKeeps(s, o, hook);
    case Retired(g, ok, hook) => RetiredKeeps(s, g, ok, hook);
    case ForceShutdown => if s.phase == Draining { ForceKeeps(s); }
    case ShutdownDone(hook) => if s.phase == Forced { ShutdownDoneKeeps(s, hook); }
  }

  lemma {:induction false} RunKeeps(s: Pool, events: seq<Event>)
    requires Inv(s, {}) && Settled(s)
    ensures Inv(Run(s, events), {}) && Settled(Run(s, events)) && Later(s, Run(s, events))
    decreases |events|
  {
    if events == [] {
    } else {
      StepKeeps(s, events[0]);
      RunKeeps(Step(s, events[0]), events[1..]);
      LaterTransitive(s, Step(s, events[0]), Run(s, events));
    }
  }

  // ------------------------------------------------------------ main results

  // Every state that some run reaches from the start.
  ghost predicate Reachable(s: Pool) {
    exists events: seq<Event> :: s == Run(INITIAL, events)
  }

  lemma InitialGenerations()
    ensures GenerationsOk(INITIAL)
  {
  }

  lemma InitialInv()
    ensures Inv(INITIAL, {})
  {
    hide GenerationsOk;
    InitialGenerations();
  }

  lemma InitialSettled()
    ensures Settled(INITIAL)
  {
  }

  lemma ReachableInv(s: Pool)
    requires Reachable(s)
    ensures Inv(s, {}) && Settled(s)
  {
    hide Inv, Settled, Later;
    InitialInv();
    InitialSettled();
    var events: seq<Event> :| s == Run(INITIAL, events);
    RunKeeps(INITIAL, events);
  }

  // In every reachable state at most one generation is healthy, it is the current and
  // newest one, every recycling made one generation, and a client that says it is
  // healthy or recycling has a healthy generation.
  lemma GenerationSafety(s: Pool)
    requires Reachable(s)
    ensures forall g <- s.gens :: s.gens[g] == GenHealthy ==> g == s.current
    ensures s.current in s.gens && forall g <- s.gens :: g <= s.current
    ensures s.recycleCount == s.current - 1
    ensures s.state in {Healthy, Recycling} ==> s.gens[s.current] == GenHealthy
    ensures s.state != Poisoned
  {
    ReachableInv(s);
  }

  // No operation is dispatched twice; one that was interrupted as not sent has not been and
  // will not be dispatched; the active operations of lost generations are stopped.
  lemma OperationSafety(s: Pool, events: seq<Event>)
    requires Reachable(s)
    ensures var t := Run(s, events);
            && (forall o :: t.dispatches[o] <= 1)
            && (forall o <- s.ops :: s.ops[o].interrupted.Some? ==>
                  o in t.ops && t.ops[o].interrupted == s.ops[o].interrupted
                  && (o in t.dispatches <==> o in s.dispatches)
                  && (s.ops[o].interrupted.value.outcome == NotSent ==> o !in t.dispatches))
            && (forall o <- t.ops :: t.ops[o].gen in t.gens
                                     && (t.gens[t.ops[o].gen] == GenHealthy || Stopped(t.ops[o])))
  {
    ReachableInv(s);
    RunKeeps(s, events);
    var t := Run(s, events);
    forall o | o in s.ops ensures OpLater(s.ops[o], t.ops[o]) && OpOk(s, o) && OpOk(t, o) {
    }
  }

  // Once shutdown has started, even inside a hook, nothing is admitted or created; the
  // state is closing or closed for good; and at closed every active operation is stopped.
  lemma ShutdownSafety(s: Pool, events: seq<Event>)
    requires Reachable(s) && s.shutdownStarted
    ensures var t := Run(s, events);
            && s.admitted.Some? && t.admitted == s.admitted
            && t.ops.Keys == s.admitted.value.ops && t.gens.Keys == s.admitted.value.gens
            && t.state in {Closing, Closed} && (s.state == Closed ==> t.state == Closed)
            && (t.state == Closed ==> forall o <- t.ops :: Stopped(t.ops[o]))
  {
    ReachableInv(s);
    RunKeeps(s, events);
  }

  lemma RunTwo(s: Pool, e1: Event, e2: Event)
    ensures Run(s, [e1, e2]) == Step(Step(s, e1), e2)
  {
    hide Step;
    var s1 := Step(s, e1);
    assert [e1, e2][1..] == [e2] && [e2][1..] == [];
    assert Run(s1, [e2]) == Run(Step(s1, e2), []);
    assert Run(s, [e1, e2]) == Run(s1, [e2]);
  }

  // Timing out a query on the current generation, with hooks that do nothing.
  lemma QuietTimeout(s: Pool, o: nat)
    requires GenerationsOk(s) && !s.shutdownStarted && CurrentHealthy(s)
    requires Interruptible(s, o) && s.ops[o].gen == s.current
    ensures var t := Timeout(s, o, Expiry(Quiet, PoisonPlan(Quiet, Quiet, Quiet, false)));
            && t.state == Recycling && !t.shutdownStarted
            && t.current == s.current + 1 && CurrentHealthy(t)
            && s.current in t.retiring && t.retiring[s.current] == Some(t.recoveryEpoch)
  {
  }

  // A failed client is not lost: while its current generation is healthy, the time-out of
  // one of its queries replaces the generation, and the client becomes healthy again.
  lemma FailedRecovers(s: Pool, o: nat)
    requires Reachable(s) && s.state == Failed && CurrentHealthy(s)
    requires Interruptible(s, o) && !s.ops[o].kind.Transaction? && s.ops[o].gen == s.current
    ensures var t := Run(s, [TimeoutFires(o, Expiry(Quiet, PoisonPlan(Quiet, Quiet, Quiet, false))),
                             Retired(s.current, true, Quiet)]);
            t.state == Healthy && t.current == s.current + 1 && Admits(t)
  {
    hide Timeout;
    ReachableInv(s);
    var e1 := TimeoutFires(o, Expiry(Quiet, PoisonPlan(Quiet, Quiet, Quiet, false)));
    var e2 := Retired(s.current, true, Quiet);
    QuietTimeout(s, o);
    RunTwo(s, e1, e2);
  }
}
