/**
 What the managed pool does, beside what it never does: what is admitted is dispatched, an
 interruption tells what happened, a lost generation is replaced, and shutdown ends.
 */
module PoolProgress {
  import opened Wrappers
  import opened PoolModel
  import opened PoolSafety

  // ------------------------------------------------- only one turn dispatches

  lemma {:induction false} HookDispatchesNone(s: Pool, hook: Hook)
    ensures RunHook(s, hook).dispatches == s.dispatches
    decreases hook, 0
  {
    match hook
    case Quiet =>
    case Then(action, rest) =>
      hide RunAction;
      ActionDispatchesNone(s, action);
      HookDispatchesNone(RunAction(s, action), rest);
  }

  lemma {:induction false} ActionDispatchesNone(s: Pool, action: Action)
    ensures RunAction(s, action).dispatches == s.dispatches
    decreases action, 0
  {
    hide Close, Abort, Start, Timeout, ExpireTransaction, FailTransaction;
    match action
    case CallClose(hook) => CloseDispatchesNone(s, hook);
    case CallAbort(o, plan) => AbortDispatchesNone(s, o, plan);
    case CallStart(kind, hook) => StartDispatchesNone(s, kind, hook);
    case CallBootstrap(o) =>
    case CallTimeout(o, expiry) => TimeoutDispatchesNone(s, o, expiry);
    case CallExpire(o, hook) => ExpireDispatchesNone(s, o, hook);
    case CallQueryFails(o, hook) => FailDispatchesNone(s, o, hook);
  }

  lemma {:induction false} TransitionDispatchesNone(s: Pool, to: ClientState, hook: Hook)
    ensures Transition(s, to, hook).dispatches == s.dispatches
    decreases hook, 1
  {
    hide RunHook;
    HookDispatchesNone(s.(state := to), hook);
  }

  lemma {:induction false} CloseDispatchesNone(s: Pool, hook: Hook)
    ensures Close(s, hook).dispatches == s.dispatches
    decreases hook, 2
  {
    hide Transition;
    TransitionDispatchesNone(
      s.(shutdownStarted := true, phase := Draining, admitted := Some(Admitted(s.ops.Keys, s.gens.Keys))),
      Closing, hook);
  }

  lemma {:induction false} StartDispatchesNone(s: Pool, kind: Kind, hook: Hook)
    ensures Start(s, kind, hook).dispatches == s.dispatches
    decreases hook, 2
  {
    hide RunHook;
    HookDispatchesNone(Admit(s, Op(s.current, kind, true, true, false, false, false, None, false)), hook);
  }

  lemma {:induction false} AbortDispatchesNone(s: Pool, o: nat, plan: PoisonPlan)
    ensures Abort(s, o, plan).dispatches == s.dispatches
    decreases plan, 1
  {
    hide Poison;
    if Interruptible(s, o) {
      PoisonDispatchesNone(s.(ops := s.ops[o := Interrupted(s.ops[o], QueryAborted)]), s.ops[o].gen, o, plan);
    }
  }

  lemma {:induction false} PoisonDispatchesNone(s: Pool, g: nat, trigger: nat, plan: PoisonPlan)
    ensures Poison(s, g, trigger, plan).dispatches == s.dispatches
    decreases plan, 0, 2
  {
    hide Transition, Recycle;
    var s1 := s.(gens := s.gens[g := GenPoisoned]);
    TransitionDispatchesNone(s1, Poisoned, plan.poisoned);
    RecycleDispatchesNone(Transition(s1, Poisoned, plan.poisoned), g, trigger, plan);
  }

  lemma {:induction false} RecycleDispatchesNone(s: Pool, g: nat, trigger: nat, plan: PoisonPlan)
    ensures Recycle(s, g, trigger, plan).dispatches == s.dispatches
    decreases plan, 0, 1
  {
    hide Transition, Replace;
    var s1 := InterruptAll(s, {g}, Some(trigger), GenerationRecycled);
    var s2 := Transition(s1, Recycling, plan.recycling);
    TransitionDispatchesNone(s1, Recycling, plan.recycling);
    ReplaceDispatchesNone(s2.(recoveryEpoch := s2.recoveryEpoch + 1), g, plan);
  }

  lemma {:induction false} ReplaceDispatchesNone(s: Pool, g: nat, plan: PoisonPlan)
    ensures Replace(s, g, plan).dispatches == s.dispatches
    decreases plan, 0, 0
  {
    hide Transition;
    TransitionDispatchesNone(s, Failed, plan.failed);
  }

  lemma {:induction false} TimeoutDispatchesNone(s: Pool, o: nat, expiry: Expiry)
    ensures Timeout(s, o, expiry).dispatches == s.dispatches
    decreases expiry
  {
    hide RunHook, Poison;
    if Interruptible(s, o) {
      var s1 := s.(ops := s.ops[o := Interrupted(s.ops[o], QueryTimeout)]);
      HookDispatchesNone(s1, expiry.timedOut);
      PoisonDispatchesNone(RunHook(s1, expiry.timedOut), s.ops[o].gen, o, expiry.plan);
    }
  }

  lemma {:induction false} ExpireDispatchesNone(s: Pool, o: nat, hook: Hook)
    ensures ExpireTransaction(s, o, hook).dispatches == s.dispatches
    decreases hook, 1
  {
    hide RunHook;
    if Interruptible(s, o) {
      var op := s.ops[o].(interrupted := Some(Interrupt(TransactionTimeout, Unknown)), expired := true);
      HookDispatchesNone(s.(ops := s.ops[o := op]), hook);
    }
  }

  lemma {:induction false} FailDispatchesNone(s: Pool, o: nat, hook: Hook)
    ensures FailTransaction(s, o, hook).dispatches == s.dispatches
    decreases hook, 1
  {
    hide RunHook;
    HookDispatchesNone(s, hook);
  }

  lemma RetireDispatchesNone(s: Pool, g: nat, ok: bool, hook: Hook)
    ensures Retire(s, g, ok, hook).dispatches == s.dispatches
  {
    hide Transition;
    TransitionDispatchesNone(Unretire(s, g, ok), Healthy, hook);
    TransitionDispatchesNone(Unretire(s, g, ok), Failed, hook);
  }

  lemma EndDispatchesNone(s: Pool, hook: Hook)
    ensures EndShutdown(s, hook).dispatches == s.dispatches
  {
    hide Transition;
    TransitionDispatchesNone(s.(phase := Finished, live := {}), Closed, hook);
  }

  // An operation that a turn of its work may dispatch.
  predicate MayDispatch(s: Pool, o: nat) {
    && o in s.ops && s.ops[o].working && !s.ops[o].kind.Ready?
    && s.ops[o].interrupted.None? && !s.ops[o].expired && o !in s.dispatches
  }

  // Main result: a turn dispatches exactly the operation whose turn it is, when that is still
  // working, neither interrupted nor expired, in time, and has not been dispatched; no other
  // turn dispatches anything.
  lemma DispatchesExactly(s: Pool, e: Event)
    requires Reachable(s)
    ensures Step(s, e).dispatches
         == s.dispatches + if e.Dispatch? && !e.late && MayDispatch(s, e.op) then multiset{e.op} else multiset{}
    ensures e.Dispatch? && !e.late && MayDispatch(s, e.op) ==>
              e.op in Step(s, e).ops && Step(s, e).ops[e.op].sent && Step(s, e).dispatches[e.op] == 1
  {
    ReachableInv(s);
    hide Inv, Timeout, ExpireTransaction;
    if e.Dispatch? {
      SentIsDispatched(s, e.op);
      NotTwice(s, e.op);
      TimeoutDispatchesNone(s, e.op, e.expiry);
      ExpireDispatchesNone(s, e.op, e.expiry.timedOut);
    } else {
      OthersDispatchNone(s, e);
    }
  }

  lemma SentIsDispatched(s: Pool, o: nat)
    requires Inv(s, {})
    ensures o in s.ops ==> (s.ops[o].sent <==> o in s.dispatches)
  {
    if o in s.ops {
      assert OpOk(s, o);
    }
  }

  lemma NotTwice(s: Pool, o: nat)
    requires Inv(s, {})
    ensures s.dispatches[o] <= 1
  {
  }

  lemma OthersDispatchNone(s: Pool, e: Event)
    requires !e.Dispatch?
    ensures Step(s, e).dispatches == s.dispatches
  {
    hide RunHook, Start, Close, Timeout, ExpireTransaction, Abort, FailTransaction, Poison, Retire, EndShutdown;
    match e
    case Notified(hook) => HookDispatchesNone(s, hook);
    case StartCall(kind, hook) => StartDispatchesNone(s, kind, hook);
    case CloseCall(hook) => CloseDispatchesNone(s, hook);
    case Bootstrap(o, late, expiry) =>
      TimeoutDispatchesNone(s, o, expiry);
      ExpireDispatchesNone(s, o, expiry.timedOut);
    case TimeoutFires(o, expiry) => TimeoutDispatchesNone(s, o, expiry);
    case AbortSignal(o, plan) => AbortDispatchesNone(s, o, plan);
    case TransactionExpires(o, hook) => ExpireDispatchesNone(s, o, hook);
    case TransactionQueryFails(o, hook) => FailDispatchesNone(s, o, hook);
    case WorkEnds(_) =>
    case GraceExpires(o, plan) =>
      if o in s.ops {
        PoisonDispatchesNone(s, s.ops[o].gen, o, plan);
      }
    case Finish(o, hook) => HookDispatchesNone(s, hook);
    case Retired(g, ok, hook) => RetireDispatchesNone(s, g, ok, hook);
    case ForceShutdown =>
    case ShutdownDone(hook) => EndDispatchesNone(s, hook);
  }

  // --------------------------------------------------------- what is known of it

  // In every reachable state: an operation whose work has stopped was settled, interrupted or
  // expired; and an interruption tells whether the operation has been dispatched.
  lemma OperationsAreAccountedFor(s: Pool)
    requires Reachable(s)
    ensures forall o <- s.ops :: !s.ops[o].working ==>
              s.ops[o].driverSettled || s.ops[o].interrupted.Some? || s.ops[o].expired
    ensures forall o <- s.ops :: s.ops[o].sent <==> o in s.dispatches
    ensures forall o <- s.ops :: s.ops[o].interrupted.Some? ==>
              var i := s.ops[o].interrupted.value;
              if i.cause == TransactionTimeout then s.ops[o].kind.Transaction? && i.outcome == Unknown
              else i.outcome == if o in s.dispatches then Unknown else NotSent
  {
    ReachableInv(s);
    forall o | o in s.ops ensures OpOk(s, o) {
    }
    hide Inv;
  }

  // A client admits calls exactly while it says that it is healthy or recycling.
  lemma AdmitsExactly(s: Pool)
    requires Reachable(s)
    ensures Admits(s) <==> s.state == Healthy || s.state == Recycling
  {
    ReachableInv(s);
    hide OperationsOk, PoisonedStopped, GenerationsOk;
  }

  // ------------------------------------------------------------------ whole lives

  lemma RunThree(s: Pool, e1: Event, e2: Event, e3: Event)
    ensures Run(s, [e1, e2, e3]) == Step(Step(Step(s, e1), e2), e3)
  {
    hide Step;
    var s1 := Step(s, e1);
    assert [e1, e2, e3][1..] == [e2, e3];
    assert Run(s, [e1, e2, e3]) == Run(s1, [e2, e3]);
    RunTwo(s1, e2, e3);
  }

  // A call that is admitted is one more active operation of the current generation, whatever
  // its hooks do.
  lemma StartAdmits(s: Pool, kind: Kind, hook: Hook)
    requires Reachable(s)
    ensures var t := Step(s, StartCall(kind, hook));
            if Admits(s) then
              && s.nextOperation !in s.ops && s.nextOperation in t.ops
              && t.ops[s.nextOperation].gen == s.current && t.ops[s.nextOperation].kind == kind
            else t == s
  {
    ReachableInv(s);
    if Admits(s) {
      var op := Op(s.current, kind, true, true, false, false, false, None, false);
      AdmitOperations(s, op);
      AdmitKeeps(s, op, {});
      hide Inv, OperationsOk, RunHook;
      RunHookKeeps(Admit(s, op), hook, {});
      StaysAdmitted(Admit(s, op), RunHook(Admit(s, op), hook), s.nextOperation);
    }
  }

  lemma StaysAdmitted(s: Pool, t: Pool, o: nat)
    requires Keeps(s, t, {}) && o in s.ops
    ensures o in t.ops && OpLater(s.ops[o], t.ops[o])
  {
    hide Inv, Frozen, Settled;
  }

  // Main result: from every reachable state that admits calls, a query or transaction that is
  // started goes on to be dispatched, once.
  lemma StartedIsDispatched(s: Pool, kind: Kind, e: Expiry)
    requires Reachable(s) && Admits(s) && !kind.Ready?
    ensures var o := s.nextOperation;
            var t := Run(s, [StartCall(kind, Quiet), Bootstrap(o, false, e), Dispatch(o, false, e)]);
            && t.dispatches == s.dispatches + multiset{o} && t.dispatches[o] == 1
            && o in t.ops && t.ops[o].sent && t.ops[o].active && t.ops[o].interrupted.None?
  {
    hide Inv, OperationsOk, Run, Step;
    ReachableInv(s);
    InvOperations(s);
    var o, op := s.nextOperation, Op(s.current, kind, true, true, false, false, false, None, false);
    AdmitOperations(s, op);
    NotDispatched(s, o);
    RunThree(s, StartCall(kind, Quiet), Bootstrap(o, false, e), Dispatch(o, false, e));
    StartBegins(s, kind, e);
  }

  lemma InvOperations(s: Pool)
    requires Inv(s, {}) && Admits(s)
    ensures OperationsOk(s) && s.current in s.gens
  {
    hide OperationsOk, PoisonedStopped, ShutdownOk, GenerationsOk;
  }

  lemma StartBegins(s: Pool, kind: Kind, e: Expiry)
    requires Admits(s) && !kind.Ready? && s.nextOperation !in s.ops && s.nextOperation !in s.dispatches
    ensures var o := s.nextOperation;
            var t := Step(Step(Step(s, StartCall(kind, Quiet)), Bootstrap(o, false, e)), Dispatch(o, false, e));
            && t.dispatches == s.dispatches + multiset{o} && t.dispatches[o] == 1
            && o in t.ops && t.ops[o].sent && t.ops[o].active && t.ops[o].interrupted.None?
  {
    var o, op := s.nextOperation, Op(s.current, kind, true, true, false, false, false, None, false);
    var s1 := Step(s, StartCall(kind, Quiet));
    assert s1 == Admit(s, op);
    var s2 := Step(s1, Bootstrap(o, false, e));
    assert s2 == s1.(ops := s1.ops[o := op.(bootstrapStarted := true)]);
    hide Start, Begin;
  }

  lemma NotDispatched(s: Pool, o: nat)
    requires Inv(s, {}) && o !in s.ops
    ensures o !in s.dispatches
  {
  }

  // The driver settles an operation; one whose work has stopped leaves the active set, behind
  // whatever its hooks do.
  lemma WorkIsOver(s: Pool, o: nat, hook: Hook)
    requires Reachable(s) && o in s.ops
    ensures var t := Step(s, WorkEnds(o)); o in t.ops && !t.ops[o].working && t.ops[o].driverSettled
    ensures !s.ops[o].working || s.ops[o].interrupted.Some? || s.ops[o].expired ==>
              o in Step(s, Finish(o, hook)).ops && !Step(s, Finish(o, hook)).ops[o].active
  {
    hide Inv, RunHook, Keeps;
    ReachableInv(s);
    RunHookKeeps(s, hook, {});
    StaysAdmitted(s, RunHook(s, hook), o);
  }

  // --------------------------------------------------------------- interruptions

  // What an interruption at this moment says of an operation.
  function Outcomes(s: Pool, o: nat): Outcome {
    if o in s.dispatches then Unknown else NotSent
  }

  lemma KeepsInv(s: Pool, t: Pool)
    requires Keeps(s, t, {})
    ensures Inv(t, {})
  {
    hide Inv, Frozen, Settled, Later;
  }

  lemma StaysInterrupted(s: Pool, t: Pool, o: nat)
    requires Keeps(s, t, {}) && o in s.ops && s.ops[o].interrupted.Some?
    ensures o in t.ops && t.ops[o].interrupted == s.ops[o].interrupted && (s.ops[o].expired ==> t.ops[o].expired)
  {
    hide Inv, Frozen, Settled;
    assert OpLater(s.ops[o], t.ops[o]);
  }

  lemma LostStaysLost(s: Pool, t: Pool, g: nat)
    requires Keeps(s, t, {}) && g in s.gens && s.gens[g] != GenHealthy
    ensures g in t.gens && t.gens[g] != GenHealthy
  {
    hide Inv, Frozen, Settled;
  }

  lemma OwnGeneration(s: Pool, o: nat)
    requires Inv(s, {}) && o in s.ops
    ensures s.ops[o].gen in s.gens && (s.ops[o].sent <==> o in s.dispatches)
  {
    assert OpOk(s, o);
  }

  // An abort interrupts its operation, once. It costs the generation exactly when a query or a
  // readiness check is aborted whose bootstrap has begun and that has not been sent.
  lemma AbortInterrupts(s: Pool, o: nat, plan: PoisonPlan)
    requires Reachable(s) && o in s.ops
    ensures var t := Step(s, AbortSignal(o, plan));
            if !s.ops[o].active || s.ops[o].interrupted.Some? || s.ops[o].expired then t == s
            else
              var op := s.ops[o];
              && o in t.ops && t.ops[o].interrupted == Some(Interrupt(QueryAborted, Outcomes(s, o)))
              && (op.kind.Transaction? ==> t.ops[o].expired) && op.gen in t.gens
              && if !op.kind.Transaction? && op.bootstrapStarted && o !in s.dispatches then t.gens[op.gen] != GenHealthy
                 else t == s.(ops := t.ops)
  {
    hide Inv, Poison, Keeps;
    ReachableInv(s);
    OwnGeneration(s, o);
    assert Step(s, AbortSignal(o, plan)) == Abort(s, o, plan);
    hide Step;
    if Interruptible(s, o) && !s.ops[o].expired {
      var s1 := s.(ops := s.ops[o := Interrupted(s.ops[o], QueryAborted)]);
      InterruptOneKeeps(s, o, Interrupted(s.ops[o], QueryAborted), {});
      KeepsInv(s, s1);
      PoisonKeeps(s1, s.ops[o].gen, o, plan, {});
      StaysInterrupted(s1, Poison(s1, s.ops[o].gen, o, plan), o);
    }
  }

  // A deadline that has passed interrupts its query and costs the generation, whether the timer
  // fires or a check finds it; nothing is dispatched.
  lemma DeadlineInterrupts(s: Pool, o: nat, e: Expiry)
    requires Reachable(s) && Interruptible(s, o) && !s.ops[o].kind.Transaction?
    ensures var t := Step(s, TimeoutFires(o, e));
            && o in t.ops && t.ops[o].interrupted == Some(Interrupt(QueryTimeout, Outcomes(s, o)))
            && s.ops[o].gen in t.gens && t.gens[s.ops[o].gen] != GenHealthy && t.dispatches == s.dispatches
    ensures Runnable(s, o) && !s.ops[o].expired ==> Step(s, Bootstrap(o, true, e)) == Step(s, TimeoutFires(o, e))
    ensures Runnable(s, o) && !s.ops[o].expired && !s.ops[o].kind.Ready? ==>
              Step(s, Dispatch(o, true, e)) == Step(s, TimeoutFires(o, e))
  {
    ReachableInv(s);
    hide Inv, Timeout, ExpireTransaction, Begin;
    TimeoutLoses(s, o, e);
  }

  lemma TimeoutLoses(s: Pool, o: nat, e: Expiry)
    requires Inv(s, {}) && Interruptible(s, o)
    ensures var t := Timeout(s, o, e);
            && o in t.ops && t.ops[o].interrupted == Some(Interrupt(QueryTimeout, Outcomes(s, o)))
            && s.ops[o].gen in t.gens && t.gens[s.ops[o].gen] != GenHealthy && t.dispatches == s.dispatches
  {
    hide Inv, Poison, Keeps, RunHook;
    OwnGeneration(s, o);
    TimeoutDispatchesNone(s, o, e);
    var s1 := s.(ops := s.ops[o := Interrupted(s.ops[o], QueryTimeout)]);
    var s2 := RunHook(s1, e.timedOut);
    InterruptOneKeeps(s, o, Interrupted(s.ops[o], QueryTimeout), {});
    KeepsInv(s, s1);
    RunHookKeeps(s1, e.timedOut, {});
    KeepsInv(s1, s2);
    StaysInterrupted(s1, s2, o);
    StaysGeneration(s1, s2, s.ops[o].gen);
    PoisonKeeps(s2, s.ops[o].gen, o, e.plan, {});
    StaysInterrupted(s2, Poison(s2, s.ops[o].gen, o, e.plan), o);
  }

  lemma StaysGeneration(s: Pool, t: Pool, g: nat)
    requires Keeps(s, t, {}) && g in s.gens
    ensures g in t.gens
  {
    hide Inv, Frozen, Settled;
  }

  // The deadline of a transaction, and a query that fails it, expire it. The deadline says
  // unknown, and neither costs the generation by itself.
  lemma TransactionEnds(s: Pool, o: nat, hook: Hook)
    requires Reachable(s) && o in s.ops && s.ops[o].kind.Transaction?
    ensures var t := Step(s, TransactionExpires(o, hook));
            Interruptible(s, o) && !s.ops[o].expired ==>
              o in t.ops && t.ops[o].expired && t.ops[o].interrupted == Some(Interrupt(TransactionTimeout, Unknown))
    ensures var t := Step(s, TransactionQueryFails(o, hook)); o in t.ops && t.ops[o].expired
    ensures Step(s, TransactionExpires(o, Quiet)).gens == s.gens && Step(s, TransactionQueryFails(o, Quiet)).gens == s.gens
  {
    hide Inv, ExpireTransaction, FailTransaction, RunHook;
    ReachableInv(s);
    TransactionTurns(s, o, hook);
    TransactionTurns(s, o, Quiet);
    hide Step;
    if Interruptible(s, o) && !s.ops[o].expired {
      ExpireEnds(s, o, hook);
    }
    FailEnds(s, o, hook);
    QuietEnds(s, o);
  }

  lemma TransactionTurns(s: Pool, o: nat, hook: Hook)
    ensures Step(s, TransactionExpires(o, hook)) == ExpireTransaction(s, o, hook)
    ensures Step(s, TransactionQueryFails(o, hook)) == FailTransaction(s, o, hook)
  {
    hide ExpireTransaction, FailTransaction;
  }

  lemma ExpireEnds(s: Pool, o: nat, hook: Hook)
    requires Inv(s, {}) && Interruptible(s, o) && s.ops[o].kind.Transaction? && !s.ops[o].expired
    ensures var t := ExpireTransaction(s, o, hook);
            o in t.ops && t.ops[o].expired && t.ops[o].interrupted == Some(Interrupt(TransactionTimeout, Unknown))
  {
    hide Inv, RunHook, Keeps;
    var op := s.ops[o].(interrupted := Some(Interrupt(TransactionTimeout, Unknown)), expired := true);
    var s1 := s.(ops := s.ops[o := op]);
    InterruptOneKeeps(s, o, op, {});
    KeepsInv(s, s1);
    RunHookKeeps(s1, hook, {});
    StaysInterrupted(s1, RunHook(s1, hook), o);
  }

  lemma FailEnds(s: Pool, o: nat, hook: Hook)
    requires Inv(s, {}) && o in s.ops && s.ops[o].kind.Transaction?
    ensures var t := FailTransaction(s, o, hook); o in t.ops && t.ops[o].expired
  {
    hide Inv, RunHook, Keeps;
    RunHookKeeps(s, hook, {});
    StaysAdmitted(s, RunHook(s, hook), o);
  }

  lemma QuietEnds(s: Pool, o: nat)
    ensures ExpireTransaction(s, o, Quiet).gens == s.gens && FailTransaction(s, o, Quiet).gens == s.gens
  {
  }

  // What may stall: a query that was sent and then interrupted, a transaction that has ended.
  predicate Stalls(s: Pool, o: nat)
    requires o in s.ops
  {
    && !s.ops[o].driverSettled
    && if s.ops[o].kind.Transaction? then s.ops[o].interrupted.Some? || s.ops[o].expired
       else o in s.dispatches && s.ops[o].interrupted.Some?
  }

  // A driver that stalls behind such an operation costs the generation, and nothing else does.
  lemma GraceCostsGeneration(s: Pool, o: nat, plan: PoisonPlan)
    requires Reachable(s) && o in s.ops
    ensures var t := Step(s, GraceExpires(o, plan));
            if Stalls(s, o) then s.ops[o].gen in t.gens && t.gens[s.ops[o].gen] != GenHealthy else t == s
  {
    hide Inv, Poison, Keeps;
    ReachableInv(s);
    OwnGeneration(s, o);
    if Stalls(s, o) {
      PoisonKeeps(s, s.ops[o].gen, o, plan, {});
    }
  }

  // What a poisoning does to the operations of its generation that are active: it interrupts them
  // all, except the one that caused it.
  predicate Stopping(s: Pool, t: Pool, g: nat, trigger: nat) {
    && t.ops.Keys == s.ops.Keys
    && forall o <- s.ops ::
         if s.ops[o].active && s.ops[o].interrupted.None? && s.ops[o].gen == g && o != trigger
         then t.ops[o].interrupted.Some? && t.ops[o].interrupted.value.outcome == OutcomeOf(s.ops[o])
         else t.ops[o] == s.ops[o]
  }

  lemma InterruptAllStops(s: Pool, g: nat, trigger: nat, cause: Cause)
    ensures Stopping(s, InterruptAll(s, {g}, Some(trigger), cause), g, trigger)
  {
    var t := InterruptAll(s, {g}, Some(trigger), cause);
    assert t.ops.Keys == s.ops.Keys;
  }

  lemma SameOps(a: Pool, b: Pool, g: nat, trigger: nat, cause: Cause)
    requires a.ops == b.ops
    ensures InterruptAll(a, {g}, Some(trigger), cause).ops == InterruptAll(b, {g}, Some(trigger), cause).ops
  {
    hide StopOne;
    var x, y := InterruptAll(a, {g}, Some(trigger), cause).ops, InterruptAll(b, {g}, Some(trigger), cause).ops;
    assert x.Keys == y.Keys && forall o <- x :: x[o] == y[o];
  }

  lemma PoisonOps(s: Pool, g: nat, trigger: nat, createFails: bool)
    requires g in s.gens && s.gens[g] == GenHealthy
    ensures Poison(s, g, trigger, PoisonPlan(Quiet, Quiet, Quiet, createFails)).ops
         == InterruptAll(s, {g}, Some(trigger), if s.shutdownStarted then ClientClosing else GenerationRecycled).ops
  {
    hide InterruptAll;
    var s1 := s.(gens := s.gens[g := GenPoisoned]);
    var s2 := s1.(state := Poisoned);
    SameOps(s1, s, g, trigger, ClientClosing);
    SameOps(s2, s, g, trigger, GenerationRecycled);
    var plan := PoisonPlan(Quiet, Quiet, Quiet, createFails);
    if !s.shutdownStarted {
      var s3 := InterruptAll(s2, {g}, Some(trigger), GenerationRecycled);
      StopsOnlyOps(s2, g, trigger, GenerationRecycled);
      assert Transition(s1, Poisoned, Quiet) == s2;
      assert Poison(s, g, trigger, plan) == Recycle(s2, g, trigger, plan);
      hide Poison;
      assert Recycle(s2, g, trigger, plan).ops == s3.ops;
    }
  }

  lemma StopsOnlyOps(s: Pool, g: nat, trigger: nat, cause: Cause)
    ensures var t := InterruptAll(s, {g}, Some(trigger), cause);
            t == s.(ops := t.ops)
  {
  }

  lemma PoisonStops(s: Pool, g: nat, trigger: nat, createFails: bool)
    requires g in s.gens && s.gens[g] == GenHealthy
    ensures Stopping(s, Poison(s, g, trigger, PoisonPlan(Quiet, Quiet, Quiet, createFails)), g, trigger)
  {
    hide Poison, InterruptAll;
    PoisonOps(s, g, trigger, createFails);
    InterruptAllStops(s, g, trigger, if s.shutdownStarted then ClientClosing else GenerationRecycled);
  }

  // ---------------------------------------------------- replacement and shutdown

  // The end of a poisoning with quiet hooks: a new healthy generation, and the client recycling
  // until the old one has retired; or no generation and a failed client.
  lemma QuietPoison(s: Pool, g: nat, trigger: nat, createFails: bool)
    requires Reachable(s) && !s.shutdownStarted && g in s.gens && s.gens[g] == GenHealthy
    ensures var t := Poison(s, g, trigger, PoisonPlan(Quiet, Quiet, Quiet, createFails));
            if createFails then t.state == Failed && t.current == s.current && !Admits(t)
            else
              && t.state == Recycling && t.current == s.current + 1 && t.current in t.gens && Admits(t)
              && g in t.retiring && t.retiring[g] == Some(t.recoveryEpoch)
  {
    ReachableInv(s);
    hide OperationsOk, PoisonedStopped;
    var plan := PoisonPlan(Quiet, Quiet, Quiet, createFails);
    var s1 := s.(gens := s.gens[g := GenPoisoned], state := Poisoned);
    var s2 := InterruptAll(s1, {g}, Some(trigger), GenerationRecycled).(state := Recycling, recoveryEpoch := s.recoveryEpoch + 1);
    assert Poison(s, g, trigger, plan) == Replace(s2, g, plan);
    hide Poison, InterruptAll;
  }

  // When a pool that was retired has ended or failed to end: only the newest recovery makes the
  // client healthy again, and a failure makes it failed unless it is closing. A retirement
  // without a replacement, and one that is not running, say nothing.
  lemma RetirementAnnounces(s: Pool, g: nat, ok: bool)
    ensures var t := Step(s, Retired(g, ok, Quiet));
            && t.ops == s.ops && t.gens == s.gens && t.current == s.current && g !in t.retiring
            && t.state ==
                 (if g !in s.retiring || s.retiring[g].None? then s.state
                  else if ok && s.state == Recycling && s.retiring[g] == Some(s.recoveryEpoch) then Healthy
                  else if !ok && s.state !in {Closing, Closed} then Failed
                  else s.state)
  {
  }

  // Main result: shutdown can always be brought to its end, and at its end the client is closed
  // and every active operation has been stopped.
  lemma ShutdownEnds(s: Pool)
    requires Reachable(s) && !s.shutdownStarted
    ensures var t := Run(s, [CloseCall(Quiet), ForceShutdown, ShutdownDone(Quiet)]);
            t.state == Closed && t.live == {} && !Admits(t) && forall o <- t.ops :: Stopped(t.ops[o])
  {
    var events := [CloseCall(Quiet), ForceShutdown, ShutdownDone(Quiet)];
    ReachableInv(s);
    RunKeeps(s, events);
    RunThree(s, CloseCall(Quiet), ForceShutdown, ShutdownDone(Quiet));
    QuietShutdown(s);
    hide Step, Run, GenerationsOk, OperationsOk, PoisonedStopped;
  }

  lemma QuietShutdown(s: Pool)
    requires !s.shutdownStarted && s.state != Closing && s.state != Closed
    ensures var t := Step(Step(Step(s, CloseCall(Quiet)), ForceShutdown), ShutdownDone(Quiet));
            t.state == Closed && t.live == {} && t.shutdownStarted && t.phase == Finished
  {
    var s1 := Step(s, CloseCall(Quiet));
    assert s1.state == Closing && s1.phase == Draining && s1.shutdownStarted;
    hide Close;
    var s2 := Step(s1, ForceShutdown);
    assert s2.state == Closing && s2.phase == Forced && s2.shutdownStarted;
    hide InterruptAll;
  }

  // While the work drains, and before the forced phase, operations that were admitted go on:
  // close by itself interrupts none.
  lemma CloseInterruptsNone(s: Pool)
    ensures Step(s, CloseCall(Quiet)).ops == s.ops
  {
  }
}
