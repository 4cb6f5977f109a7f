/**
 The methods of ManagedPostgresRuntime that admit, interrupt, recycle and close, acting
 on fields in place. Each is proved to take exactly the step of the state machine in
 PoolModel, so the results of PoolSafety hold of every sequence of their calls.
 */
module PoolRuntime {
  import opened Wrappers
  import M = PoolModel
  import opened PoolModel
  import S = PoolSafety

  class ManagedPool {
    var state: ClientState
    var current: nat
    var gens: map<nat, GenState>
    var live: set<nat>
    var ops: map<nat, Op>
    var nextGeneration: nat
    var nextOperation: nat
    var recoveryEpoch: nat
    var recycleCount: nat
    var shutdownStarted: bool
    var phase: ClosePhase
    var retiring: map<nat, Option<nat>>
    ghost var dispatches: multiset<nat>
    ghost var admitted: Option<Admitted>

    ghost function Abs(): Pool
      reads this
    {
      Pool(state, current, gens, live, ops, nextGeneration, nextOperation, recoveryEpoch,
           recycleCount, shutdownStarted, phase, retiring, dispatches, admitted)
    }

    constructor ()
      ensures Abs() == INITIAL
    {
      state, current, gens, live := Healthy, 1, map[1 := GenHealthy], {1};
      ops, nextGeneration, nextOperation := map[], 2, 1;
      recoveryEpoch, recycleCount, shutdownStarted, phase := 0, 0, false, Open;
      retiring, dispatches, admitted := map[], multiset{}, None;
    }

    // ------------------------------------------------------- notifications

    method RunHook(hook: Hook)
      modifies this
      ensures Abs() == M.RunHook(old(Abs()), hook)
      decreases hook, 0
    {
      match hook
      case Quiet =>
      case Then(action, rest) =>
        match action {
          case CallClose(inner) => Close(inner);
          case CallAbort(o, plan) => AbortOperation(o, plan);
          case CallStart(kind, inner) => var _ := StartOperation(kind, inner);
          case CallBootstrap(o) => BeginBootstrap(o);
          case CallTimeout(o, expiry) => TimeoutOperation(o, expiry);
          case CallExpire(o, inner) => ExpireTransaction(o, inner);
          case CallQueryFails(o, inner) => FailTransaction(o, inner);
        }
        RunHook(rest);
    }

    method Transition(to: ClientState, hook: Hook)
      modifies this
      ensures Abs() == M.Transition(old(Abs()), to, hook)
      decreases hook, 1
    {
      if state == to {
        return;
      }
      state := to;
      RunHook(hook);
    }

    method Close(hook: Hook)
      modifies this
      ensures Abs() == M.Close(old(Abs()), hook)
      decreases hook, 2
    {
      if shutdownStarted {
        return;
      }
      shutdownStarted := true;
      phase := Draining;
      admitted := Some(Admitted(ops.Keys, gens.Keys));
      Transition(Closing, hook);
    }

    // ----------------------------------------------------------- operations

    // acceptGeneration, then startOperation: none when the client refuses.
    method StartOperation(kind: Kind, hook: Hook) returns (id: Option<nat>)
      modifies this
      ensures Abs() == M.Start(old(Abs()), kind, hook)
      ensures id.Some? <==> Admits(old(Abs()))
      ensures id.Some? ==> id.value == old(nextOperation)
      decreases hook, 2
    {
      if shutdownStarted || state == Failed || current !in gens || gens[current] != GenHealthy {
        return None;
      }
      id := Some(nextOperation);
      ops := ops[nextOperation := Op(current, kind, true, true, false, false, false, None, false)];
      nextOperation := nextOperation + 1;
      RunHook(hook);
    }

    method AbortOperation(o: nat, plan: PoisonPlan)
      modifies this
      ensures Abs() == M.Abort(old(Abs()), o, plan)
      decreases plan, 1
    {
      if o !in ops || !ops[o].active || ops[o].interrupted.Some? || ops[o].expired {
        return;
      }
      var op := ops[o];
      ops := ops[o := Interrupted(op, QueryAborted)];
      if !op.kind.Transaction? && op.bootstrapStarted && !op.sent {
        PoisonGeneration(op.gen, o, plan);
      }
    }

    // The checks of executeQuery and executeTransaction, then the bootstrap.
    method BeginBootstrap(o: nat)
      modifies this
      ensures Abs() == M.Begin(old(Abs()), o)
    {
      if o !in ops || !ops[o].working || ops[o].sent {
        return;
      }
      if ops[o].interrupted.Some? || ops[o].expired {
        ops := ops[o := ops[o].(working := false)];
      } else {
        ops := ops[o := ops[o].(bootstrapStarted := true)];
      }
    }

    method TimeoutOperation(o: nat, expiry: Expiry)
      modifies this
      ensures Abs() == M.Timeout(old(Abs()), o, expiry)
      decreases expiry
    {
      if o !in ops || !ops[o].active || ops[o].interrupted.Some? {
        return;
      }
      var g := ops[o].gen;
      ops := ops[o := Interrupted(ops[o], QueryTimeout)];
      RunHook(expiry.timedOut);
      PoisonGeneration(g, o, expiry.plan);
    }

    method ExpireTransaction(o: nat, hook: Hook)
      modifies this
      ensures Abs() == M.ExpireTransaction(old(Abs()), o, hook)
      decreases hook, 1
    {
      if o !in ops || !ops[o].active || ops[o].interrupted.Some? || ops[o].expired || !ops[o].kind.Transaction? {
        return;
      }
      ops := ops[o := ops[o].(interrupted := Some(Interrupt(TransactionTimeout, Unknown)), expired := true)];
      RunHook(hook);
    }

    // The interrupt of executeTransactionQuery, behind its notification, and failTransaction.
    method FailTransaction(o: nat, hook: Hook)
      modifies this
      ensures Abs() == M.FailTransaction(old(Abs()), o, hook)
      decreases hook, 1
    {
      RunHook(hook);
      if o in ops && ops[o].kind.Transaction? {
        ops := ops[o := ops[o].(expired := true)];
      }
    }

    // The interruption loop shared by poisonGeneration, interruptGenerationForShutdown
    // and closeManaged.
    method InterruptOperations(selected: set<nat>, trigger: Option<nat>, cause: Cause)
      modifies `ops
      ensures Abs() == InterruptAll(old(Abs()), selected, trigger, cause)
    {
      var next := ops;
      var todo: set<nat> := set o | o in ops && ops[o].active && ops[o].gen in selected;
      while todo != {}
        invariant next.Keys == ops.Keys
        invariant forall o <- ops :: if o in todo then next[o] == ops[o] && ops[o].active && ops[o].gen in selected
                                     else next[o] == StopOne(o, ops[o], selected, trigger, cause)
        invariant todo <= ops.Keys
        decreases |todo|
      {
        var o: nat :| o in todo;
        todo := todo - {o};
        if Some(o) == trigger || next[o].interrupted.Some? {
          continue;
        }
        next := next[o := Interrupted(next[o], cause)];
      }
      StoppedAll(Abs(), selected, trigger, cause, next);
      ops := next;
    }

    // ------------------------------------------------------------- recycling

    // poisonGeneration, in three parts: mark and announce, stop the operations, replace.
    method PoisonGeneration(g: nat, trigger: nat, plan: PoisonPlan)
      modifies this
      ensures Abs() == M.Poison(old(Abs()), g, trigger, plan)
      decreases plan, 0, 2
    {
      if g !in gens || gens[g] != GenHealthy {
        return;
      }
      gens := gens[g := GenPoisoned];
      if shutdownStarted {
        InterruptOperations({g}, Some(trigger), ClientClosing);
        return;
      }
      Transition(Poisoned, plan.poisoned);
      if shutdownStarted {
        InterruptOperations({g}, Some(trigger), ClientClosing);
        return;
      }
      RecycleGeneration(g, trigger, plan);
    }

    method RecycleGeneration(g: nat, trigger: nat, plan: PoisonPlan)
      modifies this
      ensures Abs() == M.Recycle(old(Abs()), g, trigger, plan)
      decreases plan, 0, 1
    {
      InterruptOperations({g}, Some(trigger), GenerationRecycled);
      Transition(Recycling, plan.recycling);
      if shutdownStarted {
        return;
      }
      recoveryEpoch := recoveryEpoch + 1;
      ReplaceGeneration(g, plan);
    }

    method ReplaceGeneration(g: nat, plan: PoisonPlan)
      modifies this
      ensures Abs() == M.Replace(old(Abs()), g, plan)
      decreases plan, 0, 0
    {
      hide M.Transition;
      if plan.createFails {
        Transition(Failed, plan.failed);
        gens := gens[g := GenRetiring];
        retiring := retiring[g := None];
        return;
      }
      gens := gens[nextGeneration := GenHealthy];
      live := live + {nextGeneration};
      current := nextGeneration;
      nextGeneration := nextGeneration + 1;
      recycleCount := recycleCount + 1;
      gens := gens[g := GenRetiring];
      retiring := retiring[g := Some(recoveryEpoch)];
    }

    // The callbacks of retireGeneration.
    method GenerationRetired(g: nat, ok: bool, hook: Hook)
      modifies this
      ensures Abs() == M.Retire(old(Abs()), g, ok, hook)
    {
      if g !in retiring {
        return;
      }
      var epoch := retiring[g];
      retiring := retiring - {g};
      if ok {
        live := live - {g};
      }
      if epoch.None? {
        return;
      }
      if ok {
        if recoveryEpoch == epoch.value && state == Recycling {
          Transition(Healthy, hook);
        }
      } else if state != Closing && state != Closed && state != Failed {
        Transition(Failed, hook);
      }
    }

    // -------------------------------------------------------------- dispatch

    // executeQuery and executeTransaction from the end of the bootstrap: the checks, then
    // the dispatch. Nothing is sent unless every check passes.
    method DispatchOperation(o: nat, late: bool, expiry: Expiry)
      modifies this
      ensures Abs() == M.Step(old(Abs()), Dispatch(o, late, expiry))
    {
      if o !in ops || !ops[o].working || ops[o].sent || ops[o].kind.Ready? {
        return;
      }
      if ops[o].interrupted.Some? || ops[o].expired {
        ops := ops[o := ops[o].(working := false)];
        return;
      }
      if late {
        if ops[o].kind.Transaction? {
          ExpireTransaction(o, expiry.timedOut);
        } else {
          TimeoutOperation(o, expiry);
        }
        return;
      }
      ops := ops[o := ops[o].(sent := true)];
      dispatches := dispatches + multiset{o};
    }

    method FinishOperation(o: nat, hook: Hook)
      modifies this
      ensures Abs() == M.Step(old(Abs()), Finish(o, hook))
    {
      if o !in ops || (ops[o].working && ops[o].interrupted.None? && !ops[o].expired) {
        return;
      }
      RunHook(hook);
      if o in ops {
        ops := ops[o := ops[o].(active := false, expired := ops[o].expired || ops[o].kind.Transaction?)];
      }
    }

    // -------------------------------------------------------------- shutdown

    // closeManaged after its grace period, then after the pools have ended.
    method ForceShutdown()
      modifies this
      ensures Abs() == M.Step(old(Abs()), Event.ForceShutdown)
    {
      if phase != Draining {
        return;
      }
      InterruptOperations(live, None, ClientClosing);
      phase := Forced;
    }

    method FinishShutdown(hook: Hook)
      modifies this
      ensures Abs() == M.EndShutdown(old(Abs()), hook)
    {
      if phase != Forced {
        return;
      }
      phase := Finished;
      live := {};
      Transition(Closed, hook);
    }

    // --------------------------------------------------------------- any run

    method Turn(e: Event)
      modifies this
      ensures Abs() == M.Step(old(Abs()), e)
    {
      match e
      case Notified(hook) => RunHook(hook);
      case StartCall(kind, hook) => var _ := StartOperation(kind, hook);
      case CloseCall(hook) => Close(hook);
      case Bootstrap(o, late, expiry) =>
        if late && o in ops && ops[o].working && !ops[o].sent && ops[o].interrupted.None? && !ops[o].expired {
          if ops[o].kind.Transaction? {
            ExpireTransaction(o, expiry.timedOut);
          } else {
            TimeoutOperation(o, expiry);
          }
        } else {
          BeginBootstrap(o);
        }
      case Dispatch(o, late, expiry) => DispatchOperation(o, late, expiry);
      case TimeoutFires(o, expiry) =>
        if o !in ops || !ops[o].kind.Transaction? {
          TimeoutOperation(o, expiry);
        }
      case AbortSignal(o, plan) => AbortOperation(o, plan);
      case TransactionExpires(o, hook) => ExpireTransaction(o, hook);
      case TransactionQueryFails(o, hook) => FailTransaction(o, hook);
      case WorkEnds(o) =>
        if o in ops {
          ops := ops[o := ops[o].(working := false, driverSettled := true)];
        }
      case GraceExpires(o, plan) =>
        if o in ops && GraceApplies(ops[o]) {
          PoisonGeneration(ops[o].gen, o, plan);
        }
      case Finish(o, hook) => FinishOperation(o, hook);
      case Retired(g, ok, hook) => GenerationRetired(g, ok, hook);
      case ForceShutdown => ForceShutdown();
      case ShutdownDone(hook) => FinishShutdown(hook);
    }
  }

  lemma StoppedAll(s: Pool, gens: set<nat>, trigger: Option<nat>, cause: Cause, next: map<nat, Op>)
    requires next.Keys == s.ops.Keys && forall o <- s.ops :: next[o] == StopOne(o, s.ops[o], gens, trigger, cause)
    ensures s.(ops := next) == InterruptAll(s, gens, trigger, cause)
  {
    hide StopOne;
    assert next == InterruptAll(s, gens, trigger, cause).ops;
  }

  // Any sequence of turns of a new client ends in a state that the safety results cover.
  method RunClient(events: seq<Event>) returns (client: ManagedPool)
    ensures client.Abs() == Run(INITIAL, events)
    ensures S.Reachable(client.Abs())
    ensures S.Inv(client.Abs(), {}) && S.Settled(client.Abs())
  {
    client := new ManagedPool();
    for i := 0 to |events|
      invariant fresh(client)
      invariant Run(client.Abs(), events[i..]) == Run(INITIAL, events)
    {
      assert events[i..][0] == events[i] && events[i..][1..] == events[i + 1..];
      client.Turn(events[i]);
    }
    assert events[|events|..] == [];
    S.ReachableInv(client.Abs());
  }
}
