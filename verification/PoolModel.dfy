/**
 The managed pool of src/postgres-runtime.ts as a state machine: pool generations,
 operations, deadlines, aborts, poisoning, recycling and shutdown.

 JavaScript runs each turn to its end, except that lifecycle hooks run inside it and
 may call back into the client. A Hook value is what one hook call does: any finite
 sequence of calls, whose own notifications call hooks again. Besides close, abort and
 start these are what a started call goes on to do before it first waits: its bootstrap
 begins, or a check finds that its deadline has passed, or a query expires its transaction.
 */
module PoolModel {
  import opened Wrappers

  datatype ClientState = Healthy | Poisoned | Recycling | Failed | Closing | Closed

  datatype GenState = GenHealthy | GenPoisoned | GenRetiring

  datatype Outcome = NotSent | Unknown

  datatype Cause = QueryTimeout | TransactionTimeout | QueryAborted | GenerationRecycled | ClientClosing

  datatype Interrupt = Interrupt(cause: Cause, outcome: Outcome)

  datatype Kind = Query | Transaction | Ready

  // `working`: its asynchronous work has not ended. `expired`: the transaction state is expired.
  datatype Op = Op(
    gen: nat, kind: Kind, active: bool, working: bool, bootstrapStarted: bool, sent: bool,
    driverSettled: bool, interrupted: Option<Interrupt>, expired: bool)

  datatype ClosePhase = Open | Draining | Forced | Finished

  // What had been admitted when shutdown started.
  datatype Admitted = Admitted(ops: set<nat>, gens: set<nat>)

  datatype Pool = Pool(
    state: ClientState,
    current: nat,
    gens: map<nat, GenState>,
    live: set<nat>,
    ops: map<nat, Op>,
    nextGeneration: nat,
    nextOperation: nat,
    recoveryEpoch: nat,
    recycleCount: nat,
    shutdownStarted: bool,
    phase: ClosePhase,
    // Running retirements; the epoch of the recovery that waits for one, if any.
    retiring: map<nat, Option<nat>>,
    // History: how often each operation was dispatched, and the freeze at shutdown.
    dispatches: multiset<nat>,
    admitted: Option<Admitted>)

  datatype Hook = Quiet | Then(action: Action, rest: Hook)

  datatype Action =
    | CallClose(hook: Hook)
    | CallAbort(op: nat, plan: PoisonPlan)
    | CallStart(kind: Kind, hook: Hook)
    | CallBootstrap(op: nat)
    | CallTimeout(op: nat, expiry: Expiry)
    | CallExpire(op: nat, hook: Hook)
    | CallQueryFails(op: nat, hook: Hook)

  // The hook calls of one poisoning, and whether creating the replacement pool fails.
  datatype PoisonPlan = PoisonPlan(poisoned: Hook, recycling: Hook, failed: Hook, createFails: bool)

  // The hook call of a time-out, and the poisoning behind it.
  datatype Expiry = Expiry(timedOut: Hook, plan: PoisonPlan)

  const INITIAL := Pool(
    Healthy, 1, map[1 := GenHealthy], {1}, map[], 2, 1, 0, 0, false, Open, map[], multiset{}, None)

  function OutcomeOf(op: Op): Outcome {
    if op.sent then Unknown else NotSent
  }

  // interruptOperation: also expires the transaction state.
  function Interrupted(op: Op, cause: Cause): Op {
    op.(interrupted := Some(Interrupt(cause, OutcomeOf(op))),
        expired := op.expired || op.kind.Transaction?)
  }

  predicate Interruptible(s: Pool, o: nat) {
    o in s.ops && s.ops[o].active && s.ops[o].interrupted.None?
  }

  function StopOne(o: nat, op: Op, gens: set<nat>, trigger: Option<nat>, cause: Cause): Op {
    if op.active && op.interrupted.None? && op.gen in gens && trigger != Some(o)
    then Interrupted(op, cause) else op
  }

  // Interrupt the active operations of the given generations, except the trigger.
  function InterruptAll(s: Pool, gens: set<nat>, trigger: Option<nat>, cause: Cause): Pool {
    s.(ops := map o | o in s.ops :: StopOne(o, s.ops[o], gens, trigger, cause))
  }

  // ------------------------------------------------------- re-entrant methods

  function RunHook(s: Pool, hook: Hook): Pool
    decreases hook, 0
  {
    match hook
    case Quiet => s
    case Then(action, rest) => RunHook(RunAction(s, action), rest)
  }

  function RunAction(s: Pool, action: Action): Pool
    decreases action, 0
  {
    match action
    case CallClose(hook) => Close(s, hook)
    case CallAbort(o, plan) => Abort(s, o, plan)
    case CallStart(kind, hook) => Start(s, kind, hook)
    case CallBootstrap(o) => Begin(s, o)
    case CallTimeout(o, expiry) => Timeout(s, o, expiry)
    case CallExpire(o, hook) => ExpireTransaction(s, o, hook)
    case CallQueryFails(o, hook) => FailTransaction(s, o, hook)
  }

  function Transition(s: Pool, to: ClientState, hook: Hook): Pool
    decreases hook, 1
  {
    if s.state == to then s else RunHook(s.(state := to), hook)
  }

  function Close(s: Pool, hook: Hook): Pool
    decreases hook, 2
  {
    if s.shutdownStarted then s
    else
      Transition(
        s.(shutdownStarted := true, phase := Draining,
           admitted := Some(Admitted(s.ops.Keys, s.gens.Keys))),
        Closing, hook)
  }

  predicate Admits(s: Pool) {
    !s.shutdownStarted && s.state != Failed && s.current in s.gens && s.gens[s.current] == GenHealthy
  }

  // The state once an operation has been admitted.
  function Admit(s: Pool, op: Op): Pool {
    s.(ops := s.ops[s.nextOperation := op], nextOperation := s.nextOperation + 1)
  }

  function Start(s: Pool, kind: Kind, hook: Hook): Pool
    decreases hook, 2
  {
    if !Admits(s) then s
    else
      var op := Op(s.current, kind, true, true, false, false, false, None, false);
      RunHook(Admit(s, op), hook)
  }

  function Abort(s: Pool, o: nat, plan: PoisonPlan): Pool
    decreases plan, 1
  {
    if !Interruptible(s, o) || s.ops[o].expired then s
    else
      var op := s.ops[o];
      var s1 := s.(ops := s.ops[o := Interrupted(op, QueryAborted)]);
      if !op.kind.Transaction? && op.bootstrapStarted && !op.sent then Poison(s1, op.gen, o, plan) else s1
  }

  function Poison(s: Pool, g: nat, trigger: nat, plan: PoisonPlan): Pool
    decreases plan, 0, 2
  {
    if g !in s.gens || s.gens[g] != GenHealthy then s
    else
      var s1 := s.(gens := s.gens[g := GenPoisoned]);
      if s1.shutdownStarted then InterruptAll(s1, {g}, Some(trigger), ClientClosing)
      else
        var s2 := Transition(s1, Poisoned, plan.poisoned);
        if s2.shutdownStarted then InterruptAll(s2, {g}, Some(trigger), ClientClosing)
        else Recycle(s2, g, trigger, plan)
  }

  // The middle of poisonGeneration: stop the operations of g and announce recycling.
  function Recycle(s: Pool, g: nat, trigger: nat, plan: PoisonPlan): Pool
    decreases plan, 0, 1
  {
    var s1 := Transition(InterruptAll(s, {g}, Some(trigger), GenerationRecycled), Recycling, plan.recycling);
    if s1.shutdownStarted then s1
    else Replace(s1.(recoveryEpoch := s1.recoveryEpoch + 1), g, plan)
  }

  // The tail of poisonGeneration: create the replacement and retire g.
  function Replace(s: Pool, g: nat, plan: PoisonPlan): Pool
    decreases plan, 0, 0
  {
    if plan.createFails then
      var s1 := Transition(s, Failed, plan.failed);
      s1.(gens := s1.gens[g := GenRetiring], retiring := s1.retiring[g := None])
    else
      s.(gens := s.gens[s.nextGeneration := GenHealthy][g := GenRetiring],
         live := s.live + {s.nextGeneration},
         current := s.nextGeneration,
         nextGeneration := s.nextGeneration + 1,
         recycleCount := s.recycleCount + 1,
         retiring := s.retiring[g := Some(s.recoveryEpoch)])
  }

  // timeoutOperation: also what checkOperation does once the deadline has passed.
  function Timeout(s: Pool, o: nat, expiry: Expiry): Pool
    decreases expiry
  {
    if !Interruptible(s, o) then s
    else
      var s1 := s.(ops := s.ops[o := Interrupted(s.ops[o], QueryTimeout)]);
      Poison(RunHook(s1, expiry.timedOut), s.ops[o].gen, o, expiry.plan)
  }

  // The deadline of a transaction only expires it.
  function ExpireTransaction(s: Pool, o: nat, hook: Hook): Pool
    decreases hook, 1
  {
    if !Interruptible(s, o) || !s.ops[o].kind.Transaction? || s.ops[o].expired then s
    else
      var op := s.ops[o].(interrupted := Some(Interrupt(TransactionTimeout, Unknown)), expired := true);
      RunHook(s.(ops := s.ops[o := op]), hook)
  }

  // A query of a transaction times out, is aborted or loses the connection.
  function FailTransaction(s: Pool, o: nat, hook: Hook): Pool
    decreases hook, 1
  {
    var s1 := RunHook(s, hook);
    if o !in s1.ops || !s1.ops[o].kind.Transaction? then s1
    else s1.(ops := s1.ops[o := s1.ops[o].(expired := true)])
  }

  predicate Runnable(s: Pool, o: nat) {
    o in s.ops && s.ops[o].working && !s.ops[o].sent
  }

  // The checks before a step of an operation's work let it go on.
  predicate MayProceed(op: Op) {
    op.interrupted.None? && !op.expired
  }

  // The bootstrap of an operation begins.
  function Begin(s: Pool, o: nat): Pool {
    if !Runnable(s, o) then s
    else if !MayProceed(s.ops[o]) then s.(ops := s.ops[o := s.ops[o].(working := false)])
    else s.(ops := s.ops[o := s.ops[o].(bootstrapStarted := true)])
  }

  // ------------------------------------------------------------ whole turns

  datatype Event =
    // A notification outside the other events: query-start, query-error, onQuery.
    | Notified(hook: Hook)
    | StartCall(kind: Kind, hook: Hook)
    | CloseCall(hook: Hook)
    // The bootstrap of an operation begins or its work is dispatched; `late` when its
    // deadline has passed at the check before.
    | Bootstrap(op: nat, late: bool, expiry: Expiry)
    | Dispatch(op: nat, late: bool, expiry: Expiry)
    | TimeoutFires(op: nat, expiry: Expiry)
    | AbortSignal(op: nat, plan: PoisonPlan)
    | TransactionExpires(op: nat, hook: Hook)
    | TransactionQueryFails(op: nat, hook: Hook)
    | WorkEnds(op: nat)
    | GraceExpires(op: nat, plan: PoisonPlan)
    | Finish(op: nat, hook: Hook)
    | Retired(gen: nat, ok: bool, hook: Hook)
    | ForceShutdown
    | ShutdownDone(hook: Hook)

  // The check before a step of an operation's work, with its deadline passed.
  function LateCheck(s: Pool, o: nat, expiry: Expiry): Pool {
    if o in s.ops && s.ops[o].kind.Transaction? then ExpireTransaction(s, o, expiry.timedOut)
    else Timeout(s, o, expiry)
  }

  // recycleIfDriverStalls of an aborted query, and the grace of an expired transaction.
  predicate GraceApplies(op: Op) {
    !op.driverSettled && if op.kind.Transaction? then op.interrupted.Some? || op.expired
                         else op.sent && op.interrupted.Some?
  }

  // A retirement is over; an ended pool is no longer live.
  function Unretire(s: Pool, g: nat, ok: bool): Pool {
    s.(retiring := s.retiring - {g}, live := if ok then s.live - {g} else s.live)
  }

  // The callbacks of retireGeneration.
  function Retire(s: Pool, g: nat, ok: bool, hook: Hook): Pool {
    if g !in s.retiring then s
    else
      var epoch := s.retiring[g];
      var s1 := Unretire(s, g, ok);
      if epoch.None? then s1
      else if ok then
        if s1.recoveryEpoch == epoch.value && s1.state == Recycling then Transition(s1, Healthy, hook) else s1
      else if s1.state in {Closing, Closed, Failed} then s1
      else Transition(s1, Failed, hook)
  }

  // The tail of closeManaged.
  function EndShutdown(s: Pool, hook: Hook): Pool {
    if s.phase != Forced then s else Transition(s.(phase := Finished, live := {}), Closed, hook)
  }

  function Step(s: Pool, e: Event): Pool {
    match e
    case Notified(hook) => RunHook(s, hook)
    case StartCall(kind, hook) => Start(s, kind, hook)
    case CloseCall(hook) => Close(s, hook)
    case Bootstrap(o, late, expiry) =>
      if late && Runnable(s, o) && MayProceed(s.ops[o]) then LateCheck(s, o, expiry) else Begin(s, o)
    case Dispatch(o, late, expiry) =>
      if !Runnable(s, o) || s.ops[o].kind.Ready? then s
      else if !MayProceed(s.ops[o]) then s.(ops := s.ops[o := s.ops[o].(working := false)])
      else if late then LateCheck(s, o, expiry)
      else s.(ops := s.ops[o := s.ops[o].(sent := true)], dispatches := s.dispatches + multiset{o})
    case TimeoutFires(o, expiry) =>
      if o in s.ops && s.ops[o].kind.Transaction? then s else Timeout(s, o, expiry)
    case AbortSignal(o, plan) => Abort(s, o, plan)
    case TransactionExpires(o, hook) => ExpireTransaction(s, o, hook)
    case TransactionQueryFails(o, hook) => FailTransaction(s, o, hook)
    case WorkEnds(o) =>
      if o !in s.ops then s
      else s.(ops := s.ops[o := s.ops[o].(working := false, driverSettled := true)])
    case GraceExpires(o, plan) =>
      if o in s.ops && GraceApplies(s.ops[o]) then Poison(s, s.ops[o].gen, o, plan) else s
    case Finish(o, hook) =>
      if o !in s.ops || (s.ops[o].working && MayProceed(s.ops[o])) then s
      else
        var s1 := RunHook(s, hook);
        if o !in s1.ops then s1
        else s1.(ops := s1.ops[o := s1.ops[o].(active := false,
                                                expired := s1.ops[o].expired || s1.ops[o].kind.Transaction?)])
    case Retired(g, ok, hook) => Retire(s, g, ok, hook)
    case ForceShutdown =>
      if s.phase != Draining then s
      else InterruptAll(s, s.live, None, ClientClosing).(phase := Forced)
    case ShutdownDone(hook) => EndShutdown(s, hook)
  }

  function Run(s: Pool, events: seq<Event>): Pool
    decreases |events|
  {
    if events == [] then s else Run(Step(s, events[0]), events[1..])
  }
}
