/**
 Hooks inside a query's turn. `execute` tests its client before the query-start hook and
 sends after it, with only expiry tested again. These results say exactly when that is safe.
 */
module SavepointHooks {
  import opened Wrappers
  import opened SavepointModel
  import opened SavepointSafety

  // --------------------------------------------------------------------- calm

  // The query is sent by a client that still accepts calls: its hook has opened no savepoint on
  // it. The same holds of the queries that the hook calls.
  predicate CalmExecute(st: State, s: nat, local: bool, hook: Hook)
    decreases hook, 1
  {
    Accepts(st, s) && !st.expired ==>
      CalmHook(st, hook) && (local || RunHook(st, hook).expired || Accepts(RunHook(st, hook), s))
  }

  predicate CalmHook(st: State, hook: Hook)
    decreases hook, 0
  {
    match hook
    case Quiet => true
    case Then(call, rest) => CalmCall(st, call) && CalmHook(RunCall(st, call), rest)
  }

  predicate CalmCall(st: State, call: Call)
    decreases call, 0
  {
    call.CallExecute? ==> CalmExecute(st, call.s, call.local, call.hook)
  }

  predicate CalmStep(st: State, step: Step) {
    step.DoExecute? ==> CalmExecute(st, step.s, step.local, step.hook)
  }

  // Every step of a run is calm.
  predicate Calm(steps: seq<Step>) {
    steps == [] || (Calm(steps[..|steps| - 1]) && CalmStep(Run(INITIAL, steps[..|steps| - 1]), steps[|steps| - 1]))
  }

  // ------------------------------------------------- what a hook leaves alone

  // Whatever a hook calls, no scope ends, fails or records anything, only active scopes change,
  // and new scopes are opening.
  predicate OnlyCalls(st: State, st': State) {
    && |st.scopes| <= |st'.scopes| && st'.server == st.server && st'.answered == st.answered
    && (st.expired ==> st'.expired)
    && (forall i :: 0 <= i < |st.scopes| ==>
          var a, b := st.scopes[i], st'.scopes[i];
          && b.active == a.active && b.aborted == a.aborted && b.phase == a.phase
          && b.history == a.history && b.parent == a.parent && (!a.active ==> b == a))
    && (forall i :: |st.scopes| <= i < |st'.scopes| ==> st'.scopes[i].phase.Opening? && st'.scopes[i].history == [])
  }

  lemma CallsTransitive(a: State, b: State, c: State)
    requires OnlyCalls(a, b) && OnlyCalls(b, c)
    ensures OnlyCalls(a, c)
  {
  }

  lemma DispatchCalls(st: State, s: nat, local: bool)
    requires Exists(st, s) && st.scopes[s].active
    ensures OnlyCalls(st, Dispatch(st, s, local)) && Dispatch(st, s, local).expired == st.expired
  {
  }

  lemma {:induction false} ExecuteCalls(st: State, s: nat, local: bool, hook: Hook)
    ensures OnlyCalls(st, Execute(st, s, local, hook))
    decreases hook, 1
  {
    hide Dispatch;
    if Accepts(st, s) {
      if st.expired {
        DispatchCalls(st, s, local);
      } else {
        HookCalls(st, hook);
        DispatchCalls(RunHook(st, hook), s, local);
        CallsTransitive(st, RunHook(st, hook), Execute(st, s, local, hook));
      }
    }
  }

  lemma {:induction false} HookCalls(st: State, hook: Hook)
    ensures OnlyCalls(st, RunHook(st, hook))
    decreases hook, 0
  {
    match hook
    case Quiet =>
    case Then(call, rest) =>
      hide RunCall, OnlyCalls;
      CallCalls(st, call);
      HookCalls(RunCall(st, call), rest);
      CallsTransitive(st, RunCall(st, call), RunHook(st, hook));
  }

  lemma {:induction false} CallCalls(st: State, call: Call)
    ensures OnlyCalls(st, RunCall(st, call))
    decreases call, 0
  {
    match call
    case CallExecute(s, local, hook) =>
      hide Execute, OnlyCalls;
      ExecuteCalls(st, s, local, hook);
    case CallSavepoint(s) =>
    case CallExpire =>
  }

  // -------------------------------------------------------------- the invariant

  lemma AcceptsRuns(st: State, s: nat)
    requires Inv(st) && Accepts(st, s)
    ensures Exists(st, s) && st.scopes[s].phase.Running?
  {
    ScopeOkAt(st, s);
  }

  // A calm query keeps the invariant, whatever else its hook calls.
  lemma {:induction false} ExecuteKeeps(st: State, s: nat, local: bool, hook: Hook)
    requires Inv(st) && CalmExecute(st, s, local, hook)
    ensures Inv(Execute(st, s, local, hook))
    decreases hook, 1
  {
    hide Inv, Dispatch;
    if Accepts(st, s) {
      AcceptsRuns(st, s);
      if st.expired {
        DispatchKeeps(st, s, local);
      } else {
        HookKeeps(st, hook);
        HookCalls(st, hook);
        DispatchKeeps(RunHook(st, hook), s, local);
      }
    }
  }

  lemma {:induction false} HookKeeps(st: State, hook: Hook)
    requires Inv(st) && CalmHook(st, hook)
    ensures Inv(RunHook(st, hook))
    decreases hook, 0
  {
    match hook
    case Quiet =>
    case Then(call, rest) =>
      hide Inv, RunCall;
      CallKeeps(st, call);
      HookKeeps(RunCall(st, call), rest);
  }

  lemma {:induction false} CallKeeps(st: State, call: Call)
    requires Inv(st) && CalmCall(st, call)
    ensures Inv(RunCall(st, call))
    decreases call, 0
  {
    hide Inv, Execute, OpenSavepoint;
    match call
    case CallExecute(s, local, hook) => ExecuteKeeps(st, s, local, hook);
    case CallSavepoint(s) => OpenKeeps(st, s);
    case CallExpire => ExpireAny(st);
  }

  lemma ExpireAny(st: State)
    requires Inv(st)
    ensures Inv(Expire(st))
  {
    SavepointSafety.ExpireKeeps(st);
  }

  // ------------------------------------------------------------- broken words

  // Once the word is broken it stays broken.
  predicate Broke(st: State) {
    Replay(st.log).None?
  }

  lemma SendBroke(st: State, c: Command)
    requires Broke(st)
    ensures Broke(Send(st, c))
  {
    hide WordStep;
    ReplaySend(st.log, c);
  }

  lemma DispatchBroke(st: State, s: nat, local: bool)
    requires Broke(st)
    ensures Broke(Dispatch(st, s, local))
  {
    hide Replay;
    if Exists(st, s) && !st.expired && !local {
      SendBroke(Track(st, s), Query(s, st.nextOp));
    }
  }

  lemma OpenBroke(st: State, s: nat)
    requires Broke(st)
    ensures Broke(OpenSavepoint(st, s))
  {
    hide Replay;
    SendBroke(st, Savepoint(st.nextSavepoint));
  }

  lemma {:induction false} ExecuteBroke(st: State, s: nat, local: bool, hook: Hook)
    requires Broke(st)
    ensures Broke(Execute(st, s, local, hook))
    decreases hook, 1
  {
    hide Broke, Dispatch;
    if Accepts(st, s) {
      HookBroke(st, hook);
      DispatchBroke(if st.expired then st else RunHook(st, hook), s, local);
    }
  }

  lemma {:induction false} HookBroke(st: State, hook: Hook)
    requires Broke(st)
    ensures Broke(RunHook(st, hook))
    decreases hook, 0
  {
    hide Broke, RunCall;
    match hook
    case Quiet =>
    case Then(call, rest) =>
      CallBroke(st, call);
      HookBroke(RunCall(st, call), rest);
  }

  lemma {:induction false} CallBroke(st: State, call: Call)
    requires Broke(st)
    ensures Broke(RunCall(st, call))
    decreases call, 0
  {
    hide Execute, OpenSavepoint;
    match call
    case CallExecute(s, local, hook) => ExecuteBroke(st, s, local, hook);
    case CallSavepoint(s) => OpenBroke(st, s);
    case CallExpire =>
  }

  lemma StepBroke(st: State, step: Step)
    requires Broke(st)
    ensures Broke(Next(st, step))
  {
    hide Execute, OpenSavepoint;
    if step.DoExecute? {
      ExecuteBroke(st, step.s, step.local, step.hook);
    } else if step.DoSavepoint? {
      OpenBroke(st, step.s);
    } else {
      OneCommand(st, step);
      hide Next, Replay;
      if Next(st, step).log != st.log {
        SendBroke(st, Next(st, step).log[|st.log|]);
      }
    }
  }

  // Every other turn sends at most one command.
  lemma OneCommand(st: State, step: Step)
    requires !step.DoExecute? && !step.DoSavepoint?
    ensures var log := Next(st, step).log; log == st.log || (|log| == |st.log| + 1 && log == st.log + [log[|st.log|]])
  {
    hide AfterSavepoint, AfterRollbackTo, AfterRelease, MarkIndex;
  }

  // ---------------------------------------------------------- the only failure

  // The innermost scope is not being released.
  predicate Settled(st: State) {
    Sent(st) == st.open && !IsEnding(At(st, 0).phase)
  }

  lemma DispatchSettled(st: State, s: nat, local: bool)
    requires Settled(st)
    ensures Settled(Dispatch(st, s, local))
  {
  }

  lemma OpenSettled(st: State, s: nat)
    requires Structure(st) && Settled(st)
    ensures Settled(OpenSavepoint(st, s))
  {
    if Accepts(st, s) && !st.expired {
      OpenViews(st, s);
    }
  }

  lemma {:induction false} ExecuteSettled(st: State, s: nat, local: bool, hook: Hook)
    requires Inv(st) && Settled(st) && CalmExecute(st, s, local, hook)
    ensures Settled(Execute(st, s, local, hook))
    decreases hook, 1
  {
    hide Inv, Settled, Dispatch;
    if Accepts(st, s) {
      if st.expired {
        DispatchSettled(st, s, local);
      } else {
        HookSettled(st, hook);
        DispatchSettled(RunHook(st, hook), s, local);
      }
    }
  }

  lemma {:induction false} HookSettled(st: State, hook: Hook)
    requires Inv(st) && Settled(st) && CalmHook(st, hook)
    ensures Settled(RunHook(st, hook))
    decreases hook, 0
  {
    match hook
    case Quiet =>
    case Then(call, rest) =>
      hide Inv, Settled, RunCall;
      CallSettled(st, call);
      CallKeeps(st, call);
      HookSettled(RunCall(st, call), rest);
  }

  lemma {:induction false} CallSettled(st: State, call: Call)
    requires Inv(st) && Settled(st) && CalmCall(st, call)
    ensures Settled(RunCall(st, call))
    decreases call, 0
  {
    match call
    case CallExecute(s, local, hook) =>
      hide Settled, Inv, Execute;
      ExecuteSettled(st, s, local, hook);
    case CallSavepoint(s) => OpenSettled(st, s);
    case CallExpire =>
  }

  lemma ChildOnTop(st: State, s: nat)
    requires Structure(st) && Exists(st, s) && st.scopes[s].childActive
    ensures !OnTop(st.open, s)
  {
    hide ScopesOk;
    var k :| 0 <= k < |st.open| - 1 && st.open[k] == s;
  }

  lemma NotNested(st: State, s: nat, op: Op)
    requires WordOk(st) && !st.expired && Sent(st) == st.open && !OnTop(st.open, s)
    ensures Broke(Send(st, Query(s, op)))
  {
    hide Sent, OnTop;
    ReplaySend(st.log, Query(s, op));
  }

  lemma SentTracked(st: State, s: nat)
    requires Exists(st, s)
    ensures Sent(Track(st, s)) == Sent(st) && WordOk(Track(st, s)) == WordOk(st)
  {
    hide Replay;
  }

  lemma DispatchSends(st: State, s: nat)
    requires Exists(st, s) && !st.expired
    ensures Dispatch(st, s, false) == Send(Track(st, s), Query(s, st.nextOp))
    ensures Track(st, s).open == st.open && !Track(st, s).expired
  {
  }

  // A query sent by a client whose hook has opened a savepoint on it is not nested: the word's
  // innermost scope is the new savepoint.
  lemma QueryInsideChild(st: State, s: nat)
    requires Inv(st) && Settled(st) && !st.expired && Exists(st, s) && st.scopes[s].childActive
    ensures Broke(Dispatch(st, s, false))
  {
    ChildOnTop(st, s);
    SentTracked(st, s);
    DispatchSends(st, s);
    hide Structure, Wire, WordOk, Sent, OnTop, Dispatch, Track, Broke;
    NotNested(Track(st, s), s, st.nextOp);
  }

  lemma {:induction false} ExecuteBreaks(st: State, s: nat, local: bool, hook: Hook)
    requires Inv(st) && !CalmExecute(st, s, local, hook)
    ensures Broke(Execute(st, s, local, hook))
    decreases hook, 1
  {
    hide Inv, Dispatch, Broke, Settled;
    var st' := RunHook(st, hook);
    if !CalmHook(st, hook) {
      HookBreaks(st, hook);
      DispatchBroke(st', s, local);
    } else {
      AcceptsSettled(st, s);
      HookSettled(st, hook);
      HookKeeps(st, hook);
      HookCalls(st, hook);
      QueryInsideChild(st', s);
    }
  }

  lemma AcceptsSettled(st: State, s: nat)
    requires Inv(st) && Accepts(st, s)
    ensures Settled(st)
  {
    AcceptsShape(st, s);
  }

  lemma {:induction false} HookBreaks(st: State, hook: Hook)
    requires Inv(st) && !CalmHook(st, hook)
    ensures Broke(RunHook(st, hook))
    decreases hook, 0
  {
    hide Inv, RunCall, Broke;
    var call, rest := hook.call, hook.rest;
    if CalmCall(st, call) {
      CallKeeps(st, call);
      HookBreaks(RunCall(st, call), rest);
    } else {
      ExecuteBreaks(st, call.s, call.local, call.hook);
      BrokeCall(st, call);
      HookBroke(RunCall(st, call), rest);
    }
  }

  lemma BrokeCall(st: State, call: Call)
    requires call.CallExecute? && Broke(Execute(st, call.s, call.local, call.hook))
    ensures Broke(RunCall(st, call))
  {
    hide Broke, Execute;
  }
}
