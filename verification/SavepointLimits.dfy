/**
 Where the promises of savepoints end: a transaction that expires, and a query-start hook
 that opens a savepoint on the client whose query is being sent.
 */
module SavepointLimits {
  import opened Wrappers
  import opened SavepointModel
  import opened SavepointSafety
  import opened SavepointHooks
  import opened SavepointAnswers
  import opened SavepointTheorems

  // ---------------------------------------------------- the turn of the expiry

  // What the commands leave open is what the scopes say.
  predicate SentOk(st: State) {
    Replay(st.log).Some? && Replay(st.log).value.stack == Sent(st)
  }

  lemma InvSent(st: State)
    requires Inv(st) && !st.expired
    ensures SentOk(st)
  {
    hide Structure, Wire, Sent;
  }

  lemma QuietSent(st: State, st': State)
    requires SentOk(st) && st'.log == st.log && st'.open == st.open
    requires forall i :: At(st', i).phase == At(st, i).phase
    ensures SentOk(st')
  {
    hide Sent, Replay;
    SamePhases(st, st');
  }

  lemma DispatchSilent(st: State, s: nat, local: bool)
    requires st.expired && SentOk(st)
    ensures SentOk(Dispatch(st, s, local))
  {
    hide SentOk;
    QuietSent(st, Dispatch(st, s, local));
  }

  lemma {:induction false} ExecuteSent(st: State, s: nat, local: bool, hook: Hook)
    requires SentOk(st) && (st.expired || Inv(st)) && CalmExecute(st, s, local, hook)
    ensures SentOk(Execute(st, s, local, hook))
    decreases hook, 1
  {
    hide SentOk, Inv, Dispatch;
    if Accepts(st, s) {
      if st.expired {
        DispatchSilent(st, s, local);
      } else {
        HookSent(st, hook);
        if RunHook(st, hook).expired {
          DispatchSilent(RunHook(st, hook), s, local);
        } else {
          ExecuteKeeps(st, s, local, hook);
          HookCalls(st, hook);
          DispatchExpired(RunHook(st, hook), s, local);
          InvSent(Execute(st, s, local, hook));
        }
      }
    }
  }

  lemma DispatchExpired(st: State, s: nat, local: bool)
    ensures Dispatch(st, s, local).expired == st.expired
  {
  }

  lemma {:induction false} HookSent(st: State, hook: Hook)
    requires SentOk(st) && (st.expired || Inv(st)) && CalmHook(st, hook)
    ensures SentOk(RunHook(st, hook))
    decreases hook, 0
  {
    match hook
    case Quiet =>
    case Then(call, rest) =>
      hide SentOk, Inv, RunCall;
      CallSent(st, call);
      CallCalls(st, call);
      if !st.expired {
        CallKeeps(st, call);
      }
      HookSent(RunCall(st, call), rest);
  }

  lemma {:induction false} CallSent(st: State, call: Call)
    requires SentOk(st) && (st.expired || Inv(st)) && CalmCall(st, call)
    ensures SentOk(RunCall(st, call))
    decreases call, 0
  {
    hide SentOk, Inv, Execute, OpenSavepoint;
    match call
    case CallExecute(s, local, hook) => ExecuteSent(st, s, local, hook);
    case CallSavepoint(s) =>
      if st.expired {
        OpenSilent(st, s);
      } else {
        OpenKeeps(st, s);
        OpenSilent(st, s);
        InvSent(OpenSavepoint(st, s));
      }
    case CallExpire => QuietSent(st, Expire(st));
  }

  lemma OpenSilent(st: State, s: nat)
    ensures OpenSavepoint(st, s).expired == st.expired && (st.expired ==> OpenSavepoint(st, s) == st)
  {
  }

  // Every other step that expires the transaction sends nothing and ends no scope.
  lemma ExpiringStep(st: State, step: Step)
    requires !st.expired && Next(st, step).expired && !step.DoExecute?
    ensures var st' := Next(st, step);
            st'.log == st.log && st'.open == st.open && forall i :: At(st', i).phase == At(st, i).phase
  {
    hide AfterSavepoint, AfterRollbackTo, AfterRelease, MarkIndex;
  }

  lemma ExpiryTurn(st: State, step: Step)
    requires Inv(st) && !st.expired && CalmStep(st, step) && Next(st, step).expired
    ensures SentOk(Next(st, step))
    ensures forall i :: At(Next(st, step), i).phase.Broken? ==> At(st, i).phase.Broken?
  {
    hide Inv, SentOk, Execute, CalmExecute;
    InvSent(st);
    if step.DoExecute? {
      ExecuteSent(st, step.s, step.local, step.hook);
      ExecuteCalls(st, step.s, step.local, step.hook);
    } else {
      ExpiringStep(st, step);
      hide Next;
      QuietSent(st, Next(st, step));
    }
  }

  // ---------------------------------------------------------- the final command

  // After expiry the log grows by at most the driver's final command.
  predicate AtMostFinal(st0: State, st: State) {
    && st.expired && Exists(st, 0)
    && (IsEnding(At(st0, 0).phase) ==> IsEnding(At(st, 0).phase))
    && if st.log == st0.log then true
       else (st.log == st0.log + [Commit] || st.log == st0.log + [Rollback])
            && !IsEnding(At(st0, 0).phase) && IsEnding(At(st, 0).phase)
  }

  lemma EndingStays(st: State, step: Step)
    requires st.expired && Exists(st, 0)
    ensures Exists(Next(st, step), 0)
    ensures IsEnding(At(st, 0).phase) ==> IsEnding(At(Next(st, step), 0).phase) && Next(st, step).log == st.log
    ensures Next(st, step).log != st.log ==> IsEnding(At(Next(st, step), 0).phase)
  {
    hide AnswerQuery, AnswerSavepoint, AnswerRollbackTo, AnswerRelease, AnswerEnd;
    if step.DoExecute? {
      ExecuteCalls(st, step.s, step.local, step.hook);
    }
  }

  lemma {:induction false} ExpiredRun(st0: State, steps: seq<Step>)
    requires Exists(st0, 0) && st0.expired
    ensures AtMostFinal(st0, Run(st0, steps))
  {
    if steps == [] {
    } else {
      var before, last := steps[..|steps| - 1], steps[|steps| - 1];
      ExpiredRun(st0, before);
      var st := Run(st0, before);
      ExpiredIsSilent(st, last);
      EndingStays(st, last);
      hide Next;
    }
  }

  // Every savepoint is closed, or its RELEASE has been sent.
  predicate AllReleased(st: State) {
    forall n :: 0 < n < |st.scopes| ==> st.scopes[n].phase.Closed? || st.scopes[n].phase.Releasing?
  }

  lemma ReleasedOrOpen(st: State)
    requires Structure(st) && !IsEnding(At(st, 0).phase)
    requires forall i :: !At(st, i).phase.Broken?
    ensures Sent(st) == [0] <==> AllReleased(st)
  {
    if AllReleased(st) {
      FewOpen(st);
    } else {
      var n :| 0 < n < |st.scopes| && !(st.scopes[n].phase.Closed? || st.scopes[n].phase.Releasing?);
      assert !At(st, n).phase.Broken?;
      OpenIsSent(st, n);
    }
  }

  lemma OpenIsSent(st: State, n: nat)
    requires Structure(st) && 0 < n < |st.scopes| && IsOpen(st.scopes[n].phase) && !st.scopes[n].phase.Releasing?
    requires !IsEnding(At(st, 0).phase)
    ensures n in Sent(st)
  {
    hide ScopesOk, Chain;
    assert n in st.open;
  }

  lemma FewOpen(st: State)
    requires Structure(st) && AllReleased(st) && !IsEnding(At(st, 0).phase)
    ensures Sent(st) == [0]
  {
    assert ScopeOk(st.scopes[0], 0);
    if |st.open| > 1 {
      var n := st.open[1];
      assert 0 < n < |st.scopes| && ScopeOk(st.scopes[n], n) && n in st.open;
      assert n !in WithoutLast(st.open);
    }
  }

  lemma {:induction false} RunConcat(st: State, first: seq<Step>, second: seq<Step>)
    ensures Run(st, first + second) == Run(Run(st, first), second)
  {
    hide Next;
    if second == [] {
      assert first + second == first;
    } else {
      RunConcat(st, first, second[..|second| - 1]);
      assert (first + second)[..|first + second| - 1] == first + second[..|second| - 1];
    }
  }

  lemma RunLast(before: seq<Step>, last: Step)
    ensures Run(INITIAL, before + [last]) == Next(Run(INITIAL, before), last)
    ensures Calm(before + [last]) <==> Calm(before) && CalmStep(Run(INITIAL, before), last)
  {
    assert (before + [last])[..|before|] == before;
    hide Next, CalmStep;
  }

  // The state in which a turn leaves an expired transaction.
  lemma AtExpiry(before: seq<Step>, cause: Step)
    requires Calm(before + [cause]) && !Run(INITIAL, before).expired && Run(INITIAL, before + [cause]).expired
    ensures var st := Run(INITIAL, before + [cause]);
            && Exists(st, 0) && Structure(st) && SentOk(st) && forall i :: !At(st, i).phase.Broken?
  {
    hide Run, Inv, Next, CalmStep, SentOk;
    RunLast(before, cause);
    RunKeeps(before);
    RunKeeps(before + [cause]);
    RunRecords(before);
    ExpiryTurn(Run(INITIAL, before), cause);
    InvShape(Run(INITIAL, before + [cause]));
    hide Structure;
  }

  // Main result: once a transaction has expired, for whatever cause, at most one command more is
  // sent, the final COMMIT or ROLLBACK. It finds every savepoint closed if and only if every
  // savepoint was closed or had sent its RELEASE at the end of the turn that expired it.
  lemma FinalAfterExpiry(before: seq<Step>, cause: Step, after: seq<Step>)
    requires Calm(before + [cause]) && !Run(INITIAL, before).expired && Run(INITIAL, before + [cause]).expired
    ensures var st0 := Run(INITIAL, before + [cause]);
            var st := Run(INITIAL, before + [cause] + after);
            && Exists(st0, 0) && Replay(st0.log).Some? && AtMostFinal(st0, st)
            && (!IsEnding(At(st0, 0).phase) ==> (Replay(st0.log).value.stack == [0] <==> AllReleased(st0)))
  {
    var st0 := Run(INITIAL, before + [cause]);
    AtExpiry(before, cause);
    RunConcat(INITIAL, before + [cause], after);
    hide Run, Calm, AllReleased, AtMostFinal, Structure, Sent;
    ExpiredRun(st0, after);
    if !IsEnding(At(st0, 0).phase) {
      ReleasedOrOpen(st0);
    }
  }

  // Both cases occur. Here a savepoint is running when the transaction expires, and COMMIT
  // follows it.
  lemma CommitAfterExpiry()
    ensures var late := Server([], [], false);
            var steps := [DoSavepoint(0), DoAnswer(Succeeds, late), DoCallbackEnds(0, true), DoExpire,
                          DoCallbackEnds(1, false), DoSettle(1), DoSettle(0)];
            var st := Run(INITIAL, steps);
            st.expired && st.log == [Savepoint(1), Commit] && st.server.marks == [Mark(1, [])]
  {
    var late := Server([], [], false);
    var steps := [DoSavepoint(0), DoAnswer(Succeeds, late), DoCallbackEnds(0, true), DoExpire,
                  DoCallbackEnds(1, false), DoSettle(1), DoSettle(0)];
    assert steps[..6][..5][..4][..3][..2][..1][..0] == [];
    var s1 := Next(INITIAL, steps[0]);
    assert Run(INITIAL, steps[..1]) == s1 by { assert steps[..1][..0] == []; }
    var s2 := Next(s1, steps[1]);
    assert Run(INITIAL, steps[..2]) == s2 by { assert steps[..2][..1] == steps[..1]; }
    var s3 := Next(s2, steps[2]);
    assert Run(INITIAL, steps[..3]) == s3 by { assert steps[..3][..2] == steps[..2]; }
    var s4 := Next(s3, steps[3]);
    assert Run(INITIAL, steps[..4]) == s4 by { assert steps[..4][..3] == steps[..3]; }
    var s5 := Next(s4, steps[4]);
    assert Run(INITIAL, steps[..5]) == s5 by { assert steps[..5][..4] == steps[..4]; }
    var s6 := Next(s5, steps[5]);
    assert Run(INITIAL, steps[..6]) == s6 by { assert steps[..6][..5] == steps[..5]; }
    assert Run(INITIAL, steps) == Next(s6, steps[6]);
  }

  // ------------------------------------------------------------------- hooks

  lemma RunFive(st: State, a: Step, b: Step, c: Step, d: Step, e: Step)
    ensures Run(st, [a, b, c, d, e]) == Next(Next(Next(Next(Next(st, a), b), c), d), e)
  {
    hide Next;
    assert [a][..0] == [] && [a, b][..1] == [a] && [a, b, c][..2] == [a, b];
    assert [a, b, c, d][..3] == [a, b, c] && [a, b, c, d, e][..4] == [a, b, c, d];
    assert Run(st, [a]) == Next(st, a);
    assert Run(st, [a, b]) == Next(Next(st, a), b);
    assert Run(st, [a, b, c]) == Next(Next(Next(st, a), b), c);
    assert Run(st, [a, b, c, d]) == Next(Next(Next(Next(st, a), b), c), d);
  }

  lemma {:induction false} CalmFirst(steps: seq<Step>)
    requires Calm(steps) && steps != []
    ensures CalmStep(INITIAL, steps[0])
  {
    hide CalmStep, Next;
    if |steps| == 1 {
      assert steps[..0] == [];
    } else {
      CalmFirst(steps[..|steps| - 1]);
    }
  }

  // A hook that opens a savepoint on the transaction; the query is sent inside it.
  const OPENS := Then(CallSavepoint(0), Quiet)

  const SENT_INSIDE := State(
    [Scope(0, 0, Running, true, false, true, {}, []), Scope(0, 1, Opening, false, false, false, {}, [])],
    2, 1, false, [Savepoint(1), Query(0, 0)], 0, Server([], [], false), [0, 1])

  // Where the first half of the run below ends: ROLLBACK TO has been sent.
  const ROLLING := State(
    [Scope(0, 0, Running, true, false, true, {}, [Ran(0)]), Scope(0, 1, RollingBack(false), false, false, false, {}, [])],
    2, 1, false, [Savepoint(1), Query(0, 0), RollbackTo(1)], 2, Server([0], [Mark(1, [])], false), [0, 1])

  lemma QueryInside()
    ensures Next(INITIAL, DoExecute(0, false, OPENS)) == SENT_INSIDE
    ensures !CalmStep(INITIAL, DoExecute(0, false, OPENS)) && Replay(SENT_INSIDE.log).None?
  {
    var inside := OpenSavepoint(INITIAL, 0);
    assert RunHook(INITIAL, OPENS) == inside && !Accepts(inside, 0);
    assert Execute(INITIAL, 0, false, OPENS) == Dispatch(inside, 0, false) == SENT_INSIDE;
    InitialInv();
    hide Inv, Execute;
    ExecuteBreaks(INITIAL, 0, false, OPENS);
  }

  lemma RolledBackAround(late: Server)
    ensures Run(INITIAL, [DoExecute(0, false, OPENS), DoAnswer(Succeeds, late), DoAnswer(Succeeds, late),
                          DoCallbackEnds(1, false), DoSettle(1)]) == ROLLING
  {
    var root, child := SENT_INSIDE.scopes[0], SENT_INSIDE.scopes[1].(phase := Running, active := true);
    var marked := Server([], [Mark(1, [])], false);
    var s2 := SENT_INSIDE.(scopes := [root, child], answered := 1, server := marked);
    assert Answer(SENT_INSIDE, Succeeds, late) == s2;
    var s3 := s2.(scopes := [root.(history := [Ran(0)]), child], answered := 2, server := marked.(db := [0]));
    assert Answer(s2, Succeeds, late) == s3 by {
      assert Answer(s2, Succeeds, late).scopes[0] == s3.scopes[0];
      assert Answer(s2, Succeeds, late).server.db == [0];
    }
    var s4 := s3.(scopes := [root.(history := [Ran(0)]), child.(phase := Settling(false), active := false)]);
    assert CallbackEnds(s3, 1, false) == s4;
    assert Settle(s4, 1) == ROLLING;
    QueryInside();
    hide Execute, Answer, CallbackEnds, Settle;
    RunFive(INITIAL, DoExecute(0, false, OPENS), DoAnswer(Succeeds, late), DoAnswer(Succeeds, late),
            DoCallbackEnds(1, false), DoSettle(1));
  }

  lemma RolledBackAway(late: Server)
    ensures Run(ROLLING, [DoAnswer(Succeeds, late), DoAnswer(Succeeds, late), DoCallbackEnds(0, true),
                          DoSettle(0), DoAnswer(Succeeds, late)]) ==
            State([Scope(0, 0, Ended(true), false, false, false, {}, [Ran(0), Nested(1, [], false)]),
                   Scope(0, 1, Closed(false, true), false, false, false, {}, [])],
                  2, 1, false, [Savepoint(1), Query(0, 0), RollbackTo(1), Release(1), Commit], 5,
                  Server([], [], false), [0])
  {
    var root := Scope(0, 0, Running, true, false, true, {}, [Ran(0)]);
    var child := Scope(0, 1, Releasing(false, true), false, false, false, {}, []);
    var s1 := State([root, child], 2, 1, false, [Savepoint(1), Query(0, 0), RollbackTo(1), Release(1)], 3,
                    Server([], [Mark(1, [])], false), [0, 1]);
    assert Answer(ROLLING, Succeeds, late) == s1;
    var closed := child.(phase := Closed(false, true));
    var after := root.(childActive := false, history := [Ran(0), Nested(1, [], false)]);
    var s2 := s1.(scopes := [after, closed], answered := 4, server := Server([], [], false), open := [0]);
    assert Answer(s1, Succeeds, late) == s2 by {
      assert Answer(s1, Succeeds, late).scopes[0].history == [Ran(0), Nested(1, [], false)];
      assert Answer(s1, Succeeds, late).open == [0] && Answer(s1, Succeeds, late).server.marks == [];
    }
    var s3 := s2.(scopes := [after.(phase := Settling(true), active := false), closed]);
    assert CallbackEnds(s2, 0, true) == s3;
    var s4 := s3.(scopes := [after.(phase := Ending(true), active := false), closed], log := s3.log + [Commit]);
    assert Settle(s3, 0) == s4;
    var s5 := s4.(scopes := [after.(phase := Ended(true), active := false), closed], answered := 5);
    assert Answer(s4, Succeeds, late) == s5;
    hide Answer, CallbackEnds, Settle;
    RunFive(ROLLING, DoAnswer(Succeeds, late), DoAnswer(Succeeds, late), DoCallbackEnds(0, true),
            DoSettle(0), DoAnswer(Succeeds, late));
  }

  // The condition of the savepoint results is needed. The hook of a transaction's query opens a
  // savepoint on the transaction, so that the query is sent inside it. The savepoint is rolled
  // back, COMMIT succeeds, and the query that resolved is not in what is committed.
  lemma QueryIsLost(late: Server)
    ensures var first := [DoExecute(0, false, OPENS), DoAnswer(Succeeds, late),
                          DoAnswer(Succeeds, late), DoCallbackEnds(1, false), DoSettle(1)];
            var second := [DoAnswer(Succeeds, late), DoAnswer(Succeeds, late), DoCallbackEnds(0, true),
                           DoSettle(0), DoAnswer(Succeeds, late)];
            var st := Run(INITIAL, first + second);
            && !Calm(first + second) && !st.expired && Exists(st, 0)
            && st.log == [Savepoint(1), Query(0, 0), RollbackTo(1), Release(1), Commit]
            && st.scopes[0].phase == Ended(true) && st.scopes[0].history == [Ran(0), Nested(1, [], false)]
            && Effects(st.scopes[0].history) == [0] && st.server.db == []
  {
    var first := [DoExecute(0, false, OPENS), DoAnswer(Succeeds, late),
                  DoAnswer(Succeeds, late), DoCallbackEnds(1, false), DoSettle(1)];
    var second := [DoAnswer(Succeeds, late), DoAnswer(Succeeds, late), DoCallbackEnds(0, true),
                   DoSettle(0), DoAnswer(Succeeds, late)];
    QueryInside();
    RolledBackAround(late);
    RolledBackAway(late);
    LostEffects();
    hide Run, CalmStep, Effects;
    RunConcat(INITIAL, first, second);
    if Calm(first + second) {
      CalmFirst(first + second);
    }
  }

  lemma LostEffects()
    ensures Effects([Ran(0), Nested(1, [], false)]) == [0]
  {
    assert [Ran(0), Nested(1, [], false)][..1] == [Ran(0)] && [Ran(0)][..0] == [];
    assert Effects([Ran(0)]) == [0];
  }
}
