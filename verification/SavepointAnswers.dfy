/**
 The server's answers keep the invariant, and what a closed savepoint and a commit leave
 in the database.
 */
module SavepointAnswers {
  import opened Wrappers
  import opened SavepointModel
  import opened SavepointSafety
  import opened SavepointHooks

  // ------------------------------------------------------- the command answered

  function Advanced(st: State): State {
    st.(answered := st.answered + 1)
  }

  predicate Answering(st: State) {
    Inv(st) && !st.expired && st.answered < |st.log|
  }

  lemma WaitingHead(st: State)
    requires st.answered < |st.log|
    ensures Waiting(st) != [] && Waiting(st)[0] == st.log[st.answered] && Waiting(Advanced(st)) == Waiting(st)[1..]
  {
  }

  lemma HeadOfConcat(a: seq<Command>, b: seq<Command>)
    ensures a != [] ==> (a + b)[0] == a[0] && a[0] in a && (a + b)[1..] == a[1..] + b
    ensures a == [] ==> a + b == b
  {
  }

  lemma WaitingParts(st: State)
    requires WaitingOk(st)
    ensures Waiting(st) == Front(st) + Trailer(st) && (Alone(LastScope(st).phase) ==> Front(st) == [])
    ensures forall c <- Front(st) :: c.Query? && c.scope == Asker(st)
    ensures |Trailer(st)| <= 1 && (|Trailer(st)| == 1 ==> !Trailer(st)[0].Query?)
  {
    hide Waiting, Front, LastScope;
  }

  lemma InvWaiting(st: State)
    requires Inv(st) && !st.expired
    ensures WaitingOk(st)
  {
  }

  // An answer to a query takes it off the queries in front.
  lemma HeadQuery(st: State, s: nat, op: Op)
    requires Answering(st) && st.log[st.answered] == Query(s, op)
    ensures s == Asker(st) && Front(st) != [] && Front(st)[0] == Query(s, op)
    ensures Waiting(Advanced(st)) == Front(st)[1..] + Trailer(st) && !Alone(LastScope(st).phase)
  {
    hide Waiting, Asker, Trailer, Front, Alone, LastScope, Inv, WaitingOk;
    WaitingHead(st);
    InvWaiting(st);
    WaitingParts(st);
    HeadOfConcat(Front(st), Trailer(st));
  }

  // An answer to any other command: no queries are waiting, and it is the trailer.
  lemma HeadOther(st: State)
    requires Answering(st) && !st.log[st.answered].Query?
    ensures Trailer(st) == [st.log[st.answered]] && Waiting(Advanced(st)) == []
  {
    hide Waiting, Asker, Trailer, Front, Alone, LastScope, Inv, WaitingOk;
    WaitingHead(st);
    InvWaiting(st);
    WaitingParts(st);
    HeadOfConcat(Front(st), Trailer(st));
  }

  // The scope whose queries are answered.
  lemma AskerShape(st: State)
    requires Structure(st) && !Alone(LastScope(st).phase)
    ensures Exists(st, Asker(st)) && Asker(st) == Last(Processed(st)) && Processed(st) != []
    ensures var p := At(st, Asker(st)).phase;
            (p.Running? || p.Settling? || p.Ending?) && !LastScope(st).phase.Releasing? && !IsEnded(st)
    ensures Processed(st) == [0] <==> Asker(st) == 0
    ensures Asker(st) !in WithoutLast(Processed(st))
  {
    var n := Last(st.open);
    assert ScopeOk(st.scopes[n], n) && IsOpen(st.scopes[n].phase);
    if LastScope(st).phase.Opening? {
      OpeningShape(st);
    }
    RootShape(st);
    hide ScopesOk, Opens, ScopeOk;
  }

  lemma RootShape(st: State)
    requires Structure(st) && !Alone(LastScope(st).phase)
    ensures !IsEnded(st)
  {
    if |st.open| > 1 {
      assert WithoutLast(st.open)[0] == 0;
      assert ScopeOk(st.scopes[0], 0);
    }
  }

  lemma OpeningShape(st: State)
    requires Structure(st) && LastScope(st).phase.Opening?
    ensures |st.open| > 1 && st.open == WithoutLast(st.open) + [Last(st.open)]
    ensures Last(WithoutLast(st.open)) == LastScope(st).parent < |st.scopes|
    ensures var p := At(st, LastScope(st).parent).phase; p.Running? || p.Settling?
    ensures LastScope(st).history == [] && Last(st.open) > 0
  {
    assert ScopeOk(LastScope(st), Last(st.open));
    ParentShape(st);
  }

  // The parent of an open savepoint is open and has it as its child.
  lemma ParentShape(st: State)
    requires Structure(st) && Last(st.open) > 0
    ensures |st.open| > 1 && st.open == WithoutLast(st.open) + [Last(st.open)]
    ensures Last(WithoutLast(st.open)) == LastScope(st).parent < |st.scopes|
    ensures var p := At(st, LastScope(st).parent).phase; p.Running? || p.Settling?
  {
    assert Chain(st) && |st.open| > 1;
    var p := Last(WithoutLast(st.open));
    assert p == st.open[|st.open| - 2] && p in WithoutLast(st.open);
    hide Chain;
    ParentRuns(st, p);
  }

  lemma ParentRuns(st: State, p: nat)
    requires Opens(st) && ScopesOk(st) && Exists(st, p) && p in WithoutLast(st.open)
    ensures st.scopes[p].phase.Running? || st.scopes[p].phase.Settling?
  {
    assert st.scopes[p].childActive && ScopeOk(st.scopes[p], p);
  }

  // ------------------------------------------------------------ query answers

  // What an answered query does to its scope and to the database.
  datatype Effect = Effect(entry: Entry, applied: seq<Op>, fails: bool)

  function EffectOf(op: Op, end: Outcome): Effect {
    match end
    case Succeeds => Effect(Ran(op), [op], false)
    case DecodeFails => Effect(Rejected(op, true), [op], false)
    case ServerFails => Effect(Rejected(op, false), [], true)
    case _ => Effect(Rejected(op, false), [], false)
  }

  function Answered(scope: Scope, s: nat, op: Op, e: Effect): Scope {
    scope.(inFlight := scope.inFlight - {op}, history := scope.history + [e.entry],
           aborted := scope.aborted || (e.entry.Rejected? && s != 0))
  }

  function ServerAfter(v: Server, e: Effect): Server {
    v.(db := v.db + e.applied, failed := v.failed || e.fails)
  }

  function End(st: State, outcome: Outcome): Outcome {
    if st.server.failed && (outcome.Succeeds? || outcome.DecodeFails?) then ServerFails else outcome
  }

  lemma AnswerIs(st: State, s: nat, op: Op, outcome: Outcome)
    requires Exists(st, s) && (s == 0 ==> !st.scopes[s].aborted)
    ensures AnswerQuery(st, s, op, outcome)
         == if End(st, outcome).ConnectionLost?
            then Expire(Update(st, s, st.scopes[s].(inFlight := st.scopes[s].inFlight - {op})))
            else Update(st, s, Answered(st.scopes[s], s, op, EffectOf(op, End(st, outcome)))).(
                   server := ServerAfter(st.server, EffectOf(op, End(st, outcome))))
  {
    var e := EffectOf(op, End(st, outcome));
    assert st.server.db + [] == st.server.db;
  }

  lemma AnsweredOk(scope: Scope, s: nat, op: Op, end: Outcome)
    requires ScopeOk(scope, s) && (scope.phase.Running? || scope.phase.Settling? || scope.phase.Ending?)
    ensures ScopeOk(Answered(scope, s, op, EffectOf(op, end)), s)
    ensures Effects(Answered(scope, s, op, EffectOf(op, end)).history)
         == Effects(scope.history) + EffectOf(op, end).applied
  {
    CleanAppend(scope.history, EffectOf(op, end).entry);
    EffectsAppend(scope.history, EffectOf(op, end).entry);
    hide Clean, Effects;
  }

  // The database after an answer is the flow of the chain after it.
  lemma FlowGrows(st: State, st': State, s: nat, applied: seq<Op>)
    requires Processed(st) != [] && Processed(st') == Processed(st) && Last(Processed(st)) == s
    requires s !in WithoutLast(Processed(st)) && Exists(st, s) && Exists(st', s)
    requires forall i <- WithoutLast(Processed(st)) ::
               i < |st.scopes| && i < |st'.scopes| && Standing(st'.scopes[i]) == Standing(st.scopes[i])
    requires Standing(st'.scopes[s]) == Standing(st.scopes[s]) + applied
    requires MarksFit(st.scopes, st.server.marks, Processed(st))
    ensures Flow(st'.scopes, Processed(st)) == Flow(st.scopes, Processed(st)) + applied
    ensures MarksFit(st'.scopes, st.server.marks, Processed(st))
  {
    hide Standing, Processed;
    var chain := Processed(st);
    FlowSame(st.scopes, st'.scopes, WithoutLast(chain));
    MarksSame(st.scopes, st'.scopes, st.server.marks, chain);
    assert chain[..|chain| - 1] == WithoutLast(chain);
  }

  lemma QueryServer(st: State, s: nat, op: Op, end: Outcome)
    requires Structure(st) && s == Asker(st) && !Alone(LastScope(st).phase)
    requires MarksFit(st.scopes, st.server.marks, Processed(st)) && ServerOk(st)
    requires Exists(st, s)
    ensures var e := EffectOf(op, end);
            var st' := Update(st, s, Answered(st.scopes[s], s, op, e)).(server := ServerAfter(st.server, e));
            MarksFit(st'.scopes, st'.server.marks, Processed(st')) && ServerOk(st')
  {
    hide Flow, MarksFit, Effects, Chain, Opens;
    AskerShape(st);
    ProcessedIsChain(st);
    var e := EffectOf(op, end);
    var st' := Update(st, s, Answered(st.scopes[s], s, op, e)).(server := ServerAfter(st.server, e));
    assert ScopeOk(st.scopes[s], s);
    AnsweredOk(st.scopes[s], s, op, end);
    assert At(st', Last(st'.open)).phase == LastScope(st).phase;
    assert Processed(st') == Processed(st);
    assert e.fails ==> e.entry.Rejected?;
    hide Structure, ScopeOk, Processed, Asker, EffectOf;
    FlowGrows(st, st', s, e.applied);
  }

  lemma QueryViews(st: State, s: nat, scope: Scope, v: Server)
    requires Exists(st, s) && scope.phase == st.scopes[s].phase && scope.parent == st.scopes[s].parent
    ensures var st' := Update(Advanced(st), s, scope).(server := v);
            && Waiting(st') == Waiting(Advanced(st)) && Trailer(st') == Trailer(st) && Asker(st') == Asker(st)
            && LastScope(st').phase == LastScope(st).phase && st'.open == st.open
            && Sent(st') == Sent(st) && At(st', 0).phase == At(st, 0).phase
  {
  }

  lemma QueriesAdvance(st: State, st': State, cmds: seq<Command>, s: nat, op: Op)
    requires QueriesOf(st, cmds, s) && cmds != [] && cmds[0] == Query(s, op)
    requires st'.nextOp == st.nextOp && At(st', s).inFlight == At(st, s).inFlight - {op}
    ensures QueriesOf(st', cmds[1..], s)
  {
    forall k | 0 <= k < |cmds[1..]| ensures cmds[1..][k].Query? && cmds[1..][k].scope == s && cmds[1..][k].op != op {
      assert cmds[1..][k] == cmds[k + 1] && cmds[k + 1] != cmds[0];
    }
  }

  lemma QueryWaiting(st: State, s: nat, op: Op, scope: Scope, v: Server)
    requires Answering(st) && st.log[st.answered] == Query(s, op) && Exists(st, s)
    requires scope.phase == st.scopes[s].phase && scope.parent == st.scopes[s].parent
    requires scope.inFlight == st.scopes[s].inFlight - {op}
    ensures WaitingOk(Update(Advanced(st), s, scope).(server := v))
  {
    var st' := Update(Advanced(st), s, scope).(server := v);
    assert WaitingOk(st) && At(st', s).inFlight == scope.inFlight;
    hide Inv, WaitingOk, QueriesOf, Front, Asker, Waiting, Trailer, LastScope, Update, Alone, IsOpen;
    HeadQuery(st, s, op);
    QueryViews(st, s, scope, v);
    WaitingQueries(st);
    WaitingOpening(st);
    QueriesAdvance(st, st', Front(st), s, op);
    WaitingBy(st', Front(st)[1..]);
  }

  lemma WaitingOpening(st: State)
    requires WaitingOk(st)
    ensures LastScope(st).phase.Opening? ==> |st.open| > 1
  {
    hide QueriesOf, Front, Asker, LastScope;
  }

  lemma AdvanceKeepsShape(st: State)
    requires Structure(st) && WordOk(st)
    ensures Structure(Advanced(st)) && WordOk(Advanced(st))
  {
  }

  lemma QueryShape(st: State, s: nat, scope: Scope, v: Server)
    requires Structure(st) && WordOk(st) && Exists(st, s) && ScopeOk(scope, s)
    requires scope.parent == st.scopes[s].parent && scope.childActive == st.scopes[s].childActive
    requires scope.phase == st.scopes[s].phase
    ensures var st' := Update(Advanced(st), s, scope).(server := v);
            Structure(st') && WordOk(st')
  {
    var st' := Update(Advanced(st), s, scope).(server := v);
    hide Structure, WordOk, Sent, ScopeOk, IsOpen;
    UpdateKeepsStructure(st, s, scope);
    SameStructure(Update(st, s, scope), st');
    QueryViews(st, s, scope, v);
    QuietWord(st, st');
  }

  lemma QueryApplied(st: State, s: nat, op: Op, end: Outcome)
    requires Answering(st) && st.log[st.answered] == Query(s, op) && Exists(st, s)
    ensures var e := EffectOf(op, end);
            Inv(Update(Advanced(st), s, Answered(st.scopes[s], s, op, e)).(server := ServerAfter(st.server, e)))
  {
    var e := EffectOf(op, end);
    var scope := Answered(st.scopes[s], s, op, e);
    var st' := Update(Advanced(st), s, scope).(server := ServerAfter(st.server, e));
    HeadQuery(st, s, op);
    AskerShape(st);
    ScopeOkAt(st, s);
    AnsweredOk(st.scopes[s], s, op, end);
    hide Structure, ScopeOk, Effects, WaitingOk, WordOk, EffectOf, Asker, Processed, MarksFit, ServerOk, Flow;
    QueryShape(st, s, scope, ServerAfter(st.server, e));
    QueryWaiting(st, s, op, scope, ServerAfter(st.server, e));
    QueryServer(st, s, op, end);
    AdvancedServer(st', st'.(answered := st.answered));
  }

  // The server's side does not depend on how much was answered.
  lemma AdvancedServer(st: State, st': State)
    requires st == st'.(answered := st.answered)
    ensures Processed(st) == Processed(st') && (ServerOk(st) <==> ServerOk(st'))
  {
    hide Flow;
  }

  lemma AnswerQueryKeeps(st: State, s: nat, op: Op, outcome: Outcome)
    requires Answering(st) && st.log[st.answered] == Query(s, op)
    ensures Inv(AnswerQuery(Advanced(st), s, op, outcome))
  {
    HeadQuery(st, s, op);
    AskerShape(st);
    ScopeOkAt(st, s);
    var next := Advanced(st);
    AnswerIs(next, s, op, outcome);
    var dropped := st.scopes[s].(inFlight := st.scopes[s].inFlight - {op});
    assert ScopeOk(dropped, s);
    hide ScopeOk, AnswerQuery, Asker, Processed;
    if End(next, outcome).ConnectionLost? {
      QueryShape(st, s, dropped, st.server);
      ExpireKeeps(Update(next, s, dropped));
    } else {
      QueryApplied(st, s, op, End(next, outcome));
    }
  }

  // ---------------------------------------------------------- control answers

  lemma Assemble(st: State)
    requires Structure(st) && WordOk(st) && st.answered <= |st.log| && WaitingOk(st) && !IsEnded(st)
    requires MarksFit(st.scopes, st.server.marks, Processed(st)) && ServerOk(st)
    ensures Inv(st)
  {
    hide Structure, WordOk, WaitingOk, MarksFit, ServerOk, Processed;
  }

  // A server that has not failed, with the effects of the chain.
  lemma SoundServer(st: State)
    requires !st.server.failed && st.server.db == Flow(st.scopes, Processed(st))
    ensures ServerOk(st)
  {
    hide Flow, Processed;
  }

  lemma ExpiredAnswer(st: State, st': State)
    requires Structure(st) && WordOk(st) && st' == Expire(Advanced(st))
    ensures Inv(st')
  {
  }

  // With no queries waiting, the innermost scope has nothing or one command in front of it.
  lemma NoneWaiting(st: State)
    requires Waiting(st) == Trailer(st) && IsOpen(LastScope(st).phase)
    requires LastScope(st).phase.Opening? ==> |st.open| > 1
    ensures WaitingOk(st)
  {
    NoQueries(st, Asker(st));
    hide Waiting, Trailer, Asker, QueriesOf, LastScope, IsOpen, Alone;
    assert Trailer(st) == [] + Trailer(st);
    WaitingBy(st, []);
  }

  lemma OpenedShape(st: State, n: nat, v: Server)
    requires Structure(st) && WordOk(st) && !st.expired && Last(st.open) == n && LastScope(st).phase.Opening?
    ensures var st' := Update(Advanced(st), n, st.scopes[n].(phase := Running, active := true)).(server := v);
            && Structure(st') && WordOk(st') && LastScope(st').phase.Running? && Processed(st') == st.open
            && !IsEnded(st')
  {
    var scope := st.scopes[n].(phase := Running, active := true);
    assert ScopeOk(st.scopes[n], n) && ScopeOk(scope, n);
    OpeningShape(st);
    RootRunning(st);
    UpdateKeepsStructure(st, n, scope);
    hide ScopesOk, Opens, ScopeOk;
  }

  // The server's side of an accepted SAVEPOINT: one more mark, holding what stands now.
  lemma OpenedServer(st: State, n: nat)
    requires Structure(st) && Last(st.open) == n && LastScope(st).phase.Opening? && !st.server.failed
    requires MarksFit(st.scopes, st.server.marks, Processed(st)) && ServerOk(st)
    ensures var scopes := st.scopes[n := st.scopes[n].(phase := Running, active := true)];
            var v := AfterSavepoint(st.server, n);
            MarksFit(scopes, v.marks, st.open) && v.db == Flow(scopes, st.open)
  {
    OpeningShape(st);
    var scopes := st.scopes[n := st.scopes[n].(phase := Running, active := true)];
    var outer := WithoutLast(st.open);
    assert Processed(st) == outer && n !in outer;
    assert forall i <- outer :: i < |st.scopes| && Standing(scopes[i]) == Standing(st.scopes[i]);
    assert forall i :: i in WithoutLast(outer) ==> i in outer;
    assert Standing(scopes[n]) == [];
    hide Structure, Standing, Processed;
    FlowSame(st.scopes, scopes, outer);
    MarksSame(st.scopes, scopes, st.server.marks, outer);
    var v := AfterSavepoint(st.server, n);
    assert v.marks[..|v.marks| - 1] == st.server.marks && st.open[..|st.open| - 1] == outer;
    assert Flow(scopes, st.open) == Flow(scopes, outer) + [];
  }

  lemma AnswerSavepointKeeps(st: State, n: nat, lost: bool)
    requires Answering(st) && st.log[st.answered] == Savepoint(n)
    ensures Inv(AnswerSavepoint(Advanced(st), n, lost))
  {
    hide ScopesOk, Opens, Chain, MarksFit, Flow, Sent;
    HeadOther(st);
    assert LastScope(st).phase.Opening? && Last(st.open) == n && Exists(st, n);
    if lost || st.server.failed {
      ExpiredAnswer(st, Expire(Advanced(st)));
    } else {
      OpeningShape(st);
      RootRunning(st);
      var v := AfterSavepoint(st.server, n);
      var st' := Update(Advanced(st), n, st.scopes[n].(phase := Running, active := true)).(server := v);
      assert Waiting(st') == Waiting(Advanced(st)) == [];
      hide WordOk, Waiting, WaitingOk;
      OpenedShape(st, n, v);
      OpenedServer(st, n);
      assert Trailer(st') == [];
      NoneWaiting(st');
    }
  }

  // ROLLBACK TO finds its mark: the last one.
  lemma LastMark(st: State)
    requires MarksFit(st.scopes, st.server.marks, Processed(st)) && Processed(st) == st.open && |st.open| > 1
    ensures MarkIndex(st.server.marks, Last(st.open)) == |st.server.marks| - 1 >= 0
    ensures st.server.marks[|st.server.marks| - 1] == Mark(Last(st.open), Flow(st.scopes, WithoutLast(st.open)))
    ensures MarksFit(st.scopes, st.server.marks[..|st.server.marks| - 1], WithoutLast(st.open))
  {
  }

  predicate InnerOpen(st: State, n: nat) {
    && Last(st.open) == n && n > 0 && Exists(st, n) && |st.open| > 1 && Processed(st) == st.open
    && st.open == WithoutLast(st.open) + [n] && n !in WithoutLast(st.open)
    && !IsEnding(At(st, 0).phase)
  }

  lemma InnerShape(st: State)
    requires Structure(st) && (LastScope(st).phase.RollingBack? || LastScope(st).phase.Releasing?)
    ensures InnerOpen(st, Last(st.open)) && ScopeOk(LastScope(st), Last(st.open))
    ensures forall i <- WithoutLast(st.open) :: i < |st.scopes|
  {
    assert ScopeOk(LastScope(st), Last(st.open));
    RootRunning(st);
    ParentShape(st);
    hide ScopesOk, Opens, ScopeOk;
  }

  lemma RolledShape(st: State, n: nat, v: Server)
    requires Structure(st) && WordOk(st) && !st.expired && InnerOpen(st, n) && LastScope(st).phase.RollingBack?
    ensures var scope := st.scopes[n].(phase := Releasing(st.scopes[n].phase.ok, true));
            var st' := Send(Update(Advanced(st), n, scope).(server := v), Release(n));
            && Structure(st') && WordOk(st') && LastScope(st').phase.Releasing? && Processed(st') == st.open
            && !IsEnded(st')
  {
    var scope := st.scopes[n].(phase := Releasing(st.scopes[n].phase.ok, true));
    assert ScopeOk(st.scopes[n], n) && ScopeOk(scope, n);
    UpdateKeepsStructure(st, n, scope);
    ReplaySend(st.log, Release(n));
    hide ScopesOk, Opens, ScopeOk;
  }

  // The server's side of ROLLBACK TO: the effects of the scope are gone.
  lemma RolledServer(st: State, n: nat, scope: Scope)
    requires InnerOpen(st, n) && forall i <- WithoutLast(st.open) :: i < |st.scopes|
    requires MarksFit(st.scopes, st.server.marks, Processed(st)) && Standing(scope) == []
    ensures MarkIndex(st.server.marks, n) >= 0
    ensures var v := AfterRollbackTo(st.server, n);
            && MarksFit(st.scopes[n := scope], v.marks, st.open) && !v.failed
            && v.db == Flow(st.scopes[n := scope], st.open) == Flow(st.scopes, WithoutLast(st.open))
  {
    LastMark(st);
    var scopes := st.scopes[n := scope];
    var outer := WithoutLast(st.open);
    assert forall i <- outer :: Standing(scopes[i]) == Standing(st.scopes[i]);
    hide Standing, Processed;
    FlowSame(st.scopes, scopes, outer);
    MarksSame(st.scopes, scopes, st.server.marks, st.open);
    assert AfterRollbackTo(st.server, n).marks == st.server.marks;
    assert st.open[..|st.open| - 1] == outer;
    assert Flow(scopes, st.open) == Flow(scopes, outer) + [];
  }

  function RolledScope(st: State, n: nat): Scope
    requires Exists(st, n) && st.scopes[n].phase.RollingBack?
  {
    st.scopes[n].(phase := Releasing(st.scopes[n].phase.ok, true))
  }

  function RolledState(st: State, n: nat): State
    requires Exists(st, n) && st.scopes[n].phase.RollingBack? && MarkIndex(st.server.marks, n) >= 0
  {
    Send(Update(Advanced(st), n, RolledScope(st, n)).(server := AfterRollbackTo(st.server, n)), Release(n))
  }

  lemma RolledIs(st: State, n: nat)
    requires Exists(st, n) && st.scopes[n].phase.RollingBack? && MarkIndex(st.server.marks, n) >= 0
    ensures AnswerRollbackTo(Advanced(st), n, false) == RolledState(st, n)
    ensures Standing(RolledScope(st, n)) == []
    ensures RolledState(st, n).scopes == st.scopes[n := RolledScope(st, n)]
    ensures RolledState(st, n).open == st.open && !RolledState(st, n).expired == !st.expired
  {
    hide AfterRollbackTo;
  }

  lemma RolledStanding(st: State, n: nat)
    requires Exists(st, n) && st.scopes[n].phase.RollingBack?
    ensures Standing(RolledScope(st, n)) == []
  {
  }

  lemma RolledWaiting(st: State, n: nat)
    requires Exists(st, n) && st.scopes[n].phase.RollingBack? && MarkIndex(st.server.marks, n) >= 0
    requires Last(st.open) == n && Waiting(Advanced(st)) == [] && st.answered < |st.log|
    ensures WaitingOk(RolledState(st, n)) && RolledState(st, n).answered <= |RolledState(st, n).log|
  {
    hide AfterRollbackTo, Waiting;
    Appended(Advanced(st), RolledState(st, n), Release(n));
    NoneWaiting(RolledState(st, n));
  }

  lemma TrailerRollback(st: State, n: nat)
    requires Trailer(st) == [RollbackTo(n)]
    ensures LastScope(st).phase.RollingBack? && Last(st.open) == n
  {
  }

  lemma RollbackReady(st: State, n: nat)
    requires Answering(st) && st.log[st.answered] == RollbackTo(n)
    ensures Structure(st) && WordOk(st) && LastScope(st).phase.RollingBack? && InnerOpen(st, n)
    ensures Waiting(Advanced(st)) == [] && MarkIndex(st.server.marks, n) >= 0
    ensures var v := AfterRollbackTo(st.server, n);
            var scopes := st.scopes[n := RolledScope(st, n)];
            MarksFit(scopes, v.marks, st.open) && !v.failed && v.db == Flow(scopes, st.open)
  {
    hide Structure, Flow, WordOk, Waiting, Wire, Trailer, MarksFit, MarkIndex, ScopeOk, AfterRollbackTo, Standing;
    HeadOther(st);
    TrailerRollback(st, n);
    InnerShape(st);
    WireServer(st);
    RolledStanding(st, n);
    RolledServer(st, n, RolledScope(st, n));
  }

  lemma AnswerRollbackToKeeps(st: State, n: nat, lost: bool)
    requires Answering(st) && st.log[st.answered] == RollbackTo(n)
    ensures Inv(AnswerRollbackTo(Advanced(st), n, lost))
    ensures !lost ==> MarkIndex(st.server.marks, n) >= 0 && !AnswerRollbackTo(Advanced(st), n, lost).expired
    ensures !lost ==> AnswerRollbackTo(Advanced(st), n, lost).server == AfterRollbackTo(st.server, n)
  {
    hide Structure, ScopeOk, WordOk, Wire, Waiting, MarksFit, ServerOk, Flow, AfterRollbackTo, Standing, MarkIndex;
    RollbackReady(st, n);
    if lost {
      ExpiredAnswer(st, Expire(Advanced(st)));
    } else {
      RolledIs(st, n);
      RolledShape(st, n, AfterRollbackTo(st.server, n));
      RolledWaiting(st, n);
      RolledSound(st, n);
      hide RolledState, AnswerRollbackTo;
      Assemble(RolledState(st, n));
    }
  }

  lemma RolledSound(st: State, n: nat)
    requires InnerOpen(st, n) && st.scopes[n].phase.RollingBack? && MarkIndex(st.server.marks, n) >= 0
    requires var v := AfterRollbackTo(st.server, n);
             var scopes := st.scopes[n := RolledScope(st, n)];
             MarksFit(scopes, v.marks, st.open) && !v.failed && v.db == Flow(scopes, st.open)
    requires Processed(RolledState(st, n)) == st.open
    ensures var st' := RolledState(st, n);
            && ServerOk(st') && MarksFit(st'.scopes, st'.server.marks, Processed(st'))
            && st'.server == AfterRollbackTo(st.server, n) && !st'.expired == !st.expired
  {
    hide Flow, MarksFit, AfterRollbackTo, MarkIndex, Processed;
    SoundServer(RolledState(st, n));
  }

  // ------------------------------------------------------------------- release

  function ReleasedState(st: State, n: nat): State
    requires Exists(st, n) && st.scopes[n].phase.Releasing? && MarkIndex(st.server.marks, n) >= 0
  {
    var phase := st.scopes[n].phase;
    Leave(Advanced(st), n, Closed(phase.ok, phase.rolledBack), [Nested(n, st.scopes[n].history, !phase.rolledBack)]).(
      server := AfterRelease(st.server, n))
  }

  // What a release changes: its scope, its parent and the last mark.
  lemma ReleasedIs(st: State, n: nat)
    requires Exists(st, n) && st.scopes[n].phase.Releasing? && MarkIndex(st.server.marks, n) >= 0
    requires !st.server.failed && st.scopes[n].parent < n
    ensures AnswerRelease(Advanced(st), n, false) == ReleasedState(st, n)
    ensures ReleasedState(st, n).open == WithoutLast(st.open) && !ReleasedState(st, n).expired == !st.expired
    ensures ReleasedState(st, n).server == AfterRelease(st.server, n)
    ensures ReleasedState(st, n).log == st.log && ReleasedState(st, n).answered == st.answered + 1
    ensures ReleasedState(st, n).nextSavepoint == st.nextSavepoint
  {
    hide AfterRelease;
  }

  lemma ReleasedScopes(st: State, n: nat)
    requires Exists(st, n) && st.scopes[n].phase.Releasing? && MarkIndex(st.server.marks, n) >= 0
    requires st.scopes[n].parent < n
    ensures var p := st.scopes[n].parent;
            var scopes := ReleasedState(st, n).scopes;
            && |scopes| == |st.scopes| && scopes[p].phase == st.scopes[p].phase
            && scopes[p].history == st.scopes[p].history + [Nested(n, st.scopes[n].history, !st.scopes[n].phase.rolledBack)]
            && (forall i :: 0 <= i < |scopes| && i != n && i != p ==> scopes[i] == st.scopes[i])
  {
    hide AfterRelease;
  }

  lemma ReleasedShape(st: State, n: nat)
    requires Structure(st) && InnerOpen(st, n) && LastScope(st).phase.Releasing?
    requires MarkIndex(st.server.marks, n) >= 0
    ensures Structure(ReleasedState(st, n)) && st.scopes[n].parent < n
  {
    var phase := Closed(st.scopes[n].phase.ok, st.scopes[n].phase.rolledBack);
    var entry := Nested(n, st.scopes[n].history, !st.scopes[n].phase.rolledBack);
    assert ScopeOk(st.scopes[n], n);
    assert Clean([entry]);
    assert ScopeOk(st.scopes[n].(phase := phase, active := false), n);
    hide ScopesOk, Opens, Chain, ScopeOk, Clean, Leave;
    AdvancedStructure(st);
    LeaveKeepsStructure(Advanced(st), n, phase, [entry]);
    SameStructure(Leave(Advanced(st), n, phase, [entry]), ReleasedState(st, n));
  }

  lemma AdvancedStructure(st: State)
    requires Structure(st)
    ensures Structure(Advanced(st))
  {
  }

  lemma SameStructure(st: State, st': State)
    requires Structure(st) && st'.scopes == st.scopes && st'.open == st.open && st'.nextSavepoint == st.nextSavepoint
    ensures Structure(st')
  {
  }

  lemma ReleasedViews(st: State, n: nat)
    requires Structure(st) && WordOk(st) && !st.expired && InnerOpen(st, n) && LastScope(st).phase.Releasing?
    requires MarkIndex(st.server.marks, n) >= 0 && !st.server.failed
    ensures var st' := ReleasedState(st, n);
            && WordOk(st') && st'.open == WithoutLast(st.open) == Processed(st') && Trailer(st') == []
            && (LastScope(st').phase.Running? || LastScope(st').phase.Settling?) && !IsEnded(st')
  {
    ReleasedShape(st, n);
    ParentShape(st);
    hide Structure, AfterRelease;
    ReleasedIs(st, n);
    ReleasedScopes(st, n);
    hide ReleasedState;
    var st' := ReleasedState(st, n);
    assert At(st', st.scopes[n].parent).phase == At(st, st.scopes[n].parent).phase;
    assert IsEnding(At(st', 0).phase) == IsEnding(At(st, 0).phase);
  }

  lemma ReleasedStanding(st: State, n: nat)
    requires Exists(st, n) && st.scopes[n].phase.Releasing? && MarkIndex(st.server.marks, n) >= 0
    requires st.scopes[n].parent < n && !At(st, st.scopes[n].parent).phase.Releasing?
    ensures var p := st.scopes[n].parent;
            && Exists(ReleasedState(st, n), p)
            && Standing(ReleasedState(st, n).scopes[p]) == Standing(st.scopes[p]) + Standing(st.scopes[n])
  {
    var p := st.scopes[n].parent;
    ReleasedScopes(st, n);
    hide ReleasedState;
    EffectsAppend(st.scopes[p].history, Nested(n, st.scopes[n].history, !st.scopes[n].phase.rolledBack));
  }

  lemma ReleasedRest(st: State, n: nat, chain: seq<nat>)
    requires Exists(st, n) && st.scopes[n].phase.Releasing? && MarkIndex(st.server.marks, n) >= 0
    requires st.scopes[n].parent < n && n !in chain && st.scopes[n].parent !in chain
    requires forall i <- chain :: i < |st.scopes|
    ensures forall i <- chain :: i < |ReleasedState(st, n).scopes|
                                 && Standing(ReleasedState(st, n).scopes[i]) == Standing(st.scopes[i])
  {
    ReleasedScopes(st, n);
    hide ReleasedState;
  }

  lemma AfterReleaseMarks(st: State, n: nat)
    requires MarkIndex(st.server.marks, n) == |st.server.marks| - 1 >= 0
    ensures AfterRelease(st.server, n).marks == st.server.marks[..|st.server.marks| - 1]
    ensures AfterRelease(st.server, n).db == st.server.db
  {
  }

  // Replacing the last of a chain by its effects added to the one before.
  lemma FlowFolds(scopes: seq<Scope>, other: seq<Scope>, chain: seq<nat>, n: nat, p: nat)
    requires chain != [] && Last(chain) == n < |scopes| && WithoutLast(chain) != []
    requires Last(WithoutLast(chain)) == p < |scopes| && p < |other|
    requires forall i <- WithoutLast(WithoutLast(chain)) ::
               i < |scopes| && i < |other| && Standing(scopes[i]) == Standing(other[i])
    requires Standing(other[p]) == Standing(scopes[p]) + Standing(scopes[n])
    ensures Flow(other, WithoutLast(chain)) == Flow(scopes, chain)
  {
    hide Standing, Flow, WithoutLast, Last;
    var outer := WithoutLast(chain);
    FlowSame(scopes, other, WithoutLast(outer));
    FlowLast(scopes, chain, n);
    FlowLast(scopes, outer, p);
    FlowLast(other, outer, p);
    var a, b, c := Flow(scopes, WithoutLast(outer)), Standing(scopes[p]), Standing(scopes[n]);
    assert a + (b + c) == a + b + c;
  }

  // The server's side of RELEASE: the effects of the scope become its parent's.
  lemma ReleasedServer(st: State, n: nat)
    requires InnerOpen(st, n) && forall i <- WithoutLast(st.open) :: i < |st.scopes|
    requires LastScope(st).phase.Releasing? && Last(WithoutLast(st.open)) == st.scopes[n].parent < n
    requires st.scopes[n].parent !in WithoutLast(WithoutLast(st.open)) && !st.server.failed
    requires !At(st, st.scopes[n].parent).phase.Releasing? && WithoutLast(st.open) != []
    requires MarksFit(st.scopes, st.server.marks, Processed(st)) && st.server.db == Flow(st.scopes, st.open)
    ensures MarkIndex(st.server.marks, n) >= 0
    ensures var st' := ReleasedState(st, n);
            MarksFit(st'.scopes, st'.server.marks, st'.open) && st'.server.db == Flow(st'.scopes, st'.open)
  {
    LastMark(st);
    RootOfOuter(st.open, n);
    hide Standing, ReleasedState, AfterRelease, MarkIndex, Processed, Flow, MarksFit, WithoutLast;
    var root := WithoutLast(WithoutLast(st.open));
    ReleasedStanding(st, n);
    ReleasedRest(st, n, root);
    ReleasedIs(st, n);
    AfterReleaseMarks(st, n);
    var st' := ReleasedState(st, n);
    MarksSame(st.scopes, st'.scopes, st'.server.marks, WithoutLast(st.open));
    FlowFolds(st.scopes, st'.scopes, st.open, n, st.scopes[n].parent);
  }

  lemma RootOfOuter(open: seq<nat>, n: nat)
    ensures forall i <- WithoutLast(WithoutLast(open)) :: i in WithoutLast(open)
  {
  }

  lemma FlowLast(scopes: seq<Scope>, chain: seq<nat>, i: nat)
    requires chain != [] && Last(chain) == i < |scopes|
    ensures Flow(scopes, chain) == Flow(scopes, WithoutLast(chain)) + Standing(scopes[i])
  {
  }

  lemma TrailerRelease(st: State, n: nat)
    requires Trailer(st) == [Release(n)]
    ensures LastScope(st).phase.Releasing? && Last(st.open) == n
  {
  }

  lemma WireServer(st: State)
    requires Wire(st) && !IsEnded(st)
    ensures MarksFit(st.scopes, st.server.marks, Processed(st)) && st.server.db == Flow(st.scopes, Processed(st))
    ensures LastScope(st).phase.Releasing? ==> !st.server.failed
  {
    hide MarksFit, Flow, Processed, WaitingOk;
  }

  lemma ReleaseReady(st: State, n: nat)
    requires Answering(st) && st.log[st.answered] == Release(n)
    ensures Structure(st) && LastScope(st).phase.Releasing? && Last(st.open) == n && InnerOpen(st, n)
    ensures !st.server.failed && st.server.db == Flow(st.scopes, st.open)
    ensures MarkIndex(st.server.marks, n) >= 0 && Waiting(Advanced(st)) == [] && WordOk(st)
    ensures MarksFit(st.scopes, st.server.marks, st.open) && st.scopes[n].parent < n
    ensures ScopeOk(st.scopes[n], n) && Exists(st, n)
  {
    hide Structure, Flow, WordOk, Waiting, Wire, Trailer, MarksFit, MarkIndex, ScopeOk;
    HeadOther(st);
    TrailerRelease(st, n);
    InnerShape(st);
    ParentBelow(st, n);
    WireServer(st);
    LastMark(st);
  }

  lemma ParentBelow(st: State, n: nat)
    requires Exists(st, n) && n > 0 && ScopeOk(st.scopes[n], n)
    ensures st.scopes[n].parent < n
  {
  }

  lemma AnswerReleaseKeeps(st: State, n: nat, lost: bool)
    requires Answering(st) && st.log[st.answered] == Release(n)
    ensures Inv(AnswerRelease(Advanced(st), n, lost))
    ensures !lost ==> Exists(st, n) && st.scopes[n].phase.Releasing? && MarkIndex(st.server.marks, n) >= 0
    ensures !lost ==> AnswerRelease(Advanced(st), n, lost) == ReleasedState(st, n)
  {
    hide Inv, Structure, WordOk, WaitingOk, Waiting, MarksFit, ServerOk, Flow, ScopeOk;
    ReleaseReady(st, n);
    ParentShape(st);
    LeaveChain(st, n);
    ReleaseParent(st);
    if lost {
      ExpiredAnswer(st, Expire(Advanced(st)));
    } else {
      ReleaseServerReady(st, n);
      ReleasedIs(st, n);
      ReleasedShape(st, n);
      ReleasedViews(st, n);
      hide ReleasedState, AnswerRelease, AfterRelease;
      SoundServer(ReleasedState(st, n));
      SameWaiting(Advanced(st), ReleasedState(st, n));
      NoneWaiting(ReleasedState(st, n));
      Assemble(ReleasedState(st, n));
    }
  }

  lemma ReleaseServerReady(st: State, n: nat)
    requires Answering(st) && st.log[st.answered] == Release(n)
    ensures Exists(st, n) && st.scopes[n].phase.Releasing? && MarkIndex(st.server.marks, n) >= 0
    ensures var st' := ReleasedState(st, n);
            && MarksFit(st'.scopes, st'.server.marks, st'.open) && st'.server.db == Flow(st'.scopes, st'.open)
            && !st'.server.failed
  {
    hide Inv, WordOk, WaitingOk, Waiting, MarksFit, ServerOk, Flow, ScopeOk;
    ReleaseReady(st, n);
    ParentShape(st);
    LeaveChain(st, n);
    ReleaseParent(st);
    assert forall i <- WithoutLast(st.open) :: i < |st.scopes|;
    hide Structure, Processed;
    ReleasedServer(st, n);
    ReleasedIs(st, n);
  }

  lemma ReleaseParent(st: State)
    requires Structure(st) && |st.open| > 1
    ensures Last(WithoutLast(st.open)) !in WithoutLast(WithoutLast(st.open))
  {
    hide ScopesOk, Opens;
  }

  // -------------------------------------------------------------------- the end

  lemma EndedShape(st: State, committed: bool, v: Server)
    requires Structure(st) && WordOk(st) && At(st, 0).phase.Ending? && Exists(st, 0) && Last(st.open) == 0
    ensures var st' := Update(Advanced(st), 0, st.scopes[0].(phase := Ended(committed))).(server := v);
            Structure(st') && WordOk(st') && Last(st'.open) == 0
  {
    var scope := st.scopes[0].(phase := Ended(committed));
    assert ScopeOk(st.scopes[0], 0) && ScopeOk(scope, 0);
    UpdateKeepsStructure(st, 0, scope);
    hide ScopesOk, Opens, ScopeOk, Chain;
  }

  lemma RootFlow(st: State)
    requires Processed(st) == [0] && ServerOk(st) && Exists(st, 0) && !st.scopes[0].phase.Releasing?
    ensures st.server.db == Effects(st.scopes[0].history)
  {
    hide Effects;
    assert [0][..0] == [];
    assert Flow(st.scopes, []) == [];
  }

  function EndedState(st: State, committed: bool): State
    requires Exists(st, 0)
  {
    Update(Advanced(st), 0, st.scopes[0].(phase := Ended(committed))).(
      server := Server(if committed then st.server.db else [], [], false))
  }

  lemma EndedWire(st: State, committed: bool)
    requires Exists(st, 0) && Last(st.open) == 0 && st.answered < |st.log| && Waiting(Advanced(st)) == []
    requires committed ==> st.server.db == Effects(st.scopes[0].history)
    ensures Wire(EndedState(st, committed))
  {
    hide Waiting, Effects, WaitingOk;
    SameWaiting(Advanced(st), EndedState(st, committed));
    NoneWaiting(EndedState(st, committed));
  }

  lemma EndReady(st: State, commit: bool)
    requires Answering(st) && st.log[st.answered] == if commit then Commit else Rollback
    ensures Exists(st, 0) && At(st, 0).phase.Ending? && Last(st.open) == 0 && st.open == [0]
    ensures Waiting(Advanced(st)) == [] && st.server.db == Effects(st.scopes[0].history)
    ensures Structure(st) && WordOk(st)
  {
    HeadOther(st);
    assert LastScope(st).phase.Ending?;
    EndingRoot(st);
    RootFlow(st);
  }

  lemma AnswerEndKeeps(st: State, commit: bool, lost: bool)
    requires Answering(st) && st.log[st.answered] == if commit then Commit else Rollback
    ensures Inv(AnswerEnd(Advanced(st), commit, lost))
    ensures !lost && commit && !st.server.failed ==>
              AnswerEnd(Advanced(st), commit, lost).server.db == Effects(At(st, 0).history)
    ensures !lost && !(commit && !st.server.failed) ==> AnswerEnd(Advanced(st), commit, lost).server.db == []
  {
    EndReady(st, commit);
    hide Structure, WordOk, Waiting, Effects, WaitingOk, ServerOk, MarksFit, Flow, Wire;
    if lost {
      ExpiredAnswer(st, Expire(Advanced(st)));
    } else {
      var committed := commit && !st.server.failed;
      EndedShape(st, committed, Server(if committed then st.server.db else [], [], false));
      EndedWire(st, committed);
    }
  }

  lemma EndingRoot(st: State)
    requires Structure(st) && LastScope(st).phase.Ending?
    ensures Last(st.open) == 0 && st.open == [0] == Processed(st) && Exists(st, 0) && At(st, 0).phase.Ending?
  {
    assert ScopeOk(LastScope(st), Last(st.open));
    hide ScopesOk, Opens, ScopeOk;
    assert |st.open| == 1;
  }

  lemma LateKeeps(st: State, v: Server)
    requires Inv(st) && st.expired
    ensures Inv(Advanced(st).(server := v))
  {
  }

  lemma AnswerKeeps(st: State, outcome: Outcome, late: Server)
    requires Inv(st)
    ensures Inv(Answer(st, outcome, late))
  {
    hide Inv, AnswerQuery, AnswerSavepoint, AnswerRollbackTo, AnswerRelease, AnswerEnd;
    if st.answered < |st.log| {
      if st.expired {
        LateKeeps(st, late);
      } else {
        match st.log[st.answered]
        case Query(s, op) => AnswerQueryKeeps(st, s, op, outcome);
        case Savepoint(n) => AnswerSavepointKeeps(st, n, outcome.ConnectionLost?);
        case RollbackTo(n) => AnswerRollbackToKeeps(st, n, outcome.ConnectionLost?);
        case Release(n) => AnswerReleaseKeeps(st, n, outcome.ConnectionLost?);
        case Commit => AnswerEndKeeps(st, true, outcome.ConnectionLost?);
        case Rollback => AnswerEndKeeps(st, false, outcome.ConnectionLost?);
      }
    }
  }

  lemma StepKeeps(st: State, step: Step)
    requires Inv(st) && CalmStep(st, step)
    ensures Inv(Next(st, step))
  {
    hide Inv, Execute, OpenSavepoint, CallbackEnds, Settle, RejectQuery, Unwind, Expire, Answer;
    match step
    case DoExecute(s, local, hook) => ExecuteKeeps(st, s, local, hook);
    case DoSavepoint(s) => OpenKeeps(st, s);
    case DoCallbackEnds(s, ok) => CallbackEndsKeeps(st, s, ok);
    case DoSettle(s) => SettleKeeps(st, s);
    case DoReject(s, op) => RejectKeeps(st, s, op);
    case DoUnwind(s) => UnwindKeeps(st, s);
    case DoExpire => ExpireAny(st);
    case DoAnswer(outcome, late) => AnswerKeeps(st, outcome, late);
  }

  // Every calm run keeps the invariant.
  lemma {:induction false} RunKeeps(steps: seq<Step>)
    requires Calm(steps)
    ensures Inv(Run(INITIAL, steps))
  {
    hide Inv, Next, CalmStep;
    if steps == [] {
      InitialInv();
    } else {
      RunKeeps(steps[..|steps| - 1]);
      StepKeeps(Run(INITIAL, steps[..|steps| - 1]), steps[|steps| - 1]);
    }
  }
}
