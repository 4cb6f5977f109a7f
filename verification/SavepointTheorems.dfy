/**
 What a transaction with savepoints promises: every calm run keeps it, and no other run has
 nested commands.
 */
module SavepointTheorems {
  import opened Wrappers
  import opened SavepointModel
  import opened SavepointSafety
  import opened SavepointHooks
  import opened SavepointAnswers

  // Main result: the commands of a run form a nested word if and only if the run is calm, that
  // is, no query is sent by a client on which the query's hook has opened a savepoint. In a
  // nested word SAVEPOINT names are never reused, only the innermost savepoint is rolled back to
  // or released, and queries come only from the innermost open scope.
  lemma CommandsAreNested(steps: seq<Step>)
    ensures Replay(Run(INITIAL, steps).log).Some? <==> Calm(steps)
  {
    hide Run, Replay, Structure, Wire, Calm;
    if Calm(steps) {
      RunKeeps(steps);
    } else {
      UncalmRun(steps);
    }
  }

  lemma {:induction false} UncalmRun(steps: seq<Step>)
    requires !Calm(steps)
    ensures Broke(Run(INITIAL, steps))
  {
    var before, last := steps[..|steps| - 1], steps[|steps| - 1];
    var st := Run(INITIAL, before);
    assert Run(INITIAL, steps) == Next(st, last);
    hide Inv, Broke, Execute, CalmExecute;
    if !Calm(before) {
      UncalmRun(before);
      StepBroke(st, last);
    } else {
      RunKeeps(before);
      ExecuteBreaks(st, last.s, last.local, last.hook);
    }
  }

  // Runs whose hooks never call savepoint are calm.
  predicate OpensNone(hook: Hook) {
    hook.Then? ==> CallOpensNone(hook.call) && OpensNone(hook.rest)
  }

  predicate CallOpensNone(call: Call) {
    !call.CallSavepoint? && (call.CallExecute? ==> OpensNone(call.hook))
  }

  lemma {:induction false} QueriesStayCalm(st: State, s: nat, local: bool, hook: Hook)
    requires OpensNone(hook)
    ensures CalmExecute(st, s, local, hook)
    decreases hook, 1
  {
    HookStaysCalm(st, hook);
  }

  lemma {:induction false} HookStaysCalm(st: State, hook: Hook)
    requires OpensNone(hook)
    ensures CalmHook(st, hook) && forall s :: Accepts(st, s) ==> Accepts(RunHook(st, hook), s)
    decreases hook, 0
  {
    match hook
    case Quiet =>
    case Then(call, rest) =>
      HookStaysCalm(RunCall(st, call), rest);
      if call.CallExecute? {
        QueriesStayCalm(st, call.s, call.local, call.hook);
        HookStaysCalm(st, call.hook);
      }
  }

  lemma {:induction false} QuietRunsAreCalm(steps: seq<Step>)
    requires forall step <- steps :: step.DoExecute? ==> OpensNone(step.hook)
    ensures Calm(steps)
  {
    if steps == [] {
    } else {
      var last := steps[|steps| - 1];
      QuietRunsAreCalm(steps[..|steps| - 1]);
      if last.DoExecute? {
        QueriesStayCalm(Run(INITIAL, steps[..|steps| - 1]), last.s, last.local, last.hook);
      }
    }
  }

  // Once the transaction has expired its scopes send nothing more: only the driver's final
  // COMMIT or ROLLBACK can follow.
  lemma ExpiredIsSilent(st: State, step: Step)
    requires st.expired
    ensures Next(st, step).expired
    ensures var log := Next(st, step).log;
            log == st.log || (step == DoSettle(0) && (log == st.log + [Commit] || log == st.log + [Rollback]))
  {
  }

  // The server's answer to SAVEPOINT records the database as it is, and is accepted exactly
  // when no query of the enclosing scope has left the transaction failed.
  lemma SavepointRecordsDatabase(st: State, n: nat, outcome: Outcome, late: Server)
    requires Answering(st) && st.log[st.answered] == Savepoint(n)
    ensures var st' := Answer(st, outcome, late);
            if outcome.ConnectionLost? || st.server.failed then st'.expired
            else !st'.expired && st'.server == AfterSavepoint(st.server, n)
  {
    HeadOther(st);
    OpeningExists(st, n);
    hide Inv, Waiting, Trailer;
  }

  lemma OpeningExists(st: State, n: nat)
    requires Answering(st) && Trailer(st) == [Savepoint(n)]
    ensures Exists(st, n)
  {
  }

  // What a mark holds never changes: the marks only grow and shrink at the end.
  lemma MarksPersist(st: State, step: Step)
    requires !Next(st, step).expired
    ensures var a, b := st.server.marks, Next(st, step).server.marks;
            forall k :: 0 <= k < |a| && k < |b| ==> a[k] == b[k]
  {
    hide Execute, OpenSavepoint, CallbackEnds, Settle, RejectQuery, Unwind;
    match step
    case DoAnswer(outcome, late) =>
    case DoExecute(s, local, hook) => ServerUntouched(st, step);
    case DoSavepoint(s) => ServerUntouched(st, step);
    case DoCallbackEnds(s, ok) => ServerUntouched(st, step);
    case DoSettle(s) => ServerUntouched(st, step);
    case DoReject(s, op) => ServerUntouched(st, step);
    case DoUnwind(s) => ServerUntouched(st, step);
    case DoExpire =>
  }

  lemma ServerUntouched(st: State, step: Step)
    requires !step.DoAnswer?
    ensures Next(st, step).server == st.server
  {
    if step.DoExecute? {
      ExecuteCalls(st, step.s, step.local, step.hook);
      hide Execute;
    }
  }

  // Turn k answers the SAVEPOINT of the mark, and the mark holds the database of that moment.
  predicate TakenAt(steps: seq<Step>, k: nat, mark: Mark) {
    && k < |steps| && steps[k].DoAnswer?
    && var st := Run(INITIAL, steps[..k]);
    && !st.expired && st.answered < |st.log| && st.log[st.answered] == Savepoint(mark.name)
    && mark.saved == st.server.db
  }

  ghost predicate IsSnapshot(steps: seq<Step>, mark: Mark) {
    exists k: nat :: TakenAt(steps, k, mark)
  }

  lemma NewMark(st: State, step: Step, i: nat)
    requires !Next(st, step).expired && |st.server.marks| <= i < |Next(st, step).server.marks|
    ensures step.DoAnswer? && !st.expired && st.answered < |st.log| && st.log[st.answered].Savepoint?
    ensures Next(st, step).server.marks[i] == Mark(st.log[st.answered].name, st.server.db)
  {
    if !step.DoAnswer? {
      ServerUntouched(st, step);
    }
    hide Execute, OpenSavepoint, CallbackEnds, Settle, RejectQuery, Unwind;
  }

  // Every mark of a run is the database as it was when its SAVEPOINT was answered.
  lemma {:induction false} MarkIsSnapshot(steps: seq<Step>, i: nat)
    requires !Run(INITIAL, steps).expired && i < |Run(INITIAL, steps).server.marks|
    ensures IsSnapshot(steps, Run(INITIAL, steps).server.marks[i])
  {
    if steps == [] {
    } else {
      var before, last := steps[..|steps| - 1], steps[|steps| - 1];
      var st := Run(INITIAL, before);
      StaysExpired(st, last);
      MarksPersist(st, last);
      if i < |st.server.marks| {
        MarkIsSnapshot(before, i);
        hide Run, Next;
        var k: nat :| TakenAt(before, k, st.server.marks[i]);
        assert steps[..k] == before[..k];
        assert TakenAt(steps, k, st.server.marks[i]);
      } else {
        NewMark(st, last, i);
        hide Next;
        assert TakenAt(steps, |before|, Run(INITIAL, steps).server.marks[i]);
      }
    }
  }

  lemma StaysExpired(st: State, step: Step)
    ensures st.expired ==> Next(st, step).expired
  {
    if st.expired {
      ExpiredIsSilent(st, step);
    }
  }

  // How savepoint n closes: it keeps its effects when its callback returned and none of its own
  // queries failed; otherwise the database is again what its mark holds.
  predicate Closes(st: State, st': State, n: nat) {
    && Exists(st, n) && Exists(st', n) && !st'.expired && st'.scopes[n].phase.Closed?
    && st'.scopes[n].history == st.scopes[n].history && st.server.marks != []
    && var mark := st.server.marks[|st.server.marks| - 1];
    && mark.name == n && st'.server.marks == st.server.marks[..|st.server.marks| - 1]
    && var kept := st'.scopes[n].phase.ok && Clean(st.scopes[n].history);
    && st'.scopes[n].phase.rolledBack == !kept
    && st'.server.db == mark.saved + if kept then Effects(st.scopes[n].history) else []
  }

  lemma ReleaseCloses(st: State, n: nat, outcome: Outcome, late: Server)
    requires Answering(st) && st.log[st.answered] == Release(n) && !outcome.ConnectionLost?
    ensures Closes(st, Answer(st, outcome, late), n)
  {
    AnswerReleaseKeeps(st, n, false);
    ReleaseReady(st, n);
    ClosedScope(st, n);
    ClosedDatabase(st, n);
    hide Inv, ReleasedState;
  }

  // Main result: in a calm run a savepoint keeps its effects exactly when its callback returned
  // and none of its own queries failed; otherwise the database is again what it was when its
  // SAVEPOINT was answered.
  lemma SavepointOutcome(steps: seq<Step>, n: nat, outcome: Outcome, late: Server)
    requires Calm(steps)
    requires var st := Run(INITIAL, steps);
             !st.expired && st.answered < |st.log| && st.log[st.answered] == Release(n)
    requires !outcome.ConnectionLost?
    ensures var st := Run(INITIAL, steps);
            && Closes(st, Answer(st, outcome, late), n)
            && IsSnapshot(steps, st.server.marks[|st.server.marks| - 1])
  {
    hide Run, Inv, IsSnapshot, Answer, Calm;
    RunKeeps(steps);
    var st := Run(INITIAL, steps);
    ReleaseCloses(st, n, outcome, late);
    MarkIsSnapshot(steps, |st.server.marks| - 1);
  }

  lemma ClosedScope(st: State, n: nat)
    requires Exists(st, n) && st.scopes[n].phase.Releasing? && MarkIndex(st.server.marks, n) >= 0
    requires st.scopes[n].parent < n && ScopeOk(st.scopes[n], n) && n > 0 && !st.expired
    ensures var st' := ReleasedState(st, n);
            && Exists(st', n) && st'.scopes[n].phase == Closed(st.scopes[n].phase.ok, st.scopes[n].phase.rolledBack)
            && st'.scopes[n].history == st.scopes[n].history && !st'.expired
            && (st.scopes[n].phase.rolledBack <==> !st.scopes[n].phase.ok || !Clean(st.scopes[n].history))
  {
    hide AfterRelease;
  }

  lemma ClosedDatabase(st: State, n: nat)
    requires Exists(st, n) && InnerOpen(st, n) && st.scopes[n].phase.Releasing? && !st.server.failed
    requires MarksFit(st.scopes, st.server.marks, st.open) && st.server.db == Flow(st.scopes, st.open)
    requires st.scopes[n].parent < n
    ensures st.server.marks != [] && MarkIndex(st.server.marks, n) == |st.server.marks| - 1
    ensures var mark := st.server.marks[|st.server.marks| - 1];
            && mark.name == n && st.server.db == mark.saved + Standing(st.scopes[n])
            && ReleasedState(st, n).server == st.server.(marks := st.server.marks[..|st.server.marks| - 1])
  {
    LastMark(st);
    ReleasedIs(st, n);
    hide ReleasedState, Standing;
    FlowLast(st.scopes, st.open, n);
  }

  // ROLLBACK TO and RELEASE are never refused by the server, only lost with the connection.
  lemma ControlsAreAccepted(steps: seq<Step>, outcome: Outcome, late: Server)
    requires Calm(steps)
    requires var st := Run(INITIAL, steps);
             && !st.expired && st.answered < |st.log|
             && (st.log[st.answered].RollbackTo? || st.log[st.answered].Release?)
    ensures Answer(Run(INITIAL, steps), outcome, late).expired <==> outcome.ConnectionLost?
  {
    RunKeeps(steps);
    var st := Run(INITIAL, steps);
    hide Run, Inv, AnswerRollbackTo, ReleasedState;
    match st.log[st.answered]
    case RollbackTo(n) =>
      AnswerRollbackToKeeps(st, n, outcome.ConnectionLost?);
      RolledExpires(st, n);
    case Release(n) =>
      AnswerReleaseKeeps(st, n, outcome.ConnectionLost?);
      ReleasedExpires(st, n);
    case _ =>
  }

  lemma RolledExpires(st: State, n: nat)
    ensures AnswerRollbackTo(Advanced(st), n, true).expired
  {
  }

  lemma ReleasedExpires(st: State, n: nat)
    ensures AnswerRelease(Advanced(st), n, true).expired
    ensures Exists(st, n) && st.scopes[n].phase.Releasing? && MarkIndex(st.server.marks, n) >= 0 ==>
              ReleasedState(st, n).expired == st.expired
  {
    hide AfterRelease;
  }

  // ------------------------------------------------------------------- histories

  predicate RecordOk(scopes: seq<Scope>, s: nat, e: Entry) {
    e.Nested? ==>
      && e.name < |scopes| && scopes[e.name].parent == s && scopes[e.name].phase.Closed?
      && scopes[e.name].history == e.entries && (e.kept <==> !scopes[e.name].phase.rolledBack)
  }

  // Every child recorded in a history is closed, with that history and that outcome, and no
  // savepoint is left without an end while the transaction has not expired.
  predicate Recorded(st: State) {
    && (forall s, e :: 0 <= s < |st.scopes| && e in st.scopes[s].history ==> RecordOk(st.scopes, s, e))
    && (!st.expired ==> forall s :: 0 <= s < |st.scopes| ==> !st.scopes[s].phase.Broken?)
  }

  // One scope moves on: closed scopes stay, histories grow by what is on record.
  predicate MovesOn(st: State, st': State, s: nat) {
    && s < |st'.scopes| && (!st'.expired ==> !st'.scopes[s].phase.Broken? || At(st, s).phase.Broken?)
    && if s < |st.scopes| then
         var a, b := st.scopes[s], st'.scopes[s];
         && b.parent == a.parent && (a.phase.Closed? ==> b == a)
         && (b.history == a.history
             || (b.history != [] && b.history[..|b.history| - 1] == a.history
                 && RecordOk(st'.scopes, s, b.history[|b.history| - 1])))
       else st'.scopes[s].history == []
  }

  predicate MoveOn(st: State, st': State) {
    && |st.scopes| <= |st'.scopes| && (st.expired ==> st'.expired)
    && forall s :: 0 <= s < |st'.scopes| ==> MovesOn(st, st', s)
  }

  lemma RecordStays(st: State, st': State, s: nat, e: Entry)
    requires MoveOn(st, st') && RecordOk(st.scopes, s, e)
    ensures RecordOk(st'.scopes, s, e)
  {
    if e.Nested? {
      assert MovesOn(st, st', e.name);
    }
  }

  lemma RecordedMoves(st: State, st': State)
    requires Recorded(st) && MoveOn(st, st')
    ensures Recorded(st')
  {
    forall s, e | 0 <= s < |st'.scopes| && e in st'.scopes[s].history ensures RecordOk(st'.scopes, s, e) {
      assert MovesOn(st, st', s);
      if s < |st.scopes| {
        var h := st'.scopes[s].history;
        if e in st.scopes[s].history {
          RecordStays(st, st', s, e);
        } else {
          assert e == h[|h| - 1];
        }
      }
    }
    forall s | 0 <= s < |st'.scopes| && !st'.expired ensures !st'.scopes[s].phase.Broken? {
      assert MovesOn(st, st', s);
    }
  }

  // A step on one open scope that leaves its history, or adds a query to it.
  lemma UpdateMoves(st: State, st': State, s: nat)
    requires Exists(st, s) && |st'.scopes| == |st.scopes| && st'.scopes == st.scopes[s := st'.scopes[s]]
    requires st.expired ==> st'.expired
    requires st'.scopes[s].parent == st.scopes[s].parent && !st.scopes[s].phase.Closed?
    requires !st'.scopes[s].phase.Broken? || st.scopes[s].phase.Broken?
    requires var a, b := st.scopes[s].history, st'.scopes[s].history;
             b == a || (b != [] && b[..|b| - 1] == a && !b[|b| - 1].Nested?)
    ensures MoveOn(st, st')
  {
    forall i | 0 <= i < |st'.scopes| ensures MovesOn(st, st', i) {
    }
  }

  lemma SameMoves(st: State, st': State)
    requires st'.scopes == st.scopes && (st.expired ==> st'.expired)
    ensures MoveOn(st, st')
  {
  }

  lemma OpenMoves(st: State, s: nat)
    requires Inv(st)
    ensures MoveOn(st, OpenSavepoint(st, s))
  {
    if Accepts(st, s) && !st.expired {
      ScopeOkAt(st, s);
      hide Inv;
      var st' := OpenSavepoint(st, s);
      forall i | 0 <= i < |st'.scopes| ensures MovesOn(st, st', i) {
        assert i < |st.scopes| && i != s ==> st'.scopes[i] == st.scopes[i];
      }
    }
  }

  // Leaving a savepoint closes it and may record it with its parent.
  lemma LeaveMoves(st: State, n: nat, phase: Phase, entries: seq<Entry>)
    requires Exists(st, n) && st.scopes[n].parent < n && !st.scopes[n].phase.Closed?
    requires !st.scopes[st.scopes[n].parent].phase.Closed?
    requires phase.Closed? || (phase.Broken? && st.expired)
    requires entries == [] || (phase.Closed? && entries == [Nested(n, st.scopes[n].history, !phase.rolledBack)])
    ensures MoveOn(st, Leave(st, n, phase, entries))
  {
    var st' := Leave(st, n, phase, entries);
    var p := st.scopes[n].parent;
    forall i | 0 <= i < |st'.scopes| ensures MovesOn(st, st', i) {
      if i == p && entries != [] {
        var b := st'.scopes[p].history;
        assert b == st.scopes[p].history + entries && b[..|b| - 1] == st.scopes[p].history;
        assert st'.scopes[n].phase == phase && st'.scopes[n].history == st.scopes[n].history;
      }
    }
  }

  // The parent of an innermost savepoint is open.
  lemma ParentOpen(st: State, n: nat)
    requires Inv(st) && Exists(st, n) && n > 0 && IsOpen(st.scopes[n].phase) && !st.scopes[n].childActive
    ensures st.scopes[n].parent < n && !st.scopes[st.scopes[n].parent].phase.Closed?
  {
    Innermost(st, n);
    ParentShape(st);
    ScopeOkAt(st, n);
  }

  lemma SettleMoves(st: State, s: nat)
    requires Inv(st)
    ensures MoveOn(st, Settle(st, s))
  {
    var st' := Settle(st, s);
    if st' == st {
      SameMoves(st, st');
    } else {
      if s > 0 && st.expired {
        ParentOpen(st, s);
        LeaveMoves(st, s, Broken, []);
      } else {
        hide Inv;
        UpdateMoves(st, st', s);
      }
    }
  }

  lemma RejectMoves(st: State, s: nat, op: Op)
    requires Inv(st)
    ensures MoveOn(st, RejectQuery(st, s, op))
  {
    var st' := RejectQuery(st, s, op);
    if st' == st {
      SameMoves(st, st');
    } else {
      ScopeOkAt(st, s);
      hide Inv;
      UpdateMoves(st, st', s);
    }
  }

  lemma UnwindMoves(st: State, s: nat)
    requires Inv(st)
    ensures MoveOn(st, Unwind(st, s))
  {
    var st' := Unwind(st, s);
    if st' == st {
      SameMoves(st, st');
    } else {
      ScopeOkAt(st, s);
      ParentOpen(st, s);
      LeaveMoves(st, s, Broken, []);
    }
  }

  lemma ExecuteMoves(st: State, s: nat, local: bool, hook: Hook)
    requires Inv(st)
    ensures MoveOn(st, Execute(st, s, local, hook))
  {
    ExecuteCalls(st, s, local, hook);
    hide Execute;
    forall i | 0 <= i < |st.scopes| ensures ScopeOk(st.scopes[i], i) {
    }
    hide Inv;
  }

  lemma EndsMoves(st: State, s: nat, ok: bool)
    requires Inv(st)
    ensures MoveOn(st, CallbackEnds(st, s, ok))
  {
    hide Inv, MoveOn;
    var st' := CallbackEnds(st, s, ok);
    if Exists(st, s) && st.scopes[s].phase.Running? {
      assert st'.scopes == st.scopes[s := st'.scopes[s]] && st'.expired == st.expired;
      UpdateMoves(st, st', s);
    } else {
      SameMoves(st, st');
    }
  }

  lemma QueryChanges(st: State, s: nat, op: Op, outcome: Outcome)
    requires Exists(st, s)
    ensures var st' := AnswerQuery(st, s, op, outcome);
            var a, b := st.scopes[s], At(st', s);
            && st'.scopes == st.scopes[s := b] && b.parent == a.parent && b.phase == a.phase
            && (b.history == a.history
                || (b.history != [] && b.history[..|b.history| - 1] == a.history && !b.history[|b.history| - 1].Nested?))
  {
  }

  lemma AnswerQueryMoves(st: State, s: nat, op: Op, outcome: Outcome)
    requires Answering(st) && st.log[st.answered] == Query(s, op)
    ensures MoveOn(st, AnswerQuery(Advanced(st), s, op, outcome))
  {
    hide Inv, Asker, Processed, AnswerQuery, Alone, LastScope;
    HeadQuery(st, s, op);
    InvShape(st);
    AskerShape(st);
    QueryChanges(Advanced(st), s, op, outcome);
    UpdateMoves(st, AnswerQuery(Advanced(st), s, op, outcome), s);
  }

  lemma InvShape(st: State)
    requires Inv(st)
    ensures Structure(st)
  {
  }

  lemma SavepointMoves(st: State, n: nat, lost: bool)
    requires Exists(st, n) && st.scopes[n].phase.Opening?
    ensures MoveOn(st, AnswerSavepoint(Advanced(st), n, lost))
  {
    hide AfterSavepoint;
    if lost || st.server.failed {
      SameMoves(st, AnswerSavepoint(Advanced(st), n, lost));
    } else {
      UpdateMoves(st, AnswerSavepoint(Advanced(st), n, lost), n);
    }
  }

  lemma RollbackMoves(st: State, n: nat, lost: bool)
    requires Exists(st, n) && st.scopes[n].phase.RollingBack?
    ensures MoveOn(st, AnswerRollbackTo(Advanced(st), n, lost))
  {
    hide AfterRollbackTo, MarkIndex;
    if lost || MarkIndex(st.server.marks, n) < 0 {
      SameMoves(st, AnswerRollbackTo(Advanced(st), n, lost));
    } else {
      UpdateMoves(st, AnswerRollbackTo(Advanced(st), n, lost), n);
    }
  }

  lemma EndMoves(st: State, commit: bool, lost: bool)
    requires Exists(st, 0) && st.scopes[0].phase.Ending?
    ensures MoveOn(st, AnswerEnd(Advanced(st), commit, lost))
  {
    if lost {
      SameMoves(st, AnswerEnd(Advanced(st), commit, lost));
    } else {
      UpdateMoves(st, AnswerEnd(Advanced(st), commit, lost), 0);
    }
  }

  lemma AnswerReleaseMoves(st: State, n: nat, lost: bool)
    requires Answering(st) && st.log[st.answered] == Release(n)
    ensures MoveOn(st, AnswerRelease(Advanced(st), n, lost))
  {
    hide Inv, AnswerRelease, ReleasedState, MoveOn, MarkIndex;
    ReleaseReady(st, n);
    AnswerReleaseKeeps(st, n, lost);
    if lost {
      LostRelease(st, n);
      SameMoves(st, AnswerRelease(Advanced(st), n, lost));
    } else {
      ReleaseMoves(st, n, ReleasedState(st, n));
    }
  }

  lemma LostRelease(st: State, n: nat)
    ensures AnswerRelease(Advanced(st), n, true) == Expire(Advanced(st))
  {
  }

  lemma SavepointHead(st: State, n: nat)
    requires Trailer(st) == [Savepoint(n)] || Trailer(st) == [RollbackTo(n)]
    ensures Last(st.open) == n && LastScope(st).phase == At(st, n).phase && Exists(st, n)
    ensures Trailer(st) == [Savepoint(n)] ==> st.scopes[n].phase.Opening?
    ensures Trailer(st) == [RollbackTo(n)] ==> st.scopes[n].phase.RollingBack?
  {
  }

  lemma AnswerControlMoves(st: State, outcome: Outcome)
    requires Answering(st) && !st.log[st.answered].Query?
    ensures MoveOn(st, Answer(st, outcome, st.server))
  {
    hide Inv, Trailer, Waiting, LastScope, AnswerSavepoint, AnswerRollbackTo, AnswerRelease, AnswerEnd, MoveOn;
    HeadOther(st);
    match st.log[st.answered]
    case Savepoint(n) =>
      SavepointHead(st, n);
      SavepointMoves(st, n, outcome.ConnectionLost?);
    case RollbackTo(n) =>
      SavepointHead(st, n);
      RollbackMoves(st, n, outcome.ConnectionLost?);
    case Release(n) => AnswerReleaseMoves(st, n, outcome.ConnectionLost?);
    case Commit =>
      EndReady(st, true);
      EndMoves(st, true, outcome.ConnectionLost?);
    case Rollback =>
      EndReady(st, false);
      EndMoves(st, false, outcome.ConnectionLost?);
  }

  lemma ReleaseMoves(st: State, n: nat, st': State)
    requires Inv(st) && InnerOpen(st, n) && st.scopes[n].phase.Releasing?
    requires MarkIndex(st.server.marks, n) >= 0 && st' == ReleasedState(st, n)
    ensures MoveOn(st, st')
  {
    var phase := Closed(st.scopes[n].phase.ok, st.scopes[n].phase.rolledBack);
    var entry := Nested(n, st.scopes[n].history, !st.scopes[n].phase.rolledBack);
    ScopeOkAt(st, n);
    ParentOpen(st, n);
    hide Inv, AfterRelease, MarkIndex;
    LeaveMoves(Advanced(st), n, phase, [entry]);
    MovesAcross(st, Leave(Advanced(st), n, phase, [entry]), st');
  }

  lemma MovesAcross(st: State, mid: State, st': State)
    requires MoveOn(Advanced(st), mid) && st'.scopes == mid.scopes && st'.expired == mid.expired
    ensures MoveOn(st, st')
  {
    forall s | 0 <= s < |st'.scopes| ensures MovesOn(st, st', s) {
      assert MovesOn(Advanced(st), mid, s);
    }
  }

  lemma StepMoves(st: State, step: Step)
    requires Inv(st)
    ensures MoveOn(st, Next(st, step))
  {
    hide Inv, Execute, OpenSavepoint, CallbackEnds, Settle, RejectQuery, Unwind, MoveOn;
    match step
    case DoExecute(s, local, hook) => ExecuteMoves(st, s, local, hook);
    case DoSavepoint(s) => OpenMoves(st, s);
    case DoCallbackEnds(s, ok) => EndsMoves(st, s, ok);
    case DoSettle(s) => SettleMoves(st, s);
    case DoReject(s, op) => RejectMoves(st, s, op);
    case DoUnwind(s) => UnwindMoves(st, s);
    case DoExpire => SameMoves(st, Expire(st));
    case DoAnswer(outcome, late) =>
      hide AnswerQuery, AnswerSavepoint, AnswerRollbackTo, AnswerRelease, AnswerEnd;
      if st.answered >= |st.log| || st.expired {
        SameMoves(st, Answer(st, outcome, late));
      } else if st.log[st.answered].Query? {
        AnswerQueryMoves(st, st.log[st.answered].scope, st.log[st.answered].op, outcome);
      } else {
        AnswerControlMoves(st, outcome);
      }
  }

  // The record is faithful in every calm run.
  lemma {:induction false} RunRecords(steps: seq<Step>)
    requires Calm(steps)
    ensures Recorded(Run(INITIAL, steps))
  {
    hide Next, Recorded, Inv;
    if steps == [] {
      InitialRecords();
    } else {
      var before := steps[..|steps| - 1];
      RunRecords(before);
      RunKeeps(before);
      StepMoves(Run(INITIAL, before), steps[|steps| - 1]);
      RecordedMoves(Run(INITIAL, before), Run(INITIAL, steps));
    }
  }

  lemma InitialRecords()
    ensures Recorded(INITIAL)
  {
  }

  // Main result: COMMIT is sent when every savepoint has been closed, and what it commits
  // is what the transaction's history leaves: its applied queries and, in place, those of
  // the savepoints that were kept. A failed transaction commits nothing.
  lemma CommitOutcome(steps: seq<Step>, outcome: Outcome, late: Server)
    requires Calm(steps)
    requires var st := Run(INITIAL, steps);
             !st.expired && st.answered < |st.log| && st.log[st.answered] == Commit
    requires !outcome.ConnectionLost?
    ensures var st := Run(INITIAL, steps);
            var st' := Answer(st, outcome, late);
            && Exists(st, 0) && Exists(st', 0) && Recorded(st) && !st'.expired
            && (forall n :: 0 < n < |st.scopes| ==> st.scopes[n].phase.Closed?)
            && st'.scopes[0].phase == Ended(!st.server.failed)
            && st'.server.db == if st.server.failed then [] else Effects(st.scopes[0].history)
  {
    RunKeeps(steps);
    RunRecords(steps);
    var st := Run(INITIAL, steps);
    hide Run;
    EndReady(st, true);
    AllClosed(st);
    hide Inv;
  }

  lemma AllClosed(st: State)
    requires Inv(st) && Recorded(st) && !st.expired && st.open == [0]
    ensures forall n :: 0 < n < |st.scopes| ==> st.scopes[n].phase.Closed?
  {
    forall n | 0 < n < |st.scopes| ensures st.scopes[n].phase.Closed? {
      assert n !in st.open;
      assert !IsOpen(st.scopes[n].phase);
    }
  }
}
