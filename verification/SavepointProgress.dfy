/**
 What the clients of a transaction do send: an accepted query, a SAVEPOINT, and one command at
 the end of each scope, which says how its callback ended.
 */
module SavepointProgress {
  import opened Wrappers
  import opened SavepointModel
  import opened SavepointSafety
  import opened SavepointHooks
  import opened SavepointAnswers
  import opened SavepointTheorems
  import opened SavepointLimits

  // ----------------------------------------------------- how the callback ended

  // Turn k ended the callback of the transaction, which returned (ok) or threw.
  predicate EndsAt(steps: seq<Step>, k: nat, ok: bool) {
    && k < |steps| && steps[k] == DoCallbackEnds(0, ok)
    && At(Run(INITIAL, steps[..k]), 0).phase.Running?
  }

  ghost predicate CallbackEnded(steps: seq<Step>, ok: bool) {
    exists k: nat :: EndsAt(steps, k, ok)
  }

  // COMMIT and ROLLBACK, which the driver sends.
  function Finals(log: seq<Command>): seq<Command> {
    if log == [] then []
    else
      var last := log[|log| - 1];
      Finals(log[..|log| - 1]) + if last == Commit || last == Rollback then [last] else []
  }

  lemma FinalsSend(log: seq<Command>, c: Command)
    ensures Finals(log + [c]) == Finals(log) + if c == Commit || c == Rollback then [c] else []
  {
    assert (log + [c])[..|log|] == log;
  }

  lemma {:induction false} FinalsContain(log: seq<Command>)
    ensures Commit in log <==> Commit in Finals(log)
    ensures Rollback in log <==> Rollback in Finals(log)
  {
    if log == [] {
    } else {
      FinalsContain(log[..|log| - 1]);
      assert log == log[..|log| - 1] + [log[|log| - 1]];
    }
  }

  // What the phase of the transaction says of its callback and of the final command.
  ghost predicate RootOk(steps: seq<Step>, st: State) {
    && Exists(st, 0)
    && var phase, finals := st.scopes[0].phase, Finals(st.log);
    && (phase.Running? || phase.Settling? || IsEnding(phase))
    && (phase.Running? ==> finals == [] && !CallbackEnded(steps, true) && !CallbackEnded(steps, false))
    && (phase.Settling? ==> finals == [] && CallbackEnded(steps, phase.ok) && !CallbackEnded(steps, !phase.ok))
    && (IsEnding(phase) ==>
          || (finals == [Commit] && CallbackEnded(steps, true) && !CallbackEnded(steps, false))
          || (finals == [Rollback] && CallbackEnded(steps, false) && !CallbackEnded(steps, true)))
    && (phase.Ending? ==> finals == [if phase.commit then Commit else Rollback])
    && (phase == Ended(true) ==> finals == [Commit])
  }

  // ------------------------------------------------------------ one turn of it

  // Savepoints are numbered from one, so no control command is about the transaction itself.
  predicate Numbered(st: State) {
    st.nextSavepoint > 0 && Savepoint(0) !in st.log
  }

  // Nothing final is sent, and the numbering goes on.
  predicate NothingFinal(st: State, st': State) {
    Finals(st'.log) == Finals(st.log) && (Numbered(st) ==> Numbered(st'))
  }

  lemma DispatchFinals(st: State, s: nat, local: bool)
    ensures NothingFinal(st, Dispatch(st, s, local))
  {
    if Exists(st, s) {
      FinalsSend(st.log, Query(s, st.nextOp));
      hide Finals;
    }
  }

  lemma OpenFinals(st: State, s: nat)
    ensures NothingFinal(st, OpenSavepoint(st, s))
  {
    FinalsSend(st.log, Savepoint(st.nextSavepoint));
    hide Finals;
  }

  lemma {:induction false} ExecuteFinals(st: State, s: nat, local: bool, hook: Hook)
    ensures NothingFinal(st, Execute(st, s, local, hook))
    decreases hook, 1
  {
    hide Dispatch, Finals, Numbered;
    if Accepts(st, s) {
      HookFinals(st, hook);
      DispatchFinals(if st.expired then st else RunHook(st, hook), s, local);
    }
  }

  lemma {:induction false} HookFinals(st: State, hook: Hook)
    ensures NothingFinal(st, RunHook(st, hook))
    decreases hook, 0
  {
    hide Finals, Numbered, RunCall;
    match hook
    case Quiet =>
    case Then(call, rest) =>
      CallFinals(st, call);
      HookFinals(RunCall(st, call), rest);
  }

  lemma {:induction false} CallFinals(st: State, call: Call)
    ensures NothingFinal(st, RunCall(st, call))
    decreases call, 0
  {
    hide Finals, Execute, OpenSavepoint;
    match call
    case CallExecute(s, local, hook) => ExecuteFinals(st, s, local, hook);
    case CallSavepoint(s) => OpenFinals(st, s);
    case CallExpire =>
  }

  // How the phase of the transaction and its final command change in one turn.
  predicate RootMoves(st: State, st': State, step: Step) {
    && Exists(st, 0) && Exists(st', 0)
    && var a, b := st.scopes[0].phase, st'.scopes[0].phase;
    && var f, g := Finals(st.log), Finals(st'.log);
    || (b == a && g == f && (step.DoCallbackEnds? && step.s == 0 ==> !a.Running?))
    || (a.Running? && step.DoCallbackEnds? && step.s == 0 && b == Settling(step.ok) && g == f)
    || (a.Settling? && b == Ending(a.ok) && g == f + [if a.ok then Commit else Rollback])
    || (b.Ended? && g == f && (if b.committed then Commit in f else Commit in f || Rollback in f))
  }

  predicate RootPhase(st: State) {
    && Exists(st, 0) && Numbered(st)
    && (st.scopes[0].phase.Running? || st.scopes[0].phase.Settling? || IsEnding(st.scopes[0].phase))
  }

  // Sending any command that is not final.
  lemma SendFinals(st: State, st': State, c: Command)
    requires st'.nextSavepoint == st.nextSavepoint && st'.log == st.log + [c]
    requires c.RollbackTo? || c.Release?
    ensures NothingFinal(st, st')
  {
    FinalsSend(st.log, c);
    hide Finals;
  }

  lemma AnswerSends(st: State, outcome: Outcome, late: Server)
    ensures var st' := Answer(st, outcome, late);
            && st'.nextSavepoint == st.nextSavepoint
            && (st'.log == st.log
                || (st.answered < |st.log| && st.log[st.answered].RollbackTo?
                    && st'.log == st.log + [Release(st.log[st.answered].name)]))
  {
    hide AfterSavepoint, AfterRollbackTo, AfterRelease, MarkIndex;
  }

  lemma AnswerFinals(st: State, outcome: Outcome, late: Server)
    ensures NothingFinal(st, Answer(st, outcome, late))
  {
    AnswerSends(st, outcome, late);
    hide Answer;
    var st' := Answer(st, outcome, late);
    if st'.log != st.log {
      SendFinals(st, st', Release(st.log[st.answered].name));
    }
  }

  // Only the answer to COMMIT or ROLLBACK moves the phase of the transaction.
  lemma AnswerPhase(st: State, outcome: Outcome, late: Server)
    requires Exists(st, 0) && !st.scopes[0].phase.Releasing? && !st.scopes[0].phase.RollingBack?
    requires st.answered < |st.log| ==> st.log[st.answered] != Savepoint(0)
    ensures var st' := Answer(st, outcome, late);
            && Exists(st', 0)
            && (st'.scopes[0].phase == st.scopes[0].phase
                || (st.answered < |st.log| && st'.scopes[0].phase.Ended?
                    && (st.log[st.answered] == Commit || (st.log[st.answered] == Rollback && !st'.scopes[0].phase.committed))))
  {
    hide AfterSavepoint, AfterRollbackTo, AfterRelease, MarkIndex;
  }

  lemma AnswerRoot(st: State, outcome: Outcome, late: Server)
    requires RootPhase(st)
    ensures RootMoves(st, Answer(st, outcome, late), DoAnswer(outcome, late)) && Numbered(Answer(st, outcome, late))
  {
    FinalsContain(st.log);
    AnswerFinals(st, outcome, late);
    AnswerPhase(st, outcome, late);
    hide Finals, Answer;
  }

  lemma SettleSendsOne(st: State, s: nat)
    ensures var st' := Settle(st, s);
            && st'.nextSavepoint == st.nextSavepoint
            && (s > 0 && Exists(st, 0) ==> Exists(st', 0) && st'.scopes[0].phase == st.scopes[0].phase)
            && (|| st'.log == st.log
                || (Exists(st, s) && st'.log == st.log + [RollbackTo(st.scopes[s].name)])
                || (Exists(st, s) && st'.log == st.log + [Release(st.scopes[s].name)])
                || (s == 0 && Exists(st, 0) && Exists(st', 0) && st.scopes[0].phase.Settling?
                    && st'.scopes[0].phase == Ending(st.scopes[0].phase.ok)
                    && st'.log == st.log + [if st.scopes[0].phase.ok then Commit else Rollback]))
            && (s == 0 ==> st' == st || st'.log == st.log + [Commit] || st'.log == st.log + [Rollback])
  {
  }

  lemma SettleRoot(st: State, s: nat)
    requires RootPhase(st)
    ensures RootMoves(st, Settle(st, s), DoSettle(s)) && Numbered(Settle(st, s))
  {
    SettleSendsOne(st, s);
    hide Settle, Finals;
    var st' := Settle(st, s);
    if st'.log != st.log {
      FinalsSend(st.log, st'.log[|st.log|]);
    }
  }

  lemma StepRoot(st: State, step: Step)
    requires RootPhase(st)
    ensures RootMoves(st, Next(st, step), step) && Numbered(Next(st, step))
  {
    hide Finals;
    match step
    case DoAnswer(outcome, late) =>
      hide Answer;
      AnswerRoot(st, outcome, late);
    case DoSettle(s) =>
      hide Settle;
      SettleRoot(st, s);
    case DoExecute(s, local, hook) =>
      ExecuteFinals(st, s, local, hook);
      ExecuteCalls(st, s, local, hook);
      hide Execute;
    case DoSavepoint(s) => OpenFinals(st, s);
    case _ =>
  }

  // -------------------------------------------------------------------- any run

  lemma EndsLater(before: seq<Step>, last: Step, ok: bool)
    ensures CallbackEnded(before + [last], ok)
       <==> CallbackEnded(before, ok)
            || (last == DoCallbackEnds(0, ok) && At(Run(INITIAL, before), 0).phase.Running?)
  {
    hide Run, At;
    var steps := before + [last];
    assert steps[..|before|] == before;
    if CallbackEnded(before, ok) {
      var k: nat :| EndsAt(before, k, ok);
      assert steps[..k] == before[..k];
      assert EndsAt(steps, k, ok);
    }
    if last == DoCallbackEnds(0, ok) && At(Run(INITIAL, before), 0).phase.Running? {
      assert EndsAt(steps, |before|, ok);
    }
    if CallbackEnded(steps, ok) {
      var k: nat :| EndsAt(steps, k, ok);
      if k < |before| {
        assert steps[..k] == before[..k];
        assert EndsAt(before, k, ok);
      }
    }
  }

  lemma RootOkMoves(before: seq<Step>, last: Step, st: State, st': State)
    requires RootOk(before, st) && RootMoves(st, st', last) && st == Run(INITIAL, before)
    ensures RootOk(before + [last], st')
  {
    EndsLater(before, last, true);
    EndsLater(before, last, false);
    hide CallbackEnded, Run, Finals;
  }

  lemma {:induction false} RunRoot(steps: seq<Step>)
    ensures RootOk(steps, Run(INITIAL, steps)) && Numbered(Run(INITIAL, steps))
  {
    if steps == [] {
      assert forall ok, k: nat :: !EndsAt(steps, k, ok);
    } else {
      var before, last := steps[..|steps| - 1], steps[|steps| - 1];
      RunRoot(before);
      hide CallbackEnded, Finals, Next;
      StepRoot(Run(INITIAL, before), last);
      RootOkMoves(before, last, Run(INITIAL, before), Run(INITIAL, steps));
      assert before + [last] == steps;
    }
  }

  // Main result: in every run at most one COMMIT or ROLLBACK is sent, behind the end of the
  // transaction's callback: COMMIT exactly when the callback returned, ROLLBACK exactly when it
  // threw.
  lemma FinalCommand(steps: seq<Step>)
    ensures var st := Run(INITIAL, steps);
            && Exists(st, 0) && |Finals(st.log)| <= 1
            && (Commit in st.log <==> CallbackEnded(steps, true) && IsEnding(st.scopes[0].phase))
            && (Rollback in st.log <==> CallbackEnded(steps, false) && IsEnding(st.scopes[0].phase))
            && !(CallbackEnded(steps, true) && CallbackEnded(steps, false))
  {
    var st := Run(INITIAL, steps);
    RunRoot(steps);
    FinalsContain(st.log);
    hide CallbackEnded, Finals, Run;
  }

  // Once nothing is left in flight, the next settling of the transaction sends that command.
  lemma SettlingEnds(steps: seq<Step>)
    requires var st := Run(INITIAL, steps);
             Exists(st, 0) && st.scopes[0].phase.Settling? && st.scopes[0].inFlight == {} && !st.scopes[0].childActive
    ensures var st := Run(INITIAL, steps);
            var log := Next(st, DoSettle(0)).log;
            || (CallbackEnded(steps, true) && log == st.log + [Commit])
            || (CallbackEnded(steps, false) && log == st.log + [Rollback])
  {
    RunRoot(steps);
    hide CallbackEnded, Finals, Run;
  }

  // A transaction whose callback threw does not end committed, and leaves nothing behind.
  lemma ThrownRollsBack(steps: seq<Step>)
    requires Calm(steps) && !Run(INITIAL, steps).expired && CallbackEnded(steps, false)
    ensures var st := Run(INITIAL, steps);
            Exists(st, 0) && (st.scopes[0].phase.Ended? ==> !st.scopes[0].phase.committed && st.server.db == [])
  {
    RunRoot(steps);
    RunKeeps(steps);
    hide CallbackEnded, Finals, Run;
    EndedDatabase(Run(INITIAL, steps));
    hide Inv;
  }

  lemma EndedDatabase(st: State)
    requires Inv(st) && !st.expired
    ensures At(st, 0).phase == Ended(false) ==> st.server.db == []
    ensures At(st, 0).phase == Ended(true) ==> st.server.db == Effects(At(st, 0).history)
  {
    hide Structure, WordOk, WaitingOk, MarksFit, ServerOk;
  }

  // A transaction whose callback returned ends committed with the effects of its history, unless
  // the server has failed it.
  lemma ReturnedCommits(steps: seq<Step>, outcome: Outcome, late: Server)
    requires Calm(steps)
    requires var st := Run(INITIAL, steps);
             !st.expired && st.answered < |st.log| && (st.log[st.answered] == Commit || st.log[st.answered] == Rollback)
    requires !outcome.ConnectionLost?
    ensures var st := Run(INITIAL, steps);
            var st' := Answer(st, outcome, late);
            && Exists(st, 0) && Exists(st', 0)
            && st'.scopes[0].phase == Ended(CallbackEnded(steps, true) && !st.server.failed)
            && st'.server.db == if CallbackEnded(steps, true) && !st.server.failed then Effects(st.scopes[0].history) else []
  {
    hide CallbackEnded, Finals, Run, Effects, Answer, Inv;
    var st := Run(INITIAL, steps);
    RunRoot(steps);
    RunKeeps(steps);
    FinalsContain(st.log);
    assert st.log[st.answered] in st.log;
    EndReady(st, st.log[st.answered] == Commit);
    EndAnswered(st, outcome, late);
  }

  lemma EndAnswered(st: State, outcome: Outcome, late: Server)
    requires !st.expired && st.answered < |st.log| && Exists(st, 0) && !outcome.ConnectionLost?
    requires st.log[st.answered] == Commit || st.log[st.answered] == Rollback
    ensures var st' := Answer(st, outcome, late);
            var committed := st.log[st.answered] == Commit && !st.server.failed;
            && Exists(st', 0) && st'.scopes[0].phase == Ended(committed)
            && st'.server.db == if committed then st.server.db else []
  {
  }

  // --------------------------------------------------------------- what is sent

  // The client of scope s takes calls: its callback runs, no child savepoint is open on it, and
  // in a savepoint no query has been rejected.
  ghost predicate TakesCalls(st: State, s: nat) {
    && Exists(st, s) && st.scopes[s].phase.Running?
    && (forall n :: 0 < n < |st.scopes| && st.scopes[n].parent == s ==> !IsOpen(st.scopes[n].phase))
    && (s > 0 ==> forall e <- st.scopes[s].history :: !e.Rejected?)
  }

  // A child savepoint is open exactly while the client is occupied.
  lemma OccupiedIff(st: State, s: nat)
    requires Structure(st) && Exists(st, s)
    ensures st.scopes[s].childActive
       <==> exists n :: 0 < n < |st.scopes| && st.scopes[n].parent == s && IsOpen(st.scopes[n].phase)
  {
    hide ScopesOk;
    if st.scopes[s].childActive {
      var k :| 0 <= k < |st.open| - 1 && st.open[k] == s;
      assert st.scopes[st.open[k + 1]].parent == s && st.open[k + 1] in st.open;
    }
    forall n | 0 < n < |st.scopes| && st.scopes[n].parent == s && IsOpen(st.scopes[n].phase)
      ensures st.scopes[s].childActive
    {
      assert n in st.open;
      var k :| 0 <= k < |st.open| && st.open[k] == n;
      assert st.open[k - 1] == s && WithoutLast(st.open)[k - 1] == s;
    }
  }

  lemma AcceptsIff(st: State, s: nat)
    requires Inv(st)
    ensures Accepts(st, s) <==> TakesCalls(st, s)
  {
    InvShape(st);
    if Exists(st, s) {
      ScopeOkAt(st, s);
      hide Inv;
      OccupiedIff(st, s);
      hide Structure;
    }
  }

  // Main result: in a calm run that has not expired, a query or a savepoint that a client is
  // called for is sent exactly when the client takes calls.
  lemma CallsAreSent(steps: seq<Step>, s: nat)
    requires Calm(steps) && !Run(INITIAL, steps).expired
    ensures var st := Run(INITIAL, steps);
            && Next(st, DoExecute(s, false, Quiet)).log
               == st.log + (if TakesCalls(st, s) then [Query(s, st.nextOp)] else [])
            && Next(st, DoSavepoint(s)).log
               == st.log + (if TakesCalls(st, s) then [Savepoint(|st.scopes|)] else [])
            && (!TakesCalls(st, s) ==> forall hook, local :: Next(st, DoExecute(s, local, hook)) == st)
  {
    var st := Run(INITIAL, steps);
    RunKeeps(steps);
    AcceptsIff(st, s);
    InvShape(st);
    hide Inv, Run, TakesCalls;
    assert RunHook(st, Quiet) == st;
  }

  // A savepoint with nothing left in flight sends RELEASE when its callback returned and none of
  // its queries was rejected, else ROLLBACK TO.
  lemma ScopeEnds(steps: seq<Step>, n: nat)
    requires Calm(steps)
    requires var st := Run(INITIAL, steps);
             && !st.expired && Exists(st, n) && n > 0 && st.scopes[n].phase.Settling?
             && st.scopes[n].inFlight == {} && !st.scopes[n].childActive
    ensures var st := Run(INITIAL, steps);
            var kept := st.scopes[n].phase.ok && Clean(st.scopes[n].history);
            Next(st, DoSettle(n)).log == st.log + [if kept then Release(n) else RollbackTo(n)]
  {
    RunKeeps(steps);
    ScopeOkAt(Run(INITIAL, steps), n);
    hide Inv, Run;
  }

  lemma SavepointStarts(st: State, n: nat)
    requires Exists(st, n) && !st.server.failed
    ensures var st' := AnswerSavepoint(Advanced(st), n, false);
            Exists(st', n) && st'.scopes[n].phase.Running? && st'.scopes[n].active && st'.log == st.log
  {
  }

  lemma RollbackGoesOn(st: State, n: nat)
    requires Exists(st, n) && st.scopes[n].phase.RollingBack? && MarkIndex(st.server.marks, n) >= 0
    ensures var st' := AnswerRollbackTo(Advanced(st), n, false);
            Exists(st', n) && st'.scopes[n].phase.Releasing? && st'.log == st.log + [Release(n)]
  {
    hide AfterRollbackTo, MarkIndex;
  }

  lemma HeadExists(st: State, s: nat, op: Op)
    requires Answering(st) && st.log[st.answered] == Query(s, op)
    ensures Exists(st, s)
  {
    hide Inv, Asker, Processed, Alone, LastScope, Structure;
    HeadQuery(st, s, op);
    InvShape(st);
    AskerShape(st);
  }

  lemma LostAnswer(st: State, outcome: Outcome, late: Server)
    requires !st.expired && st.answered < |st.log| && outcome.ConnectionLost?
    requires st.log[st.answered].Query? ==> Exists(st, st.log[st.answered].scope)
    ensures Answer(st, outcome, late).expired
  {
  }

  lemma LostExpires(st: State, outcome: Outcome, late: Server)
    requires Answering(st) && outcome.ConnectionLost?
    ensures Answer(st, outcome, late).expired
  {
    hide Inv, Answer;
    if st.log[st.answered].Query? {
      HeadExists(st, st.log[st.answered].scope, st.log[st.answered].op);
    }
    LostAnswer(st, outcome, late);
  }

  lemma SavepointGoesOn(st: State, n: nat, outcome: Outcome, late: Server)
    requires Answering(st) && st.log[st.answered] == Savepoint(n) && !outcome.ConnectionLost? && !st.server.failed
    ensures var st' := Answer(st, outcome, late);
            Exists(st', n) && st'.scopes[n].phase.Running? && st'.log == st.log
  {
    HeadOther(st);
    OpeningExists(st, n);
    SavepointStarts(st, n);
    hide Inv, AnswerSavepoint, Trailer;
  }

  lemma RolledBackGoesOn(st: State, n: nat, outcome: Outcome, late: Server)
    requires Answering(st) && st.log[st.answered] == RollbackTo(n) && !outcome.ConnectionLost?
    ensures var st' := Answer(st, outcome, late);
            Exists(st', n) && st'.scopes[n].phase.Releasing? && st'.log == st.log + [Release(n)]
  {
    hide Inv, AnswerRollbackTo, Trailer, MarkIndex;
    AnswerRollbackToKeeps(st, n, false);
    HeadOther(st);
    SavepointHead(st, n);
    RollbackGoesOn(st, n);
  }

  // What an answered control command leads to: an accepted SAVEPOINT starts the callback, and
  // ROLLBACK TO is followed by RELEASE. Losing the connection expires the transaction, whatever
  // command was waiting.
  lemma AnswersGoOn(steps: seq<Step>, outcome: Outcome, late: Server)
    requires Calm(steps)
    requires var st := Run(INITIAL, steps); !st.expired && st.answered < |st.log|
    ensures var st := Run(INITIAL, steps);
            var st', c := Answer(st, outcome, late), st.log[st.answered];
            && (outcome.ConnectionLost? ==> st'.expired)
            && (c.Savepoint? && !outcome.ConnectionLost? && !st.server.failed ==>
                  Exists(st', c.name) && st'.scopes[c.name].phase.Running? && st'.log == st.log)
            && (c.RollbackTo? && !outcome.ConnectionLost? ==>
                  Exists(st', c.name) && st'.scopes[c.name].phase.Releasing? && st'.log == st.log + [Release(c.name)])
  {
    hide Run, Answer, Inv;
    RunKeeps(steps);
    var st := Run(INITIAL, steps);
    if outcome.ConnectionLost? {
      LostExpires(st, outcome, late);
    } else if st.log[st.answered].Savepoint? && !st.server.failed {
      SavepointGoesOn(st, st.log[st.answered].name, outcome, late);
    } else if st.log[st.answered].RollbackTo? {
      RolledBackGoesOn(st, st.log[st.answered].name, outcome, late);
    }
  }

  // ------------------------------------------------------- the end after an expiry

  // What happens on the client without an answer: a callback ends, a query rejects, a scope is
  // settled, a control command rejects.
  predicate OnClient(step: Step) {
    step.DoCallbackEnds? || step.DoReject? || step.DoSettle? || step.DoUnwind?
  }

  // How far a scope is from its end.
  function Rank(p: Phase): nat {
    if p.Running? then 2 else if p.Settling? then 1 else 0
  }

  // Fewer open scopes, or the innermost is nearer to its end.
  predicate Nearer(st': State, st: State) {
    var a, b := LastScope(st'), LastScope(st);
    || |st'.open| < |st.open|
    || (st'.open == st.open && Rank(a.phase) < Rank(b.phase))
    || (st'.open == st.open && Rank(a.phase) == Rank(b.phase) && |a.inFlight| < |b.inFlight|)
  }

  lemma InnermostIs(st: State)
    requires Structure(st)
    ensures var n := Last(st.open);
            && Exists(st, n) && IsOpen(st.scopes[n].phase) && !st.scopes[n].childActive && ScopeOk(st.scopes[n], n)
            && (n > 0 ==> |st.open| > 1)
  {
    hide ScopeOk;
    assert st.open[|st.open| - 1] == Last(st.open) && Last(st.open) in st.open;
    assert Last(st.open) !in WithoutLast(st.open);
  }

  lemma RunningEnds(st: State, n: nat)
    requires Exists(st, n) && n == Last(st.open) && st.scopes[n].phase.Running?
    ensures Nearer(CallbackEnds(st, n, true), st)
  {
  }

  lemma SettlingRejects(st: State, n: nat, op: Op)
    requires Exists(st, n) && n == Last(st.open) && st.scopes[n].phase.Settling? && op in st.scopes[n].inFlight && st.expired
    ensures Nearer(RejectQuery(st, n, op), st)
  {
  }

  lemma SettledEnds(st: State, n: nat)
    requires Exists(st, n) && n == Last(st.open) && st.scopes[n].phase.Settling?
    requires st.scopes[n].inFlight == {} && !st.scopes[n].childActive && st.expired && (n > 0 ==> |st.open| > 1)
    ensures if n == 0 then IsEnding(At(Settle(st, n), 0).phase) else Nearer(Settle(st, n), st)
  {
  }

  lemma UnwoundEnds(st: State, n: nat)
    requires Exists(st, n) && n == Last(st.open) && n > 0 && |st.open| > 1 && st.expired
    requires st.scopes[n].phase.Opening? || st.scopes[n].phase.RollingBack? || st.scopes[n].phase.Releasing?
    ensures Nearer(Unwind(st, n), st)
  {
  }

  // Whatever an expired transaction waits for, the client can go on by itself.
  lemma ClientGoesOn(st: State) returns (step: Step)
    requires Structure(st) && st.expired && !IsEnding(At(st, 0).phase)
    ensures OnClient(step) && (IsEnding(At(Next(st, step), 0).phase) || Nearer(Next(st, step), st))
  {
    InnermostIs(st);
    var n := Last(st.open);
    var scope := st.scopes[n];
    hide Structure, Nearer, CallbackEnds, RejectQuery, Settle, Unwind;
    if scope.phase.Running? {
      step := DoCallbackEnds(n, true);
      RunningEnds(st, n);
    } else if scope.phase.Settling? && scope.inFlight != {} {
      var op :| op in scope.inFlight;
      step := DoReject(n, op);
      SettlingRejects(st, n, op);
    } else if scope.phase.Settling? {
      step := DoSettle(n);
      SettledEnds(st, n);
    } else {
      step := DoUnwind(n);
      UnwoundEnds(st, n);
    }
  }

  lemma ExpiredStays(st: State, step: Step)
    requires st.expired && OnClient(step)
    ensures Next(st, step).expired
  {
  }

  lemma {:induction false} RunCons(st: State, step: Step, more: seq<Step>)
    ensures Run(st, [step] + more) == Run(Next(st, step), more)
  {
    hide Next;
    var all := [step] + more;
    if more == [] {
      assert all[..0] == [] && all[0] == step;
    } else {
      assert all[..|all| - 1] == [step] + more[..|more| - 1];
      RunCons(st, step, more[..|more| - 1]);
    }
  }

  lemma {:induction false} EndsFrom(st: State) returns (more: seq<Step>)
    requires Inv(st) && st.expired
    ensures (forall step <- more :: OnClient(step)) && IsEnding(At(Run(st, more), 0).phase)
    decreases |st.open|, Rank(LastScope(st).phase), |LastScope(st).inFlight|
  {
    hide Inv, Next, Run, OnClient, LastScope, Rank, Structure;
    if IsEnding(At(st, 0).phase) {
      more := [];
      RunNothing(st);
    } else {
      InvStructure(st);
      var step := ClientGoesOn(st);
      var st' := Next(st, step);
      ClientIsCalm(st, step);
      StepKeeps(st, step);
      ExpiredStays(st, step);
      if IsEnding(At(st', 0).phase) {
        RunCons(st, step, []);
        RunNothing(st');
        more := [step];
        assert [step] + [] == [step];
      } else {
        var rest := EndsFrom(st');
        RunCons(st, step, rest);
        more := [step] + rest;
      }
    }
  }

  lemma RunNothing(st: State)
    ensures Run(st, []) == st
  {
  }

  lemma InvStructure(st: State)
    requires Inv(st)
    ensures Structure(st)
  {
    hide Structure, WordOk, Wire;
  }

  lemma ClientIsCalm(st: State, step: Step)
    requires OnClient(step)
    ensures CalmStep(st, step)
  {
  }

  // Main result: once a calm run has expired, the client can always bring the transaction to its
  // end without an answer: every savepoint is left and COMMIT or ROLLBACK is sent.
  lemma ExpiredEnds(steps: seq<Step>) returns (more: seq<Step>)
    requires Calm(steps) && Run(INITIAL, steps).expired
    ensures (forall step <- more :: OnClient(step)) && IsEnding(At(Run(Run(INITIAL, steps), more), 0).phase)
  {
    hide Inv, Run, OnClient;
    RunKeeps(steps);
    more := EndsFrom(Run(INITIAL, steps));
  }

  // A savepoint that is left makes its parent take calls again.
  lemma LeftFreesParent(st: State, n: nat)
    requires Inv(st) && st.expired && Exists(st, n) && n > 0 && n == Last(st.open)
    requires st.scopes[n].phase.Opening? || st.scopes[n].phase.RollingBack? || st.scopes[n].phase.Releasing?
    ensures var st' := Unwind(st, n);
            var p := st.scopes[n].parent;
            && Exists(st', n) && st'.scopes[n].phase.Broken? && !st'.scopes[n].active && st'.open == WithoutLast(st.open)
            && p < n && !st'.scopes[p].childActive && st'.log == st.log
  {
    InvStructure(st);
    InnermostIs(st);
    hide Inv, Structure;
  }
}
