/**
 The transaction and savepoint clients acting on fields in place. Each method takes exactly
 the step of SavepointModel, so the results of SavepointTheorems hold of every sequence of
 their calls. A query's hook calls the same methods again before the query is sent.
 */
module SavepointRuntime {
  import opened Wrappers
  import M = SavepointModel
  import opened SavepointModel
  import H = SavepointHooks
  import S = SavepointSafety
  import T = SavepointTheorems

  class TransactionClients {
    var scopes: seq<Scope>
    var nextSavepoint: nat
    var nextOp: nat
    var expired: bool
    var log: seq<Command>
    var answered: nat
    var server: Server
    ghost var open: seq<nat>

    ghost function Abs(): State
      reads this
    {
      State(scopes, nextSavepoint, nextOp, expired, log, answered, server, open)
    }

    constructor ()
      ensures Abs() == INITIAL
    {
      scopes := [TOP];
      nextSavepoint, nextOp, expired, log, answered := 1, 0, false, [], 0;
      server := Server([], [], false);
      open := [0];
    }

    method Send(c: Command)
      modifies this`log
      ensures Abs() == M.Send(old(Abs()), c)
    {
      log := log + [c];
    }

    // execute of either client: inactive, aborted and occupied clients refuse. These flags are
    // not tested again when the hook has returned.
    method Execute(s: nat, local: bool, hook: Hook)
      modifies this
      ensures Abs() == M.Execute(old(Abs()), s, local, hook)
      decreases hook, 1
    {
      if s >= |scopes| || !scopes[s].active || scopes[s].aborted || scopes[s].childActive {
        return;
      }
      if !expired {
        RunHook(hook);
      }
      DispatchQuery(s, local);
    }

    method RunHook(hook: Hook)
      modifies this
      ensures Abs() == M.RunHook(old(Abs()), hook)
      decreases hook, 0
    {
      match hook
      case Quiet =>
      case Then(call, rest) =>
        match call {
          case CallExecute(s, local, inner) => Execute(s, local, inner);
          case CallSavepoint(s) => OpenSavepoint(s);
          case CallExpire => Expire();
        }
        RunHook(rest);
    }

    // The rest of executeTransactionQuery: the query is sent, then it is in flight.
    method DispatchQuery(s: nat, local: bool)
      modifies this
      ensures Abs() == M.Dispatch(old(Abs()), s, local)
    {
      if s >= |scopes| {
        return;
      }
      var op := nextOp;
      nextOp := nextOp + 1;
      if !expired && !local {
        Send(Query(s, op));
      }
      if s > 0 {
        scopes := scopes[s := scopes[s].(inFlight := scopes[s].inFlight + {op})];
      }
    }

    // savepoint, up to the SAVEPOINT command of executeSavepoint.
    method OpenSavepoint(s: nat)
      modifies this
      ensures Abs() == M.OpenSavepoint(old(Abs()), s)
    {
      if s >= |scopes| || !scopes[s].active || scopes[s].aborted || scopes[s].childActive {
        return;
      }
      if expired {
        return;
      }
      var name := nextSavepoint;
      nextSavepoint := nextSavepoint + 1;
      open := open + [|scopes|];
      scopes := scopes[s := scopes[s].(childActive := true)]
                + [Scope(s, name, Opening, false, false, false, {}, [])];
      Send(Savepoint(name));
    }

    // The callback ends and finish() is called.
    method Finish(s: nat, ok: bool)
      modifies this
      ensures Abs() == M.CallbackEnds(old(Abs()), s, ok)
    {
      if s < |scopes| && scopes[s].phase.Running? {
        scopes := scopes[s := scopes[s].(phase := Settling(ok), active := false)];
      }
    }

    // The finally block of savepoint: the parent's client is free again.
    method Leave(s: nat, phase: Phase, entries: seq<Entry>)
      requires s < |scopes|
      modifies this
      ensures Abs() == M.Leave(old(Abs()), s, phase, entries)
    {
      var p := scopes[s].parent;
      scopes := scopes[s := scopes[s].(phase := phase, active := false)];
      open := M.WithoutLast(open);
      if p < |scopes| && p != s {
        scopes := scopes[p := scopes[p].(childActive := false, history := scopes[p].history + entries)];
      }
    }

    // What follows settle(): the end of the transaction callback, or of executeSavepoint.
    method Settle(s: nat)
      modifies this
      ensures Abs() == M.Settle(old(Abs()), s)
    {
      if s >= |scopes| || !scopes[s].phase.Settling? || scopes[s].inFlight != {} || scopes[s].childActive {
        return;
      }
      var ok := scopes[s].phase.ok;
      if s == 0 {
        scopes := scopes[0 := scopes[0].(phase := Ending(ok))];
        Send(if ok then Commit else Rollback);
      } else if expired {
        Leave(s, Broken, []);
      } else if !ok || scopes[s].aborted {
        scopes := scopes[s := scopes[s].(phase := RollingBack(ok))];
        Send(RollbackTo(scopes[s].name));
      } else {
        scopes := scopes[s := scopes[s].(phase := Releasing(ok, false))];
        Send(Release(scopes[s].name));
      }
    }

    // The rejection handler of a savepoint's query.
    method RejectQuery(s: nat, op: Op)
      modifies this
      ensures Abs() == M.RejectQuery(old(Abs()), s, op)
    {
      if s >= |scopes| || op !in scopes[s].inFlight {
        return;
      }
      if !expired && Query(s, op) in log[if answered <= |log| then answered else |log|..] {
        return;
      }
      scopes := scopes[s := scopes[s].(inFlight := scopes[s].inFlight - {op})];
      if !expired {
        scopes := scopes[s := scopes[s].(aborted := true, history := scopes[s].history + [Rejected(op, false)])];
      }
    }

    method Unwind(s: nat)
      modifies this
      ensures Abs() == M.Unwind(old(Abs()), s)
    {
      if s < |scopes| && s > 0 && expired
         && (scopes[s].phase.Opening? || scopes[s].phase.RollingBack? || scopes[s].phase.Releasing?) {
        Leave(s, Broken, []);
      }
    }

    // failTransaction, a timeout, an abort or a poisoned generation.
    method Expire()
      modifies this`expired
      ensures Abs() == M.Expire(old(Abs()))
    {
      expired := true;
    }

    method AnswerQuery(s: nat, op: Op, outcome: Outcome)
      modifies this
      ensures Abs() == M.AnswerQuery(old(Abs()), s, op, outcome)
    {
      if s >= |scopes| {
        return;
      }
      var end := if server.failed && (outcome.Succeeds? || outcome.DecodeFails?) then ServerFails else outcome;
      scopes := scopes[s := scopes[s].(inFlight := scopes[s].inFlight - {op})];
      if end.ConnectionLost? {
        Expire();
        return;
      }
      if end.Succeeds? || end.DecodeFails? {
        server := server.(db := server.db + [op]);
      }
      if end.ServerFails? {
        server := server.(failed := true);
      }
      var entry := if end.Succeeds? then Ran(op) else Rejected(op, end.DecodeFails?);
      scopes := scopes[s := scopes[s].(history := scopes[s].history + [entry])];
      if !end.Succeeds? {
        scopes := scopes[s := scopes[s].(aborted := s != 0)];
      }
    }

    method AnswerSavepoint(n: nat, lost: bool)
      modifies this
      ensures Abs() == M.AnswerSavepoint(old(Abs()), n, lost)
    {
      if lost || server.failed || n >= |scopes| {
        Expire();
      } else {
        server := AfterSavepoint(server, n);
        scopes := scopes[n := scopes[n].(phase := Running, active := true)];
      }
    }

    // ROLLBACK TO is followed by RELEASE.
    method AnswerRollbackTo(n: nat, lost: bool)
      modifies this
      ensures Abs() == M.AnswerRollbackTo(old(Abs()), n, lost)
    {
      if lost || MarkIndex(server.marks, n) < 0 || n >= |scopes| || !scopes[n].phase.RollingBack? {
        Expire();
      } else {
        server := AfterRollbackTo(server, n);
        scopes := scopes[n := scopes[n].(phase := Releasing(scopes[n].phase.ok, true))];
        Send(Release(n));
      }
    }

    method AnswerRelease(n: nat, lost: bool)
      modifies this
      ensures Abs() == M.AnswerRelease(old(Abs()), n, lost)
    {
      if lost || server.failed || MarkIndex(server.marks, n) < 0 || n >= |scopes| || !scopes[n].phase.Releasing? {
        Expire();
      } else {
        var phase := scopes[n].phase;
        Leave(n, Closed(phase.ok, phase.rolledBack), [Nested(n, scopes[n].history, !phase.rolledBack)]);
        server := AfterRelease(server, n);
      }
    }

    method AnswerEnd(commit: bool, lost: bool)
      modifies this
      ensures Abs() == M.AnswerEnd(old(Abs()), commit, lost)
    {
      if lost || |scopes| == 0 {
        Expire();
      } else {
        var committed := commit && !server.failed;
        scopes := scopes[0 := scopes[0].(phase := Ended(committed))];
        server := Server(if committed then server.db else [], [], false);
      }
    }

    // The connection delivers the answer to its oldest command.
    method Answer(outcome: Outcome, late: Server)
      modifies this
      ensures Abs() == M.Answer(old(Abs()), outcome, late)
    {
      if answered >= |log| {
        return;
      }
      var c := log[answered];
      answered := answered + 1;
      if expired {
        server := late;
        return;
      }
      match c
      case Query(s, op) => AnswerQuery(s, op, outcome);
      case Savepoint(n) => AnswerSavepoint(n, outcome.ConnectionLost?);
      case RollbackTo(n) => AnswerRollbackTo(n, outcome.ConnectionLost?);
      case Release(n) => AnswerRelease(n, outcome.ConnectionLost?);
      case Commit => AnswerEnd(true, outcome.ConnectionLost?);
      case Rollback => AnswerEnd(false, outcome.ConnectionLost?);
    }

    method Take(step: Step)
      modifies this
      ensures Abs() == Next(old(Abs()), step)
    {
      match step
      case DoExecute(s, local, hook) => Execute(s, local, hook);
      case DoSavepoint(s) => OpenSavepoint(s);
      case DoCallbackEnds(s, ok) => Finish(s, ok);
      case DoSettle(s) => Settle(s);
      case DoReject(s, op) => RejectQuery(s, op);
      case DoUnwind(s) => Unwind(s);
      case DoExpire => Expire();
      case DoAnswer(outcome, late) => Answer(outcome, late);
    }
  }

  // Any sequence of turns: the commands that reached the connection form a nested word exactly
  // when every turn was calm.
  method RunTurns(steps: seq<Step>) returns (log: seq<Command>)
    ensures log == Run(INITIAL, steps).log
    ensures S.Replay(log).Some? <==> H.Calm(steps)
  {
    var clients := new TransactionClients();
    var i := 0;
    while i < |steps|
      invariant i <= |steps| && clients.Abs() == Run(INITIAL, steps[..i])
      invariant fresh(clients)
    {
      assert steps[..i + 1][..i] == steps[..i];
      clients.Take(steps[i]);
      i := i + 1;
    }
    assert steps[..|steps|] == steps;
    T.CommandsAreNested(steps);
    log := clients.log;
  }
}
