/**
 A transaction and its nested savepoints: src/postgres-transaction-runtime.ts as a state
 machine. Commands go to one connection in order; the server is a stack of database states.

 A JavaScript turn is one step. Inside a query's turn, between the test of its client's flags
 and the send, user code runs and may call the clients again: the query-start hook, and the
 encoders of the parameters. A Hook value is the calls it makes.

 `expired` is the transaction state's error: once it is set, every pending and every later
 command of the scopes is refused.
 */
module SavepointModel {
  import opened Wrappers

  type Op = nat

  // What happened in a scope: its queries, and its children when they closed. A query can
  // be rejected although the server applied it, when its rows cannot be decoded.
  datatype Entry =
    | Ran(op: Op)
    | Rejected(op: Op, applied: bool)
    | Nested(name: nat, entries: seq<Entry>, kept: bool)

  // How far executeSavepoint, or the transaction callback for scope 0, has come.
  datatype Phase =
    | Opening
    | Running
    | Settling(ok: bool)
    | RollingBack(ok: bool)
    | Releasing(ok: bool, rolledBack: bool)
    | Closed(ok: bool, rolledBack: bool)
    | Broken
    | Ending(commit: bool)
    | Ended(committed: bool)

  // Scope 0 is the transaction client; every other scope is a savepoint. `history` is not
  // in the source: it records what the scope did.
  datatype Scope = Scope(
    parent: nat, name: nat, phase: Phase, active: bool, aborted: bool, childActive: bool,
    inFlight: set<Op>, history: seq<Entry>)

  datatype Command =
    | Savepoint(name: nat)
    | RollbackTo(name: nat)
    | Release(name: nat)
    | Query(scope: nat, op: Op)
    | Commit
    | Rollback

  datatype Mark = Mark(name: nat, saved: seq<Op>)

  // The database is the sequence of the queries applied in this transaction.
  datatype Server = Server(db: seq<Op>, marks: seq<Mark>, failed: bool)

  // `open` is not in the source: the scopes from opening to closing, outermost first.
  datatype State = State(
    scopes: seq<Scope>, nextSavepoint: nat, nextOp: nat, expired: bool,
    log: seq<Command>, answered: nat, server: Server, open: seq<nat>)

  const TOP := Scope(0, 0, Running, true, false, false, {}, [])

  const INITIAL := State([TOP], 1, 0, false, [], 0, Server([], [], false), [0])

  // ------------------------------------------------------------------- server

  // How a query ends: applied, applied but not decoded, refused before it was sent, failed
  // on the server, or the connection lost.
  datatype Outcome = Succeeds | DecodeFails | NeverSent | ServerFails | ConnectionLost

  function MarkIndex(marks: seq<Mark>, name: nat): (k: int)
    ensures -1 <= k < |marks| && (k >= 0 ==> marks[k].name == name)
  {
    if marks == [] then -1
    else if marks[|marks| - 1].name == name then |marks| - 1
    else MarkIndex(marks[..|marks| - 1], name)
  }

  // The server after a command it accepts.
  function AfterSavepoint(v: Server, name: nat): Server {
    v.(marks := v.marks + [Mark(name, v.db)])
  }

  function AfterRollbackTo(v: Server, name: nat): Server
    requires MarkIndex(v.marks, name) >= 0
  {
    var k := MarkIndex(v.marks, name);
    Server(v.marks[k].saved, v.marks[..k + 1], false)
  }

  function AfterRelease(v: Server, name: nat): Server
    requires MarkIndex(v.marks, name) >= 0
  {
    v.(marks := v.marks[..MarkIndex(v.marks, name)])
  }

  // --------------------------------------------------------------- the client

  predicate Exists(st: State, s: nat) {
    s < |st.scopes|
  }

  function Send(st: State, c: Command): State {
    st.(log := st.log + [c])
  }

  function Update(st: State, s: nat, scope: Scope): State
    requires Exists(st, s)
  {
    st.(scopes := st.scopes[s := scope])
  }

  // The client of a scope accepts calls.
  predicate Accepts(st: State, s: nat) {
    Exists(st, s) && st.scopes[s].active && !st.scopes[s].aborted && !st.scopes[s].childActive
  }

  // savepoint, up to sending SAVEPOINT. When the transaction has expired the call fails and
  // leaves no trace.
  function OpenSavepoint(st: State, s: nat): State {
    if !Accepts(st, s) || st.expired then st
    else
      var name := st.nextSavepoint;
      var child := Scope(s, name, Opening, false, false, false, {}, []);
      var parent := st.scopes[s].(childActive := true);
      var grown := st.(
        scopes := st.scopes[s := parent] + [child],
        nextSavepoint := name + 1,
        open := st.open + [|st.scopes|]);
      Send(grown, Savepoint(name))
  }

  // The callback of a scope returns or throws; finish() deactivates its client.
  function CallbackEnds(st: State, s: nat, ok: bool): State {
    if !Exists(st, s) || !st.scopes[s].phase.Running? then st
    else Update(st, s, st.scopes[s].(phase := Settling(ok), active := false))
  }

  function WithoutLast(open: seq<nat>): seq<nat> {
    if open == [] then [] else open[..|open| - 1]
  }

  // The end of a savepoint call: the parent accepts calls again.
  function Leave(st: State, s: nat, phase: Phase, entries: seq<Entry>): State
    requires Exists(st, s)
  {
    var p := st.scopes[s].parent;
    var left := Update(st, s, st.scopes[s].(phase := phase, active := false)).(open := WithoutLast(st.open));
    if p < |st.scopes| && p != s then
      var parent := left.scopes[p];
      Update(left, p, parent.(childActive := false, history := parent.history + entries))
    else left
  }

  // settle() returns once nothing is in flight; then the scope is ended.
  function Settle(st: State, s: nat): State {
    if !Exists(st, s) || !st.scopes[s].phase.Settling? || st.scopes[s].inFlight != {} || st.scopes[s].childActive
    then st
    else
      var scope := st.scopes[s];
      var ok := scope.phase.ok;
      if s == 0 then Send(Update(st, s, scope.(phase := Ending(ok))), if ok then Commit else Rollback)
      else if st.expired then Leave(st, s, Broken, [])
      else if !ok || scope.aborted then
        Send(Update(st, s, scope.(phase := RollingBack(ok))), RollbackTo(scope.name))
      else Send(Update(st, s, scope.(phase := Releasing(ok, false))), Release(scope.name))
  }

  // A query of a savepoint scope rejects without an answer: it was never sent, or the
  // transaction expired.
  function RejectQuery(st: State, s: nat, op: Op): State {
    if !Exists(st, s) || op !in st.scopes[s].inFlight then st
    else if !st.expired && Query(s, op) in st.log[if st.answered <= |st.log| then st.answered else |st.log|..] then st
    else
      var scope := st.scopes[s].(inFlight := st.scopes[s].inFlight - {op});
      Update(st, s, if st.expired then scope else scope.(aborted := true, history := scope.history + [Rejected(op, false)]))
  }

  // A control command of an expired transaction rejects, which ends its savepoint.
  function Unwind(st: State, s: nat): State {
    if !Exists(st, s) || s == 0 || !st.expired then st
    else if st.scopes[s].phase.Opening? || st.scopes[s].phase.RollingBack? || st.scopes[s].phase.Releasing? then
      Leave(st, s, Broken, [])
    else st
  }

  function Expire(st: State): State {
    st.(expired := true)
  }

  // ------------------------------------------------- queries and their hooks

  // What a hook calls before the query that runs it is sent.
  datatype Call =
    | CallExecute(s: nat, local: bool, hook: Hook)
    | CallSavepoint(s: nat)
    | CallExpire

  datatype Hook = Quiet | Then(call: Call, rest: Hook)

  // A savepoint scope puts its query in flight.
  function Tracked(st: State, s: nat): Scope
    requires Exists(st, s)
  {
    if s == 0 then st.scopes[s] else st.scopes[s].(inFlight := st.scopes[s].inFlight + {st.nextOp})
  }

  function Track(st: State, s: nat): State
    requires Exists(st, s)
  {
    Update(st, s, Tracked(st, s)).(nextOp := st.nextOp + 1)
  }

  // The rest of execute, once the hook has returned: only expiry is tested again.
  function Dispatch(st: State, s: nat, local: bool): State {
    if !Exists(st, s) then st
    else if st.expired || local then Track(st, s)
    else Send(Track(st, s), Query(s, st.nextOp))
  }

  // execute: `local` when the query is refused before it reaches the connection. An expired
  // transaction refuses it before the hook.
  function Execute(st: State, s: nat, local: bool, hook: Hook): State
    decreases hook, 1
  {
    if !Accepts(st, s) then st
    else Dispatch(if st.expired then st else RunHook(st, hook), s, local)
  }

  function RunHook(st: State, hook: Hook): State
    decreases hook, 0
  {
    match hook
    case Quiet => st
    case Then(call, rest) => RunHook(RunCall(st, call), rest)
  }

  function RunCall(st: State, call: Call): State
    decreases call, 0
  {
    match call
    case CallExecute(s, local, hook) => Execute(st, s, local, hook)
    case CallSavepoint(s) => OpenSavepoint(st, s)
    case CallExpire => Expire(st)
  }

  // ------------------------------------------------------------------ answers

  // A query of a scope is answered.
  function AnswerQuery(st: State, s: nat, op: Op, outcome: Outcome): State {
    if !Exists(st, s) then st
    else
      var end := if st.server.failed && (outcome.Succeeds? || outcome.DecodeFails?) then ServerFails else outcome;
      var scope := st.scopes[s].(inFlight := st.scopes[s].inFlight - {op});
      match end
      case ConnectionLost => Expire(Update(st, s, scope))
      case Succeeds =>
        Update(st, s, scope.(history := scope.history + [Ran(op)])).(
          server := st.server.(db := st.server.db + [op]))
      case DecodeFails =>
        Update(st, s, scope.(aborted := s != 0, history := scope.history + [Rejected(op, true)])).(
          server := st.server.(db := st.server.db + [op]))
      case NeverSent =>
        Update(st, s, scope.(aborted := s != 0, history := scope.history + [Rejected(op, false)]))
      case ServerFails =>
        Update(st, s, scope.(aborted := s != 0, history := scope.history + [Rejected(op, false)])).(
          server := st.server.(failed := true))
  }

  function AnswerSavepoint(st: State, n: nat, lost: bool): State {
    if lost || st.server.failed || !Exists(st, n) then Expire(st)
    else
      Update(st, n, st.scopes[n].(phase := Running, active := true)).(server := AfterSavepoint(st.server, n))
  }

  function AnswerRollbackTo(st: State, n: nat, lost: bool): State {
    if lost || MarkIndex(st.server.marks, n) < 0 || !Exists(st, n) || !st.scopes[n].phase.RollingBack? then Expire(st)
    else
      var scope := st.scopes[n].(phase := Releasing(st.scopes[n].phase.ok, true));
      Send(Update(st, n, scope).(server := AfterRollbackTo(st.server, n)), Release(n))
  }

  function AnswerRelease(st: State, n: nat, lost: bool): State {
    if lost || st.server.failed || MarkIndex(st.server.marks, n) < 0 || !Exists(st, n) || !st.scopes[n].phase.Releasing?
    then Expire(st)
    else
      var phase := st.scopes[n].phase;
      var entry := Nested(n, st.scopes[n].history, !phase.rolledBack);
      Leave(st, n, Closed(phase.ok, phase.rolledBack), [entry]).(server := AfterRelease(st.server, n))
  }

  // COMMIT of a failed transaction rolls back.
  function AnswerEnd(st: State, commit: bool, lost: bool): State {
    if lost || !Exists(st, 0) then Expire(st)
    else
      var committed := commit && !st.server.failed;
      Update(st, 0, st.scopes[0].(phase := Ended(committed))).(
        server := Server(if committed then st.server.db else [], [], false))
  }

  // The oldest command without an answer is answered. What the server does for an expired
  // transaction is left open.
  function Answer(st: State, outcome: Outcome, late: Server): State {
    if st.answered >= |st.log| then st
    else
      var next := st.(answered := st.answered + 1);
      if st.expired then next.(server := late)
      else
        match st.log[st.answered]
        case Query(s, op) => AnswerQuery(next, s, op, outcome)
        case Savepoint(n) => AnswerSavepoint(next, n, outcome.ConnectionLost?)
        case RollbackTo(n) => AnswerRollbackTo(next, n, outcome.ConnectionLost?)
        case Release(n) => AnswerRelease(next, n, outcome.ConnectionLost?)
        case Commit => AnswerEnd(next, true, outcome.ConnectionLost?)
        case Rollback => AnswerEnd(next, false, outcome.ConnectionLost?)
  }

  // --------------------------------------------------------------------- runs

  datatype Step =
    | DoExecute(s: nat, local: bool, hook: Hook)
    | DoSavepoint(s: nat)
    | DoCallbackEnds(s: nat, ok: bool)
    | DoSettle(s: nat)
    | DoReject(s: nat, op: Op)
    | DoUnwind(s: nat)
    | DoExpire
    | DoAnswer(outcome: Outcome, late: Server)

  function Next(st: State, step: Step): State {
    match step
    case DoExecute(s, local, hook) => Execute(st, s, local, hook)
    case DoSavepoint(s) => OpenSavepoint(st, s)
    case DoCallbackEnds(s, ok) => CallbackEnds(st, s, ok)
    case DoSettle(s) => Settle(st, s)
    case DoReject(s, op) => RejectQuery(st, s, op)
    case DoUnwind(s) => Unwind(st, s)
    case DoExpire => Expire(st)
    case DoAnswer(outcome, late) => Answer(st, outcome, late)
  }

  function Run(st: State, steps: seq<Step>): State {
    if steps == [] then st else Next(Run(st, steps[..|steps| - 1]), steps[|steps| - 1])
  }
}
