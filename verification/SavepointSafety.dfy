/**
 What every run of a transaction with savepoints keeps: the commands form a nested word,
 and the database holds exactly the effects of the scopes that were kept.
 */
module SavepointSafety {
  import opened Wrappers
  import opened SavepointModel

  // -------------------------------------------------------------------- meaning

  // The effects that a history leaves in the database.
  function Effects(h: seq<Entry>): seq<Op> {
    if h == [] then []
    else
      Effects(h[..|h| - 1]) +
      match h[|h| - 1]
      case Ran(op) => [op]
      case Rejected(op, applied) => if applied then [op] else []
      case Nested(_, entries, kept) => if kept then Effects(entries) else []
  }

  // None of the scope's own queries failed. Children that failed do not count.
  predicate Clean(h: seq<Entry>) {
    forall e <- h :: !e.Rejected?
  }

  // ----------------------------------------------------------------- nested words

  // The open savepoints, outermost first and starting with the transaction, and the names used.
  datatype Word = Word(stack: seq<nat>, used: set<nat>)

  predicate OnTop(stack: seq<nat>, n: nat) {
    stack != [] && stack[|stack| - 1] == n
  }

  // A savepoint has a new name, only the innermost is rolled back to or released, and
  // queries come from the innermost.
  function WordStep(w: Word, c: Command): Option<Word> {
    match c
    case Savepoint(n) => if w.stack == [] || n in w.used then None else Some(Word(w.stack + [n], w.used + {n}))
    case RollbackTo(n) => if |w.stack| > 1 && OnTop(w.stack, n) then Some(w) else None
    case Release(n) =>
      if |w.stack| > 1 && OnTop(w.stack, n) then Some(w.(stack := w.stack[..|w.stack| - 1])) else None
    case Query(s, _) => if OnTop(w.stack, s) then Some(w) else None
    case Commit => if w.stack == [] then None else Some(w.(stack := []))
    case Rollback => if w.stack == [] then None else Some(w.(stack := []))
  }

  function Replay(log: seq<Command>): Option<Word> {
    if log == [] then Some(Word([0], {0}))
    else
      var w := Replay(log[..|log| - 1]);
      if w.None? then None else WordStep(w.value, log[|log| - 1])
  }

  lemma ReplaySend(log: seq<Command>, c: Command)
    ensures Replay(log + [c]) == if Replay(log).None? then None else WordStep(Replay(log).value, c)
  {
    assert (log + [c])[..|log|] == log;
  }

  // ------------------------------------------------------------------ invariant

  predicate IsEnding(p: Phase) {
    p.Ending? || p.Ended?
  }

  // What holds of one scope by itself.
  predicate ScopeOk(s: Scope, i: nat) {
    && s.name == i && (i > 0 ==> s.parent < i)
    && (s.active <==> s.phase.Running?)
    && (s.childActive ==> s.phase.Running? || s.phase.Settling?)
    && (if i == 0 then s.phase.Running? || s.phase.Settling? || IsEnding(s.phase) else !IsEnding(s.phase))
    && (s.aborted <==> i > 0 && !Clean(s.history))
    && (i == 0 || s.phase.Opening? || s.phase.RollingBack? || s.phase.Releasing? || s.phase.Closed? ==> s.inFlight == {})
    && (s.phase.Opening? ==> s.history == [])
    && (s.phase.RollingBack? ==> !s.phase.ok || s.aborted)
    && (s.phase.Releasing? || s.phase.Closed? ==> (s.phase.rolledBack <==> !s.phase.ok || s.aborted))
  }

  predicate IsOpen(p: Phase) {
    !p.Closed? && !p.Broken?
  }

  function Last(open: seq<nat>): nat {
    if open == [] then 0 else open[|open| - 1]
  }

  function At(st: State, i: nat): Scope {
    if i < |st.scopes| then st.scopes[i] else TOP
  }

  // The scopes that are open are a chain from the transaction down.
  predicate Chain(st: State) {
    && st.open != [] && st.open[0] == 0
    && (forall k :: 0 <= k < |st.open| ==> st.open[k] < |st.scopes|)
    && (forall k :: 0 < k < |st.open| ==> st.scopes[st.open[k]].parent == st.open[k - 1])
    && (forall j, k :: 0 <= j < k < |st.open| ==> st.open[j] < st.open[k])
  }

  predicate ScopesOk(st: State) {
    forall i :: 0 <= i < |st.scopes| ==> ScopeOk(st.scopes[i], i)
  }

  // A scope is in the chain while it is open, and below the last while it has a child.
  predicate Opens(st: State) {
    && (forall i :: 0 <= i < |st.scopes| ==> (i in st.open <==> IsOpen(st.scopes[i].phase)))
    && (forall i :: 0 <= i < |st.scopes| ==> (st.scopes[i].childActive <==> i in WithoutLast(st.open)))
  }

  predicate Structure(st: State) {
    st.nextSavepoint == |st.scopes| && Chain(st) && ScopesOk(st) && Opens(st)
  }

  function LastScope(st: State): Scope {
    At(st, Last(st.open))
  }

  // The open scopes whose SAVEPOINT the server has answered.
  function Processed(st: State): seq<nat> {
    if LastScope(st).phase.Opening? then WithoutLast(st.open) else st.open
  }

  // The effects of one scope as the database has them.
  function Standing(s: Scope): seq<Op> {
    if s.phase.Releasing? && s.phase.rolledBack then [] else Effects(s.history)
  }

  function Flow(scopes: seq<Scope>, chain: seq<nat>): seq<Op> {
    if chain == [] then []
    else
      var i := chain[|chain| - 1];
      Flow(scopes, chain[..|chain| - 1]) + if i < |scopes| then Standing(scopes[i]) else []
  }

  // Sent and not yet answered.
  function Waiting(st: State): seq<Command> {
    if st.answered <= |st.log| then st.log[st.answered..] else []
  }

  // Queries of one scope, each in flight and sent once.
  predicate QueriesOf(st: State, cmds: seq<Command>, s: nat) {
    && (forall k :: 0 <= k < |cmds| ==>
          cmds[k].Query? && cmds[k].scope == s && cmds[k].op < st.nextOp
          && (s > 0 ==> cmds[k].op in At(st, s).inFlight))
    && (forall j, k :: 0 <= j < k < |cmds| ==> cmds[j] != cmds[k])
  }

  // The scope that may have queries waiting: the innermost one the server knows.
  function Asker(st: State): nat {
    if LastScope(st).phase.Opening? then LastScope(st).parent else Last(st.open)
  }

  // The command that the innermost scope may have waiting behind the queries.
  function Trailer(st: State): seq<Command> {
    match LastScope(st).phase
    case Opening => [Savepoint(Last(st.open))]
    case RollingBack(_) => [RollbackTo(Last(st.open))]
    case Releasing(_, _) => [Release(Last(st.open))]
    case Ending(commit) => [if commit then Commit else Rollback]
    case _ => []
  }

  // No queries can be waiting in front of the trailer.
  predicate Alone(p: Phase) {
    p.RollingBack? || p.Releasing? || p.Ended?
  }

  // The waiting queries, in front of the trailer.
  function Front(st: State): seq<Command> {
    if |Trailer(st)| <= |Waiting(st)| then Waiting(st)[..|Waiting(st)| - |Trailer(st)|] else []
  }

  // Queries of one scope, then at most one other command.
  predicate WaitingOk(st: State) {
    && Waiting(st) == Front(st) + Trailer(st) && QueriesOf(st, Front(st), Asker(st))
    && (Alone(LastScope(st).phase) ==> Front(st) == [])
    && (LastScope(st).phase.Opening? ==> |st.open| > 1) && IsOpen(LastScope(st).phase)
  }

  // A way to show it: name the queries.
  lemma FrontIs(st: State, queries: seq<Command>)
    requires Waiting(st) == queries + Trailer(st)
    ensures Front(st) == queries
  {
  }

  // One mark for every savepoint of the chain, holding the effects outside it.
  predicate MarksFit(scopes: seq<Scope>, marks: seq<Mark>, chain: seq<nat>) {
    if marks == [] then |chain| == 1
    else
      && |chain| > 1
      && marks[|marks| - 1] == Mark(Last(chain), Flow(scopes, chain[..|chain| - 1]))
      && MarksFit(scopes, marks[..|marks| - 1], chain[..|chain| - 1])
  }

  predicate ServerOk(st: State) {
    var chain := Processed(st);
    && st.server.db == Flow(st.scopes, chain)
    && (LastScope(st).phase.Releasing? ==> !st.server.failed)
    && (st.server.failed ==> chain == [0] || At(st, Last(chain)).aborted)
  }

  predicate IsEnded(st: State) {
    At(st, 0).phase.Ended?
  }

  // Client, wire and server agree as long as the transaction has not expired.
  predicate Wire(st: State) {
    && st.answered <= |st.log| && WaitingOk(st)
    && (!IsEnded(st) ==> MarksFit(st.scopes, st.server.marks, Processed(st)) && ServerOk(st))
    && (At(st, 0).phase == Ended(true) ==> st.server.db == Effects(At(st, 0).history))
    && (At(st, 0).phase == Ended(false) ==> st.server.db == [])
  }

  // What the commands sent so far leave open.
  function Sent(st: State): seq<nat> {
    if IsEnding(At(st, 0).phase) then []
    else if LastScope(st).phase.Releasing? then WithoutLast(st.open)
    else st.open
  }

  predicate WordOk(st: State) {
    var w := Replay(st.log);
    && w.Some? && (forall n <- w.value.used :: n < st.nextSavepoint)
    && (IsEnding(At(st, 0).phase) <==> w.value.stack == [])
    && (!st.expired ==> w.value.stack == Sent(st))
  }

  predicate Inv(st: State) {
    Structure(st) && WordOk(st) && (!st.expired ==> Wire(st))
  }

  lemma InitialLists()
    ensures WithoutLast([0]) == [] && Last([0]) == 0
    ensures LastScope(INITIAL) == TOP && At(INITIAL, 0) == TOP && Trailer(INITIAL) == []
  {
    assert INITIAL.scopes == [TOP] && INITIAL.open == [0];
  }

  lemma InitialStructure()
    ensures Structure(INITIAL)
  {
    InitialLists();
    hide WithoutLast, LastScope, Trailer;
  }

  lemma InitialWord()
    ensures WordOk(INITIAL)
  {
    InitialLists();
    hide WithoutLast, LastScope, Trailer, At;
  }

  lemma InitialWire()
    ensures Wire(INITIAL)
  {
    InitialLists();
    hide WithoutLast, LastScope, Trailer, At, Last;
    assert Waiting(INITIAL) == [] && Front(INITIAL) == [] by {
      FrontIs(INITIAL, []);
    }
    assert Flow([TOP], [0]) == [] by {
      assert [0][..0] == [];
    }
    hide Flow, Waiting, Front;
  }

  lemma InitialInv()
    ensures Inv(INITIAL)
  {
    hide Structure, WordOk, Wire;
    InitialStructure();
    InitialWord();
    InitialWire();
  }

  // ------------------------------------------------------------------ structure

  lemma {:induction false} FlowSame(scopes: seq<Scope>, other: seq<Scope>, chain: seq<nat>)
    requires forall i <- chain :: i < |scopes| && i < |other| && Standing(scopes[i]) == Standing(other[i])
    ensures Flow(scopes, chain) == Flow(other, chain)
  {
    if chain == [] {
    } else {
      FlowSame(scopes, other, chain[..|chain| - 1]);
    }
  }

  // The innermost open scope is the one that is open and has no open child.
  lemma Innermost(st: State, s: nat)
    requires Structure(st) && Exists(st, s) && IsOpen(st.scopes[s].phase) && !st.scopes[s].childActive
    ensures Last(st.open) == s
  {
    hide ScopesOk;
    assert s in st.open;
    assert st.open == WithoutLast(st.open) + [Last(st.open)];
  }

  lemma UpdateKeepsStructure(st: State, s: nat, scope: Scope)
    requires Structure(st) && Exists(st, s) && ScopeOk(scope, s)
    requires scope.parent == st.scopes[s].parent && scope.childActive == st.scopes[s].childActive
    requires IsOpen(scope.phase) == IsOpen(st.scopes[s].phase)
    ensures Structure(Update(st, s, scope))
  {
    hide ScopeOk;
  }

  lemma CleanAppend(h: seq<Entry>, e: Entry)
    ensures Clean(h + [e]) <==> Clean(h) && !e.Rejected?
  {
    assert forall x :: x in h ==> x in h + [e];
    assert e in h + [e];
  }

  // The chain without its last scope is the chain of the parent.
  lemma LeaveChain(st: State, s: nat)
    requires Structure(st) && Exists(st, s) && s > 0 && Last(st.open) == s
    ensures var open := WithoutLast(st.open);
            && open != [] && Last(open) == st.scopes[s].parent < s && st.open == open + [s]
            && open == WithoutLast(open) + [Last(open)] && s !in open
  {
    assert |st.open| > 1 by {
      assert st.open[0] == 0;
    }
    assert ScopeOk(st.scopes[s], s);
  }

  lemma LeftScope(st: State, s: nat, phase: Phase, entries: seq<Entry>, i: nat)
    requires Exists(st, s) && s > 0 && i < |st.scopes| && st.scopes[s].parent < s
    ensures var st' := Leave(st, s, phase, entries);
            && |st'.scopes| == |st.scopes| && st'.open == WithoutLast(st.open)
            && st'.scopes[i].parent == st.scopes[i].parent
            && st'.scopes[i].phase == (if i == s then phase else st.scopes[i].phase)
            && st'.scopes[i].childActive == (i != st.scopes[s].parent && st.scopes[i].childActive)
  {
  }

  lemma LeaveOpens(st: State, s: nat, phase: Phase, entries: seq<Entry>)
    requires Structure(st) && Exists(st, s) && s > 0 && Last(st.open) == s && !IsOpen(phase)
    ensures Chain(Leave(st, s, phase, entries)) && Opens(Leave(st, s, phase, entries))
  {
    LeaveChain(st, s);
    hide ScopesOk, ScopeOk, Leave, WithoutLast, IsOpen;
    var st' := Leave(st, s, phase, entries);
    var open := WithoutLast(st.open);
    forall i | 0 <= i < |st.scopes|
      ensures i < |st'.scopes| && st'.scopes[i].parent == st.scopes[i].parent
      ensures i in st'.open <==> IsOpen(st'.scopes[i].phase)
      ensures st'.scopes[i].childActive <==> i in WithoutLast(open)
    {
      LeftScope(st, s, phase, entries, i);
      MembersSnoc(open, s, i);
      MembersSnoc(WithoutLast(open), Last(open), i);
    }
    LeftScope(st, s, phase, entries, s);
    hide Opens;
  }

  lemma LeaveScopes(st: State, s: nat, phase: Phase, entries: seq<Entry>)
    requires Structure(st) && Exists(st, s) && s > 0
    requires !IsOpen(phase) && ScopeOk(st.scopes[s].(phase := phase, active := false), s) && Clean(entries)
    requires st.scopes[st.scopes[s].parent].childActive
    ensures ScopesOk(Leave(st, s, phase, entries))
  {
    hide Chain, Opens;
    assert ScopeOk(st.scopes[s], s);
    var p := st.scopes[s].parent;
    assert ScopeOk(st.scopes[p], p);
    var h := st.scopes[p].history;
    assert forall e :: e in h + entries <==> e in h || e in entries;
    assert Clean(h + entries) <==> Clean(h);
    hide Clean;
    assert ScopeOk(st.scopes[p].(childActive := false, history := h + entries), p);
    hide ScopeOk;
    var st' := Leave(st, s, phase, entries);
    forall i | 0 <= i < |st'.scopes| ensures ScopeOk(st'.scopes[i], i) {
      assert i != p && i != s ==> st'.scopes[i] == st.scopes[i];
    }
  }

  // The chain without its last scope is the chain of the parent.
  lemma LeaveKeepsStructure(st: State, s: nat, phase: Phase, entries: seq<Entry>)
    requires Structure(st) && Exists(st, s) && s > 0 && Last(st.open) == s
    requires !IsOpen(phase) && ScopeOk(st.scopes[s].(phase := phase, active := false), s)
    requires Clean(entries)
    ensures Structure(Leave(st, s, phase, entries))
    ensures Last(WithoutLast(st.open)) == st.scopes[s].parent < s && st.open == WithoutLast(st.open) + [s]
  {
    LeaveChain(st, s);
    LeaveOpens(st, s, phase, entries);
    assert st.scopes[st.scopes[s].parent].childActive;
    LeaveScopes(st, s, phase, entries);
  }

  lemma OpenScopes(st: State, s: nat)
    requires Structure(st) && Accepts(st, s) && !st.expired
    ensures ScopesOk(OpenSavepoint(st, s))
  {
    hide Chain, Opens;
    assert ScopeOk(st.scopes[s], s);
    assert Clean([]);
    var st' := OpenSavepoint(st, s);
    assert ScopeOk(st'.scopes[s], s) && ScopeOk(st'.scopes[|st.scopes|], |st.scopes|);
    hide ScopeOk;
    forall i | 0 <= i < |st'.scopes| ensures ScopeOk(st'.scopes[i], i) {
      assert i != s && i < |st.scopes| ==> st'.scopes[i] == st.scopes[i];
    }
  }

  lemma OpenChain(st: State, s: nat)
    requires Structure(st) && Accepts(st, s) && !st.expired && Last(st.open) == s
    ensures Chain(OpenSavepoint(st, s))
  {
    hide ScopesOk, ScopeOk, Opens;
    assert OpenSavepoint(st, s).open == st.open + [|st.scopes|];
  }

  lemma OpenLists(st: State, s: nat)
    requires Chain(st) && Accepts(st, s) && !st.expired && Last(st.open) == s
    ensures var st' := OpenSavepoint(st, s);
            && st'.open == st.open + [|st.scopes|] && WithoutLast(st'.open) == st.open
            && st.open == WithoutLast(st.open) + [s] && |st'.scopes| == |st.scopes| + 1
    ensures forall i <- st.open :: i < |st.scopes|
  {
  }

  lemma OpenedScope(st: State, s: nat, i: nat)
    requires Accepts(st, s) && !st.expired && i <= |st.scopes|
    ensures var st' := OpenSavepoint(st, s);
            && i < |st'.scopes| && IsOpen(st'.scopes[i].phase) == (i == |st.scopes| || IsOpen(st.scopes[i].phase))
            && st'.scopes[i].childActive == (i < |st.scopes| && (i == s || st.scopes[i].childActive))
  {
  }

  lemma OpenOpens(st: State, s: nat)
    requires Chain(st) && Opens(st) && Accepts(st, s) && !st.expired && Last(st.open) == s
    ensures Opens(OpenSavepoint(st, s))
  {
    var st' := OpenSavepoint(st, s);
    OpenLists(st, s);
    hide Chain, WithoutLast, OpenSavepoint, IsOpen, Last;
    forall i | 0 <= i < |st'.scopes|
      ensures i in st'.open <==> IsOpen(st'.scopes[i].phase)
      ensures st'.scopes[i].childActive <==> i in st.open
    {
      OpenedScope(st, s, i);
      MembersSnoc(st.open, |st.scopes|, i);
      MembersSnoc(WithoutLast(st.open), s, i);
    }
  }

  lemma MembersSnoc(open: seq<nat>, last: nat, i: nat)
    ensures i in open + [last] <==> i in open || i == last
  {
  }

  lemma OpenKeepsStructure(st: State, s: nat)
    requires Structure(st) && Accepts(st, s) && !st.expired
    ensures Structure(OpenSavepoint(st, s)) && Last(st.open) == s
  {
    assert ScopeOk(st.scopes[s], s);
    Innermost(st, s);
    OpenScopes(st, s);
    OpenChain(st, s);
    OpenOpens(st, s);
  }

  lemma {:induction false} MarksSame(scopes: seq<Scope>, other: seq<Scope>, marks: seq<Mark>, chain: seq<nat>)
    requires MarksFit(scopes, marks, chain)
    requires forall i <- WithoutLast(chain) :: i < |scopes| && i < |other| && Standing(scopes[i]) == Standing(other[i])
    ensures MarksFit(other, marks, chain)
  {
    if marks == [] {
    } else {
      var shorter := chain[..|chain| - 1];
      FlowSame(scopes, other, shorter);
      assert forall i :: i in WithoutLast(shorter) ==> i in shorter;
      MarksSame(scopes, other, marks[..|marks| - 1], shorter);
    }
  }

  // The server's side of a change that moves nothing: the same marks, the same effects.
  lemma ServerSame(st: State, st': State)
    requires MarksFit(st.scopes, st.server.marks, Processed(st)) && ServerOk(st)
    requires st'.server == st.server && Processed(st') == Processed(st)
    requires forall i <- Processed(st) ::
               i < |st.scopes| && i < |st'.scopes| && Standing(st.scopes[i]) == Standing(st'.scopes[i])
    requires LastScope(st').phase.Releasing? ==> !st.server.failed
    requires st.server.failed && At(st, Last(Processed(st))).aborted ==> At(st', Last(Processed(st))).aborted
    ensures MarksFit(st'.scopes, st'.server.marks, Processed(st')) && ServerOk(st')
  {
    hide Standing, Processed;
    var chain := Processed(st);
    FlowSame(st.scopes, st'.scopes, chain);
    assert forall i :: i in WithoutLast(chain) ==> i in chain;
    MarksSame(st.scopes, st'.scopes, st.server.marks, chain);
  }

  // ---------------------------------------------------------------- client steps

  lemma ProcessedIsChain(st: State)
    requires Structure(st)
    ensures forall i <- Processed(st) :: i < |st.scopes| && i in st.open
    ensures forall i <- WithoutLast(Processed(st)) :: i < |st.scopes| && i in st.open
  {
  }

  // The server's side of a change that leaves the phase and the standing effects in place.
  lemma QuietServer(st: State, s: nat, scope: Scope, n: nat)
    requires Structure(st) && Exists(st, s)
    requires scope.phase == st.scopes[s].phase && Effects(scope.history) == Effects(st.scopes[s].history)
    requires st.scopes[s].aborted ==> scope.aborted
    requires MarksFit(st.scopes, st.server.marks, Processed(st)) && ServerOk(st)
    ensures var st' := Update(st, s, scope).(nextOp := n);
            MarksFit(st'.scopes, st'.server.marks, Processed(st')) && ServerOk(st')
  {
    hide Flow, MarksFit, Effects, ScopesOk, Opens;
    var st' := Update(st, s, scope).(nextOp := n);
    assert Processed(st') == Processed(st);
    ProcessedIsChain(st);
    ServerSame(st, st');
  }

  lemma Appended(st: State, st': State, c: Command)
    requires st'.log == st.log + [c] && st'.answered == st.answered <= |st.log|
    ensures Waiting(st') == Waiting(st) + [c]
  {
  }

  // A way to show that the right commands wait: name the queries in front.
  lemma WaitingBy(st: State, queries: seq<Command>)
    requires Waiting(st) == queries + Trailer(st) && QueriesOf(st, queries, Asker(st))
    requires Alone(LastScope(st).phase) ==> queries == []
    requires (LastScope(st).phase.Opening? ==> |st.open| > 1) && IsOpen(LastScope(st).phase)
    ensures WaitingOk(st)
  {
    hide Waiting, Trailer, Asker, QueriesOf, LastScope, Alone, IsOpen, Front;
    FrontIs(st, queries);
  }

  lemma SameQueries(st: State, st': State, cmds: seq<Command>, s: nat)
    requires QueriesOf(st, cmds, s) && st'.nextOp >= st.nextOp && At(st', s).inFlight == At(st, s).inFlight
    ensures QueriesOf(st', cmds, s)
  {
  }

  // The same commands wait behind the same innermost scope.
  lemma WaitingMoves(st: State, st': State)
    requires WaitingOk(st) && Waiting(st') == Waiting(st) && Trailer(st') == Trailer(st) && Asker(st') == Asker(st)
    requires QueriesOf(st', Front(st), Asker(st)) && st'.open == st.open && IsOpen(LastScope(st').phase)
    requires Alone(LastScope(st').phase) ==> Alone(LastScope(st).phase)
    requires LastScope(st').phase.Opening? <==> LastScope(st).phase.Opening?
    ensures WaitingOk(st')
  {
    hide Waiting, Trailer, Asker, QueriesOf, LastScope, Alone, IsOpen;
  }

  // The wire's side: a query in flight that is not waiting may leave.
  lemma QuietViews(st: State, s: nat, scope: Scope, n: nat)
    requires Exists(st, s) && scope.phase == st.scopes[s].phase && scope.parent == st.scopes[s].parent
    ensures var st' := Update(st, s, scope).(nextOp := n);
            && Waiting(st') == Waiting(st) && Trailer(st') == Trailer(st) && Asker(st') == Asker(st)
            && LastScope(st').phase == LastScope(st).phase && st'.open == st.open
  {
  }

  lemma QuietWaiting(st: State, s: nat, scope: Scope, n: nat)
    requires Exists(st, s) && st.nextOp <= n
    requires scope.phase == st.scopes[s].phase && scope.parent == st.scopes[s].parent
    requires WaitingOk(st)
    requires forall c <- Front(st) :: c.Query? && c.scope == s && s > 0 && c.op in st.scopes[s].inFlight
                                      ==> c.op in scope.inFlight
    ensures WaitingOk(Update(st, s, scope).(nextOp := n))
  {
    hide WaitingOk, QueriesOf, Front, Asker, Waiting, Trailer, LastScope, Update;
    QuietViews(st, s, scope, n);
    WaitingQueries(st);
    QuietQueries(st, s, scope, n, Front(st), Asker(st));
    WaitingMoves(st, Update(st, s, scope).(nextOp := n));
  }

  lemma FrontWaiting(st: State)
    ensures forall c <- Front(st) :: c in Waiting(st)
  {
  }

  lemma QuietQueries(st: State, s: nat, scope: Scope, n: nat, cmds: seq<Command>, t: nat)
    requires Exists(st, s) && st.nextOp <= n && QueriesOf(st, cmds, t)
    requires forall c <- cmds :: c.Query? && c.scope == s && s > 0 && c.op in st.scopes[s].inFlight
                                 ==> c.op in scope.inFlight
    ensures QueriesOf(Update(st, s, scope).(nextOp := n), cmds, t)
  {
    forall k | 0 <= k < |cmds| && t > 0 ensures cmds[k].op in At(Update(st, s, scope), t).inFlight {
      assert cmds[k] in cmds;
    }
  }

  lemma SamePhases(st: State, st': State)
    requires st'.open == st.open && forall i :: At(st', i).phase == At(st, i).phase
    ensures Sent(st') == Sent(st) && Processed(st') == Processed(st) && LastScope(st').phase == LastScope(st).phase
  {
  }

  lemma QuietShape(st: State, s: nat, scope: Scope, n: nat)
    requires Structure(st) && Exists(st, s) && ScopeOk(scope, s)
    requires scope.parent == st.scopes[s].parent && scope.childActive == st.scopes[s].childActive
    requires scope.phase == st.scopes[s].phase
    ensures var st' := Update(st, s, scope).(nextOp := n);
            && Structure(st') && At(st', 0).phase == At(st, 0).phase
            && LastScope(st').phase == LastScope(st).phase && Sent(st') == Sent(st)
  {
    var st' := Update(st, s, scope).(nextOp := n);
    UpdateKeepsStructure(st, s, scope);
    assert Structure(st');
    hide Structure, ScopeOk;
    SamePhases(st, st');
  }

  lemma QuietWord(st: State, st': State)
    requires WordOk(st) && st'.log == st.log && st'.expired == st.expired && st'.nextSavepoint == st.nextSavepoint
    requires At(st', 0).phase == At(st, 0).phase && Sent(st') == Sent(st)
    ensures WordOk(st')
  {
    hide Sent;
  }

  lemma QuietWire(st: State, s: nat, scope: Scope, n: nat)
    requires Structure(st) && Wire(st) && Exists(st, s) && st.nextOp <= n
    requires scope.parent == st.scopes[s].parent && scope.phase == st.scopes[s].phase
    requires Effects(scope.history) == Effects(st.scopes[s].history) && (st.scopes[s].aborted ==> scope.aborted)
    requires forall c <- Waiting(st) :: c.Query? && c.scope == s && s > 0 && c.op in st.scopes[s].inFlight
                                        ==> c.op in scope.inFlight
    ensures Wire(Update(st, s, scope).(nextOp := n))
  {
    hide Structure, MarksFit, WaitingOk, ServerOk, Processed, Front, Waiting, Effects;
    FrontWaiting(st);
    QuietWaiting(st, s, scope, n);
    if !IsEnded(st) {
      QuietServer(st, s, scope, n);
    }
  }

  // Changes that leave the phase, the standing effects and the queries in flight in place.
  lemma QuietUpdate(st: State, s: nat, scope: Scope, n: nat)
    requires Inv(st) && Exists(st, s) && ScopeOk(scope, s) && st.nextOp <= n
    requires scope.parent == st.scopes[s].parent && scope.childActive == st.scopes[s].childActive
    requires scope.phase == st.scopes[s].phase && Effects(scope.history) == Effects(st.scopes[s].history)
    requires st.scopes[s].aborted ==> scope.aborted
    requires !st.expired ==> forall c <- Waiting(st) :: c.Query? && c.scope == s && s > 0 && c.op in st.scopes[s].inFlight
                                                        ==> c.op in scope.inFlight
    ensures Inv(Update(st, s, scope).(nextOp := n))
  {
    hide Structure, WordOk, Wire, Sent, ScopeOk, Waiting, Effects;
    QuietShape(st, s, scope, n);
    QuietWord(st, Update(st, s, scope).(nextOp := n));
    if !st.expired {
      QuietWire(st, s, scope, n);
    }
  }

  lemma AddQuery(st: State, cmds: seq<Command>, s: nat, op: Op)
    requires Exists(st, s) && QueriesOf(st, cmds, s) && Query(s, op) !in cmds
    requires op < st.nextOp && (s > 0 ==> op in st.scopes[s].inFlight)
    ensures QueriesOf(Send(st, Query(s, op)), cmds + [Query(s, op)], s)
  {
  }

  lemma SendQueryWord(st: State, s: nat, op: Op)
    requires WordOk(st) && !st.expired && Sent(st) == st.open && OnTop(st.open, s) && !IsEnding(At(st, 0).phase)
    ensures WordOk(Send(st, Query(s, op)))
  {
    ReplaySend(st.log, Query(s, op));
    assert Sent(Send(st, Query(s, op))) == Sent(st);
    hide Sent;
  }

  lemma SendQueryWire(st: State, s: nat, op: Op)
    requires Wire(st) && Exists(st, s) && Last(st.open) == s && LastScope(st).phase.Running?
    requires op < st.nextOp && (s > 0 ==> op in st.scopes[s].inFlight) && Query(s, op) !in Waiting(st)
    ensures Wire(Send(st, Query(s, op)))
  {
    hide MarksFit, Effects, ServerOk, WaitingOk, Processed, Waiting, LastScope;
    SendQueryWaiting(st, s, op);
    SendKeepsServer(st, Query(s, op));
  }

  lemma SendStructure(st: State, c: Command)
    requires Structure(st)
    ensures Structure(Send(st, c))
  {
  }

  lemma SendQuery(st: State, s: nat, op: Op)
    requires Inv(st) && !st.expired && Accepts(st, s) && op < st.nextOp && (s > 0 ==> op in st.scopes[s].inFlight)
    requires Query(s, op) !in Waiting(st)
    ensures Inv(Send(st, Query(s, op)))
  {
    hide Inv, Structure, WordOk, Wire, Sent, Processed, Waiting, IsEnding;
    InvParts(st);
    AcceptsShape(st, s);
    SendStructure(st, Query(s, op));
    SendQueryWord(st, s, op);
    SendQueryWire(st, s, op);
    PartsInv(Send(st, Query(s, op)));
  }

  // Behind a running innermost scope only its queries wait.
  lemma RunningWaiting(st: State, s: nat)
    requires WaitingOk(st) && Last(st.open) == s && LastScope(st).phase.Running?
    ensures QueriesOf(st, Waiting(st), s)
  {
    hide QueriesOf, Waiting;
    assert Trailer(st) == [] && Asker(st) == s;
    FrontIs(st, Waiting(st));
  }

  lemma SendQueryWaiting(st: State, s: nat, op: Op)
    requires WaitingOk(st) && st.answered <= |st.log| && Query(s, op) !in Waiting(st)
    requires Exists(st, s) && Last(st.open) == s && LastScope(st).phase.Running?
    requires op < st.nextOp && (s > 0 ==> op in st.scopes[s].inFlight)
    ensures WaitingOk(Send(st, Query(s, op)))
  {
    hide QueriesOf, Front, Waiting;
    var st' := Send(st, Query(s, op));
    RunningWaiting(st, s);
    assert Trailer(st') == [] && Asker(st') == s && LastScope(st').phase.Running?;
    hide LastScope, Asker, Trailer;
    Appended(st, st', Query(s, op));
    AddQuery(st, Waiting(st), s, op);
    WaitingBy(st', Waiting(st) + [Query(s, op)]);
  }

  // A scope that accepts calls is the innermost.
  lemma AcceptsShape(st: State, s: nat)
    requires Structure(st) && Accepts(st, s)
    ensures Last(st.open) == s && st.scopes[s].phase.Running?
    ensures Sent(st) == st.open == Processed(st) && st.open != [] && !IsEnding(At(st, 0).phase)
  {
    assert ScopeOk(st.scopes[s], s);
    Innermost(st, s);
    SentIsOpen(st, s);
  }

  lemma SendKeepsServer(st: State, c: Command)
    ensures ServerOk(st) ==> ServerOk(Send(st, c))
    ensures IsEnded(Send(st, c)) == IsEnded(st) && Processed(Send(st, c)) == Processed(st)
  {
    hide Flow;
  }

  // While the innermost scope is not ending, neither is the transaction.
  lemma RootRunning(st: State)
    requires Structure(st) && !IsEnding(LastScope(st).phase)
    ensures !IsEnding(st.scopes[0].phase)
  {
    if |st.open| > 1 {
      assert WithoutLast(st.open)[0] == 0;
      assert 0 in WithoutLast(st.open);
      assert ScopeOk(st.scopes[0], 0);
    }
  }

  lemma NotWaiting(st: State, s: nat)
    requires Inv(st) && !st.expired && Accepts(st, s)
    ensures Query(s, st.nextOp) !in Waiting(st)
  {
    Innermost(st, s);
  }

  lemma ScopeOkAt(st: State, s: nat)
    requires Inv(st) && Exists(st, s)
    ensures ScopeOk(st.scopes[s], s)
  {
  }

  lemma SameWaiting(st: State, st': State)
    requires st'.log == st.log && st'.answered == st.answered
    ensures Waiting(st') == Waiting(st)
  {
  }

  lemma TrackedOk(st: State, s: nat)
    requires Inv(st) && Exists(st, s) && st.scopes[s].phase.Running?
    ensures ScopeOk(Tracked(st, s), s)
  {
    assert ScopeOk(st.scopes[s], s);
  }

  lemma TrackKeeps(st: State, s: nat)
    requires Inv(st) && Exists(st, s) && st.scopes[s].phase.Running?
    ensures Inv(Track(st, s))
  {
    hide Inv, ScopeOk, Waiting, Effects;
    TrackedOk(st, s);
    QuietUpdate(st, s, Tracked(st, s), st.nextOp + 1);
  }

  // The rest of execute: a query that is sent comes from a client that accepts calls.
  lemma DispatchKeeps(st: State, s: nat, local: bool)
    requires Inv(st) && Exists(st, s) && st.scopes[s].phase.Running?
    requires st.expired || local || Accepts(st, s)
    ensures Inv(Dispatch(st, s, local))
  {
    hide Inv, Waiting;
    TrackKeeps(st, s);
    if !st.expired && !local {
      NotWaiting(st, s);
      SameWaiting(st, Track(st, s));
      SendQuery(Track(st, s), s, st.nextOp);
    }
  }

  lemma SentIsOpen(st: State, s: nat)
    requires Structure(st) && Last(st.open) == s && Exists(st, s)
    requires st.scopes[s].phase.Running? || st.scopes[s].phase.Settling?
    ensures Sent(st) == st.open == Processed(st) && st.open != [] && !IsEnding(At(st, 0).phase)
    ensures s == 0 <==> st.open == [0]
  {
    RootRunning(st);
  }

  lemma OpenViews(st: State, s: nat)
    requires Accepts(st, s) && !st.expired && st.nextSavepoint == |st.scopes|
    ensures var st' := OpenSavepoint(st, s);
            && LastScope(st').phase.Opening? && At(st', 0).phase == At(st, 0).phase && st'.expired == st.expired
            && st'.log == st.log + [Savepoint(st.nextSavepoint)] && st'.nextSavepoint == st.nextSavepoint + 1
            && st'.open == st.open + [st.nextSavepoint]
  {
  }

  lemma OpenWord(st: State, s: nat)
    requires Inv(st) && Accepts(st, s) && !st.expired
    ensures WordOk(OpenSavepoint(st, s))
  {
    hide Wire, OpenSavepoint, Replay, ScopesOk, Chain, Opens, Accepts;
    AcceptsShape(st, s);
    assert st.nextSavepoint == |st.scopes|;
    OpenViews(st, s);
    ReplaySend(st.log, Savepoint(st.nextSavepoint));
    hide Structure;
  }

  lemma OpenWaiting(st: State, s: nat)
    requires Accepts(st, s) && !st.expired && QueriesOf(st, Waiting(st), s) && st.answered <= |st.log|
    requires st.nextSavepoint == |st.scopes| && st.open != []
    ensures WaitingOk(OpenSavepoint(st, s)) && OpenSavepoint(st, s).answered <= |OpenSavepoint(st, s).log|
  {
    var st' := OpenSavepoint(st, s);
    assert Trailer(st') == [Savepoint(st.nextSavepoint)] && Asker(st') == s && LastScope(st').phase.Opening?;
    assert |st'.open| > 1 && At(st', s).inFlight == At(st, s).inFlight;
    hide QueriesOf, Waiting, LastScope, Asker, Trailer;
    Appended(st, st', Savepoint(st.nextSavepoint));
    SameQueries(st, st', Waiting(st), s);
    WaitingBy(st', Waiting(st));
  }

  lemma OpenServer(st: State, s: nat)
    requires Structure(st) && Accepts(st, s) && !st.expired && Last(st.open) == s && st.scopes[s].phase.Running?
    requires MarksFit(st.scopes, st.server.marks, Processed(st)) && ServerOk(st)
    ensures var st' := OpenSavepoint(st, s);
            MarksFit(st'.scopes, st'.server.marks, Processed(st')) && ServerOk(st')
  {
    var st' := OpenSavepoint(st, s);
    assert Processed(st') == st.open == Processed(st) by {
      assert WithoutLast(st'.open) == st.open;
    }
    ProcessedIsChain(st);
    hide ScopesOk, Opens, Flow, MarksFit, Effects;
    ServerSame(st, st');
  }

  lemma OpenWire(st: State, s: nat)
    requires Inv(st) && Accepts(st, s) && !st.expired
    ensures Wire(OpenSavepoint(st, s))
  {
    InvParts(st);
    AcceptsShape(st, s);
    hide ScopesOk, Opens, Chain, ScopeOk, Flow, MarksFit, QueriesOf, WordOk, WaitingOk, ServerOk, Processed, Waiting, Sent, Effects;
    RunningWaiting(st, s);
    OpenWaiting(st, s);
    OpenViews(st, s);
    hide OpenSavepoint, LastScope;
    if !IsEnded(st) {
      OpenServer(st, s);
    }
  }

  lemma OpenKeeps(st: State, s: nat)
    requires Inv(st)
    ensures Inv(OpenSavepoint(st, s))
  {
    if Accepts(st, s) && !st.expired {
      OpenKeepsStructure(st, s);
      OpenWord(st, s);
      OpenWire(st, s);
      hide *;
    }
  }

  lemma EndsShape(st: State, s: nat, ok: bool)
    requires Structure(st) && Exists(st, s) && st.scopes[s].phase.Running?
    ensures var st' := CallbackEnds(st, s, ok);
            && Structure(st') && Sent(st') == Sent(st) && Processed(st') == Processed(st)
            && (IsEnding(At(st', 0).phase) <==> IsEnding(At(st, 0).phase)) && !IsEnded(st') == !IsEnded(st)
  {
    assert ScopeOk(st.scopes[s], s);
    var st' := CallbackEnds(st, s, ok);
    assert st' == Update(st, s, st.scopes[s].(phase := Settling(ok), active := false));
    hide CallbackEnds, ScopesOk, Opens, Chain;
    UpdateKeepsStructure(st, s, st.scopes[s].(phase := Settling(ok), active := false));
    hide Structure, ScopeOk;
  }

  lemma EndsViews(st: State, s: nat, ok: bool)
    requires Exists(st, s) && st.scopes[s].phase.Running?
    ensures var st' := CallbackEnds(st, s, ok);
            && Waiting(st') == Waiting(st) && Trailer(st') == Trailer(st) && Asker(st') == Asker(st)
            && (IsOpen(LastScope(st').phase) <==> IsOpen(LastScope(st).phase)) && st'.open == st.open
            && (Alone(LastScope(st').phase) <==> Alone(LastScope(st).phase))
            && (LastScope(st').phase.Opening? <==> LastScope(st).phase.Opening?)
            && st'.nextOp == st.nextOp && At(st', Asker(st)).inFlight == At(st, Asker(st)).inFlight
  {
  }

  lemma WaitingQueries(st: State)
    requires WaitingOk(st)
    ensures QueriesOf(st, Front(st), Asker(st)) && IsOpen(LastScope(st).phase)
  {
    hide QueriesOf, Front, Asker, LastScope;
  }

  lemma EndsWaiting(st: State, s: nat, ok: bool)
    requires WaitingOk(st) && Exists(st, s) && st.scopes[s].phase.Running?
    ensures WaitingOk(CallbackEnds(st, s, ok))
  {
    hide *;
    EndsViews(st, s, ok);
    WaitingQueries(st);
    SameQueries(st, CallbackEnds(st, s, ok), Front(st), Asker(st));
    WaitingMoves(st, CallbackEnds(st, s, ok));
  }

  lemma EndsServer(st: State, s: nat, ok: bool)
    requires Structure(st) && Exists(st, s) && st.scopes[s].phase.Running?
    requires MarksFit(st.scopes, st.server.marks, Processed(st)) && ServerOk(st)
    ensures var st' := CallbackEnds(st, s, ok);
            MarksFit(st'.scopes, st'.server.marks, Processed(st')) && ServerOk(st')
  {
    EndsShape(st, s, ok);
    ProcessedIsChain(st);
    hide Structure, Flow, MarksFit, Processed, Effects;
    ServerSame(st, CallbackEnds(st, s, ok));
  }

  lemma EndsWire(st: State, s: nat, ok: bool)
    requires Structure(st) && Wire(st) && Exists(st, s) && st.scopes[s].phase.Running?
    ensures Wire(CallbackEnds(st, s, ok))
  {
    hide Structure, MarksFit, WaitingOk, ServerOk, Processed, Sent, Effects;
    EndsShape(st, s, ok);
    EndsWaiting(st, s, ok);
    if !IsEnded(st) {
      EndsServer(st, s, ok);
    }
  }

  lemma EndsWord(st: State, s: nat, ok: bool)
    requires Structure(st) && WordOk(st) && Exists(st, s) && st.scopes[s].phase.Running?
    ensures WordOk(CallbackEnds(st, s, ok))
  {
    hide Structure, Sent, IsEnding;
    EndsShape(st, s, ok);
  }

  lemma CallbackEndsKeeps(st: State, s: nat, ok: bool)
    requires Inv(st)
    ensures Inv(CallbackEnds(st, s, ok))
  {
    hide Structure, Wire, WordOk;
    if Exists(st, s) && st.scopes[s].phase.Running? {
      EndsShape(st, s, ok);
      EndsWord(st, s, ok);
      if !st.expired {
        EndsWire(st, s, ok);
      }
    }
  }

  // ---------------------------------------------------------------- settling

  lemma PhaseShape(st: State, s: nat, phase: Phase)
    requires Structure(st) && Exists(st, s) && IsOpen(phase) && IsOpen(st.scopes[s].phase)
    requires ScopeOk(st.scopes[s].(phase := phase), s)
    ensures Structure(Update(st, s, st.scopes[s].(phase := phase)))
  {
    UpdateKeepsStructure(st, s, st.scopes[s].(phase := phase));
  }

  // The state in which a settled scope can be ended.
  lemma SettledShape(st: State, s: nat)
    requires Structure(st) && Exists(st, s) && st.scopes[s].phase.Settling?
    requires st.scopes[s].inFlight == {} && !st.scopes[s].childActive
    ensures Last(st.open) == s && Sent(st) == st.open == Processed(st) && st.open != []
    ensures !IsEnding(At(st, 0).phase) && (s == 0 <==> st.open == [0]) && (s > 0 ==> |st.open| > 1)
    ensures ScopeOk(st.scopes[s], s)
    ensures WaitingOk(st) && s > 0 ==> Waiting(st) == []
  {
    Innermost(st, s);
    SentIsOpen(st, s);
    assert ScopeOk(st.scopes[s], s);
    hide ScopesOk, Opens, ScopeOk, QueriesOf;
    if WaitingOk(st) && s > 0 {
      NothingWaiting(st, Waiting(st), s);
    }
  }

  lemma NothingWaiting(st: State, cmds: seq<Command>, s: nat)
    requires QueriesOf(st, cmds, s) && s > 0
    ensures |cmds| > 0 ==> At(st, s).inFlight != {}
  {
    if |cmds| > 0 {
      assert cmds[0].op in At(st, s).inFlight;
    }
  }

  // What changing the phase of the innermost scope and sending a command leaves in place.
  lemma SendShape(st: State, s: nat, phase: Phase, c: Command)
    requires Structure(st) && Exists(st, s) && st.scopes[s].phase.Settling? && Last(st.open) == s
    requires st.open == Processed(st) && (s > 0 ==> !IsEnding(At(st, 0).phase))
    requires IsOpen(phase) && !phase.Opening? && ScopeOk(st.scopes[s].(phase := phase), s)
    ensures var st' := Send(Update(st, s, st.scopes[s].(phase := phase)), c);
            && Structure(st') && Processed(st') == st.open && LastScope(st').phase == phase
            && (IsEnding(At(st', 0).phase) <==> s == 0 && IsEnding(phase))
  {
    PhaseShape(st, s, phase);
    hide ScopesOk, Opens, ScopeOk;
    if s == 0 {
      assert ScopeOk(st.scopes[0].(phase := phase), 0);
    }
  }

  lemma SendServer(st: State, s: nat, phase: Phase, c: Command)
    requires Structure(st) && Exists(st, s) && st.scopes[s].phase.Settling?
    requires (phase.Releasing? ==> !phase.rolledBack && !st.server.failed)
    requires MarksFit(st.scopes, st.server.marks, Processed(st)) && ServerOk(st)
    requires Processed(Send(Update(st, s, st.scopes[s].(phase := phase)), c)) == Processed(st)
    requires Last(st.open) == s
    ensures var st' := Send(Update(st, s, st.scopes[s].(phase := phase)), c);
            MarksFit(st'.scopes, st'.server.marks, Processed(st')) && ServerOk(st')
  {
    ProcessedIsChain(st);
    hide Structure, Flow, MarksFit, Processed, Effects;
    ServerSame(st, Send(Update(st, s, st.scopes[s].(phase := phase)), c));
  }

  // A settled savepoint sends its next command.
  lemma SettleSends(st: State, s: nat, phase: Phase, c: Command)
    requires Inv(st) && !st.expired && Exists(st, s) && s > 0 && st.scopes[s].phase.Settling?
    requires st.scopes[s].inFlight == {} && !st.scopes[s].childActive
    requires ScopeOk(st.scopes[s].(phase := phase), s)
    requires || (phase.RollingBack? && c == RollbackTo(s))
             || (phase.Releasing? && !phase.rolledBack && !st.scopes[s].aborted && c == Release(s))
    ensures Inv(Send(Update(st, s, st.scopes[s].(phase := phase)), c))
  {
    hide Structure, ScopeOk, Flow, MarksFit, Effects, WaitingOk, ServerOk, Processed;
    var st' := Send(Update(st, s, st.scopes[s].(phase := phase)), c);
    SettledShape(st, s);
    SendShape(st, s, phase, c);
    NotFailed(st, s);
    ReplaySend(st.log, c);
    assert WordOk(st');
    SendServer(st, s, phase, c);
    hide WordOk;
    assert Waiting(st') == Waiting(st) + [c] == [c];
    LoneCommand(st', s, c);
  }

  lemma LoneCommand(st: State, s: nat, c: Command)
    requires Last(st.open) == s && Waiting(st) == [c]
    requires || (LastScope(st).phase.RollingBack? && c == RollbackTo(s))
             || (LastScope(st).phase.Releasing? && c == Release(s))
    ensures WaitingOk(st)
  {
    NoQueries(st, Asker(st));
    hide Front, QueriesOf, Waiting;
    assert [c] == [] + [c];
    WaitingBy(st, []);
  }

  lemma NoQueries(st: State, s: nat)
    ensures QueriesOf(st, [], s)
  {
  }

  // A savepoint that is not aborted runs on a server that has not failed.
  lemma NotFailed(st: State, s: nat)
    requires ServerOk(st) && Last(st.open) == s && s > 0 && Processed(st) == st.open && |st.open| > 1
    ensures st.server.failed ==> At(st, s).aborted
  {
    hide Processed, Flow;
  }

  lemma EndingWaiting(st: State, st': State, c: Command)
    requires Last(st.open) == 0 && Last(st'.open) == 0 && LastScope(st').phase.Ending?
    requires c == if LastScope(st').phase.commit then Commit else Rollback
    requires st'.log == st.log + [c] && st'.answered == st.answered <= |st.log| && st'.nextOp == st.nextOp
    requires QueriesOf(st, Waiting(st), 0) && At(st', 0).inFlight == At(st, 0).inFlight
    ensures WaitingOk(st')
  {
    hide QueriesOf, Waiting;
    Appended(st, st', c);
    SameQueries(st, st', Waiting(st), 0);
    WaitingBy(st', Waiting(st));
  }

  function EndState(st: State, ok: bool): State
    requires Exists(st, 0)
  {
    Send(Update(st, 0, st.scopes[0].(phase := Phase.Ending(ok))), if ok then Commit else Rollback)
  }

  lemma EndWord(st: State, ok: bool)
    requires WordOk(st) && Exists(st, 0) && !IsEnding(At(st, 0).phase) && Sent(st) == st.open
    ensures WordOk(EndState(st, ok))
  {
    ReplaySend(st.log, if ok then Commit else Rollback);
    assert IsEnding(At(EndState(st, ok), 0).phase) && Sent(EndState(st, ok)) == [];
    hide Sent;
  }

  lemma EndWire(st: State, ok: bool)
    requires Structure(st) && Wire(st) && Exists(st, 0) && st.scopes[0].phase.Settling? && Last(st.open) == 0
    requires Processed(EndState(st, ok)) == Processed(st) && LastScope(EndState(st, ok)).phase == Phase.Ending(ok)
    ensures Wire(EndState(st, ok))
  {
    FrontIs(st, Waiting(st));
    assert QueriesOf(st, Waiting(st), 0);
    hide Structure, Flow, MarksFit, Effects, WaitingOk, ServerOk, Processed, QueriesOf, Waiting, Front;
    SendServer(st, 0, Phase.Ending(ok), if ok then Commit else Rollback);
    EndingWaiting(st, EndState(st, ok), if ok then Commit else Rollback);
  }

  lemma EndShape(st: State, ok: bool)
    requires Structure(st) && Exists(st, 0) && st.scopes[0].phase.Settling? && Last(st.open) == 0
    requires st.open == Processed(st) && ScopeOk(st.scopes[0], 0)
    ensures Structure(EndState(st, ok)) && Processed(EndState(st, ok)) == st.open
    ensures LastScope(EndState(st, ok)).phase == Phase.Ending(ok) && EndState(st, ok).expired == st.expired
  {
    assert ScopeOk(st.scopes[0].(phase := Phase.Ending(ok)), 0);
    hide Structure, ScopeOk, Processed, LastScope;
    SendShape(st, 0, Phase.Ending(ok), if ok then Commit else Rollback);
  }

  lemma InvParts(st: State)
    requires Inv(st)
    ensures Structure(st) && WordOk(st) && (!st.expired ==> Wire(st))
  {
    hide Structure, WordOk, Wire;
  }

  lemma PartsInv(st: State)
    requires Structure(st) && WordOk(st) && (!st.expired ==> Wire(st))
    ensures Inv(st)
  {
    hide Structure, WordOk, Wire;
  }

  lemma SettleEnds(st: State, ok: bool)
    requires Inv(st) && Exists(st, 0) && st.scopes[0].phase.Settling?
    requires st.scopes[0].inFlight == {} && !st.scopes[0].childActive
    ensures Inv(EndState(st, ok))
  {
    hide *;
    InvParts(st);
    SettledShape(st, 0);
    EndShape(st, ok);
    EndWord(st, ok);
    if !st.expired {
      EndWire(st, ok);
    }
    PartsInv(EndState(st, ok));
  }

  lemma BreakKeeps(st: State, s: nat)
    requires Inv(st) && st.expired && Exists(st, s) && s > 0 && Last(st.open) == s
    ensures Inv(Leave(st, s, Broken, []))
  {
    assert ScopeOk(st.scopes[s], s) && Clean([]);
    LeaveKeepsStructure(st, s, Broken, []);
  }

  // What a settled savepoint sends, or that it breaks.
  lemma SettleSavepoint(st: State, s: nat)
    requires Inv(st) && Exists(st, s) && s > 0 && st.scopes[s].phase.Settling?
    requires st.scopes[s].inFlight == {} && !st.scopes[s].childActive && ScopeOk(st.scopes[s], s) && Last(st.open) == s
    ensures Inv(Settle(st, s))
  {
    var ok := st.scopes[s].phase.ok;
    SettlingScope(st.scopes[s], s);
    hide Inv, ScopeOk, Leave;
    if st.expired {
      BreakKeeps(st, s);
    } else if !ok || st.scopes[s].aborted {
      SettleSends(st, s, RollingBack(ok), RollbackTo(s));
    } else {
      SettleSends(st, s, Releasing(ok, false), Release(s));
    }
  }

  lemma SettlingScope(scope: Scope, s: nat)
    requires ScopeOk(scope, s) && s > 0 && scope.phase.Settling? && scope.inFlight == {} && !scope.childActive
    ensures scope.name == s
    ensures !scope.phase.ok || scope.aborted ==> ScopeOk(scope.(phase := RollingBack(scope.phase.ok)), s)
    ensures scope.phase.ok && !scope.aborted ==> ScopeOk(scope.(phase := Releasing(scope.phase.ok, false)), s)
  {
    hide Clean;
  }

  lemma SettleKeeps(st: State, s: nat)
    requires Inv(st)
    ensures Inv(Settle(st, s))
  {
    if Exists(st, s) && st.scopes[s].phase.Settling? && st.scopes[s].inFlight == {} && !st.scopes[s].childActive {
      InvParts(st);
      hide Inv, Structure, ScopeOk, Leave;
      SettledShape(st, s);
      if s == 0 {
        SettleEnds(st, st.scopes[0].phase.ok);
      } else {
        SettleSavepoint(st, s);
      }
    }
  }

  // --------------------------------------------------------- rejects and expiry

  function EffectsOf(e: Entry): seq<Op> {
    match e
    case Ran(op) => [op]
    case Rejected(op, applied) => if applied then [op] else []
    case Nested(_, entries, kept) => if kept then Effects(entries) else []
  }

  lemma EffectsAppend(h: seq<Entry>, e: Entry)
    ensures Effects(h + [e]) == Effects(h) + EffectsOf(e)
  {
    assert (h + [e])[..|h|] == h;
  }

  lemma RejectScope(scope: Scope, s: nat, op: Op)
    requires ScopeOk(scope, s) && op in scope.inFlight
    ensures ScopeOk(Dropped(scope, op), s) && ScopeOk(Failing(scope, op), s)
    ensures Effects(Failing(scope, op).history) == Effects(scope.history)
  {
    CleanAppend(scope.history, Rejected(op, false));
    EffectsAppend(scope.history, Rejected(op, false));
    hide Clean, Effects;
  }

  // The queries still waiting stay in flight.
  lemma RejectWaiting(st: State, s: nat, op: Op)
    requires Query(s, op) !in Waiting(st) && Exists(st, s)
    ensures forall c <- Waiting(st) :: c.Query? && c.scope == s && s > 0 && c.op in st.scopes[s].inFlight
                                       ==> c.op in st.scopes[s].inFlight - {op}
  {
    forall c | c in Waiting(st) && c.Query? && c.scope == s ensures c.op != op {
      assert c == Query(s, c.op);
    }
  }

  function Dropped(scope: Scope, op: Op): Scope {
    scope.(inFlight := scope.inFlight - {op})
  }

  function Failing(scope: Scope, op: Op): Scope {
    Dropped(scope, op).(aborted := true, history := scope.history + [Rejected(op, false)])
  }

  lemma RejectIs(st: State, s: nat, op: Op)
    requires Exists(st, s) && op in st.scopes[s].inFlight && (!st.expired ==> st.answered <= |st.log|)
    ensures RejectQuery(st, s, op)
         == if st.expired then Update(st, s, Dropped(st.scopes[s], op))
            else if Query(s, op) in Waiting(st) then st
            else Update(st, s, Failing(st.scopes[s], op))
  {
  }

  lemma AnsweredInLog(st: State)
    requires Inv(st) && !st.expired
    ensures st.answered <= |st.log|
  {
  }

  lemma RejectKeeps(st: State, s: nat, op: Op)
    requires Inv(st)
    ensures Inv(RejectQuery(st, s, op))
  {
    if !Exists(st, s) || op !in st.scopes[s].inFlight {
      return;
    }
    hide ScopeOk, Inv, Waiting, Effects, RejectQuery;
    ScopeOkAt(st, s);
    if !st.expired {
      AnsweredInLog(st);
    }
    RejectScope(st.scopes[s], s, op);
    RejectIs(st, s, op);
    if st.expired {
      QuietUpdate(st, s, Dropped(st.scopes[s], op), st.nextOp);
    } else if Query(s, op) !in Waiting(st) {
      RejectWaiting(st, s, op);
      QuietUpdate(st, s, Failing(st.scopes[s], op), st.nextOp);
    }
  }

  lemma UnwindKeeps(st: State, s: nat)
    requires Inv(st)
    ensures Inv(Unwind(st, s))
  {
    if Exists(st, s) && s > 0 && st.expired
       && (st.scopes[s].phase.Opening? || st.scopes[s].phase.RollingBack? || st.scopes[s].phase.Releasing?) {
      assert ScopeOk(st.scopes[s], s);
      Innermost(st, s);
      hide Inv;
      BreakKeeps(st, s);
    }
  }

  lemma ExpireKeeps(st: State)
    requires Structure(st) && WordOk(st)
    ensures Inv(Expire(st))
  {
  }
}
