/**
 sql.json(...): the snapshot of a value with its limits, then its encoding.
 */
module JsonSnapshot {
  import opened Wrappers
  import opened JsonText
  import opened JsonSort
  import opened JsonValue
  import M = JsonMeasure
  import E = JsonEncoder
  import N = JsonNumber

  datatype SnapshotFailure = TooManyNodes | TooDeep | TooMuchNumberData | InvalidPart | NotEncodable(error: M.EncodeFailure)

  datatype Outcome = Done | Failed(error: SnapshotFailure) {
    predicate IsFailure() {
      Failed?
    }

    function PropagateFailure(): Outcome
      requires Failed?
    {
      this
    }
  }

  ghost predicate ItemsFormed(items: seq<Value>) {
    items != [] ==> WellFormed(items[0]) && ItemsFormed(items[1..])
  }

  ghost predicate MembersFormed(ms: Members<Value>) {
    ms != [] ==>
      assert ms[0].value < ms[0];
      WellFormed(ms[0].value) && MembersFormed(ms[1..])
  }

  // What holds of every JavaScript value: keys are distinct, and a JsonNumber is canonical.
  ghost predicate WellFormed(v: Value) {
    match v
    case VExact(text) => N.Accepted(text) && N.Canonical(text) == text
    case VArray(items) => ItemsFormed(items)
    case VObject(ms) => DistinctKeys(ms) && MembersFormed(ms)
    case _ => true
  }

  function SnapItemNodes(items: seq<Value>): nat {
    if items == [] then 0 else SnapNodes(items[0]) + SnapItemNodes(items[1..])
  }

  function SnapMemberNodes(ms: Members<Value>): nat {
    if ms == [] then 0
    else
      assert ms[0].value < ms[0];
      SnapNodes(ms[0].value) + SnapMemberNodes(ms[1..])
  }

  // The snapshot counts one node for every value, with no tags.
  function SnapNodes(v: Value): nat {
    match v
    case VArray(items) => 1 + SnapItemNodes(items)
    case VObject(ms) => 1 + SnapMemberNodes(ms)
    case _ => 1
  }

  function SnapItemDepth(items: seq<Value>): nat {
    if items == [] then 0 else Max(1 + SnapDepth(items[0]), SnapItemDepth(items[1..]))
  }

  function SnapMemberDepth(ms: Members<Value>): nat {
    if ms == [] then 0
    else
      assert ms[0].value < ms[0];
      Max(1 + SnapDepth(ms[0].value), SnapMemberDepth(ms[1..]))
  }

  function SnapDepth(v: Value): nat {
    match v
    case VArray(items) => SnapItemDepth(items)
    case VObject(ms) => SnapMemberDepth(ms)
    case _ => 0
  }

  // The encoder's counts are never below the snapshot's.
  lemma {:induction false} SnapshotBelowEncoder(v: Value)
    ensures SnapNodes(v) <= EncodeNodes(v) && SnapDepth(v) <= EncodeDepth(v)
    decreases v, 0
  {
    match v
    case VArray(items) => ItemsBelow(items);
    case VObject(ms) => MembersBelow(ms, if HasTagKey(ms) then 2 else 1);
    case _ =>
  }

  lemma {:induction false} ItemsBelow(items: seq<Value>)
    ensures SnapItemNodes(items) <= EncodeItemNodes(items) && SnapItemDepth(items) <= EncodeItemDepth(items)
    decreases items, 1
  {
    if items == [] {
    } else {
      SnapshotBelowEncoder(items[0]);
      ItemsBelow(items[1..]);
      hide SnapNodes, SnapDepth, EncodeNodes, EncodeDepth;
    }
  }

  lemma {:induction false} MembersBelow(ms: Members<Value>, down: nat)
    requires down >= 1
    ensures SnapMemberNodes(ms) <= EncodeMemberNodes(ms) && SnapMemberDepth(ms) <= EncodeMemberDepth(ms, down)
    decreases ms, 1
  {
    if ms == [] {
    } else {
      assert ms[0].value < ms[0];
      SnapshotBelowEncoder(ms[0].value);
      MembersBelow(ms[1..], down);
      hide SnapNodes, SnapDepth, EncodeNodes, EncodeDepth;
    }
  }

  ghost function SnapLoad(v: Value): M.Load {
    M.Load(SnapNodes(v), SnapDepth(v), SnapshotBytes(v), ValueOk(v))
  }

  ghost function SnapItems(rest: seq<Value>): M.Load {
    M.Load(SnapItemNodes(rest), SnapItemDepth(rest), SnapshotItemBytes(rest), ItemsValid(rest))
  }

  ghost function SnapMembers(rest: Members<Value>): M.Load {
    M.Load(SnapMemberNodes(rest), SnapMemberDepth(rest), SnapshotMemberBytes(rest), MembersValid(rest))
  }

  // The load was charged in full, or it does not fit and the error says why.
  predicate Charges(r: Outcome, l: M.Load, before: M.Meter, after: M.Meter, depth: nat) {
    match r
    case Done =>
      && after == M.Charged(before, l) && l.valid
      && after.nodes <= NODES && depth + l.depth <= DEPTH && after.bytes <= NUMBER_BYTES
    case Failed(TooManyNodes) => before.nodes + l.nodes > NODES
    case Failed(TooDeep) => depth + l.depth > DEPTH
    case Failed(TooMuchNumberData) => before.bytes + l.bytes > NUMBER_BYTES
    case Failed(InvalidPart) => !l.valid
    case Failed(NotEncodable(_)) => false
  }

  lemma FirstItem(rest: seq<Value>)
    requires rest != []
    ensures SnapItems(rest) == M.Then(M.Deeper(SnapLoad(rest[0]), 1), SnapItems(rest[1..]))
  {
    hide SnapNodes, SnapDepth, SnapshotBytes, ValueOk;
  }

  lemma FirstMember(rest: Members<Value>)
    requires rest != []
    ensures SnapMembers(rest)
         == M.Then(M.Load(0, 0, 0, FitsString(rest[0].key)),
                 M.Then(M.Deeper(SnapLoad(rest[0].value), 1), SnapMembers(rest[1..])))
  {
    hide SnapNodes, SnapDepth, SnapshotBytes, ValueOk, FitsString;
  }

  lemma {:induction false} FormedAt(items: seq<Value>, k: nat)
    requires ItemsFormed(items) && k < |items|
    ensures WellFormed(items[k])
  {
    if k > 0 {
      FormedAt(items[1..], k - 1);
    }
  }

  lemma {:induction false} MemberFormedAt(ms: Members<Value>, k: nat)
    requires MembersFormed(ms) && k < |ms|
    ensures WellFormed(ms[k].value)
  {
    if k > 0 {
      MemberFormedAt(ms[1..], k - 1);
    }
  }

  // SnapshotState: the nodes seen and the canonical number data reserved.
  class SnapshotState {
    var nodes: nat
    var canonicalBytes: nat

    ghost function Reading(): M.Meter
      reads this
    {
      M.Meter(nodes, canonicalBytes)
    }

    constructor ()
      ensures Reading() == M.Meter(0, 0)
    {
      nodes, canonicalBytes := 0, 0;
    }

    // assertValueBudget.
    method AssertValueBudget(depth: nat) returns (r: Outcome)
      modifies this`nodes
      ensures nodes == old(nodes) + 1
      ensures r == if nodes > NODES then Failed(TooManyNodes) else if depth > DEPTH then Failed(TooDeep) else Done
    {
      nodes := nodes + 1;
      return if nodes > NODES then Failed(TooManyNodes) else if depth > DEPTH then Failed(TooDeep) else Done;
    }

    // reserveCanonicalNumberBytes.
    method Reserve(bytes: nat) returns (r: Outcome)
      modifies this`canonicalBytes
      ensures canonicalBytes == old(canonicalBytes) + bytes
      ensures r == if canonicalBytes > NUMBER_BYTES then Failed(TooMuchNumberData) else Done
    {
      canonicalBytes := canonicalBytes + bytes;
      return if canonicalBytes > NUMBER_BYTES then Failed(TooMuchNumberData) else Done;
    }

    method SnapshotArray(items: seq<Value>, depth: nat) returns (r: Outcome)
      requires ItemsFormed(items) && depth <= DEPTH && nodes <= NODES && canonicalBytes <= NUMBER_BYTES
      modifies this
      ensures Charges(r, SnapItems(items), old(Reading()), Reading(), depth)
      decreases VArray(items), 0
    {
      hide SnapItems, SnapLoad, ItemsFormed, WellFormed;
      ghost var done := M.Load(0, 0, 0, true);
      var index := 0;
      assert items[0..] == items;
      while index < |items|
        invariant index <= |items|
        invariant Charges(Done, done, old(Reading()), Reading(), depth)
        invariant SnapItems(items) == M.Then(done, SnapItems(items[index..]))
      {
        FirstItem(items[index..]);
        assert items[index..][1..] == items[index + 1..];
        FormedAt(items, index);
        assert items[index] < VArray(items);
        :- Snapshot(items[index], depth + 1);
        done := M.Then(done, M.Deeper(SnapLoad(items[index]), 1));
        index := index + 1;
      }
      NothingMore(items[index..], []);
      return Done;
    }

    method SnapshotObject(ms: Members<Value>, depth: nat) returns (r: Outcome)
      requires MembersFormed(ms) && depth <= DEPTH && nodes <= NODES && canonicalBytes <= NUMBER_BYTES
      modifies this
      ensures Charges(r, SnapMembers(ms), old(Reading()), Reading(), depth)
      decreases VObject(ms), 0
    {
      hide SnapMembers, SnapLoad, MembersFormed, WellFormed, FitsString;
      ghost var done := M.Load(0, 0, 0, true);
      var index := 0;
      assert ms[0..] == ms;
      while index < |ms|
        invariant index <= |ms|
        invariant Charges(Done, done, old(Reading()), Reading(), depth)
        invariant SnapMembers(ms) == M.Then(done, SnapMembers(ms[index..]))
      {
        FirstMember(ms[index..]);
        assert ms[index..][1..] == ms[index + 1..];
        MemberFormedAt(ms, index);
        var m := ms[index];
        assert m.value < m;
        if !FitsString(m.key) {
          return Failed(InvalidPart);
        }
        :- Snapshot(m.value, depth + 1);
        done := M.Then(done, M.Deeper(SnapLoad(m.value), 1));
        index := index + 1;
      }
      NothingMore([], ms[index..]);
      return Done;
    }

    // snapshotValue.
    method Snapshot(v: Value, depth: nat) returns (r: Outcome)
      requires WellFormed(v) && canonicalBytes <= NUMBER_BYTES
      modifies this
      ensures Charges(r, SnapLoad(v), old(Reading()), Reading(), depth)
      decreases v, 1
    {
      hide FitsString, N.Accepted, N.Canonical, N.CanonicalLength, HasTagKey;
      AtLeastOneNode(v);
      :- AssertValueBudget(depth);
      match v
      case VNull => r := Done;
      case VBool(_) => r := Done;
      case VString(s) => r := if FitsString(s) then Done else Failed(InvalidPart);
      case VNumber(text) =>
        if !N.Accepted(text) {
          return Failed(InvalidPart);
        }
        r := Reserve(N.CanonicalLength(text));
      case VBigint(_) => r := Reserve(|PROTOCOL|);
      case VExact(text) => r := Reserve(|text|);
      case VTemporal(_, payload) =>
        :- Reserve(|PROTOCOL|);
        r := if FitsString(payload) then Done else Failed(InvalidPart);
      case VArray(items) => r := SnapshotArray(items, depth);
      case VObject(ms) =>
        if HasTagKey(ms) {
          :- Reserve(|PROTOCOL|);
        }
        r := SnapshotObject(ms, depth);
    }
  }

  lemma AtLeastOneNode(v: Value)
    ensures SnapNodes(v) >= 1
  {
  }

  lemma NothingMore(items: seq<Value>, ms: Members<Value>)
    ensures items == [] ==> SnapItems(items) == M.Load(0, 0, 0, true)
    ensures ms == [] ==> SnapMembers(ms) == M.Load(0, 0, 0, true)
  {
  }

  // createSqlxJson succeeds exactly for the encodable values, and its text is the encoding.
  method CreateSqlxJson(v: Value) returns (r: Result<Text, SnapshotFailure>)
    requires WellFormed(v)
    ensures r.Ok? <==> Encodable(v)
    ensures r.Ok? ==> r.value == Encode(v)
  {
    hide ValueOk, WellFormed, Encode, Utf8Len, EncodeNodes, EncodeDepth, SnapNodes, SnapDepth, SnapshotBytes, BigintsFit;
    SnapshotBelowEncoder(v);
    var state := new SnapshotState();
    var taken := state.Snapshot(v, 0);
    if taken.Failed? {
      return Err(taken.error);
    }
    var text := E.SerializeExtendedJson(v);
    if text.Err? {
      E.BlamedDoesNotFit(M.ValueLoad(v));
      return Err(NotEncodable(text.error));
    }
    return Ok(text.value);
  }
}
