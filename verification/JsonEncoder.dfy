/**
 The two passes of serializeExtendedJson: measureEncodedValue reserves exactly the bytes
 that encodeValue writes.
 */
module JsonEncoder {
  import opened Wrappers
  import opened JsonText
  import opened JsonSort
  import opened JsonValue
  import opened JsonEncode
  import opened JsonBytes
  import opened JsonMeasure
  import N = JsonNumber

  lemma SortedValid(ms: Members<Value>, k: nat)
    requires MembersValid(ms) && k < |SortByKey(ms)|
    ensures ValueOk(SortByKey(ms)[k].value) && FitsString(SortByKey(ms)[k].key)
    ensures SortByKey(ms)[k].value < VObject(ms)
  {
    var m := SortByKey(ms)[k];
    SortedMember(m, ms);
    hide SortByKey;
    var i :| 0 <= i < |ms| && ms[i] == m;
    MemberValid(ms, i);
    assert ms[i].value < ms[i];
  }

  // MeasureState: the node counter and the byte budget.
  class MeasureState {
    var nodes: nat
    const budget: JsonEncodingBudget

    ghost predicate Valid()
      reads this, budget
    {
      budget.Valid()
    }

    ghost function Reading(): Meter
      reads this, budget
    {
      Meter(nodes, budget.consumedBytes)
    }

    constructor ()
      ensures Valid() && Reading() == Meter(0, 0) && fresh(budget)
    {
      nodes := 0;
      budget := new JsonEncodingBudget();
    }

    method ReserveNodes(count: nat) returns (r: Outcome)
      modifies this`nodes
      ensures nodes == old(nodes) + count
      ensures r == if nodes <= NODES then Done else Failed(TooManyNodes)
    {
      nodes := nodes + count;
      return if nodes > NODES then Failed(TooManyNodes) else Done;
    }

    static method AssertDepth(depth: nat) returns (r: Outcome)
      ensures r == if depth <= DEPTH then Done else Failed(TooDeep)
    {
      return if depth > DEPTH then Failed(TooDeep) else Done;
    }

    // The part of measureTag before the payload.
    method OpenTag(tag: Text, depth: nat) returns (r: Outcome)
      requires Valid()
      modifies this`nodes, budget
      ensures Valid()
      ensures Measured(r, Load(4, 2, TagLoad(tag).bytes - 1, true), old(Reading()), Reading(), depth)
    {
      hide Utf8Len, Quote;
      :- AssertDepth(depth + 2);
      :- ReserveNodes(4);
      :- budget.Reserve(|Ascii("{\"$sqlx\":{\"type\":")|);
      :- budget.ReserveString(tag);
      :- budget.Reserve(|Ascii(",\"v\":") + PROTOCOL + Ascii("},\"value\":")|);
      return Done;
    }

    // measureTag around a quoted payload, after the node and depth of the value itself.
    method MeasureTaggedString(tag: Text, payload: Text, depth: nat) returns (r: Outcome)
      requires Valid()
      modifies this`nodes, budget
      ensures Valid()
      ensures Measured(r, Load(4, 2, Utf8Len(EncodeTag(tag, Quote(payload))), true), old(Reading()), Reading(), depth)
    {
      TaggedStringLoad(tag, payload);
      hide Utf8Len, Quote, EncodeTag;
      :- OpenTag(tag, depth);
      :- budget.ReserveString(payload);
      :- budget.Reserve(1);
      return Done;
    }

    // The array case of measureEncodedValue.
    method MeasureItems(items: seq<Value>, depth: nat) returns (r: Outcome)
      requires Valid() && ItemsValid(items) && depth <= DEPTH && nodes <= NODES
      modifies this`nodes, budget
      ensures Valid()
      ensures Measured(r, Then(Load(0, 0, 2, true), ItemsLoad(items, 0)), old(Reading()), Reading(), depth)
      decreases VArray(items), 0
    {
      hide ItemsLoad, ValueLoad, ValueOk, ItemsValid, Utf8Len, Quote;
      ghost var start := Reading();
      ghost var total := Then(Load(0, 0, 2, true), ItemsLoad(items, 0));
      :- budget.Reserve(2);
      ghost var done := Load(0, 0, 2, true);
      var index := 0;
      while index < |items|
        invariant index <= |items| && Valid()
        invariant Measured(Done, done, start, Reading(), depth)
        invariant total == Then(done, ItemsLoad(items, index))
      {
        ItemsStep(items, index);
        ItemValid(items, index);
        if index > 0 {
          :- budget.Reserve(1);
        }
        assert items[index] < VArray(items);
        :- MeasureValue(items[index], depth + 1);
        done := Then(done, Then(CommaLoad(index), Deeper(ValueLoad(items[index]), 1)));
        index := index + 1;
      }
      NoItems(items);
      return Done;
    }

    // The comma, the key and the colon of one member.
    method MeasureKey(key: Text, index: nat, depth: nat) returns (r: Outcome)
      requires Valid() && depth <= DEPTH && nodes <= NODES
      modifies this`nodes, budget
      ensures Valid()
      ensures Measured(r, KeyLoad(key, index), old(Reading()), Reading(), depth)
    {
      hide Utf8Len, Quote, JsonEncodingBudget.Valid;
      if index > 0 {
        :- budget.Reserve(1);
      }
      :- budget.ReserveString(key);
      r := budget.Reserve(1);
    }

    // measureBody: the braces and the members in key order.
    method MeasureBody(ms: Members<Value>, depth: nat, escaped: bool) returns (r: Outcome)
      requires Valid() && MembersValid(ms) && escaped == HasTagKey(ms) && depth <= DEPTH && nodes <= NODES
      modifies this`nodes, budget
      ensures Valid()
      ensures Measured(r, BodyLoad(ms), old(Reading()), Reading(), depth)
      decreases VObject(ms), 0
    {
      hide MembersLoad, ValueLoad, ValueOk, MembersValid, SortByKey, HasTagKey, Utf8Len, Quote;
      ghost var start := Reading();
      ghost var total := BodyLoad(ms);
      :- budget.Reserve(2);
      ghost var done := Load(0, 0, 2, true);
      var down := if escaped then 2 else 1;
      var keys := SortByKey(ms);
      var index := 0;
      while index < |keys|
        invariant index <= |keys| && Valid()
        invariant Measured(Done, done, start, Reading(), depth)
        invariant total == Then(done, MembersLoad(keys, index, down))
      {
        MembersStep(keys, index, down);
        SortedValid(ms, index);
        :- MeasureKey(keys[index].key, index, depth);
        :- MeasureValue(keys[index].value, depth + down);
        done := Then(done, MemberLoad(keys[index], index, down));
        index := index + 1;
      }
      NoMembers(keys, down);
      return Done;
    }

    // measureObject.
    method MeasureObject(ms: Members<Value>, depth: nat) returns (r: Outcome)
      requires Valid() && MembersValid(ms) && depth <= DEPTH && nodes <= NODES
      modifies this`nodes, budget
      ensures Valid()
      ensures Measured(r, Then(Escape(ms), BodyLoad(ms)), old(Reading()), Reading(), depth)
      decreases VObject(ms), 1
    {
      hide BodyLoad, MembersValid, HasTagKey, Utf8Len, Quote;
      var escaped := HasTagKey(ms);
      if escaped {
        :- OpenTag(OBJECT, depth);
        :- MeasureBody(ms, depth, true);
        r := budget.Reserve(1);
      } else {
        r := MeasureBody(ms, depth, false);
      }
    }

    // measureEncodedValue.
    method MeasureValue(v: Value, depth: nat) returns (r: Outcome)
      requires Valid() && ValueOk(v)
      modifies this`nodes, budget
      ensures Valid()
      ensures Measured(r, ValueLoad(v), old(Reading()), Reading(), depth)
      decreases v, 2
    {
      hide ItemsLoad, BodyLoad, Escape, ItemsValid, MembersValid, Utf8Len, Quote, N.Accepted, N.Canonical;
      hide BigintFits, EncodeTag, Ascii, Encode, EncodeNodes, EncodeDepth, BigintsFit, BigintText, TemporalType;
      :- ReserveFirst(v, depth);
      match v
      case VNull =>
        LeafLoads(v);
        r := budget.Reserve(4);
      case VString(s) =>
        LeafLoads(v);
        r := budget.ReserveString(s);
      case VBool(b) =>
        LeafLoads(v);
        r := budget.Reserve(if b then 4 else 5);
      case VNumber(text) =>
        LeafLoads(v);
        r := budget.Reserve(|text|);
      case VExact(text) =>
        LeafLoads(v);
        r := budget.Reserve(|text|);
      case VBigint(n) =>
        LeafLoads(v);
        if !BigintFits(n) {
          return Failed(BigintTooLong);
        }
        r := MeasureTaggedString(BIGINT, BigintText(n), depth);
      case VTemporal(name, payload) =>
        LeafLoads(v);
        r := MeasureTaggedString(TemporalType(name), payload, depth);
      case VArray(items) =>
        ArrayLoad(items);
        r := MeasureItems(items, depth);
      case VObject(ms) =>
        ObjectLoad(ms);
        r := MeasureObject(ms, depth);
    }

    // The node and the depth of the value itself.
    method ReserveFirst(v: Value, depth: nat) returns (r: Outcome)
      modifies this`nodes
      ensures Measured(r, Load(1, 0, 0, true), Meter(old(nodes), 0), Meter(nodes, 0), depth)
      ensures r.Failed? ==> Blames(r.error, ValueLoad(v), Meter(old(nodes), 0), depth)
    {
      AtLeastOneNode(v);
      :- ReserveNodes(1);
      :- AssertDepth(depth);
      return Done;
    }
  }

  // ------------------------------------------------------------- writing pass

  function NoBytes(l: Load): Load {
    l.(bytes := 0)
  }

  // The text was written and its nodes counted, or a limit is exceeded and the error says which.
  predicate Written(r: Result<Text, EncodeFailure>, text: Text, l: Load, before: nat, after: nat, depth: nat) {
    && (r.Ok? ==> r.value == text)
    && Measured(if r.Ok? then Done else Failed(r.error), NoBytes(l), Meter(before, 0), Meter(after, 0), depth)
  }

  function CommaText(k: nat): Text {
    if k > 0 then [COMMA] else []
  }

  // What is left to write of the items, or of the members in key order, from k on.
  function ItemsLeft(items: seq<Value>, k: nat): Text
    requires k <= |items|
  {
    if k == |items| then [] else CommaText(k) + EncodeItems(items[k..])
  }

  function MembersLeft(ms: Members<Value>, k: nat): Text
    requires k <= |ms|
  {
    if k == |ms| then [] else CommaText(k) + JoinMembers(EncodeMembers(ms[k..]))
  }

  lemma ItemsLeftStep(items: seq<Value>, k: nat)
    requires k < |items|
    ensures ItemsLeft(items, k) == CommaText(k) + Encode(items[k]) + ItemsLeft(items, k + 1)
  {
    var rest := items[k..];
    assert rest[1..] == items[k + 1..] && rest[0] == items[k];
    hide Encode;
  }

  lemma JoinFirst(ms: Members<Value>)
    requires ms != []
    ensures JoinMembers(EncodeMembers(ms))
         == Quote(ms[0].key) + [COLON] + Encode(ms[0].value)
            + if |ms| == 1 then [] else [COMMA] + JoinMembers(EncodeMembers(ms[1..]))
  {
    EncodeMembersAt(ms);
    assert EncodeMembers(ms)[1..] == EncodeMembers(ms[1..]);
    hide Encode, Quote;
  }

  lemma MembersLeftStep(ms: Members<Value>, k: nat)
    requires k < |ms|
    ensures MembersLeft(ms, k)
         == CommaText(k) + (Quote(ms[k].key) + [COLON] + Encode(ms[k].value)) + MembersLeft(ms, k + 1)
  {
    hide Encode, Quote, JoinMembers, EncodeMembers;
    var rest := ms[k..];
    JoinFirst(rest);
    assert rest[1..] == ms[k + 1..] && rest[0] == ms[k];
  }

  lemma SortedText(ms: Members<Value>)
    ensures JoinMembers(SortByKey(EncodeMembers(ms))) == MembersLeft(SortByKey(ms), 0)
  {
    hide SortByKey, EncodeMembers, JoinMembers;
    EncodeMembersAt(ms);
    SortMap(ms, Encode);
    EncodeMembersAt(SortByKey(ms));
    assert SortByKey(ms)[0..] == SortByKey(ms);
    NoJoin();
  }

  lemma NoJoin()
    ensures JoinMembers(EncodeMembers([])) == []
  {
  }

  // EncodeState: the node counter of the second pass.
  class EncodeState {
    var nodes: nat

    constructor ()
      ensures nodes == 0
    {
      nodes := 0;
    }

    method ReserveNodes(count: nat) returns (r: Outcome)
      modifies this
      ensures nodes == old(nodes) + count
      ensures r == if nodes <= NODES then Done else Failed(TooManyNodes)
    {
      nodes := nodes + count;
      return if nodes > NODES then Failed(TooManyNodes) else Done;
    }

    // encodeTag, after the payload.
    method WriteTag(tag: Text, payload: Text, depth: nat) returns (r: Result<Text, EncodeFailure>)
      modifies this
      ensures Written(r, EncodeTag(tag, payload), Load(4, 2, 0, true), old(nodes), nodes, depth)
    {
      hide Quote, Ascii;
      if depth + 2 > DEPTH {
        return Err(TooDeep);
      }
      var reserved := ReserveNodes(4);
      if reserved.Failed? {
        return Err(reserved.error);
      }
      return Ok(Ascii("{\"$sqlx\":{\"type\":") + Quote(tag) + Ascii(",\"v\":") + PROTOCOL + Ascii("},\"value\":")
                + payload + [RBRACE]);
    }

    // The array case of encodeValue.
    method WriteItems(items: seq<Value>, depth: nat) returns (r: Result<Text, EncodeFailure>)
      requires ItemsValid(items) && depth <= DEPTH && nodes <= NODES
      modifies this
      ensures Written(r, EncodeItems(items), ItemsLoad(items, 0), old(nodes), nodes, depth)
      decreases VArray(items), 0
    {
      hide ItemsLoad, ValueLoad, ValueOk, ItemsValid, Encode, ItemsLeft;
      ghost var done := Load(0, 0, 0, true);
      var text: Text := [];
      var index := 0;
      AllItemsLeft(items);
      while index < |items|
        invariant index <= |items|
        invariant Written(Ok(text), text, done, old(nodes), nodes, depth)
        invariant NoBytes(ItemsLoad(items, 0)) == NoBytes(Then(done, ItemsLoad(items, index)))
        invariant EncodeItems(items) == text + ItemsLeft(items, index)
      {
        ItemsStep(items, index);
        ItemsLeftStep(items, index);
        ItemValid(items, index);
        assert items[index] < VArray(items);
        var item := WriteValue(items[index], depth + 1);
        if item.Err? {
          return item;
        }
        text := text + CommaText(index) + item.value;
        done := Then(done, Then(CommaLoad(index), Deeper(ValueLoad(items[index]), 1)));
        index := index + 1;
      }
      NoItems(items);
      AllItemsLeft(items);
      return Ok(text);
    }

    // The members of encodeObject, in key order.
    method WriteMembers(ms: Members<Value>, depth: nat, down: nat) returns (r: Result<Text, EncodeFailure>)
      requires MembersValid(ms) && depth <= DEPTH && nodes <= NODES
      modifies this
      ensures Written(r, JoinMembers(SortByKey(EncodeMembers(ms))), MembersLoad(SortByKey(ms), 0, down),
                      old(nodes), nodes, depth)
      decreases VObject(ms), 0
    {
      hide MembersLoad, ValueLoad, ValueOk, MembersValid, SortByKey, Encode, MembersLeft, JoinMembers, Quote;
      ghost var done := Load(0, 0, 0, true);
      var keys := SortByKey(ms);
      var text: Text := [];
      var index := 0;
      SortedText(ms);
      while index < |keys|
        invariant index <= |keys|
        invariant Written(Ok(text), text, done, old(nodes), nodes, depth)
        invariant NoBytes(MembersLoad(keys, 0, down)) == NoBytes(Then(done, MembersLoad(keys, index, down)))
        invariant MembersLeft(keys, 0) == text + MembersLeft(keys, index)
      {
        MembersStep(keys, index, down);
        MembersLeftStep(keys, index);
        SortedValid(ms, index);
        var item := WriteValue(keys[index].value, depth + down);
        if item.Err? {
          return item;
        }
        text := text + CommaText(index) + (Quote(keys[index].key) + [COLON] + item.value);
        done := Then(done, MemberLoad(keys[index], index, down));
        index := index + 1;
      }
      NoMembers(keys, down);
      NoMembersLeft(keys);
      return Ok(text);
    }

    // encodeObject.
    method WriteObject(ms: Members<Value>, depth: nat) returns (r: Result<Text, EncodeFailure>)
      requires MembersValid(ms) && depth <= DEPTH && nodes <= NODES
      modifies this
      ensures Written(r, Encode(VObject(ms)), Then(Escape(ms), BodyLoad(ms)), old(nodes), nodes, depth)
      decreases VObject(ms), 1
    {
      ObjectText(ms);
      hide MembersLoad, MembersValid, HasTagKey, Quote, EncodeTag, JoinMembers, SortByKey, EncodeMembers, Encode;
      var body := WriteMembers(ms, depth, Down(ms));
      if body.Err? {
        return body;
      }
      if HasTagKey(ms) {
        r := WriteTag(OBJECT, [LBRACE] + body.value + [RBRACE], depth);
      } else {
        r := Ok([LBRACE] + body.value + [RBRACE]);
      }
    }

    // encodeValue.
    method WriteValue(v: Value, depth: nat) returns (r: Result<Text, EncodeFailure>)
      requires ValueOk(v)
      modifies this
      ensures Written(r, Encode(v), ValueLoad(v), old(nodes), nodes, depth)
      decreases v, 2
    {
      hide ItemsLoad, BodyLoad, Escape, ItemsValid, MembersValid, Utf8Len, Quote, N.Accepted, N.Canonical;
      hide BigintFits, EncodeTag, Ascii, EncodeNodes, EncodeDepth, BigintsFit, Encode;
      AtLeastOneNode(v);
      var reserved := ReserveNodes(1);
      if reserved.Failed? {
        return Err(reserved.error);
      }
      if depth > DEPTH {
        return Err(TooDeep);
      }
      LeafLoads(v);
      LeafText(v);
      match v
      case VNull => r := Ok(Ascii("null"));
      case VString(s) => r := Ok(Quote(s));
      case VBool(b) => r := Ok(if b then Ascii("true") else Ascii("false"));
      case VNumber(text) => r := Ok(text);
      case VExact(text) => r := Ok(text);
      case VBigint(n) =>
        if !BigintFits(n) {
          return Err(BigintTooLong);
        }
        r := WriteTag(BIGINT, Quote(BigintText(n)), depth);
      case VTemporal(name, payload) => r := WriteTag(TemporalType(name), Quote(payload), depth);
      case VArray(items) =>
        ArrayLoad(items);
        r := WriteItems(items, depth);
        if r.Ok? {
          r := Ok([LBRACKET] + r.value + [RBRACKET]);
        }
      case VObject(ms) =>
        ObjectLoad(ms);
        r := WriteObject(ms, depth);
    }
  }

  lemma AllItemsLeft(items: seq<Value>)
    ensures ItemsLeft(items, 0) == EncodeItems(items) && ItemsLeft(items, |items|) == []
  {
    assert items[0..] == items;
    hide Encode;
  }

  lemma NoMembersLeft(ms: Members<Value>)
    ensures MembersLeft(ms, |ms|) == []
  {
  }

  lemma ObjectText(ms: Members<Value>)
    ensures var body := [LBRACE] + JoinMembers(SortByKey(EncodeMembers(ms))) + [RBRACE];
            Encode(VObject(ms)) == if HasTagKey(ms) then EncodeTag(OBJECT, body) else body
  {
  }

  // The texts of the other values.
  lemma LeafText(v: Value)
    ensures v.VNull? ==> Encode(v) == Ascii("null")
    ensures v.VBool? ==> Encode(v) == if v.b then Ascii("true") else Ascii("false")
    ensures v.VString? ==> Encode(v) == Quote(v.s)
    ensures v.VNumber? || v.VExact? ==> Encode(v) == v.text
    ensures v.VBigint? ==> Encode(v) == EncodeTag(BIGINT, Quote(BigintText(v.n)))
    ensures v.VTemporal? ==> Encode(v) == EncodeTag(TemporalType(v.name), Quote(v.payload))
    ensures v.VArray? ==> Encode(v) == [LBRACKET] + EncodeItems(v.items) + [RBRACKET]
  {
    hide EncodeTag, Quote, EncodeItems, Ascii;
  }

  // Main result: serializeExtendedJson succeeds exactly when the value is within every limit,
  // an error names a limit that is exceeded, and the text is the encoding. The size
  // check on the finished text never fires, because the measuring pass is exact.
  method SerializeExtendedJson(v: Value) returns (r: Result<Text, EncodeFailure>)
    requires ValueOk(v)
    ensures r.Ok? <==> Fits(ValueLoad(v), Meter(0, 0), 0)
    ensures r.Ok? ==> r.value == Encode(v)
    ensures r.Err? ==> Blames(r.error, ValueLoad(v), Meter(0, 0), 0)
  {
    hide Utf8Len, Encode, ValueLoad, ValueOk, Fits, Blames, JsonEncodingBudget.Valid;
    var measure := new MeasureState();
    var measured := measure.MeasureValue(v, 0);
    BlamedDoesNotFit(ValueLoad(v));
    if measured.Failed? {
      return Err(measured.error);
    }
    var state := new EncodeState();
    var text := state.WriteValue(v, 0);
    FitsWithoutBytes(ValueLoad(v));
    LoadBytes(v);
    if text.Err? {
      return text;
    }
    if Utf8Len(text.value) > INPUT_BYTES {
      return Err(TooManyBytes);
    }
    return text;
  }

  lemma BlamedDoesNotFit(l: Load)
    ensures forall e :: Blames(e, l, Meter(0, 0), 0) ==> !Fits(l, Meter(0, 0), 0)
  {
  }

  lemma FitsWithoutBytes(l: Load)
    requires Fits(l, Meter(0, 0), 0)
    ensures Fits(NoBytes(l), Meter(0, 0), 0) && l.bytes <= INPUT_BYTES
    ensures forall e :: !Blames(e, NoBytes(l), Meter(0, 0), 0)
  {
  }

  lemma LoadBytes(v: Value)
    ensures ValueLoad(v).bytes == Utf8Len(Encode(v))
  {
    hide Utf8Len, Encode;
  }

  lemma AtLeastOneNode(v: Value)
    ensures EncodeNodes(v) >= 1
  {
  }

  lemma NoItems(items: seq<Value>)
    ensures ItemsLoad(items, |items|) == Load(0, 0, 0, true)
  {
  }

  lemma NoMembers(ms: Members<Value>, down: nat)
    ensures MembersLoad(ms, |ms|, down) == Load(0, 0, 0, true)
  {
  }

  // The loads of the values that hold no other values.
  function LeafLoad(v: Value): Load {
    match v
    case VNull => Load(1, 0, 4, true)
    case VBool(b) => Load(1, 0, if b then 4 else 5, true)
    case VString(s) => Load(1, 0, Utf8Len(Quote(s)), true)
    case VNumber(text) => Load(1, 0, |text|, true)
    case VExact(text) => Load(1, 0, |text|, true)
    case VBigint(n) => Load(5, 2, Utf8Len(EncodeTag(BIGINT, Quote(BigintText(n)))), BigintFits(n))
    case VTemporal(name, payload) => Load(5, 2, Utf8Len(EncodeTag(TemporalType(name), Quote(payload))), true)
    case _ => ValueLoad(v)
  }

  lemma LeafLoads(v: Value)
    requires ValueOk(v)
    ensures ValueLoad(v) == LeafLoad(v)
  {
    hide N.Accepted, N.Canonical, Utf8Len, EncodeTag, Quote, BigintFits;
    match v
    case VNull => AsciiLength("null");
    case VBool(b) => AsciiLength(if b then "true" else "false");
    case VNumber(text) => ExactAscii(text);
    case VExact(text) => ExactAscii(text);
    case _ =>
  }

  lemma AsciiLength(s: string)
    requires forall i :: 0 <= i < |s| ==> s[i] as int < 0x80
    ensures Utf8Len(Ascii(s)) == |s|
  {
    AsciiBytes(Ascii(s));
  }
}
