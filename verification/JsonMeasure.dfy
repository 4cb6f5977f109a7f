/**
 The measuring pass and the writing pass of src/json-encoding.ts, with the byte budget of
 src/json-limits.ts.
 */
module JsonMeasure {
  import opened Wrappers
  import opened JsonText
  import opened JsonSort
  import opened JsonValue
  import opened JsonEncode
  import opened JsonBytes
  import N = JsonNumber

  datatype EncodeFailure = TooManyNodes | TooDeep | TooManyBytes | BigintTooLong

  // The end of a pass: done, or the first limit that was exceeded.
  datatype Outcome = Done | Failed(error: EncodeFailure) {
    predicate IsFailure() {
      Failed?
    }

    function PropagateFailure(): Outcome
      requires Failed?
    {
      this
    }
  }

  // What a value needs: nodes, levels below its own and bytes, and whether its parts are valid.
  datatype Load = Load(nodes: nat, depth: nat, bytes: nat, valid: bool)

  datatype Meter = Meter(nodes: nat, bytes: nat)

  function Then(a: Load, b: Load): Load {
    Load(a.nodes + b.nodes, Max(a.depth, b.depth), a.bytes + b.bytes, a.valid && b.valid)
  }

  function Deeper(l: Load, down: nat): Load {
    l.(depth := l.depth + down)
  }

  function Charged(m: Meter, l: Load): Meter {
    Meter(m.nodes + l.nodes, m.bytes + l.bytes)
  }

  predicate Fits(l: Load, m: Meter, depth: nat) {
    m.nodes + l.nodes <= NODES && depth + l.depth <= DEPTH && m.bytes + l.bytes <= INPUT_BYTES && l.valid
  }

  // The error names a limit that the load exceeds.
  predicate Blames(e: EncodeFailure, l: Load, m: Meter, depth: nat) {
    match e
    case TooManyNodes => m.nodes + l.nodes > NODES
    case TooDeep => depth + l.depth > DEPTH
    case TooManyBytes => m.bytes + l.bytes > INPUT_BYTES
    case BigintTooLong => !l.valid
  }

  // The load was charged in full, or it does not fit and the error says why.
  predicate Measured(r: Outcome, l: Load, before: Meter, after: Meter, depth: nat) {
    if r.Done? then Fits(l, before, depth) && after == Charged(before, l) else Blames(r.error, l, before, depth)
  }

  function ValueLoad(v: Value): Load {
    Load(EncodeNodes(v), EncodeDepth(v), Utf8Len(Encode(v)), BigintsFit(v))
  }

  function RestItems(rest: seq<Value>): Load {
    Load(EncodeItemNodes(rest), EncodeItemDepth(rest), ItemsText(rest), ItemBigints(rest))
  }

  function RestMembers(rest: Members<Value>, down: nat): Load {
    Load(EncodeMemberNodes(rest), EncodeMemberDepth(rest, down), MembersText(rest), MemberBigints(rest))
  }

  // The items from k on, with the comma before them.
  function ItemsLoad(items: seq<Value>, k: nat): Load
    requires k <= |items|
  {
    Then(CommaLoad(if k < |items| then k else 0), RestItems(items[k..]))
  }

  function MembersLoad(ms: Members<Value>, k: nat, down: nat): Load
    requires k <= |ms|
  {
    Then(CommaLoad(if k < |ms| then k else 0), RestMembers(ms[k..], down))
  }

  function CommaLoad(k: nat): Load {
    Load(0, 0, if k > 0 then 1 else 0, true)
  }

  // The parts of the load, each by itself.
  lemma FirstItem(rest: seq<Value>)
    requires rest != []
    ensures RestItems(rest)
         == Then(Deeper(ValueLoad(rest[0]), 1), Then(CommaLoad(|rest| - 1), RestItems(rest[1..])))
  {
    FirstItemParts(rest);
    hide EncodeNodes, EncodeDepth, Encode, BigintsFit, Utf8Len, EncodeItemNodes, EncodeItemDepth, ItemsText, ItemBigints;
  }

  lemma FirstItemParts(rest: seq<Value>)
    requires rest != []
    ensures EncodeItemNodes(rest) == EncodeNodes(rest[0]) + EncodeItemNodes(rest[1..])
    ensures EncodeItemDepth(rest) == Max(1 + EncodeDepth(rest[0]), EncodeItemDepth(rest[1..]))
    ensures ItemsText(rest) == Utf8Len(Encode(rest[0])) + (if |rest| > 1 then 1 else 0) + ItemsText(rest[1..])
    ensures ItemBigints(rest) <==> BigintsFit(rest[0]) && ItemBigints(rest[1..])
  {
    hide EncodeNodes, EncodeDepth, Encode, BigintsFit, Utf8Len, Max;
  }

  lemma ItemsStep(items: seq<Value>, k: nat)
    requires k < |items|
    ensures ItemsLoad(items, k)
         == Then(Then(CommaLoad(k), Deeper(ValueLoad(items[k]), 1)), ItemsLoad(items, k + 1))
  {
    hide RestItems, ValueLoad;
    var rest := items[k..];
    FirstItem(rest);
    assert rest[1..] == items[k + 1..] && rest[0] == items[k];
  }

  lemma FirstMember(rest: Members<Value>, down: nat)
    requires rest != []
    ensures RestMembers(rest, down)
         == Then(Load(0, 0, Utf8Len(Quote(rest[0].key)) + 1, true),
                 Then(Deeper(ValueLoad(rest[0].value), down),
                      Then(CommaLoad(|rest| - 1), RestMembers(rest[1..], down))))
  {
    hide EncodeNodes, EncodeDepth, Encode, BigintsFit, Utf8Len, Quote;
  }

  function KeyLoad(key: Text, k: nat): Load {
    Then(CommaLoad(k), Load(0, 0, Utf8Len(Quote(key)) + 1, true))
  }

  function MemberLoad(m: Member<Value>, k: nat, down: nat): Load {
    Then(KeyLoad(m.key, k), Deeper(ValueLoad(m.value), down))
  }

  lemma MembersStep(ms: Members<Value>, k: nat, down: nat)
    requires k < |ms|
    ensures MembersLoad(ms, k, down) == Then(MemberLoad(ms[k], k, down), MembersLoad(ms, k + 1, down))
  {
    hide RestMembers, ValueLoad, Quote, Utf8Len;
    var rest := ms[k..];
    FirstMember(rest, down);
    assert rest[1..] == ms[k + 1..] && rest[0] == ms[k];
  }

  lemma {:induction false} InsertLoads(m: Member<Value>, ms: Members<Value>, down: nat)
    ensures EncodeMemberNodes(Insert(m, ms)) == EncodeNodes(m.value) + EncodeMemberNodes(ms)
    ensures EncodeMemberDepth(Insert(m, ms), down) == Max(down + EncodeDepth(m.value), EncodeMemberDepth(ms, down))
    ensures MemberBigints(Insert(m, ms)) <==> BigintsFit(m.value) && MemberBigints(ms)
  {
    hide EncodeNodes, EncodeDepth, BigintsFit;
    if ms != [] && Less(ms[0].key, m.key) {
      InsertLoads(m, ms[1..], down);
      assert Insert(m, ms)[1..] == Insert(m, ms[1..]);
    } else {
      assert ([m] + ms)[1..] == ms;
    }
  }

  lemma {:induction false} SortLoads(ms: Members<Value>, down: nat)
    ensures EncodeMemberNodes(SortByKey(ms)) == EncodeMemberNodes(ms)
    ensures EncodeMemberDepth(SortByKey(ms), down) == EncodeMemberDepth(ms, down)
    ensures MemberBigints(SortByKey(ms)) <==> MemberBigints(ms)
  {
    hide EncodeNodes, EncodeDepth, BigintsFit;
    if ms != [] {
      SortLoads(ms[1..], down);
      InsertLoads(ms[0], SortByKey(ms[1..]), down);
    }
  }

  // What measureTag charges around a payload.
  function TagLoad(tag: Text): Load {
    Load(4, 2, TAG_OPEN + Utf8Len(Quote(tag)) + TAG_MIDDLE + 1, true)
  }

  lemma ArrayLoad(items: seq<Value>)
    ensures ValueLoad(VArray(items)) == Then(Load(1, 0, 2, true), ItemsLoad(items, 0))
  {
    ItemsTextIsLength(items);
    BracketBytes(LBRACKET, EncodeItems(items), RBRACKET);
    assert items[0..] == items;
    hide EncodeItems, Utf8Len, ItemsText;
  }

  // How much deeper the members of an object lie.
  function Down(ms: Members<Value>): nat {
    if HasTagKey(ms) then 2 else 1
  }

  function Escape(ms: Members<Value>): Load {
    if HasTagKey(ms) then TagLoad(OBJECT) else Load(0, 0, 0, true)
  }

  function BodyLoad(ms: Members<Value>): Load {
    Then(Load(0, 0, 2, true), MembersLoad(SortByKey(ms), 0, Down(ms)))
  }

  lemma BodyBytes(ms: Members<Value>)
    ensures Utf8Len([LBRACE] + JoinMembers(SortByKey(EncodeMembers(ms))) + [RBRACE]) == 2 + MembersText(SortByKey(ms))
  {
    hide Utf8Len, JoinMembers, EncodeMembers, SortByKey, MembersText;
    SortedMembersText(ms);
    BracketBytes(LBRACE, JoinMembers(SortByKey(EncodeMembers(ms))), RBRACE);
  }

  lemma ObjectBytes(ms: Members<Value>)
    ensures Utf8Len(Encode(VObject(ms))) == Escape(ms).bytes + 2 + MembersText(SortByKey(ms))
  {
    var body := [LBRACE] + JoinMembers(SortByKey(EncodeMembers(ms))) + [RBRACE];
    assert Encode(VObject(ms)) == if HasTagKey(ms) then EncodeTag(OBJECT, body) else body;
    hide Utf8Len, JoinMembers, EncodeMembers, SortByKey, MembersText, Encode, EncodeTag, Quote;
    BodyBytes(ms);
    TagBytes(OBJECT, body);
  }

  lemma ObjectCounts(ms: Members<Value>)
    ensures EncodeNodes(VObject(ms)) == 1 + Escape(ms).nodes + EncodeMemberNodes(ms)
    ensures EncodeDepth(VObject(ms)) == Max(Escape(ms).depth, EncodeMemberDepth(ms, Down(ms)))
    ensures BigintsFit(VObject(ms)) == MemberBigints(ms)
  {
    hide EncodeMemberNodes, EncodeMemberDepth, MemberBigints, Quote, Utf8Len;
  }

  lemma ObjectLoad(ms: Members<Value>)
    ensures ValueLoad(VObject(ms)) == Then(Then(Load(1, 0, 0, true), Escape(ms)), BodyLoad(ms))
  {
    hide Utf8Len, SortByKey, MembersText, Encode, Quote, Escape, EncodeNodes, EncodeDepth, BigintsFit;
    hide EncodeMemberNodes, EncodeMemberDepth, MemberBigints, Down;
    ObjectBytes(ms);
    ObjectCounts(ms);
    SortLoads(ms, Down(ms));
    assert SortByKey(ms)[0..] == SortByKey(ms);
    assert Escape(ms).valid by {
      EscapeValid(ms);
    }
  }

  lemma EscapeValid(ms: Members<Value>)
    ensures Escape(ms).valid
  {
  }

  lemma TaggedStringLoad(tag: Text, payload: Text)
    ensures Utf8Len(EncodeTag(tag, Quote(payload))) == TagLoad(tag).bytes + Utf8Len(Quote(payload))
  {
    TagBytes(tag, Quote(payload));
  }

  // JsonEncodingBudget.
  class JsonEncodingBudget {
    var consumedBytes: nat
    var strings: map<Text, nat>

    ghost predicate Valid()
      reads this
    {
      forall s <- strings :: strings[s] == Utf8Len(Quote(s))
    }

    constructor ()
      ensures Valid() && consumedBytes == 0 && strings == map[]
    {
      consumedBytes, strings := 0, map[];
    }

    method Reserve(bytes: nat) returns (r: Outcome)
      modifies this
      ensures consumedBytes == old(consumedBytes) + bytes && strings == old(strings)
      ensures old(Valid()) ==> Valid()
      ensures r == if consumedBytes <= INPUT_BYTES then Done else Failed(TooManyBytes)
    {
      consumedBytes := consumedBytes + bytes;
      return if consumedBytes > INPUT_BYTES then Failed(TooManyBytes) else Done;
    }

    // Reserves exactly the bytes of the quoted string, or fails when they do not fit.
    method ReserveString(value: Text) returns (r: Outcome)
      requires Valid()
      modifies this
      ensures Valid()
      ensures r == if old(consumedBytes) + Utf8Len(Quote(value)) <= INPUT_BYTES then Done else Failed(TooManyBytes)
      ensures r.Done? ==> consumedBytes == old(consumedBytes) + Utf8Len(Quote(value))
    {
      hide Quote, QuoteBody, Utf8Len;
      if value in strings {
        r := Reserve(strings[value]);
        return;
      }
      QuoteBytes(value);
      var bytes := 2;
      var index := 0;
      while index < |value|
        invariant index <= |value|
        invariant bytes + Utf8Len(QuoteBody(value[index..])) == Utf8Len(Quote(value))
        invariant Valid() && consumedBytes == old(consumedBytes) && strings == old(strings)
      {
        var rest := value[index..];
        QuoteStep(rest);
        assert rest[UnitCount(rest)..] == value[index + UnitCount(rest)..];
        var code := value[index];
        if code == 0x22 || code == 0x5C || code == 0x08 || code == 0x09 || code == 0x0A || code == 0x0C || code == 0x0D {
          bytes := bytes + 2;
        } else if code < 0x20 {
          bytes := bytes + 6;
        } else if code < 0x80 {
          bytes := bytes + 1;
        } else if code < 0x800 {
          bytes := bytes + 2;
        } else if 0xD800 <= code <= 0xDBFF {
          if index + 1 < |value| && 0xDC00 <= value[index + 1] <= 0xDFFF {
            bytes := bytes + 4;
            index := index + 1;
          } else {
            bytes := bytes + 6;
          }
        } else if 0xDC00 <= code <= 0xDFFF {
          bytes := bytes + 6;
        } else {
          bytes := bytes + 3;
        }
        index := index + 1;
        if consumedBytes + bytes > INPUT_BYTES {
          return Failed(TooManyBytes);
        }
      }
      EmptyQuote(value[index..]);
      strings := strings[value := bytes];
      r := Reserve(bytes);
    }
  }

  lemma EmptyQuote(s: Text)
    requires s == []
    ensures Utf8Len(QuoteBody(s)) == 0
  {
  }
}
