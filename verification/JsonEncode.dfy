/**
 The encoder writes the printed form of the raw tree that stands for the value, and its
 counters are the parser's, so what it writes is always parsed back.
 */
module JsonEncode {
  import opened Wrappers
  import opened JsonText
  import opened JsonSort
  import opened JsonValue
  import opened JsonParse
  import N = JsonNumber

  // ----------------------------------------------------------------- the text

  lemma PlainNames()
    ensures QuoteBody(TAG) == TAG && QuoteBody(TYPE) == TYPE
    ensures QuoteBody(VERSION) == VERSION && QuoteBody(VALUE) == VALUE
  {
    hide QuoteBody;
    QuotePlain(TAG);
    QuotePlain(TYPE);
    QuotePlain(VERSION);
    QuotePlain(VALUE);
  }

  // The fixed pieces of a tag are printed keys and punctuation.
  lemma TagPieces()
    ensures Ascii("{\"$sqlx\":{\"type\":") == [LBRACE] + Quote(TAG) + [COLON] + [LBRACE] + Quote(TYPE) + [COLON]
    ensures Ascii(",\"v\":") == [COMMA] + Quote(VERSION) + [COLON]
    ensures Ascii("},\"value\":") == [RBRACE, COMMA] + Quote(VALUE) + [COLON]
  {
    PlainNames();
    hide QuoteBody;
  }

  lemma PrintOne(m: Member<Raw>)
    ensures PrintMembers([m]) == Quote(m.key) + [COLON] + Print(m.value)
  {
    hide Print, Quote;
  }

  lemma PrintTwo(m: Member<Raw>, n: Member<Raw>)
    ensures PrintMembers([m, n])
         == Quote(m.key) + [COLON] + Print(m.value) + [COMMA] + Quote(n.key) + [COLON] + Print(n.value)
  {
    PrintOne(n);
    assert [m, n][1..] == [n];
    hide Print, Quote;
  }

  lemma PrintObject(ms: Members<Raw>)
    ensures Print(RObject(ms)) == [LBRACE] + PrintMembers(ms) + [RBRACE]
  {
    hide PrintMembers;
  }

  lemma PrintControl(tag: Text)
    ensures Print(RObject(Control(tag)))
         == [LBRACE] + Quote(TYPE) + [COLON] + Quote(tag) + [COMMA] + Quote(VERSION) + [COLON] + PROTOCOL + [RBRACE]
  {
    var t: Member<Raw>, v: Member<Raw> := Member(TYPE, RString(tag)), Member(VERSION, RNumber(PROTOCOL));
    assert Print(t.value) == Quote(tag) && Print(v.value) == PROTOCOL;
    hide Quote, PrintMembers, Print;
    PrintTwo(t, v);
    PrintObject(Control(tag));
  }

  lemma PrintTagged(tag: Text, payload: Raw)
    ensures Print(Tagged(tag, payload))
         == [LBRACE] + Quote(TAG) + [COLON] + Print(RObject(Control(tag))) + [COMMA] + Quote(VALUE) + [COLON]
            + Print(payload) + [RBRACE]
  {
    hide Print, Quote, PrintMembers, Control;
    PrintTwo(Member(TAG, RObject(Control(tag))), Member(VALUE, payload));
    PrintObject(TaggedMembers(tag, payload));
  }

  lemma EncodeTagIsPrint(tag: Text, payload: Raw)
    ensures EncodeTag(tag, Print(payload)) == Print(Tagged(tag, payload))
  {
    hide Print, Quote, PrintMembers, Ascii, Control, Tagged;
    PrintControl(tag);
    PrintTagged(tag, payload);
    TagPieces();
  }

  lemma {:induction false} JoinIsPrint(ms: Members<Raw>)
    ensures JoinMembers(MapMembers(ms, Print)) == PrintMembers(ms)
  {
    if ms == [] {
    } else {
      JoinIsPrint(ms[1..]);
      MapMembersAt(ms, Print);
      hide Print, Quote;
    }
  }

  lemma EncodeObjectIsPrint(ms: Members<Value>)
    requires EncodeMembers(ms) == MapMembers(RawMembers(ms), Print)
    ensures Encode(VObject(ms)) == Print(RawOf(VObject(ms)))
  {
    var body := RObject(SortByKey(RawMembers(ms)));
    assert Encode(VObject(ms)) == var text := [LBRACE] + JoinMembers(SortByKey(EncodeMembers(ms))) + [RBRACE];
                                  if HasTagKey(ms) then EncodeTag(OBJECT, text) else text;
    assert RawOf(VObject(ms)) == if HasTagKey(ms) then Tagged(OBJECT, body) else body;
    hide *;
    SortMap(RawMembers(ms), Print);
    JoinIsPrint(SortByKey(RawMembers(ms)));
    PrintObject(SortByKey(RawMembers(ms)));
    EncodeTagIsPrint(OBJECT, body);
  }

  // Main result: the encoder's text is the printed raw tree.
  lemma {:induction false} EncodeIsPrint(v: Value)
    ensures Encode(v) == Print(RawOf(v))
    decreases v, 0
  {
    match v
    case VBigint(n) =>
      hide EncodeTag, Tagged, Quote;
      EncodeTagIsPrint(BIGINT, RString(BigintText(n)));
    case VTemporal(name, payload) =>
      hide EncodeTag, Tagged, Quote, TemporalType;
      EncodeTagIsPrint(TemporalType(name), RString(payload));
    case VArray(items) => EncodeItemsIsPrint(items);
    case VObject(ms) =>
      hide *;
      EncodeMembersIsPrint(ms);
      EncodeObjectIsPrint(ms);
    case _ =>
  }

  lemma {:induction false} EncodeItemsIsPrint(items: seq<Value>)
    ensures EncodeItems(items) == PrintItems(RawItems(items))
    decreases items, 1
  {
    if items == [] {
    } else {
      EncodeIsPrint(items[0]);
      EncodeItemsIsPrint(items[1..]);
      RawItemsLength(items[1..]);
      hide Encode, Print, RawOf;
    }
  }

  lemma {:induction false} RawItemsLength(items: seq<Value>)
    ensures |RawItems(items)| == |items|
  {
    if items == [] {
    } else {
      RawItemsLength(items[1..]);
    }
  }

  lemma {:induction false} EncodeMembersIsPrint(ms: Members<Value>)
    ensures EncodeMembers(ms) == MapMembers(RawMembers(ms), Print)
    decreases ms, 1
  {
    if ms == [] {
    } else {
      assert ms[0].value < ms[0];
      EncodeIsPrint(ms[0].value);
      EncodeMembersIsPrint(ms[1..]);
      hide Encode, Print, RawOf;
    }
  }

  // ------------------------------------------------------- counts and sorting

  lemma {:induction false} InsertMeasures(m: Member<Raw>, ms: Members<Raw>)
    ensures MemberNodes(Insert(m, ms)) == RawNodes(m.value) + MemberNodes(ms)
    ensures MemberHeight(Insert(m, ms)) == Max(1 + RawHeight(m.value), MemberHeight(ms))
    ensures MemberBytes(Insert(m, ms)) == RawBytes(m.value) + MemberBytes(ms)
    ensures MembersOk(Insert(m, ms)) <==> FitsString(m.key) && RawOk(m.value) && MembersOk(ms)
  {
    hide RawNodes, RawHeight, RawBytes, RawOk, FitsString;
    if ms != [] && Less(ms[0].key, m.key) {
      InsertMeasures(m, ms[1..]);
      assert Insert(m, ms)[1..] == Insert(m, ms[1..]);
    } else {
      assert ([m] + ms)[1..] == ms;
    }
  }

  // Sorting the members of an object changes none of its counts.
  lemma {:induction false} SortMeasures(ms: Members<Raw>)
    ensures MemberNodes(SortByKey(ms)) == MemberNodes(ms)
    ensures MemberHeight(SortByKey(ms)) == MemberHeight(ms)
    ensures MemberBytes(SortByKey(ms)) == MemberBytes(ms)
    ensures MembersOk(SortByKey(ms)) <==> MembersOk(ms)
  {
    hide RawNodes, RawHeight, RawBytes, RawOk, FitsString;
    if ms != [] {
      SortMeasures(ms[1..]);
      InsertMeasures(ms[0], SortByKey(ms[1..]));
    }
  }

  // The counts of an object of two members.
  lemma TwoMembers(m: Member<Raw>, n: Member<Raw>)
    ensures MemberNodes([m, n]) == RawNodes(m.value) + RawNodes(n.value)
    ensures MemberHeight([m, n]) == Max(1 + RawHeight(m.value), 1 + RawHeight(n.value))
    ensures MemberBytes([m, n]) == RawBytes(m.value) + RawBytes(n.value)
    ensures MembersOk([m, n]) <==> FitsString(m.key) && RawOk(m.value) && FitsString(n.key) && RawOk(n.value)
  {
    var none: Members<Raw> := [];
    hide RawNodes, RawHeight, RawBytes, RawOk, FitsString;
    assert [m, n][1..] == [n] && [n][1..] == none;
    assert MemberNodes(none) == 0 && MemberHeight(none) == 0 && MemberBytes(none) == 0 && MembersOk(none);
    assert MemberNodes([n]) == RawNodes(n.value) && MemberBytes([n]) == RawBytes(n.value);
    assert MemberHeight([n]) == 1 + RawHeight(n.value);
    assert MembersOk([n]) <==> FitsString(n.key) && RawOk(n.value);
  }

  lemma ObjectCounts(ms: Members<Raw>)
    ensures RawNodes(RObject(ms)) == 1 + MemberNodes(ms) && RawHeight(RObject(ms)) == MemberHeight(ms)
    ensures RawBytes(RObject(ms)) == MemberBytes(ms)
    ensures RawOk(RObject(ms)) <==> DistinctKeys(ms) && MembersOk(ms)
  {
    hide MemberNodes, MemberHeight, MemberBytes, MembersOk, DistinctKeys;
  }

  lemma ControlCounts(tag: Text)
    ensures RawNodes(RObject(Control(tag))) == 3 && RawHeight(RObject(Control(tag))) == 1
  {
    var t: Raw, v: Raw := RString(tag), RNumber(PROTOCOL);
    assert RawNodes(t) == 1 && RawNodes(v) == 1 && RawHeight(t) == 0 && RawHeight(v) == 0;
    hide MemberNodes, MemberHeight, RawNodes, RawHeight, RawBytes, RawOk;
    TwoMembers(Member(TYPE, t), Member(VERSION, v));
    ObjectCounts(Control(tag));
  }

  lemma TaggedCounts(tag: Text, payload: Raw)
    ensures RawNodes(Tagged(tag, payload)) == 4 + RawNodes(payload)
    ensures RawHeight(Tagged(tag, payload)) == Max(2, 1 + RawHeight(payload))
  {
    hide MemberNodes, MemberHeight, RawNodes, RawHeight, RawBytes, RawOk, Control;
    ControlCounts(tag);
    TwoMembers(Member(TAG, RObject(Control(tag))), Member(VALUE, payload));
    ObjectCounts(TaggedMembers(tag, payload));
  }

  // The encoder's node counter and greatest asserted depth are the parser's.
  lemma {:induction false} CountsAgree(v: Value)
    ensures RawNodes(RawOf(v)) == EncodeNodes(v) && RawHeight(RawOf(v)) == EncodeDepth(v)
    decreases v, 0
  {
    match v
    case VBigint(n) => TaggedCounts(BIGINT, RString(BigintText(n)));
    case VTemporal(name, payload) => TaggedCounts(TemporalType(name), RString(payload));
    case VArray(items) => ItemCountsAgree(items);
    case VObject(ms) =>
      MemberCountsAgree(ms);
      SortMeasures(RawMembers(ms));
      TaggedCounts(OBJECT, RObject(SortByKey(RawMembers(ms))));
      DepthShift(ms);
    case _ =>
  }

  lemma {:induction false} DepthShift(ms: Members<Value>)
    ensures EncodeMemberDepth(ms, 2) == if ms == [] then 0 else 1 + EncodeMemberDepth(ms, 1)
  {
    if ms == [] {
    } else {
      DepthShift(ms[1..]);
      hide EncodeDepth;
    }
  }

  lemma {:induction false} ItemCountsAgree(items: seq<Value>)
    ensures ItemNodes(RawItems(items)) == EncodeItemNodes(items)
    ensures ItemHeight(RawItems(items)) == EncodeItemDepth(items)
    decreases items, 1
  {
    if items == [] {
    } else {
      CountsAgree(items[0]);
      ItemCountsAgree(items[1..]);
      hide RawNodes, RawHeight, EncodeNodes, EncodeDepth, RawOf;
    }
  }

  lemma {:induction false} MemberCountsAgree(ms: Members<Value>)
    ensures MemberNodes(RawMembers(ms)) == EncodeMemberNodes(ms)
    ensures MemberHeight(RawMembers(ms)) == EncodeMemberDepth(ms, 1)
    decreases ms, 1
  {
    if ms == [] {
    } else {
      assert ms[0].value < ms[0];
      CountsAgree(ms[0].value);
      MemberCountsAgree(ms[1..]);
      hide RawNodes, RawHeight, EncodeNodes, EncodeDepth, RawOf;
    }
  }

  // --------------------------------------------------- number data, validity

  lemma ProtocolNumber()
    ensures N.Accepted(PROTOCOL) && N.CanonicalLength(PROTOCOL) == |PROTOCOL| == 1
  {
    assert PROTOCOL == [0x31];
    N.PlainIsNumber(false, [0x31], []);
    assert N.Plain(false, [0x31], []) == [0x31];
    assert [0x31] + [] == [0x31];
    N.NoExponent();
    assert LeadingZeros([0x31]) == 0;
    hide N.PartsOf, N.IsNumber, N.ParseExponent, LeadingZeros;
  }

  lemma ShortNames()
    ensures Utf8Len(TAG) == 5 && Utf8Len(TYPE) == 4 && Utf8Len(VERSION) == 1 && Utf8Len(VALUE) == 5
    ensures Utf8Len(BIGINT) == 6 && Utf8Len(OBJECT) == 6
    ensures forall name <- {TAG, TYPE, VERSION, VALUE, BIGINT, OBJECT} :: FitsString(name)
  {
    AsciiBytes(TAG);
    AsciiBytes(TYPE);
    AsciiBytes(VERSION);
    AsciiBytes(VALUE);
    AsciiBytes(BIGINT);
    AsciiBytes(OBJECT);
  }

  lemma {:induction false} AsciiBytes(t: Text)
    requires forall c :: c in t ==> c < 0x80
    ensures Utf8Len(t) == |t|
  {
    if t == [] {
    } else {
      assert t[0] in t && forall c :: c in t[1..] ==> c in t;
      AsciiBytes(t[1..]);
    }
  }

  lemma LeavesOk(s: Text)
    ensures RawOk(RString(s)) <==> FitsString(s)
    ensures RawOk(RNumber(PROTOCOL)) && RawBytes(RNumber(PROTOCOL)) == |PROTOCOL| && RawBytes(RString(s)) == 0
  {
    ProtocolNumber();
    hide N.Accepted, N.CanonicalLength, FitsString;
  }

  lemma ControlOk(tag: Text)
    requires FitsString(tag)
    ensures RawOk(RObject(Control(tag))) && RawBytes(RObject(Control(tag))) == |PROTOCOL|
  {
    hide MemberNodes, MemberHeight, RawNodes, RawHeight, RawBytes, RawOk, MembersOk, MemberBytes, Utf8Len;
    ShortNames();
    LeavesOk(tag);
    assert DistinctKeys(Control(tag)) by {
      assert |TYPE| != |VERSION|;
    }
    TwoMembers(Member(TYPE, RString(tag)), Member(VERSION, RNumber(PROTOCOL)));
    ObjectCounts(Control(tag));
  }

  lemma TaggedOk(tag: Text, payload: Raw)
    requires FitsString(tag) && RawOk(payload)
    ensures RawOk(Tagged(tag, payload)) && RawBytes(Tagged(tag, payload)) == |PROTOCOL| + RawBytes(payload)
  {
    hide MemberNodes, MemberHeight, RawNodes, RawHeight, RawBytes, RawOk, MembersOk, MemberBytes, Utf8Len, Control;
    ControlOk(tag);
    ShortNames();
    TwoMembers(Member(TAG, RObject(Control(tag))), Member(VALUE, payload));
    assert DistinctKeys(TaggedMembers(tag, payload)) by {
      assert TAG[0] != VALUE[0];
    }
    ObjectCounts(TaggedMembers(tag, payload));
  }

  lemma TemporalTypeFits(name: TemporalName)
    ensures FitsString(TemporalType(name)) && |TemporalType(name)| < 64
  {
    AsciiBytes(TemporalType(name));
  }

  lemma {:induction false} NatTextDigits(n: nat)
    ensures AllDigits(NatText(n)) && NatText(n) != [] && NatOf(NatText(n)) == n
    ensures NatText(n)[0] == ZERO ==> n == 0 && NatText(n) == [ZERO]
  {
    if n < 10 {
      assert [ZERO + n][..0] == [];
    } else {
      NatTextDigits(n / 10);
      assert NatText(n)[..|NatText(n)| - 1] == NatText(n / 10);
    }
  }

  lemma BigintTextFits(n: int)
    requires BigintFits(n)
    ensures FitsString(BigintText(n))
  {
    NatTextDigits(if n < 0 then -n else n);
    AsciiBytes(BigintText(n));
  }

  lemma {:induction false} RawMembersAt(ms: Members<Value>)
    ensures |RawMembers(ms)| == |ms|
    ensures forall i :: 0 <= i < |ms| ==> RawMembers(ms)[i] == Member(ms[i].key, RawOf(ms[i].value))
  {
    if ms == [] {
    } else {
      RawMembersAt(ms[1..]);
      hide RawOf;
    }
  }

  lemma RawMembersDistinct(ms: Members<Value>)
    requires DistinctKeys(ms)
    ensures DistinctKeys(SortByKey(RawMembers(ms)))
  {
    RawMembersAt(ms);
    SortOrdered(RawMembers(ms));
  }

  lemma ObjectAgrees(ms: Members<Value>)
    requires DistinctKeys(ms)
    requires MembersOk(RawMembers(ms)) && MemberBytes(RawMembers(ms)) == SnapshotMemberBytes(ms)
    ensures RawOk(RawOf(VObject(ms))) && RawBytes(RawOf(VObject(ms))) == SnapshotBytes(VObject(ms))
  {
    var body := RObject(SortByKey(RawMembers(ms)));
    assert RawOf(VObject(ms)) == if HasTagKey(ms) then Tagged(OBJECT, body) else body;
    assert SnapshotBytes(VObject(ms)) == (if HasTagKey(ms) then |PROTOCOL| else 0) + SnapshotMemberBytes(ms);
    hide *;
    SortMeasures(RawMembers(ms));
    RawMembersDistinct(ms);
    ObjectCounts(SortByKey(RawMembers(ms)));
    ShortNames();
    TaggedOk(OBJECT, body);
  }

  // Accepted values have well-formed raw trees with the snapshot's number data.
  lemma {:induction false} ValuesAgree(v: Value)
    requires ValueOk(v) && BigintsFit(v)
    ensures RawOk(RawOf(v)) && RawBytes(RawOf(v)) == SnapshotBytes(v)
    decreases v, 0
  {
    match v
    case VObject(ms) =>
      assert DistinctKeys(ms) && MembersValid(ms) && MemberBigints(ms);
      hide *;
      MembersAgree(ms);
      ObjectAgrees(ms);
    case VArray(items) => ItemsAgree(items);
    case _ => LeafAgrees(v);
  }

  lemma LeafAgrees(v: Value)
    requires ValueOk(v) && BigintsFit(v) && !v.VArray? && !v.VObject?
    ensures RawOk(RawOf(v)) && RawBytes(RawOf(v)) == SnapshotBytes(v)
  {
    hide FitsString, N.Accepted, Tagged, TemporalType;
    match v
    case VExact(text) => N.CanonicalShape(text);
    case VBigint(n) =>
      BigintTextFits(n);
      ShortNames();
      TaggedOk(BIGINT, RString(BigintText(n)));
    case VTemporal(name, payload) =>
      TemporalTypeFits(name);
      TaggedOk(TemporalType(name), RString(payload));
    case _ =>
  }

  lemma {:induction false} ItemsAgree(items: seq<Value>)
    requires ItemsValid(items) && ItemBigints(items)
    ensures ItemsOk(RawItems(items)) && ItemBytes(RawItems(items)) == SnapshotItemBytes(items)
    decreases items, 1
  {
    if items == [] {
    } else {
      ValuesAgree(items[0]);
      ItemsAgree(items[1..]);
      hide RawOk, RawBytes, SnapshotBytes, RawOf, ValueOk, BigintsFit;
    }
  }

  lemma {:induction false} MembersAgree(ms: Members<Value>)
    requires MembersValid(ms) && MemberBigints(ms)
    ensures MembersOk(RawMembers(ms)) && MemberBytes(RawMembers(ms)) == SnapshotMemberBytes(ms)
    decreases ms, 1
  {
    if ms == [] {
    } else {
      assert ms[0].value < ms[0];
      ValuesAgree(ms[0].value);
      MembersAgree(ms[1..]);
      hide RawOk, RawBytes, SnapshotBytes, RawOf, ValueOk, BigintsFit, FitsString;
    }
  }

  // Main result. Every document that the snapshot and the encoder accept is parsed back, to
  // the raw tree that stands for it: no limit of the parser is ever hit.
  lemma EncodedDocumentsParse(v: Value)
    requires Encodable(v)
    ensures ParseDocument(Encode(v)) == Ok(RawOf(v))
  {
    EncodeIsPrint(v);
    CountsAgree(v);
    ValuesAgree(v);
    hide RawOk, Print, RawOf, Encode, ParseDocument, Utf8Len, RawNodes, RawHeight, RawBytes;
    DocumentRoundTrip(RawOf(v));
  }
}
