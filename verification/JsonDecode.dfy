/**
 Decoding raw trees: the tag layer of src/json-value.ts read back, and the round trip
 from a value through its text to an equal value.
 */
module JsonDecode {
  import opened Wrappers
  import opened JsonText
  import opened JsonSort
  import opened JsonValue
  import opened JsonParse
  import opened JsonEncode
  import N = JsonNumber

  // What Number() gives for a canonical token: its class and its shortest text.
  datatype JsNumber =
    | NotFinite
    | Finite(zero: bool, unsafeInteger: bool, text: Text)

  // The parts of the runtime that are not modelled: Number() on canonical tokens, and the
  // string form of the value a Temporal factory makes of a payload, None when it throws.
  datatype Env = Env(number: Text -> JsNumber, temporal: (TemporalName, Text) -> Option<Text>)

  datatype DecodeFailure =
    | NestingTooDeep | BadTaggedNode | BadControl | UnknownVersion | BadTagType
    | BadBigint | BigintTooLong | BadObjectEscape | BadTemporal | UnknownTag | NumberRefused

  // materializeNumber: a JavaScript number where it can be one, else an exact number.
  function NumberValue(token: Text, env: Env): Value
    requires N.Accepted(token)
  {
    var canonical := N.Canonical(token);
    match env.number(canonical)
    case NotFinite => VExact(canonical)
    case Finite(zero, unsafeInteger, text) =>
      if (zero && canonical != [ZERO]) || unsafeInteger then VExact(canonical) else VNumber(text)
  }

  function Materialize(token: Text, env: Env): Result<Value, DecodeFailure> {
    if N.Accepted(token) then Ok(NumberValue(token, env)) else Err(NumberRefused)
  }

  // Where a key is, and what is stored under it.
  function Position<T>(ms: Members<T>, key: Text): (r: Option<nat>)
    ensures r.Some? ==> r.value < |ms| && ms[r.value].key == key
    ensures r.None? ==> forall i :: 0 <= i < |ms| ==> ms[i].key != key
  {
    if ms == [] then None
    else if ms[0].key == key then Some(0)
    else
      var next := Position(ms[1..], key);
      assert forall i :: 0 < i < |ms| ==> ms[i] == ms[1..][i - 1];
      if next.None? then None else Some(1 + next.value)
  }

  function Lookup<T>(ms: Members<T>, key: Text): Option<T> {
    var p := Position(ms, key);
    if p.None? then None else Some(ms[p.value].value)
  }

  function TemporalOf(tag: Text): Option<TemporalName> {
    if tag == TemporalType(Duration) then Some(Duration)
    else if tag == TemporalType(Instant) then Some(Instant)
    else if tag == TemporalType(PlainDate) then Some(PlainDate)
    else if tag == TemporalType(PlainDateTime) then Some(PlainDateTime)
    else if tag == TemporalType(PlainMonthDay) then Some(PlainMonthDay)
    else if tag == TemporalType(PlainTime) then Some(PlainTime)
    else if tag == TemporalType(PlainYearMonth) then Some(PlainYearMonth)
    else if tag == TemporalType(ZonedDateTime) then Some(ZonedDateTime)
    else None
  }

  // The digits of a bigint payload: the minus sign taken off.
  function Magnitude(p: Text): Text {
    p[N.MinusLen(p)..]
  }

  predicate BigintShape(p: Text) {
    N.IntegerLen(Magnitude(p)) == Some(|Magnitude(p)|) && p != [MINUS, ZERO]
  }

  function BigintOf(p: Text): int {
    var n: int := NatOf(Magnitude(p));
    if StartsWith(p, MINUS) then -n else n
  }

  function DecodeItems(items: seq<Raw>, depth: nat, env: Env): Result<seq<Value>, DecodeFailure> {
    if items == [] then Ok([])
    else
      var v := DecodeRaw(items[0], depth, env);
      if v.Err? then Err(v.error)
      else
        var rest := DecodeItems(items[1..], depth, env);
        if rest.Err? then Err(rest.error) else Ok([v.value] + rest.value)
  }

  function DecodeMembers(ms: Members<Raw>, depth: nat, env: Env): Result<Members<Value>, DecodeFailure> {
    if ms == [] then Ok([])
    else
      assert ms[0].value < ms[0];
      var v := DecodeRaw(ms[0].value, depth, env);
      if v.Err? then Err(v.error)
      else
        var rest := DecodeMembers(ms[1..], depth, env);
        if rest.Err? then Err(rest.error) else Ok([Member(ms[0].key, v.value)] + rest.value)
  }

  // What a control object selects: the tag type, when it is well formed.
  function TagType(control: Raw): Result<Text, DecodeFailure> {
    if !control.RObject? then Err(BadControl)
    else if |control.members| != 2 || Lookup(control.members, TYPE).None? || Lookup(control.members, VERSION).None?
    then Err(BadControl)
    else if Lookup(control.members, VERSION).value != RNumber(PROTOCOL) then Err(UnknownVersion)
    else
      var tag := Lookup(control.members, TYPE).value;
      if tag.RString? then Ok(tag.s) else Err(BadTagType)
  }

  function DecodeBigint(payload: Raw): Result<Value, DecodeFailure> {
    if !payload.RString? || !BigintShape(payload.s) then Err(BadBigint)
    else if |Magnitude(payload.s)| > N.INTEGER_DIGITS then Err(BigintTooLong)
    else Ok(VBigint(BigintOf(payload.s)))
  }

  function DecodeTemporal(tag: Text, payload: Raw, env: Env): Result<Value, DecodeFailure> {
    if TemporalOf(tag).None? then Err(UnknownTag)
    else
      var name := TemporalOf(tag).value;
      if !payload.RString? then Err(BadTemporal)
      else
        var restored := env.temporal(name, payload.s);
        if restored.None? then Err(BadTemporal) else Ok(VTemporal(name, restored.value))
  }

  // decodeTaggedValue.
  function DecodeTagged(ms: Members<Raw>, depth: nat, env: Env): Result<Value, DecodeFailure>
    decreases ms, 1
  {
    if |ms| != 2 || Lookup(ms, TAG).None? || Position(ms, VALUE).None? then Err(BadTaggedNode)
    else
      var tag := TagType(Lookup(ms, TAG).value);
      var member := ms[Position(ms, VALUE).value];
      var payload := member.value;
      if tag.Err? then Err(tag.error)
      else if tag.value == BIGINT then DecodeBigint(payload)
      else if tag.value == OBJECT then
        if !payload.RObject? then Err(BadObjectEscape)
        else
          assert payload < member;
          var body := DecodeMembers(payload.members, depth + 1, env);
          if body.Err? then Err(body.error) else Ok(VObject(body.value))
      else DecodeTemporal(tag.value, payload, env)
  }

  // decodeValue.
  function DecodeRaw(r: Raw, depth: nat, env: Env): Result<Value, DecodeFailure> {
    if depth > DEPTH then Err(NestingTooDeep)
    else
      match r
      case RNull => Ok(VNull)
      case RBool(b) => Ok(VBool(b))
      case RString(s) => Ok(VString(s))
      case RNumber(token) => Materialize(token, env)
      case RArray(items) =>
        var vs := DecodeItems(items, depth + 1, env);
        if vs.Err? then Err(vs.error) else Ok(VArray(vs.value))
      case RObject(ms) =>
        if HasTagKey(ms) then DecodeTagged(ms, depth, env)
        else
          var body := DecodeMembers(ms, depth + 1, env);
          if body.Err? then Err(body.error) else Ok(VObject(body.value))
  }

  // --------------------------------------------------------------- round trip

  function SettleItems(items: seq<Value>, env: Env): seq<Value> {
    if items == [] then [] else [Settle(items[0], env)] + SettleItems(items[1..], env)
  }

  function SettleMembers(ms: Members<Value>, env: Env): Members<Value> {
    if ms == [] then []
    else
      assert ms[0].value < ms[0];
      [Member(ms[0].key, Settle(ms[0].value, env))] + SettleMembers(ms[1..], env)
  }

  // What a value becomes on a trip through its text: keys in order, numbers materialised.
  function Settle(v: Value, env: Env): Value {
    match v
    case VNumber(text) => if N.Accepted(text) then NumberValue(text, env) else v
    case VExact(text) => if N.Accepted(text) then NumberValue(text, env) else v
    case VArray(items) => VArray(SettleItems(items, env))
    case VObject(ms) => VObject(SortByKey(SettleMembers(ms, env)))
    case _ => v
  }

  predicate ItemsRestore(items: seq<Value>, env: Env) {
    items != [] ==> Restores(items[0], env) && ItemsRestore(items[1..], env)
  }

  predicate MembersRestore(ms: Members<Value>, env: Env) {
    ms != [] ==>
      assert ms[0].value < ms[0];
      Restores(ms[0].value, env) && MembersRestore(ms[1..], env)
  }

  // Temporal factories read the string forms in the value back, as the snapshot checks.
  predicate Restores(v: Value, env: Env) {
    match v
    case VTemporal(name, payload) => env.temporal(name, payload) == Some(payload)
    case VArray(items) => ItemsRestore(items, env)
    case VObject(ms) => MembersRestore(ms, env)
    case _ => true
  }

  // What one tree decodes to, as a total function.
  function Decoder(depth: nat, env: Env): Raw -> Value {
    r => if DecodeRaw(r, depth, env).Ok? then DecodeRaw(r, depth, env).value else VNull
  }

  ghost predicate AllDecode(ms: Members<Raw>, depth: nat, env: Env) {
    forall m :: m in ms ==> DecodeRaw(m.value, depth, env).Ok?
  }

  lemma {:induction false} DecodeMembersMaps(ms: Members<Raw>, depth: nat, env: Env)
    requires AllDecode(ms, depth, env)
    ensures DecodeMembers(ms, depth, env) == Ok(MapMembers(ms, Decoder(depth, env)))
  {
    hide DecodeRaw;
    if ms != [] {
      assert ms[0] in ms && forall m :: m in ms[1..] ==> m in ms;
      DecodeMembersMaps(ms[1..], depth, env);
    }
  }

  // The members of a decoded object come out in key order.
  lemma DecodeSorted(ms: Members<Raw>, depth: nat, env: Env)
    requires AllDecode(ms, depth, env)
    ensures DecodeMembers(SortByKey(ms), depth, env) == Ok(SortByKey(MapMembers(ms, Decoder(depth, env))))
  {
    hide DecodeMembers, Decoder, DecodeRaw;
    forall m | m in SortByKey(ms) ensures m in ms {
      SortedMember(m, ms);
    }
    DecodeMembersMaps(SortByKey(ms), depth, env);
    SortMap(ms, Decoder(depth, env));
  }

  lemma TagTypeOfControl(tag: Text)
    ensures TagType(RObject(Control(tag))) == Ok(tag)
  {
    assert |TYPE| != |VERSION|;
    assert Position(Control(tag), TYPE) == Some(0);
    assert Position(Control(tag)[1..], VERSION) == Some(0);
    assert Position(Control(tag), VERSION) == Some(1);
  }

  lemma TaggedLookups(tag: Text, payload: Raw)
    ensures |TaggedMembers(tag, payload)| == 2 && TaggedMembers(tag, payload)[1].value == payload
    ensures Position(TaggedMembers(tag, payload), VALUE) == Some(1)
    ensures Lookup(TaggedMembers(tag, payload), TAG) == Some(RObject(Control(tag)))
    ensures HasTagKey(TaggedMembers(tag, payload))
  {
    assert TAG[0] != VALUE[0];
    var ms := TaggedMembers(tag, payload);
    assert Position(ms[1..], VALUE) == Some(0);
    assert ms[0].key == TAG;
  }

  // A tag is decoded by its type.
  lemma DecodeTag(tag: Text, payload: Raw, depth: nat, env: Env)
    requires depth <= DEPTH
    ensures DecodeRaw(Tagged(tag, payload), depth, env)
         == if tag == BIGINT then DecodeBigint(payload)
            else if tag == OBJECT then
              if !payload.RObject? then Err(BadObjectEscape)
              else if DecodeMembers(payload.members, depth + 1, env).Err? then
                Err(DecodeMembers(payload.members, depth + 1, env).error)
              else Ok(VObject(DecodeMembers(payload.members, depth + 1, env).value))
            else DecodeTemporal(tag, payload, env)
  {
    TaggedLookups(tag, payload);
    TagTypeOfControl(tag);
    hide TaggedMembers, TagType, Position, DecodeBigint, DecodeTemporal, DecodeMembers, HasTagKey;
    var ms := TaggedMembers(tag, payload);
    assert DecodeRaw(RObject(ms), depth, env) == DecodeTagged(ms, depth, env);
  }

  lemma BigintRoundTrip(n: int)
    requires BigintFits(n)
    ensures DecodeBigint(RString(BigintText(n))) == Ok(VBigint(n))
  {
    var p := BigintText(n);
    var m := NatText(if n < 0 then -n else n);
    NatTextDigits(if n < 0 then -n else n);
    assert IsDigit(m[0]);
    assert Magnitude(p) == m;
    LeadingDigitsAppend(m, []);
    assert m + [] == m;
    assert p == [MINUS, ZERO] ==> m == [ZERO];
  }

  lemma TemporalNames(name: TemporalName)
    ensures TemporalOf(TemporalType(name)) == Some(name)
    ensures TemporalType(name) != BIGINT && TemporalType(name) != OBJECT
  {
    assert TemporalType(PlainDate)[14] != TemporalType(PlainTime)[14];
    assert TemporalType(PlainDateTime)[14] != TemporalType(PlainMonthDay)[14];
    assert TemporalType(PlainDateTime)[9] != TemporalType(ZonedDateTime)[9];
    assert TemporalType(PlainMonthDay)[9] != TemporalType(ZonedDateTime)[9];
  }

  lemma DecodeObject(ms: Members<Raw>, depth: nat, env: Env)
    requires depth <= DEPTH
    ensures var body := DecodeMembers(SortByKey(ms), depth + 1, env);
            var raw := RObject(SortByKey(ms));
            body.Ok? ==>
              && (!HasTagKey(SortByKey(ms)) ==> DecodeRaw(raw, depth, env) == Ok(VObject(body.value)))
              && DecodeRaw(Tagged(OBJECT, raw), depth, env) == Ok(VObject(body.value))
  {
    DecodeTag(OBJECT, RObject(SortByKey(ms)), depth, env);
    assert |OBJECT| == |BIGINT| && OBJECT[0] != BIGINT[0];
    hide Tagged, DecodeMembers, DecodeBigint, DecodeTemporal, HasTagKey, SortByKey;
  }

  // An object has a $sqlx key before sorting and encoding exactly when it has one after.
  lemma TagKeySurvives(ms: Members<Value>)
    ensures HasTagKey(SortByKey(RawMembers(ms))) <==> HasTagKey(ms)
  {
    hide RawMembers, SortByKey;
    RawMembersAt(ms);
    var raw := RawMembers(ms);
    forall m: Member<Raw> {
      SortedMember(m, raw);
    }
    if HasTagKey(ms) {
      var i :| 0 <= i < |ms| && ms[i].key == TAG;
      assert raw[i] in SortByKey(raw);
    }
    if HasTagKey(SortByKey(raw)) {
      var i :| 0 <= i < |SortByKey(raw)| && SortByKey(raw)[i].key == TAG;
      assert SortByKey(raw)[i] in raw;
    }
  }

  lemma ObjectRoundTrip(ms: Members<Value>, depth: nat, env: Env)
    requires depth <= DEPTH && AllDecode(RawMembers(ms), depth + 1, env)
    requires MapMembers(RawMembers(ms), Decoder(depth + 1, env)) == SettleMembers(ms, env)
    ensures DecodeRaw(RawOf(VObject(ms)), depth, env) == Ok(Settle(VObject(ms), env))
  {
    var body := RObject(SortByKey(RawMembers(ms)));
    assert RawOf(VObject(ms)) == if HasTagKey(ms) then Tagged(OBJECT, body) else body;
    assert Settle(VObject(ms), env) == VObject(SortByKey(SettleMembers(ms, env)));
    hide *;
    DecodeSorted(RawMembers(ms), depth + 1, env);
    TagKeySurvives(ms);
    DecodeObject(RawMembers(ms), depth, env);
  }

  // Main result. Decoding the raw tree of a value gives the value with its keys in order
  // and its numbers materialised. In particular an object is decoded to an object, whatever
  // its keys are, and a tag to what was tagged.
  lemma {:induction false} DecodeRoundTrip(v: Value, depth: nat, env: Env)
    requires ValueOk(v) && BigintsFit(v) && Restores(v, env) && depth + EncodeDepth(v) <= DEPTH
    ensures DecodeRaw(RawOf(v), depth, env) == Ok(Settle(v, env))
    decreases v, 0
  {
    hide *;
    match v
    case VObject(ms) =>
      ObjectParts(ms, depth, env);
      MembersRoundTrip(ms, depth + 1, env);
      ObjectRoundTrip(ms, depth, env);
    case VArray(items) =>
      ArrayParts(items, depth, env);
      ItemsRoundTrip(items, depth + 1, env);
      ArrayRoundTrip(items, depth, env);
    case _ => LeafRoundTrip(v, depth, env);
  }

  lemma ObjectParts(ms: Members<Value>, depth: nat, env: Env)
    requires ValueOk(VObject(ms)) && BigintsFit(VObject(ms)) && Restores(VObject(ms), env)
    requires depth + EncodeDepth(VObject(ms)) <= DEPTH
    ensures MembersValid(ms) && MemberBigints(ms) && MembersRestore(ms, env)
    ensures depth <= DEPTH && depth + 1 + EncodeMemberDepth(ms, 1) <= DEPTH + 1
  {
    DepthShift(ms);
  }

  lemma ArrayParts(items: seq<Value>, depth: nat, env: Env)
    requires ValueOk(VArray(items)) && BigintsFit(VArray(items)) && Restores(VArray(items), env)
    requires depth + EncodeDepth(VArray(items)) <= DEPTH
    ensures ItemsValid(items) && ItemBigints(items) && ItemsRestore(items, env)
    ensures depth <= DEPTH && depth + 1 + EncodeItemDepth(items) <= DEPTH + 1
  {
  }

  lemma ArrayRoundTrip(items: seq<Value>, depth: nat, env: Env)
    requires depth <= DEPTH && DecodeItems(RawItems(items), depth + 1, env) == Ok(SettleItems(items, env))
    ensures DecodeRaw(RawOf(VArray(items)), depth, env) == Ok(Settle(VArray(items), env))
  {
    hide DecodeItems, RawItems, SettleItems;
  }

  lemma LeafRoundTrip(v: Value, depth: nat, env: Env)
    requires ValueOk(v) && BigintsFit(v) && Restores(v, env) && depth <= DEPTH && !v.VArray? && !v.VObject?
    ensures DecodeRaw(RawOf(v), depth, env) == Ok(Settle(v, env))
  {
    hide N.Accepted, N.Canonical, Tagged, TemporalType, TemporalOf;
    match v
    case VBigint(n) =>
      BigintRoundTrip(n);
      DecodeTag(BIGINT, RString(BigintText(n)), depth, env);
    case VTemporal(name, payload) =>
      TemporalNames(name);
      DecodeTag(TemporalType(name), RString(payload), depth, env);
    case _ =>
  }

  lemma {:induction false} ItemsRoundTrip(items: seq<Value>, depth: nat, env: Env)
    requires ItemsValid(items) && ItemBigints(items) && ItemsRestore(items, env) && depth + EncodeItemDepth(items) <= DEPTH + 1
    ensures DecodeItems(RawItems(items), depth, env) == Ok(SettleItems(items, env))
    decreases items, 1
  {
    if items == [] {
    } else {
      hide DecodeRaw, RawOf, Settle, ValueOk, BigintsFit, Restores, EncodeDepth;
      DecodeRoundTrip(items[0], depth, env);
      ItemsRoundTrip(items[1..], depth, env);
    }
  }

  lemma {:induction false} MembersRoundTrip(ms: Members<Value>, depth: nat, env: Env)
    requires MembersValid(ms) && MemberBigints(ms) && MembersRestore(ms, env) && depth + EncodeMemberDepth(ms, 1) <= DEPTH + 1
    ensures AllDecode(RawMembers(ms), depth, env)
    ensures MapMembers(RawMembers(ms), Decoder(depth, env)) == SettleMembers(ms, env)
    decreases ms, 1
  {
    if ms == [] {
    } else {
      hide DecodeRaw, RawOf, Settle, ValueOk, BigintsFit, Restores, EncodeDepth;
      assert ms[0].value < ms[0];
      DecodeRoundTrip(ms[0].value, depth, env);
      MembersRoundTrip(ms[1..], depth, env);
    }
  }
}
