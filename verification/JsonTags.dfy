/**
 The tag layer of a document, spelled out: which raw trees stand for a value, and that decoding
 accepts exactly those.
 */
module JsonTags {
  import opened Wrappers
  import opened JsonText
  import opened JsonSort
  import opened JsonValue
  import opened JsonDecode
  import N = JsonNumber
  import G = JsonGrammar

  // ------------------------------------------------------------------- spelled out

  // An object of exactly two keys, in either order.
  predicate IsPair(ms: Members<Raw>, a: string, x: Raw, b: string, y: Raw) {
    ms == [Member(Ascii(a), x), Member(Ascii(b), y)] || ms == [Member(Ascii(b), y), Member(Ascii(a), x)]
  }

  // {"type": tag, "v": 1}
  predicate IsControl(control: Raw, tag: Text) {
    control.RObject? && IsPair(control.members, "type", RString(tag), "v", RNumber(Ascii("1")))
  }

  // -?(0|[1-9][0-9]*), not -0, of at most 131072 digits.
  predicate IsBigint(p: Text, minus: bool, digits: Text, n: int) {
    var size: int := NatOf(digits);
    && p == (if minus then [0x2D] else []) + digits
    && G.Digits(digits) && (|digits| > 1 ==> digits[0] != 0x30) && !(minus && digits == [0x30])
    && |digits| <= 131072
    && n == if minus then -size else size
  }

  ghost predicate BigintMeans(payload: Raw, v: Value) {
    payload.RString? && v.VBigint? && exists minus, digits :: IsBigint(payload.s, minus, digits, v.n)
  }

  function TypeName(name: TemporalName): string {
    match name
    case Duration => "temporal.Duration"
    case Instant => "temporal.Instant"
    case PlainDate => "temporal.PlainDate"
    case PlainDateTime => "temporal.PlainDateTime"
    case PlainMonthDay => "temporal.PlainMonthDay"
    case PlainTime => "temporal.PlainTime"
    case PlainYearMonth => "temporal.PlainYearMonth"
    case ZonedDateTime => "temporal.ZonedDateTime"
  }

  // The factory of the named type reads the payload.
  predicate TemporalMeans(tag: Text, payload: Raw, v: Value, env: Env) {
    && v.VTemporal? && payload.RString?
    && tag == Ascii(TypeName(v.name)) && env.temporal(v.name, payload.s) == Some(v.payload)
  }

  // A tag with its payload.
  ghost predicate TagMeans(tag: Text, payload: Raw, v: Value, depth: nat, env: Env)
    decreases payload, 0
  {
    || (tag == Ascii("bigint") && BigintMeans(payload, v))
    || (tag == Ascii("object") && payload.RObject? && v.VObject? && MembersMean(payload.members, v.members, depth + 1, env))
    || TemporalMeans(tag, payload, v, env)
  }

  ghost predicate MembersMean(ms: Members<Raw>, vs: Members<Value>, depth: nat, env: Env)
    decreases ms, 0
  {
    |vs| == |ms| && forall i :: 0 <= i < |ms| ==>
      assert ms[i].value < ms[i];
      vs[i].key == ms[i].key && Means(ms[i].value, vs[i].value, depth, env)
  }

  // The value that a raw tree stands for, at a depth.
  ghost predicate Means(r: Raw, v: Value, depth: nat, env: Env)
    decreases r, 1
  {
    && depth <= 128
    && match r
       case RNull => v == VNull
       case RBool(b) => v == VBool(b)
       case RString(s) => v == VString(s)
       case RNumber(token) => N.Accepted(token) && v == NumberValue(token, env)
       case RArray(items) =>
         && v.VArray? && |v.items| == |items|
         && forall i :: 0 <= i < |items| ==> Means(items[i], v.items[i], depth + 1, env)
       case RObject(ms) =>
         if exists i :: 0 <= i < |ms| && ms[i].key == Ascii("$sqlx") then
           IsTagged(ms, v, depth, env)
         else v.VObject? && MembersMean(ms, v.members, depth + 1, env)
  }

  ghost predicate IsTagged(ms: Members<Raw>, v: Value, depth: nat, env: Env)
    decreases ms, 2
  {
    exists k :: 0 <= k < |ms| && HoldsTag(ms, k, v, depth, env)
  }

  // {"$sqlx": control, "value": payload}, the payload at k.
  ghost predicate HoldsTag(ms: Members<Raw>, k: nat, v: Value, depth: nat, env: Env)
    requires k < |ms|
    decreases ms, 1
  {
    assert ms[k].value < ms[k];
    exists control, tag ::
      && IsPair(ms, "$sqlx", control, "value", ms[k].value) && ms[k].key == Ascii("value")
      && IsControl(control, tag) && TagMeans(tag, ms[k].value, v, depth, env)
  }

  // ------------------------------------------------------------------------ tags

  lemma Positions<T>(ms: Members<T>, a: Text, b: Text)
    requires a != b && |ms| == 2
    ensures Position(ms, a).Some? && Position(ms, b).Some? <==>
              (ms[0].key == a && ms[1].key == b) || (ms[0].key == b && ms[1].key == a)
    ensures ms[0].key == a && ms[1].key == b ==> Position(ms, a) == Some(0) && Position(ms, b) == Some(1)
    ensures ms[0].key == b && ms[1].key == a ==> Position(ms, a) == Some(1) && Position(ms, b) == Some(0)
  {
    assert ms[1..][0] == ms[1] && ms[1..][1..] == [];
  }

  lemma Names()
    ensures TYPE == Ascii("type") && VERSION == Ascii("v") && TAG == Ascii("$sqlx") && VALUE == Ascii("value")
    ensures TYPE != VERSION && TAG != VALUE && BIGINT == Ascii("bigint") && OBJECT == Ascii("object") && BIGINT != OBJECT
    ensures PROTOCOL == Ascii("1")
  {
    assert |TYPE| == 4 && |VERSION| == 1 && TAG[0] == 0x24 && VALUE[0] == 0x76 && BIGINT[0] == 0x62 && OBJECT[0] == 0x6F;
  }

  lemma ControlExactly(control: Raw, tag: Text)
    ensures TagType(control) == Ok(tag) <==> IsControl(control, tag)
  {
    Names();
    if control.RObject? && |control.members| == 2 {
      Positions(control.members, TYPE, VERSION);
      hide Position;
    }
  }

  lemma BigintIsRead(p: Text, minus: bool, digits: Text, n: int)
    requires IsBigint(p, minus, digits, n)
    ensures DecodeBigint(RString(p)) == Ok(VBigint(n))
  {
    assert digits[0] in digits;
    assert Magnitude(p) == digits && StartsWith(p, MINUS) == minus;
    var numeral := G.Numeral(minus, digits, None, None);
    G.IntegerIsToken(numeral, []);
    assert digits + [] == digits;
    assert p == [MINUS, ZERO] ==> minus && digits == [ZERO];
    hide NatOf, N.IntegerLen, G.Digits;
  }

  lemma BigintWasWritten(p: Text)
    requires DecodeBigint(RString(p)).Ok?
    ensures IsBigint(p, StartsWith(p, MINUS), Magnitude(p), BigintOf(p))
  {
    var digits := Magnitude(p);
    G.IntegerPart(digits, |digits|);
    assert digits[..|digits|] == digits;
    hide NatOf, N.IntegerLen, G.Digits;
    assert p == (if StartsWith(p, MINUS) then [0x2D] else []) + digits;
  }

  lemma BigintExactly(payload: Raw, v: Value)
    ensures DecodeBigint(payload) == Ok(v) <==> BigintMeans(payload, v)
  {
    hide IsBigint, BigintShape;
    if DecodeBigint(payload) == Ok(v) {
      BigintWasWritten(payload.s);
    }
    if payload.RString? && v.VBigint? {
      forall minus, digits | IsBigint(payload.s, minus, digits, v.n) ensures DecodeBigint(payload) == Ok(v) {
        BigintIsRead(payload.s, minus, digits, v.n);
      }
    }
  }

  lemma TemporalExactly(tag: Text, payload: Raw, v: Value, env: Env)
    ensures DecodeTemporal(tag, payload, env) == Ok(v) <==> TemporalMeans(tag, payload, v, env)
    ensures TemporalMeans(tag, payload, v, env) ==> tag != Ascii("bigint") && tag != Ascii("object")
  {
    forall name ensures TemporalType(name) == Ascii(TypeName(name)) {
    }
    if v.VTemporal? {
      TemporalNames(v.name);
    }
    hide TypeName;
    if TemporalOf(tag).Some? {
      assert tag == TemporalType(TemporalOf(tag).value);
      hide TemporalOf, TemporalType;
    } else {
      hide TemporalType;
    }
  }

  // ------------------------------------------------------------------- whole trees

  lemma {:induction false} MembersExactly(ms: Members<Raw>, vs: Members<Value>, depth: nat, env: Env)
    ensures DecodeMembers(ms, depth, env) == Ok(vs) <==> MembersMean(ms, vs, depth, env)
    decreases ms, 0
  {
    hide DecodeRaw, Means;
    if ms == [] {
    } else if vs != [] {
      assert ms[0].value < ms[0];
      DecodesExactly(ms[0].value, vs[0].value, depth, env);
      MembersExactly(ms[1..], vs[1..], depth, env);
      assert vs == [vs[0]] + vs[1..];
      assert MembersMean(ms, vs, depth, env) <==>
             vs[0].key == ms[0].key && Means(ms[0].value, vs[0].value, depth, env) && MembersMean(ms[1..], vs[1..], depth, env);
      hide MembersMean;
    }
  }

  ghost predicate ItemsMean(items: seq<Raw>, vs: seq<Value>, depth: nat, env: Env) {
    |vs| == |items| && forall i :: 0 <= i < |items| ==> Means(items[i], vs[i], depth, env)
  }

  lemma {:induction false} ItemsExactly(items: seq<Raw>, vs: seq<Value>, depth: nat, env: Env)
    ensures DecodeItems(items, depth, env) == Ok(vs) <==> ItemsMean(items, vs, depth, env)
    decreases items, 0
  {
    hide DecodeRaw, Means;
    if items == [] {
    } else if vs != [] {
      DecodesExactly(items[0], vs[0], depth, env);
      ItemsExactly(items[1..], vs[1..], depth, env);
      assert vs == [vs[0]] + vs[1..];
      assert ItemsMean(items, vs, depth, env) <==>
             Means(items[0], vs[0], depth, env) && ItemsMean(items[1..], vs[1..], depth, env);
      hide ItemsMean;
    }
  }

  // The payload is decoded by its tag.
  lemma {:induction false} PayloadExactly(tag: Text, payload: Raw, v: Value, depth: nat, env: Env)
    ensures TagMeans(tag, payload, v, depth, env) <==>
              if tag == BIGINT then DecodeBigint(payload) == Ok(v)
              else if tag == OBJECT then
                payload.RObject? && v.VObject? && DecodeMembers(payload.members, depth + 1, env) == Ok(v.members)
              else DecodeTemporal(tag, payload, env) == Ok(v)
    decreases payload, 0
  {
    Names();
    BigintExactly(payload, v);
    TemporalExactly(tag, payload, v, env);
    if payload.RObject? && v.VObject? {
      MembersExactly(payload.members, v.members, depth + 1, env);
    }
    hide BigintMeans, TemporalMeans, DecodeBigint, DecodeTemporal, DecodeMembers, MembersMean;
  }

  lemma {:induction false} TaggedExactly(ms: Members<Raw>, v: Value, depth: nat, env: Env)
    ensures DecodeTagged(ms, depth, env) == Ok(v) <==> IsTagged(ms, v, depth, env)
    decreases ms, 2
  {
    Names();
    hide TagMeans, IsControl, TagType, DecodeBigint, DecodeTemporal, DecodeMembers, HoldsTag, Position;
    if |ms| == 2 {
      Positions(ms, TAG, VALUE);
      if Position(ms, TAG).Some? && Position(ms, VALUE).Some? {
        var k := Position(ms, VALUE).value;
        TagAt(ms, k, v, depth, env);
      }
    }
    forall k | 0 <= k < |ms| && HoldsTag(ms, k, v, depth, env)
      ensures |ms| == 2 && Position(ms, TAG).Some? && Position(ms, VALUE) == Some(k)
    {
      HeldTag(ms, k, v, depth, env);
      Positions(ms, TAG, VALUE);
    }
  }

  lemma HeldTag(ms: Members<Raw>, k: nat, v: Value, depth: nat, env: Env)
    requires k < |ms| && HoldsTag(ms, k, v, depth, env)
    ensures |ms| == 2 && ms[k].key == VALUE && ms[1 - k].key == TAG
  {
    Names();
    hide TagMeans, IsControl;
  }

  lemma {:induction false} TagAt(ms: Members<Raw>, k: nat, v: Value, depth: nat, env: Env)
    requires |ms| == 2 && k < 2 && ms[k].key == VALUE && ms[1 - k].key == TAG && Position(ms, VALUE) == Some(k)
    requires Position(ms, TAG) == Some(1 - k)
    ensures DecodeTagged(ms, depth, env) == Ok(v) <==> HoldsTag(ms, k, v, depth, env)
    decreases ms, 1
  {
    Names();
    assert ms[k].value < ms[k];
    var control, payload := ms[1 - k].value, ms[k].value;
    assert IsPair(ms, "$sqlx", control, "value", payload);
    assert forall other :: IsPair(ms, "$sqlx", other, "value", payload) ==> other == control;
    hide IsControl, TagType, DecodeBigint, DecodeTemporal, DecodeMembers, Position, IsPair;
    forall tag ensures TagType(control) == Ok(tag) <==> IsControl(control, tag) {
      ControlExactly(control, tag);
    }
    if TagType(control).Ok? {
      PayloadExactly(TagType(control).value, payload, v, depth, env);
    }
    hide TagMeans;
  }

  // Main result: a raw tree decodes to a value exactly when it stands for it.
  lemma {:induction false} DecodesExactly(r: Raw, v: Value, depth: nat, env: Env)
    ensures DecodeRaw(r, depth, env) == Ok(v) <==> Means(r, v, depth, env)
    decreases r, 1
  {
    hide DecodeItems, DecodeMembers, DecodeTagged, MembersMean, IsTagged, NumberValue, N.Accepted;
    Names();
    match r
    case RArray(items) =>
      if v.VArray? {
        ItemsExactly(items, v.items, depth + 1, env);
      }
    case RObject(ms) =>
      if HasTagKey(ms) {
        TaggedExactly(ms, v, depth, env);
      } else if v.VObject? {
        MembersExactly(ms, v.members, depth + 1, env);
      }
    case _ =>
  }
}
