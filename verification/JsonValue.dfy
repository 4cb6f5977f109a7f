/**
 Extended JSON documents, the raw trees of their text, and how a document is written:
 the string quoting, the tag layer and the resource counts of src/json-encoding.ts.
 */
module JsonValue {
  import opened Wrappers
  import opened JsonText
  import opened JsonSort
  import N = JsonNumber

  // JSON_RESOURCE_LIMITS
  const INPUT_BYTES: nat := 16 * 1024 * 1024
  const STRING_BYTES: nat := 8 * 1024 * 1024
  const DEPTH: nat := 128
  const NODES: nat := 100000
  const NUMBER_BYTES: nat := 16 * 1024 * 1024

  const QUOTE: Unit := 0x22
  const BACKSLASH: Unit := 0x5C
  const SLASH: Unit := 0x2F
  const COLON: Unit := 0x3A
  const COMMA: Unit := 0x2C
  const LBRACE: Unit := 0x7B
  const RBRACE: Unit := 0x7D
  const LBRACKET: Unit := 0x5B
  const RBRACKET: Unit := 0x5D

  function Ascii(s: string): (t: Text)
    ensures |t| == |s|
  {
    seq(|s|, i requires 0 <= i < |s| => s[i] as int)
  }

  const TAG: Text := Ascii("$sqlx")
  const TYPE: Text := Ascii("type")
  const VERSION: Text := Ascii("v")
  const VALUE: Text := Ascii("value")
  const BIGINT: Text := Ascii("bigint")
  const OBJECT: Text := Ascii("object")
  const PROTOCOL: Text := Ascii("1")

  datatype TemporalName =
    Duration | Instant | PlainDate | PlainDateTime | PlainMonthDay | PlainTime | PlainYearMonth | ZonedDateTime

  function TemporalType(n: TemporalName): Text {
    match n
    case Duration => Ascii("temporal.Duration")
    case Instant => Ascii("temporal.Instant")
    case PlainDate => Ascii("temporal.PlainDate")
    case PlainDateTime => Ascii("temporal.PlainDateTime")
    case PlainMonthDay => Ascii("temporal.PlainMonthDay")
    case PlainTime => Ascii("temporal.PlainTime")
    case PlainYearMonth => Ascii("temporal.PlainYearMonth")
    case ZonedDateTime => Ascii("temporal.ZonedDateTime")
  }

  // A raw tree keeps number tokens as they are written.
  datatype Raw =
    | RNull
    | RBool(b: bool)
    | RString(s: Text)
    | RNumber(token: Text)
    | RArray(items: seq<Raw>)
    | RObject(members: Members<Raw>)

  // A document value. A JavaScript number is given by its shortest decimal text, an exact
  // number by its canonical text, a Temporal value by its type and its string form.
  datatype Value =
    | VNull
    | VBool(b: bool)
    | VString(s: Text)
    | VNumber(text: Text)
    | VExact(text: Text)
    | VBigint(n: int)
    | VTemporal(name: TemporalName, payload: Text)
    | VArray(items: seq<Value>)
    | VObject(members: Members<Value>)

  // ------------------------------------------------------------------ strings

  predicate IsHigh(c: Unit) {
    0xD800 <= c <= 0xDBFF
  }

  predicate IsLow(c: Unit) {
    0xDC00 <= c <= 0xDFFF
  }

  // The number of UTF-8 bytes TextEncoder writes; a lone surrogate becomes U+FFFD.
  function Utf8Len(t: Text): nat {
    if t == [] then 0
    else if IsHigh(t[0]) && |t| > 1 && IsLow(t[1]) then 4 + Utf8Len(t[2..])
    else (if t[0] < 0x80 then 1 else if t[0] < 0x800 then 2 else 3) + Utf8Len(t[1..])
  }

  function HexDigit(n: nat): Unit {
    if n < 10 then ZERO + n else 0x57 + n
  }

  function UnicodeEscape(c: Unit): Text {
    var q := c / 0x10;
    [BACKSLASH, 0x75, HexDigit(q / 0x10 / 0x10), HexDigit(q / 0x10 % 0x10), HexDigit(q % 0x10), HexDigit(c % 0x10)]
  }

  // The letter of a two-character escape.
  function ShortEscape(c: Unit): Option<Unit> {
    if c == QUOTE || c == BACKSLASH then Some(c)
    else if c == 0x08 then Some(0x62)
    else if c == 0x09 then Some(0x74)
    else if c == 0x0A then Some(0x6E)
    else if c == 0x0C then Some(0x66)
    else if c == 0x0D then Some(0x72)
    else None
  }

  // A surrogate pair is quoted together, any other unit alone.
  function UnitCount(s: Text): (n: nat)
    requires s != []
    ensures 1 <= n <= |s|
  {
    if IsHigh(s[0]) && |s| > 1 && IsLow(s[1]) then 2 else 1
  }

  // The quoted form of what s starts with: lone surrogates are escaped.
  function UnitText(s: Text): Text
    requires s != []
  {
    if ShortEscape(s[0]).Some? then [BACKSLASH, ShortEscape(s[0]).value]
    else if s[0] < 0x20 then UnicodeEscape(s[0])
    else if UnitCount(s) == 2 then [s[0], s[1]]
    else if IsHigh(s[0]) || IsLow(s[0]) then UnicodeEscape(s[0])
    else [s[0]]
  }

  // JSON.stringify of a string, without the quotes.
  function QuoteBody(s: Text): Text {
    if s == [] then [] else UnitText(s) + QuoteBody(s[UnitCount(s)..])
  }

  function Quote(s: Text): Text {
    [QUOTE] + QuoteBody(s) + [QUOTE]
  }

  predicate PlainUnit(c: Unit) {
    0x20 <= c < 0x80 && c != QUOTE && c != BACKSLASH
  }

  lemma {:induction false} QuotePlain(s: Text)
    requires forall c <- s :: PlainUnit(c)
    ensures QuoteBody(s) == s
  {
    if s == [] {
    } else {
      assert PlainUnit(s[0]);
      QuotePlain(s[1..]);
    }
  }

  // ---------------------------------------------------------------- raw trees

  function PrintItems(items: seq<Raw>): Text {
    if items == [] then []
    else if |items| == 1 then Print(items[0])
    else Print(items[0]) + [COMMA] + PrintItems(items[1..])
  }

  function PrintMembers(ms: Members<Raw>): Text {
    if ms == [] then []
    else
      assert ms[0].value < ms[0];
      Quote(ms[0].key) + [COLON] + Print(ms[0].value)
      + if |ms| == 1 then [] else [COMMA] + PrintMembers(ms[1..])
  }

  function Print(r: Raw): Text {
    match r
    case RNull => Ascii("null")
    case RBool(b) => if b then Ascii("true") else Ascii("false")
    case RString(s) => Quote(s)
    case RNumber(token) => token
    case RArray(items) => [LBRACKET] + PrintItems(items) + [RBRACKET]
    case RObject(ms) => [LBRACE] + PrintMembers(ms) + [RBRACE]
  }

  function ItemNodes(items: seq<Raw>): nat {
    if items == [] then 0 else RawNodes(items[0]) + ItemNodes(items[1..])
  }

  function MemberNodes(ms: Members<Raw>): nat {
    if ms == [] then 0
    else
      assert ms[0].value < ms[0];
      RawNodes(ms[0].value) + MemberNodes(ms[1..])
  }

  function RawNodes(r: Raw): nat {
    match r
    case RArray(items) => 1 + ItemNodes(items)
    case RObject(ms) => 1 + MemberNodes(ms)
    case _ => 1
  }

  function Max(a: nat, b: nat): nat {
    if a < b then b else a
  }

  // One more than the greatest height, 0 when there is nothing.
  function ItemHeight(items: seq<Raw>): nat {
    if items == [] then 0 else Max(1 + RawHeight(items[0]), ItemHeight(items[1..]))
  }

  function MemberHeight(ms: Members<Raw>): nat {
    if ms == [] then 0
    else
      assert ms[0].value < ms[0];
      Max(1 + RawHeight(ms[0].value), MemberHeight(ms[1..]))
  }

  function RawHeight(r: Raw): nat {
    match r
    case RArray(items) => ItemHeight(items)
    case RObject(ms) => MemberHeight(ms)
    case _ => 0
  }

  function NumberBytes(token: Text): nat {
    if N.Accepted(token) then N.CanonicalLength(token) else 0
  }

  function ItemBytes(items: seq<Raw>): nat {
    if items == [] then 0 else RawBytes(items[0]) + ItemBytes(items[1..])
  }

  function MemberBytes(ms: Members<Raw>): nat {
    if ms == [] then 0
    else
      assert ms[0].value < ms[0];
      RawBytes(ms[0].value) + MemberBytes(ms[1..])
  }

  // The canonical number data of a raw tree.
  function RawBytes(r: Raw): nat {
    match r
    case RNumber(token) => NumberBytes(token)
    case RArray(items) => ItemBytes(items)
    case RObject(ms) => MemberBytes(ms)
    case _ => 0
  }

  predicate FitsString(s: Text) {
    Utf8Len(s) <= STRING_BYTES
  }

  ghost predicate ItemsOk(items: seq<Raw>) {
    items != [] ==> RawOk(items[0]) && ItemsOk(items[1..])
  }

  ghost predicate MembersOk(ms: Members<Raw>) {
    ms != [] ==>
      assert ms[0].value < ms[0];
      FitsString(ms[0].key) && RawOk(ms[0].value) && MembersOk(ms[1..])
  }

  // Number tokens are accepted, strings fit, and the keys of an object are distinct.
  ghost predicate RawOk(r: Raw) {
    match r
    case RString(s) => FitsString(s)
    case RNumber(token) => N.Accepted(token)
    case RArray(items) => ItemsOk(items)
    case RObject(ms) => DistinctKeys(ms) && MembersOk(ms)
    case _ => true
  }

  // ---------------------------------------------------------------- tag layer

  predicate HasTagKey<T(==)>(ms: Members<T>) {
    exists i :: 0 <= i < |ms| && ms[i].key == TAG
  }

  function Control(tag: Text): Members<Raw> {
    [Member(TYPE, RString(tag)), Member(VERSION, RNumber(PROTOCOL))]
  }

  function TaggedMembers(tag: Text, payload: Raw): Members<Raw> {
    [Member(TAG, RObject(Control(tag))), Member(VALUE, payload)]
  }

  function Tagged(tag: Text, payload: Raw): Raw {
    RObject(TaggedMembers(tag, payload))
  }

  // The decimal text of a number.
  function NatText(n: nat): Text {
    if n < 10 then [ZERO + n] else NatText(n / 10) + [ZERO + n % 10]
  }

  function BigintText(n: int): Text {
    if n < 0 then [MINUS] + NatText(-n) else NatText(n)
  }

  function RawItems(items: seq<Value>): seq<Raw> {
    if items == [] then [] else [RawOf(items[0])] + RawItems(items[1..])
  }

  function RawMembers(ms: Members<Value>): Members<Raw> {
    if ms == [] then []
    else
      assert ms[0].value < ms[0];
      [Member(ms[0].key, RawOf(ms[0].value))] + RawMembers(ms[1..])
  }

  // The raw tree that stands for a value. An object with a $sqlx key is wrapped in a tag.
  function RawOf(v: Value): Raw {
    match v
    case VNull => RNull
    case VBool(b) => RBool(b)
    case VString(s) => RString(s)
    case VNumber(text) => RNumber(text)
    case VExact(text) => RNumber(text)
    case VBigint(n) => Tagged(BIGINT, RString(BigintText(n)))
    case VTemporal(name, payload) => Tagged(TemporalType(name), RString(payload))
    case VArray(items) => RArray(RawItems(items))
    case VObject(ms) =>
      var body := RObject(SortByKey(RawMembers(ms)));
      if HasTagKey(ms) then Tagged(OBJECT, body) else body
  }

  // ------------------------------------------------------------------ encoder

  function EncodeTag(tag: Text, payload: Text): Text {
    Ascii("{\"$sqlx\":{\"type\":") + Quote(tag) + Ascii(",\"v\":") + PROTOCOL + Ascii("},\"value\":")
    + payload + [RBRACE]
  }

  function JoinMembers(ts: Members<Text>): Text {
    if ts == [] then []
    else Quote(ts[0].key) + [COLON] + ts[0].value + if |ts| == 1 then [] else [COMMA] + JoinMembers(ts[1..])
  }

  function EncodeItems(items: seq<Value>): Text {
    if items == [] then []
    else if |items| == 1 then Encode(items[0])
    else Encode(items[0]) + [COMMA] + EncodeItems(items[1..])
  }

  function EncodeMembers(ms: Members<Value>): Members<Text> {
    if ms == [] then []
    else
      assert ms[0].value < ms[0];
      [Member(ms[0].key, Encode(ms[0].value))] + EncodeMembers(ms[1..])
  }

  // encodeValue: the text of a value.
  function Encode(v: Value): Text {
    match v
    case VNull => Ascii("null")
    case VBool(b) => if b then Ascii("true") else Ascii("false")
    case VString(s) => Quote(s)
    case VNumber(text) => text
    case VExact(text) => text
    case VBigint(n) => EncodeTag(BIGINT, Quote(BigintText(n)))
    case VTemporal(name, payload) => EncodeTag(TemporalType(name), Quote(payload))
    case VArray(items) => [LBRACKET] + EncodeItems(items) + [RBRACKET]
    case VObject(ms) =>
      var body := [LBRACE] + JoinMembers(SortByKey(EncodeMembers(ms))) + [RBRACE];
      if HasTagKey(ms) then EncodeTag(OBJECT, body) else body
  }

  function EncodeItemNodes(items: seq<Value>): nat {
    if items == [] then 0 else EncodeNodes(items[0]) + EncodeItemNodes(items[1..])
  }

  function EncodeMemberNodes(ms: Members<Value>): nat {
    if ms == [] then 0
    else
      assert ms[0].value < ms[0];
      EncodeNodes(ms[0].value) + EncodeMemberNodes(ms[1..])
  }

  // What the encoder adds to its node counter: a tag counts four more.
  function EncodeNodes(v: Value): nat {
    match v
    case VBigint(_) => 5
    case VTemporal(_, _) => 5
    case VArray(items) => 1 + EncodeItemNodes(items)
    case VObject(ms) => (if HasTagKey(ms) then 5 else 1) + EncodeMemberNodes(ms)
    case _ => 1
  }

  function EncodeItemDepth(items: seq<Value>): nat {
    if items == [] then 0 else Max(1 + EncodeDepth(items[0]), EncodeItemDepth(items[1..]))
  }

  function EncodeMemberDepth(ms: Members<Value>, down: nat): nat {
    if ms == [] then 0
    else
      assert ms[0].value < ms[0];
      Max(down + EncodeDepth(ms[0].value), EncodeMemberDepth(ms[1..], down))
  }

  // The greatest depth the encoder asserts, relative to the value's own.
  function EncodeDepth(v: Value): nat {
    match v
    case VBigint(_) => 2
    case VTemporal(_, _) => 2
    case VArray(items) => EncodeItemDepth(items)
    case VObject(ms) => if HasTagKey(ms) then Max(2, EncodeMemberDepth(ms, 2)) else EncodeMemberDepth(ms, 1)
    case _ => 0
  }

  function SnapshotItemBytes(items: seq<Value>): nat {
    if items == [] then 0 else SnapshotBytes(items[0]) + SnapshotItemBytes(items[1..])
  }

  function SnapshotMemberBytes(ms: Members<Value>): nat {
    if ms == [] then 0
    else
      assert ms[0].value < ms[0];
      SnapshotBytes(ms[0].value) + SnapshotMemberBytes(ms[1..])
  }

  // What snapshotValue reserves for canonical number data: the protocol version of a tag
  // counts as one number.
  function SnapshotBytes(v: Value): nat {
    match v
    case VNumber(text) => NumberBytes(text)
    case VExact(text) => |text|
    case VBigint(_) => |PROTOCOL|
    case VTemporal(_, _) => |PROTOCOL|
    case VArray(items) => SnapshotItemBytes(items)
    case VObject(ms) => (if HasTagKey(ms) then |PROTOCOL| else 0) + SnapshotMemberBytes(ms)
    case _ => 0
  }

  // ----------------------------------------------------------------- validity

  ghost predicate ItemsValid(items: seq<Value>) {
    items != [] ==> ValueOk(items[0]) && ItemsValid(items[1..])
  }

  ghost predicate MembersValid(ms: Members<Value>) {
    ms != [] ==>
      assert ms[0].value < ms[0];
      FitsString(ms[0].key) && ValueOk(ms[0].value) && MembersValid(ms[1..])
  }

  // What the snapshot checks of each part of a value.
  ghost predicate ValueOk(v: Value) {
    match v
    case VString(s) => FitsString(s)
    case VNumber(text) => N.Accepted(text)
    case VExact(text) => N.Accepted(text) && N.Canonical(text) == text
    case VTemporal(_, payload) => FitsString(payload)
    case VArray(items) => ItemsValid(items)
    case VObject(ms) => DistinctKeys(ms) && MembersValid(ms)
    case _ => true
  }

  lemma {:induction false} ItemValid(items: seq<Value>, i: nat)
    requires ItemsValid(items) && i < |items|
    ensures ValueOk(items[i])
  {
    if i > 0 {
      ItemValid(items[1..], i - 1);
    }
  }

  lemma {:induction false} MemberValid(ms: Members<Value>, i: nat)
    requires MembersValid(ms) && i < |ms|
    ensures ValueOk(ms[i].value) && FitsString(ms[i].key)
  {
    if i > 0 {
      MemberValid(ms[1..], i - 1);
    }
  }

  predicate BigintFits(n: int) {
    |NatText(if n < 0 then -n else n)| <= N.INTEGER_DIGITS
  }

  predicate ItemBigints(items: seq<Value>) {
    items != [] ==> BigintsFit(items[0]) && ItemBigints(items[1..])
  }

  predicate MemberBigints(ms: Members<Value>) {
    ms != [] ==>
      assert ms[0].value < ms[0];
      BigintsFit(ms[0].value) && MemberBigints(ms[1..])
  }

  // assertJsonBigintDigits holds of every bigint in the value.
  predicate BigintsFit(v: Value) {
    match v
    case VBigint(n) => BigintFits(n)
    case VArray(items) => ItemBigints(items)
    case VObject(ms) => MemberBigints(ms)
    case _ => true
  }

  // The value is accepted by the snapshot and by the encoder.
  ghost predicate Encodable(v: Value) {
    && ValueOk(v) && BigintsFit(v)
    && EncodeNodes(v) <= NODES && EncodeDepth(v) <= DEPTH && SnapshotBytes(v) <= NUMBER_BYTES
    && Utf8Len(Encode(v)) <= INPUT_BYTES
  }
}
