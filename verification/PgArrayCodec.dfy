/**
 encodePgArrayLiteral and parsePgArrayLiteral of src/runtime-parameters.ts, with their
 serializer and element parser, and the round trip through both.
 */
module PgArrayCodec {
  import opened Wrappers
  import opened SqlLex
  import opened PgArray

  // ------------------------------------------------------------------------- values

  // What encodePgArrayLiteralInternal tells apart: `finite` numbers have a text of digits,
  // and anything else has the text that String(value) gives.
  datatype Value =
    | NullValue
    | UndefinedValue
    | ArrayValue(items: seq<Value>)
    | JsonValue(text: string)
    | DateValue
    | TemporalValue(text: string)
    | BytesValue(hex: string)
    | BigintValue(text: string)
    | NumberValue(text: string, finite: bool)
    | BoolValue(b: bool)
    | OtherValue(text: string)

  datatype Refusal = UndefinedRefused | DateRefused | TemporalRefused

  type Serializer = Option<Value -> string>

  // How one value is written: `whole` when nested arrays are elements of the serializer, as
  // encodePgArrayLiteralElements has it.
  function Lower(v: Value, serialize: Serializer, whole: bool): Result<Element, Refusal>
    requires whole ==> serialize.Some?
  {
    match v
    case NullValue => Ok(Null)
    case UndefinedValue => Err(UndefinedRefused)
    case ArrayValue(items) =>
      if !whole then
        var lowered := LowerItems(items, serialize, whole);
        if lowered.Err? then Err(lowered.error) else Ok(Nested(lowered.value))
      else Written(v, serialize)
    case _ => Written(v, serialize)
  }

  function LowerItems(items: seq<Value>, serialize: Serializer, whole: bool): Result<seq<Element>, Refusal>
    requires whole ==> serialize.Some?
  {
    if items == [] then Ok([])
    else
      var first := Lower(items[0], serialize, whole);
      if first.Err? then Err(first.error)
      else
        var rest := LowerItems(items[1..], serialize, whole);
        if rest.Err? then rest else Ok([first.value] + rest.value)
  }

  // A value that is one element.
  function Written(v: Value, serialize: Serializer): Result<Element, Refusal>
    requires !v.NullValue? && !v.UndefinedValue? && (v.ArrayValue? ==> serialize.Some?)
  {
    if serialize.Some? then Ok(Quoted(serialize.value(v)))
    else match v
      case JsonValue(text) => Ok(Quoted(text))
      case DateValue => Err(DateRefused)
      case TemporalValue(_) => Err(TemporalRefused)
      case BytesValue(hex) => Ok(Quoted("\\x" + hex))
      case BigintValue(text) => Ok(Bare(text))
      case NumberValue(text, finite) => Ok(if finite then Bare(text) else Quoted(text))
      case BoolValue(b) => Ok(Bare(if b then "t" else "f"))
      case OtherValue(text) => Ok(Text(text))
  }

  // What encoding gives.
  function EncodeValues(values: seq<Value>, serialize: Serializer, whole: bool): Result<string, Refusal>
    requires whole ==> serialize.Some?
  {
    var items := LowerItems(values, serialize, whole);
    if items.Err? then Err(items.error) else Ok(Encode(items.value))
  }

  // The texts of bigints and finite numbers have no character that needs quotes.
  predicate Numeric(v: Value) {
    match v
    case BigintValue(text) => Plain(text)
    case NumberValue(text, finite) => finite ==> Plain(text)
    case ArrayValue(items) => NumericItems(items)
    case _ => true
  }

  predicate NumericItems(items: seq<Value>) {
    items != [] ==> Numeric(items[0]) && NumericItems(items[1..])
  }

  lemma {:induction false} LoweredIsPlain(v: Value, serialize: Serializer, whole: bool)
    requires Numeric(v) && (whole ==> serialize.Some?)
    ensures Lower(v, serialize, whole).Ok? ==> BareIsPlain(Lower(v, serialize, whole).value)
    decreases v, 0
  {
    match v
    case ArrayValue(items) => LoweredArePlain(items, serialize, whole);
    case BoolValue(b) => assert Plain("t") && Plain("f");
    case _ =>
  }

  lemma {:induction false} LoweredArePlain(items: seq<Value>, serialize: Serializer, whole: bool)
    requires NumericItems(items) && (whole ==> serialize.Some?)
    ensures LowerItems(items, serialize, whole).Ok? ==> BareItems(LowerItems(items, serialize, whole).value)
    decreases items, 1
  {
    if items == [] {
    } else {
      hide Lower, Numeric, BareIsPlain;
      LoweredIsPlain(items[0], serialize, whole);
      LoweredArePlain(items[1..], serialize, whole);
    }
  }

  // ------------------------------------------------------------------ parsed values

  // What parsing gives for elements of type T.
  datatype PgValue<T> = PgNull | Leaf(value: T) | PgArray(items: seq<PgValue<T>>)

  // The parsed texts, each given to the element parser.
  function Typed<T>(v: Element, parse: string -> T): PgValue<T> {
    match v
    case Null => PgNull
    case Text(s) => Leaf(parse(s))
    case Quoted(s) => Leaf(parse(s))
    case Bare(text) => Leaf(parse(text))
    case Nested(items) => PgValue.PgArray(TypedItems(items, parse))
  }

  function TypedItems<T>(items: seq<Element>, parse: string -> T): seq<PgValue<T>> {
    if items == [] then [] else [Typed(items[0], parse)] + TypedItems(items[1..], parse)
  }

  // parsePgArrayLiteral.
  function ParseTyped<T>(input: string, parse: string -> T): Result<seq<PgValue<T>>, ArrayError> {
    var items := Parse(input);
    if items.Err? then Err(items.error) else Ok(TypedItems(items.value, parse))
  }

  // ------------------------------------------------------------------- round trip

  // The values as a tree whose leaves are left alone.
  function Shape(v: Value, whole: bool): PgValue<Value> {
    match v
    case NullValue => PgNull
    case ArrayValue(items) => if whole then Leaf(v) else PgValue.PgArray(ShapeItems(items, whole))
    case _ => Leaf(v)
  }

  function ShapeItems(items: seq<Value>, whole: bool): seq<PgValue<Value>> {
    if items == [] then [] else [Shape(items[0], whole)] + ShapeItems(items[1..], whole)
  }

  // No value is refused, and the element parser inverts the serializer on every leaf.
  predicate Restores(v: Value, serialize: Value -> string, parse: string -> Value, whole: bool) {
    match v
    case NullValue => true
    case UndefinedValue => false
    case ArrayValue(items) =>
      if whole then parse(serialize(v)) == v else RestoresItems(items, serialize, parse, whole)
    case _ => parse(serialize(v)) == v
  }

  predicate RestoresItems(items: seq<Value>, serialize: Value -> string, parse: string -> Value, whole: bool) {
    items != [] ==> Restores(items[0], serialize, parse, whole) && RestoresItems(items[1..], serialize, parse, whole)
  }

  // Main result: with a serializer and an element parser that inverts it, parsing the encoded
  // values gives the values back.
  lemma SerializedRoundTrip(values: seq<Value>, serialize: Value -> string, parse: string -> Value, whole: bool)
    requires RestoresItems(values, serialize, parse, whole)
    ensures EncodeValues(values, Some(serialize), whole).Ok?
    ensures ParseTyped(EncodeValues(values, Some(serialize), whole).value, parse) == Ok(ShapeItems(values, whole))
  {
    hide LowerItems, TypedItems, ShapeItems, RestoresItems, Parse, Encode;
    SerializedItems(values, serialize, parse, whole);
    ArrayRoundTrip(LowerItems(values, Some(serialize), whole).value);
  }

  lemma {:induction false} SerializedItem(v: Value, serialize: Value -> string, parse: string -> Value, whole: bool)
    requires Restores(v, serialize, parse, whole)
    ensures var e := Lower(v, Some(serialize), whole);
            e.Ok? && BareIsPlain(e.value) && Typed(Textual(e.value), parse) == Shape(v, whole)
    decreases v, 0
  {
    if v.ArrayValue? && !whole {
      SerializedItems(v.items, serialize, parse, whole);
    }
  }

  lemma {:induction false} SerializedItems(
    items: seq<Value>, serialize: Value -> string, parse: string -> Value, whole: bool)
    requires RestoresItems(items, serialize, parse, whole)
    ensures var e := LowerItems(items, Some(serialize), whole);
            e.Ok? && BareItems(e.value) && TypedItems(TextualItems(e.value), parse) == ShapeItems(items, whole)
    decreases items, 1
  {
    if items == [] {
    } else {
      hide Lower, BareIsPlain, Typed, Textual, Shape, Restores;
      SerializedItem(items[0], serialize, parse, whole);
      SerializedItems(items[1..], serialize, parse, whole);
      var first, rest := Lower(items[0], Some(serialize), whole).value, LowerItems(items[1..], Some(serialize), whole).value;
      var all := LowerItems(items, Some(serialize), whole).value;
      assert all == [first] + rest && all[1..] == rest;
      assert TextualItems(all) == [Textual(first)] + TextualItems(rest);
      assert TextualItems(all)[1..] == TextualItems(rest);
    }
  }

  // Without a serializer every value that is not refused comes back as its text.
  lemma PlainRoundTrip<T>(values: seq<Value>, parse: string -> T)
    requires NumericItems(values) && EncodeValues(values, None, false).Ok?
    ensures ParseTyped(EncodeValues(values, None, false).value, parse)
         == Ok(TypedItems(LowerItems(values, None, false).value, parse))
  {
    hide LowerItems, TypedItems, NumericItems, Parse, Encode;
    var items := LowerItems(values, None, false).value;
    LoweredArePlain(values, None, false);
    ArrayRoundTrip(items);
    TextualTyped(items, parse);
  }

  lemma {:induction false} TextualTyped<T>(items: seq<Element>, parse: string -> T)
    ensures TypedItems(TextualItems(items), parse) == TypedItems(items, parse)
  {
    if items == [] {
    } else {
      match items[0] {
        case Nested(inner) => TextualTyped(inner, parse);
        case _ =>
      }
      TextualTyped(items[1..], parse);
      assert TextualItems(items)[1..] == TextualItems(items[1..]);
    }
  }

  // ---------------------------------------------------------------------- the loops

  // quoteArrayElement and the branches for values that are one element.
  method WriteOne(v: Value, serialize: Serializer) returns (part: Result<string, Refusal>)
    requires !v.NullValue? && !v.UndefinedValue? && (v.ArrayValue? ==> serialize.Some?)
    ensures var e := Written(v, serialize);
            if e.Ok? then part == Ok(EncodeElement(e.value)) else part == Err(e.error)
  {
    hide Plain, Quote;
    if serialize.Some? {
      return Ok(Quote(serialize.value(v)));
    }
    match v
    case JsonValue(text) => return Ok(Quote(text));
    case DateValue => return Err(DateRefused);
    case TemporalValue(_) => return Err(TemporalRefused);
    case BytesValue(hex) => return Ok(Quote("\\x" + hex));
    case BigintValue(text) => return Ok(text);
    case NumberValue(text, finite) => return Ok(if finite then text else Quote(text));
    case BoolValue(b) => return Ok(if b then "t" else "f");
    case OtherValue(text) => return Ok(if Plain(text) then text else Quote(text));
  }

  // encodePgArrayLiteralInternal: the parts are collected and joined with commas. The first
  // value that is refused ends the loop.
  method EncodeLiteral(values: seq<Value>, serialize: Serializer, whole: bool) returns (r: Result<string, Refusal>)
    requires whole ==> serialize.Some?
    ensures r == EncodeValues(values, serialize, whole)
    decreases values
  {
    hide EncodeItems, EncodeElement, Lower, LowerItems;
    var parts: seq<string> := [];
    ghost var done: seq<Element> := [];
    assert values[0..] == values;
    NothingLowered(values, serialize, whole);
    for i := 0 to |values|
      invariant parts == PartsOf(done)
      invariant LowerItems(values, serialize, whole) == After(done, LowerItems(values[i..], serialize, whole))
    {
      LowerNext(values, i, serialize, whole, done);
      LowerIs(values[i], serialize, whole);
      var part: string;
      if values[i].NullValue? {
        part := "NULL";
        NullIs();
      } else if values[i].UndefinedValue? {
        return Err(UndefinedRefused);
      } else if values[i].ArrayValue? && !whole {
        var nested := EncodeLiteral(values[i].items, serialize, whole);
        if nested.Err? {
          return nested;
        }
        part := nested.value;
        NestedIs(LowerItems(values[i].items, serialize, whole).value);
      } else {
        var one := WriteOne(values[i], serialize);
        if one.Err? {
          return one;
        }
        part := one.value;
      }
      PartsNext(done, Lower(values[i], serialize, whole).value);
      done := done + [Lower(values[i], serialize, whole).value];
      parts := parts + [part];
    }
    AllLowered(values, serialize, whole, done);
    JoinedParts(done);
    return Ok("{" + JoinParts(parts) + "}");
  }

  function PartsOf(items: seq<Element>): seq<string> {
    if items == [] then [] else [EncodeElement(items[0])] + PartsOf(items[1..])
  }

  // parts.join(",")
  function JoinParts(parts: seq<string>): string {
    if parts == [] then [] else parts[0] + if |parts| == 1 then [] else "," + JoinParts(parts[1..])
  }

  function After(done: seq<Element>, rest: Result<seq<Element>, Refusal>): Result<seq<Element>, Refusal> {
    if rest.Err? then rest else Ok(done + rest.value)
  }

  lemma {:induction false} JoinedParts(items: seq<Element>)
    ensures JoinParts(PartsOf(items)) == EncodeItems(items) && |PartsOf(items)| == |items|
  {
    if items == [] {
    } else {
      hide EncodeElement;
      JoinedParts(items[1..]);
      assert PartsOf(items)[1..] == PartsOf(items[1..]);
    }
  }

  lemma {:induction false} PartsNext(items: seq<Element>, e: Element)
    ensures PartsOf(items + [e]) == PartsOf(items) + [EncodeElement(e)]
  {
    hide EncodeElement;
    if items == [] {
      assert [] + [e] == [e];
    } else {
      assert (items + [e])[1..] == items[1..] + [e];
      PartsNext(items[1..], e);
    }
  }

  lemma NothingLowered(values: seq<Value>, serialize: Serializer, whole: bool)
    requires whole ==> serialize.Some?
    ensures After([], LowerItems(values, serialize, whole)) == LowerItems(values, serialize, whole) && PartsOf([]) == []
  {
    hide LowerItems;
    var rest := LowerItems(values, serialize, whole);
    if rest.Ok? {
      assert [] + rest.value == rest.value;
    }
  }

  // One more value of the ones that are left.
  lemma LowerNext(values: seq<Value>, i: nat, serialize: Serializer, whole: bool, done: seq<Element>)
    requires i < |values| && (whole ==> serialize.Some?)
    ensures var first := Lower(values[i], serialize, whole);
            var rest := LowerItems(values[i + 1..], serialize, whole);
            After(done, LowerItems(values[i..], serialize, whole))
            == if first.Err? then Err(first.error) else After(done + [first.value], rest)
  {
    hide Lower;
    assert values[i..][1..] == values[i + 1..];
    var first, rest := Lower(values[i], serialize, whole), LowerItems(values[i + 1..], serialize, whole);
    if first.Ok? && rest.Ok? {
      assert done + ([first.value] + rest.value) == done + [first.value] + rest.value;
    }
  }

  lemma AllLowered(values: seq<Value>, serialize: Serializer, whole: bool, done: seq<Element>)
    requires whole ==> serialize.Some?
    ensures After(done, LowerItems(values[|values|..], serialize, whole)) == Ok(done)
  {
    assert done + [] == done;
  }

  lemma LowerIs(v: Value, serialize: Serializer, whole: bool)
    requires whole ==> serialize.Some?
    ensures v.NullValue? ==> Lower(v, serialize, whole) == Ok(Null)
    ensures v.UndefinedValue? ==> Lower(v, serialize, whole) == Err(UndefinedRefused)
    ensures v.ArrayValue? && !whole ==>
              var items := LowerItems(v.items, serialize, whole);
              Lower(v, serialize, whole) == if items.Err? then Err(items.error) else Ok(Nested(items.value))
    ensures !v.NullValue? && !v.UndefinedValue? && (v.ArrayValue? ==> whole) ==>
              Lower(v, serialize, whole) == Written(v, serialize)
  {
    hide LowerItems, Written;
  }

  lemma NullIs()
    ensures EncodeElement(Null) == "NULL"
  {
  }

  lemma NestedIs(items: seq<Element>)
    ensures EncodeElement(Nested(items)) == Encode(items)
  {
  }

  // parsePgArrayLiteral: closures that share an index.
  class ArrayParser<T> {
    const input: string
    const parse: string -> T
    var index: nat

    ghost predicate Valid()
      reads this
    {
      index <= |input|
    }

    ghost function Left(): string
      requires Valid()
      reads this
    {
      input[index..]
    }

    // The index starts behind the dimensions.
    constructor (input: string, parse: string -> T)
      ensures Valid() && this.input == input && this.parse == parse && Left() == AfterDimensions(input)
    {
      this.input, this.parse := input, parse;
      var dimensions := DimensionsLen(input);
      index := if dimensions.Some? then dimensions.value else 0;
    }

    // parseQuoted, from the opening quote.
    method ReadQuoted() returns (r: Option<string>)
      requires Valid() && Heads(Left(), '"')
      modifies this
      ensures r.None? ==> ParseQuoted(old(Left())[1..]) == None
      ensures r.Some? ==> Valid() && ParseQuoted(old(Left())[1..]) == Some(Parsed(r.value, Left()))
    {
      hide ParseQuoted;
      ghost var body := input[index + 1..];
      assert Left()[1..] == body;
      index := index + 1;
      var out := "";
      PrefixNothing(ParseQuoted(body));
      while index < |input|
        invariant Valid() && ParseQuoted(body) == Prefix(out, ParseQuoted(Left()))
        decreases |input| - index
      {
        ghost var t := Left();
        var character := input[index];
        assert t[1..] == input[index + 1..] && (|t| > 1 ==> t[2..] == input[index + 2..]);
        QuotedStep(t);
        index := index + 1;
        if character == '"' {
          assert out + [] == out;
          return Some(out);
        }
        if character != '\\' {
          PrefixTwice(out, [character], ParseQuoted(Left()));
          out := out + [character];
        } else if index < |input| {
          PrefixTwice(out, [input[index]], ParseQuoted(t[2..]));
          out := out + [input[index]];
          index := index + 1;
        }
      }
      QuotedEnd();
      return None;
    }

    // The outcome of a method is the outcome of the parser on the text that was left, with
    // the texts given to the element parser.
    ghost predicate Agrees(r: Option<PgValue<T>>, spec: Option<Parsed<Element>>)
      reads this
    {
      && (r.None? <==> spec.None?)
      && (r.Some? ==> Valid() && r.value == Typed(spec.value.value, parse) && Left() == spec.value.rest)
    }

    ghost predicate AgreesAll(r: Option<seq<PgValue<T>>>, spec: Option<Parsed<seq<Element>>>)
      reads this
    {
      && (r.None? <==> spec.None?)
      && (r.Some? ==> Valid() && r.value == TypedItems(spec.value.value, parse) && Left() == spec.value.rest)
    }

    // parseUnquoted.
    method ReadBare() returns (v: PgValue<T>)
      requires Valid()
      modifies this
      ensures Valid()
      ensures var raw := old(Left())[..BareLen(old(Left()))];
              v == (if raw == "NULL" then PgNull else Leaf(parse(raw))) && Left() == old(Left())[|raw|..]
    {
      var start := index;
      while index < |input| && input[index] != ',' && input[index] != '}'
        invariant start <= index <= |input|
        invariant index - start + BareLen(Left()) == BareLen(input[start..])
      {
        assert Left()[1..] == input[index + 1..];
        index := index + 1;
      }
      var raw := input[start..index];
      assert raw == input[start..][..index - start] && input[start..][index - start..] == Left();
      return if raw == "NULL" then PgNull else Leaf(parse(raw));
    }

    method ReadElement() returns (r: Option<PgValue<T>>)
      requires Valid() && Left() != [] && Left()[0] != '}'
      modifies this
      ensures Agrees(r, ParseElement(old(Left())))
      decreases |input| - index, 1
    {
      hide ParseItems, ParseQuoted, BareLen;
      if input[index] == '{' {
        var items := ReadArray();
        return if items.None? then None else Some(PgValue.PgArray(items.value));
      }
      if input[index] == '"' {
        var text := ReadQuoted();
        return if text.None? then None else Some(Leaf(parse(text.value)));
      }
      var bare := ReadBare();
      return Some(bare);
    }

    // parseArray, from the opening brace.
    method ReadArray() returns (r: Option<seq<PgValue<T>>>)
      requires Valid() && Heads(Left(), '{')
      modifies this
      ensures AgreesAll(r, ParseItems(old(Left())[1..], []))
      decreases |input| - index, 0
    {
      hide ParseItems, ParseElement, Typed, TypedItems;
      assert Left()[1..] == input[index + 1..];
      index := index + 1;
      ghost var spec := ParseItems(Left(), []);
      var out: seq<PgValue<T>> := [];
      ghost var done: seq<Element> := [];
      TypedNothing(parse);
      while index < |input|
        invariant Valid() && index > old(index) && spec == ParseItems(Left(), done) && out == TypedItems(done, parse)
        decreases |input| - index, if index < |input| && input[index] == '}' then 0 else 1
      {
        ItemsTurn(Left(), done);
        assert Left()[1..] == input[index + 1..];
        if input[index] == '}' {
          index := index + 1;
          return Some(out);
        }
        ghost var element := ParseElement(Left());
        var e := ReadElement();
        if e.None? {
          return None;
        }
        TypedNext(done, element.value.value, parse);
        out, done := out + [e.value], done + [element.value.value];
        if index >= |input| {
          return None;
        }
        assert Left()[1..] == input[index + 1..];
        if input[index] == ',' {
          index := index + 1;
        } else if input[index] != '}' {
          return None;
        }
      }
      NothingLeft(done);
      return None;
    }
  }

  lemma QuotedStep(t: string)
    requires t != []
    ensures t[0] == '"' ==> ParseQuoted(t) == Some(Parsed([], t[1..]))
    ensures t[0] != '"' && t[0] != '\\' ==> ParseQuoted(t) == Prefix([t[0]], ParseQuoted(t[1..]))
    ensures t[0] == '\\' ==> ParseQuoted(t) == if |t| > 1 then Prefix([t[1]], ParseQuoted(t[2..])) else ParseQuoted([])
    ensures t == ['\\'] ==> t[1..] == []
  {
  }

  lemma QuotedEnd()
    ensures ParseQuoted([]) == None
  {
  }

  lemma NothingLeft(done: seq<Element>)
    ensures ParseItems([], done) == None
  {
  }

  // What the loop of parseArray does after an element.
  function AfterElement(r: Option<Parsed<Element>>, done: seq<Element>): Option<Parsed<seq<Element>>> {
    if r.None? || r.value.rest == [] then None
    else if r.value.rest[0] == ',' then ParseItems(r.value.rest[1..], done + [r.value.value])
    else if r.value.rest[0] == '}' then ParseItems(r.value.rest, done + [r.value.value])
    else None
  }

  lemma ItemsTurn(t: string, done: seq<Element>)
    requires t != []
    ensures ParseItems(t, done) ==
            if t[0] == '}' then Some(Parsed(done, t[1..])) else AfterElement(ParseElement(t), done)
  {
    hide ParseElement;
  }

  lemma TypedNothing<T>(parse: string -> T)
    ensures TypedItems([], parse) == []
  {
  }

  lemma {:induction false} TypedNext<T>(items: seq<Element>, e: Element, parse: string -> T)
    ensures TypedItems(items + [e], parse) == TypedItems(items, parse) + [Typed(e, parse)]
  {
    hide Typed;
    if items == [] {
      assert [] + [e] == [e];
    } else {
      assert (items + [e])[1..] == items[1..] + [e];
      TypedNext(items[1..], e, parse);
    }
  }

  // What is left of an array literal behind its dimensions.
  function AfterDimensions(input: string): string {
    input[if DimensionsLen(input).Some? then DimensionsLen(input).value else 0..]
  }

  lemma ParseSplit<T>(input: string, parse: string -> T)
    ensures var t := AfterDimensions(input);
            && (!Heads(t, '{') ==> ParseTyped(input, parse) == Err(Malformed))
            && (Heads(t, '{') ==>
                  var a := ParseItems(t[1..], []);
                  ParseTyped(input, parse)
                  == if a.None? || a.value.rest != [] then Err(Malformed) else Ok(TypedItems(a.value.value, parse)))
  {
    hide ParseItems, DimensionsLen, TypedItems;
  }

  // parsePgArrayLiteral.
  method ParseLiteral<T>(input: string, parse: string -> T) returns (r: Result<seq<PgValue<T>>, ArrayError>)
    ensures r == ParseTyped(input, parse)
  {
    hide ParseItems, DimensionsLen, TypedItems, ParseTyped, AfterDimensions;
    ParseSplit(input, parse);
    var parser := new ArrayParser(input, parse);
    if parser.index >= |input| || input[parser.index] != '{' {
      return Err(Malformed);
    }
    var items := parser.ReadArray();
    if items.None? || parser.index != |input| {
      return Err(Malformed);
    }
    return Ok(items.value);
  }
}
