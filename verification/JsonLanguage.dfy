/**
 The language of RFC 8259 as syntax trees, and the proof that the parser accepts exactly its
 texts, within the limits, and gives each its meaning.
 */
module JsonLanguage {
  import opened Wrappers
  import opened JsonText
  import opened JsonSort
  import opened JsonValue
  import opened JsonParse
  import opened JsonGrammar
  import opened JsonRoundTrip
  import N = JsonNumber

  // ------------------------------------------------------------- syntax trees

  // A value as it is written, with the white space in it. `lead` is what follows the opening
  // bracket.
  datatype Syntax =
    | Null
    | True
    | False
    | Str(glyphs: seq<Glyph>)
    | Num(numeral: Numeral)
    | Arr(lead: Text, items: seq<Item>)
    | Obj(lead: Text, fields: seq<Field>)

  // `after` stands behind the value, `next` behind the comma that follows, if one does.
  datatype Item = Item(value: Syntax, after: Text, next: Text)

  datatype Field = Field(key: seq<Glyph>, beforeColon: Text, afterColon: Text, value: Syntax, after: Text, next: Text)

  predicate ItemsWellFormed(items: seq<Item>) {
    items != [] ==>
      assert items[0].value < items[0];
      WellFormed(items[0].value) && Blank(items[0].after) && Blank(items[0].next) && ItemsWellFormed(items[1..])
  }

  predicate FieldsWellFormed(fields: seq<Field>) {
    fields != [] ==>
      assert fields[0].value < fields[0];
      && GlyphsOk(fields[0].key) && Blank(fields[0].beforeColon) && Blank(fields[0].afterColon)
      && WellFormed(fields[0].value) && Blank(fields[0].after) && Blank(fields[0].next) && FieldsWellFormed(fields[1..])
  }

  predicate WellFormed(c: Syntax) {
    match c
    case Str(gs) => GlyphsOk(gs)
    case Num(n) => NumeralOk(n)
    case Arr(lead, items) => Blank(lead) && ItemsWellFormed(items)
    case Obj(lead, fields) => Blank(lead) && FieldsWellFormed(fields)
    case _ => true
  }

  // The text of a tree.
  function WriteItems(items: seq<Item>): Text {
    if items == [] then []
    else
      assert items[0].value < items[0];
      Write(items[0].value) + items[0].after
      + if |items| == 1 then [] else [0x2C] + items[0].next + WriteItems(items[1..])
  }

  function WriteFields(fields: seq<Field>): Text {
    if fields == [] then []
    else
      var f := fields[0];
      assert f.value < f;
      [0x22] + GlyphsText(f.key) + [0x22] + f.beforeColon + [0x3A] + f.afterColon + (Write(f.value) + f.after
      + if |fields| == 1 then [] else [0x2C] + f.next + WriteFields(fields[1..]))
  }

  function Write(c: Syntax): Text {
    match c
    case Null => [0x6E, 0x75, 0x6C, 0x6C]
    case True => [0x74, 0x72, 0x75, 0x65]
    case False => [0x66, 0x61, 0x6C, 0x73, 0x65]
    case Str(gs) => [0x22] + GlyphsText(gs) + [0x22]
    case Num(n) => NumeralText(n)
    case Arr(lead, items) => [0x5B] + lead + WriteItems(items) + [0x5D]
    case Obj(lead, fields) => [0x7B] + lead + WriteFields(fields) + [0x7D]
  }

  // The raw tree that it stands for.
  function MeaningItems(items: seq<Item>): seq<Raw>
    requires ItemsWellFormed(items)
  {
    if items == [] then []
    else
      assert items[0].value < items[0];
      [Meaning(items[0].value)] + MeaningItems(items[1..])
  }

  function MeaningFields(fields: seq<Field>): Members<Raw>
    requires FieldsWellFormed(fields)
  {
    if fields == [] then []
    else
      assert fields[0].value < fields[0];
      [Member(GlyphUnits(fields[0].key), Meaning(fields[0].value))] + MeaningFields(fields[1..])
  }

  function Meaning(c: Syntax): Raw
    requires WellFormed(c)
  {
    match c
    case Null => RNull
    case True => RBool(true)
    case False => RBool(false)
    case Str(gs) => RString(GlyphUnits(gs))
    case Num(n) => RNumber(NumeralText(n))
    case Arr(_, items) => RArray(MeaningItems(items))
    case Obj(_, fields) => RObject(MeaningFields(fields))
  }

  // ------------------------------------------------------------------- leaves

  lemma ParseText(gs: seq<Glyph>, rest: Text)
    requires GlyphsOk(gs) && FitsString(GlyphUnits(gs))
    ensures var t := [0x22] + GlyphsText(gs) + [0x22] + rest;
            StartsWith(t, QUOTE) && ParseString(t) == Ok(Scanned(GlyphUnits(gs), rest))
  {
    hide StringBody, GlyphsText, GlyphUnits, FitsString, GlyphsOk;
    var t := [0x22] + GlyphsText(gs) + [0x22] + rest;
    assert t[1..] == GlyphsText(gs) + ([QUOTE] + rest);
    ScanGlyphs(gs, rest);
  }

  lemma Keywords(c: Syntax)
    requires c.Null? || c.True? || c.False?
    ensures Write(c) == Print(Meaning(c))
  {
  }

  lemma LeafText(gs: seq<Glyph>, rest: Text, b: Budget)
    requires GlyphsOk(gs) && FitsString(GlyphUnits(gs))
    ensures var t := [0x22] + GlyphsText(gs) + [0x22] + rest;
            t[0] == QUOTE && ParseLeaf(t, b) == Ok(Parsed(RString(GlyphUnits(gs)), rest, b))
  {
    ParseText(gs, rest);
    hide ParseString, GlyphsText, GlyphUnits;
  }

  lemma ParseLeafSyntax(c: Syntax, rest: Text, b: Budget, depth: nat)
    requires WellFormed(c) && !c.Arr? && !c.Obj?
    requires RawOk(Meaning(c)) && Within(Meaning(c), b, depth) && Ends(rest)
    ensures ParseValue(Write(c) + rest, b, depth) == Ok(Parsed(Meaning(c), rest, After(Meaning(c), b)))
  {
    hide N.Accepted, N.CanonicalLength, FitsString, ParseValue, ParseLeaf, GlyphsText, GlyphUnits, NumeralText, NumeralOk, Print;
    var b' := b.(nodes := b.nodes + 1);
    match c
    case Str(gs) =>
      LeafText(gs, rest, b');
      ParseValueAtLeaf(Write(c) + rest, b, depth);
    case Num(n) =>
      NumberPrints(NumeralText(n));
      ParsePrintLeaf(Meaning(c), rest, b, depth);
    case Null => ParseKeywordSyntax(c, rest, b, depth);
    case True => ParseKeywordSyntax(c, rest, b, depth);
    case False => ParseKeywordSyntax(c, rest, b, depth);
  }

  lemma ParseKeywordSyntax(c: Syntax, rest: Text, b: Budget, depth: nat)
    requires c.Null? || c.True? || c.False?
    requires Within(Meaning(c), b, depth) && Ends(rest)
    ensures ParseValue(Write(c) + rest, b, depth) == Ok(Parsed(Meaning(c), rest, After(Meaning(c), b)))
  {
    Keywords(c);
    hide ParseValue, Print, Write;
    ParsePrintLeaf(Meaning(c), rest, b, depth);
  }

  lemma NumberPrints(token: Text)
    ensures Print(RNumber(token)) == token
  {
  }

  // ---------------------------------------------------------------- containers

  lemma ArrayAt(t: Text, b: Budget, depth: nat, u: Text)
    requires t != [] && t[0] == LBRACKET && b.nodes + 1 <= NODES && depth <= DEPTH && u == SkipSpace(t[1..])
    ensures ParseValue(t, b, depth)
         == if StartsWith(u, RBRACKET) then Ok(Parsed(RArray([]), u[1..], b.(nodes := b.nodes + 1)))
            else ParseItems(u, b.(nodes := b.nodes + 1), depth, [])
  {
    hide ParseItems, ParseMembers;
  }

  lemma ObjectAt(t: Text, b: Budget, depth: nat, u: Text)
    requires t != [] && t[0] == LBRACE && b.nodes + 1 <= NODES && depth <= DEPTH && u == SkipSpace(t[1..])
    ensures ParseValue(t, b, depth)
         == if StartsWith(u, RBRACE) then Ok(Parsed(RObject([]), u[1..], b.(nodes := b.nodes + 1)))
            else ParseMembers(u, b.(nodes := b.nodes + 1), depth, [])
  {
    hide ParseItems, ParseMembers;
  }

  // One item, the white space behind it, and the rest of the array.
  lemma ItemAt(t: Text, b: Budget, depth: nat, done: seq<Raw>, r: Raw, x: Text, b': Budget, y: Text)
    requires ParseValue(t, b, depth + 1) == Ok(Parsed(r, x, b')) && y == SkipSpace(x)
    ensures StartsWith(y, RBRACKET) ==> ParseItems(t, b, depth, done) == Ok(Parsed(RArray(done + [r]), y[1..], b'))
    ensures StartsWith(y, COMMA) ==>
              ParseItems(t, b, depth, done) == ParseItems(SkipSpace(y[1..]), b', depth, done + [r])
  {
    hide ParseValue, ParseMembers, SkipSpace;
  }

  // One member, the white space in and behind it, and the rest of the object.
  lemma MemberAt(
    t: Text, b: Budget, depth: nat, done: Members<Raw>, key: Scanned, u: Text, w: Text, r: Raw, x: Text, b': Budget, y: Text)
    requires StartsWith(t, QUOTE) && ParseString(t) == Ok(key) && !HasKey(done, key.value)
    requires u == SkipSpace(key.rest) && StartsWith(u, COLON) && w == SkipSpace(u[1..])
    requires ParseValue(w, b, depth + 1) == Ok(Parsed(r, x, b')) && y == SkipSpace(x)
    ensures var more := done + [Member(key.value, r)];
            && (StartsWith(y, RBRACE) ==> ParseMembers(t, b, depth, done) == Ok(Parsed(RObject(more), y[1..], b')))
            && (StartsWith(y, COMMA) ==>
                  ParseMembers(t, b, depth, done) == ParseMembers(SkipSpace(y[1..]), b', depth, more))
  {
    hide ParseValue, ParseItems, ParseString, SkipSpace, HasKey;
  }

  // Written values start with neither white space nor a closing bracket.
  lemma WriteStarts(c: Syntax, rest: Text)
    requires WellFormed(c)
    ensures var t := Write(c) + rest; t != [] && !IsBlank(t[0]) && t[0] != RBRACKET
  {
    if c.Num? {
      NumeralIsToken(c.numeral);
      FirstOfNumber(NumeralText(c.numeral));
    }
    hide N.IsNumber, NumeralText, GlyphsText, WriteItems, WriteFields;
  }

  lemma BlankEnds(blank: Text, t: Text)
    requires Blank(blank) && (StartsWith(t, COMMA) || StartsWith(t, RBRACKET) || StartsWith(t, RBRACE))
    ensures Ends(blank + t) && SkipSpace(blank + t) == t
  {
    SkipBlank(blank, t);
    if blank != [] {
      assert IsBlank(blank[0]);
    } else {
      assert blank + t == t;
    }
  }

  // What follows the value of the first item, and what follows the white space behind it.
  function ItemsRest(items: seq<Item>, rest: Text): Text
    requires items != []
  {
    if |items| == 1 then [RBRACKET] + rest
    else [COMMA] + (items[0].next + (WriteItems(items[1..]) + ([RBRACKET] + rest)))
  }

  lemma WriteItemsSplits(items: seq<Item>, rest: Text)
    requires items != []
    ensures WriteItems(items) + ([RBRACKET] + rest)
         == Write(items[0].value) + (items[0].after + ItemsRest(items, rest))
  {
    var v, a, close := Write(items[0].value), items[0].after, [RBRACKET] + rest;
    if |items| == 1 {
      assert WriteItems(items) == v + a + [];
    } else {
      var next, more := items[0].next, WriteItems(items[1..]);
      assert WriteItems(items) == v + a + ([0x2C] + next + more);
      hide Write, WriteItems;
      FiveParts(v, a, next, more, close);
    }
  }

  lemma FiveParts(v: Text, a: Text, next: Text, more: Text, close: Text)
    ensures v + a + ([0x2C] + next + more) + close == v + (a + ([COMMA] + (next + (more + close))))
  {
  }

  lemma {:induction false} ItemsStartPlain(items: seq<Item>, rest: Text)
    requires items != [] && ItemsWellFormed(items)
    ensures var t := WriteItems(items) + ([RBRACKET] + rest); t != [] && !IsBlank(t[0]) && t[0] != RBRACKET
  {
    WriteItemsSplits(items, rest);
    WriteStarts(items[0].value, items[0].after + ItemsRest(items, rest));
  }

  lemma MeaningItemsTail(items: seq<Item>)
    requires items != [] && ItemsWellFormed(items)
    ensures ItemsWellFormed(items[1..]) && WellFormed(items[0].value) && Blank(items[0].after) && Blank(items[0].next)
    ensures MeaningItems(items) == [Meaning(items[0].value)] + MeaningItems(items[1..])
    ensures MeaningItems(items)[1..] == MeaningItems(items[1..]) && MeaningItems(items)[0] == Meaning(items[0].value)
    ensures |items| == 1 ==> MeaningItems(items) == [Meaning(items[0].value)]
  {
  }

  // Main lemma. A text of the grammar parses to its meaning, leaves what follows, and counts the
  // nodes and the number data of its meaning, whatever white space it holds.
  lemma {:induction false} ParseSyntax(c: Syntax, rest: Text, b: Budget, depth: nat)
    requires WellFormed(c) && RawOk(Meaning(c)) && Within(Meaning(c), b, depth) && Ends(rest)
    ensures ParseValue(Write(c) + rest, b, depth) == Ok(Parsed(Meaning(c), rest, After(Meaning(c), b)))
    decreases c, 0
  {
    hide ParseValue, ParseItems, ParseMembers, Ends, Write, WriteItems, WriteFields, FitsString, N.Accepted, Blank;
    var b' := b.(nodes := b.nodes + 1);
    match c
    case Arr(lead, items) =>
      if items != [] {
        ParseItemsSyntax(items, rest, b', depth, []);
        assert [] + MeaningItems(items) == MeaningItems(items);
      }
      ArraySyntax(lead, items, rest, b, depth, Ok(Parsed(Meaning(c), rest, After(Meaning(c), b))));
    case Obj(lead, fields) =>
      if fields != [] {
        assert [] + MeaningFields(fields) == MeaningFields(fields);
        ParseFieldsSyntax(fields, rest, b', depth, []);
      }
      ObjectSyntax(lead, fields, rest, b, depth, Ok(Parsed(Meaning(c), rest, After(Meaning(c), b))));
    case Null => ParseKeywordSyntax(c, rest, b, depth);
    case True => ParseKeywordSyntax(c, rest, b, depth);
    case False => ParseKeywordSyntax(c, rest, b, depth);
    case Str(_) => ParseLeafSyntax(c, rest, b, depth);
    case Num(_) => ParseLeafSyntax(c, rest, b, depth);
  }

  lemma ArraySyntax(
    lead: Text, items: seq<Item>, rest: Text, b: Budget, depth: nat, result: Result<Parsed<Raw>, Failure>)
    requires b.nodes + 1 <= NODES && depth <= DEPTH && Blank(lead) && ItemsWellFormed(items)
    requires items != [] ==>
               result == ParseItems(WriteItems(items) + ([RBRACKET] + rest), b.(nodes := b.nodes + 1), depth, [])
    requires items == [] ==> result == Ok(Parsed(RArray([]), rest, b.(nodes := b.nodes + 1)))
    ensures ParseValue(Write(Arr(lead, items)) + rest, b, depth) == result
  {
    hide ParseValue, ParseItems, ParseMembers, WriteItems, ItemsWellFormed, Write, Blank;
    var t, u := Write(Arr(lead, items)) + rest, WriteItems(items) + ([RBRACKET] + rest);
    ArrayText(lead, items, rest);
    if items == [] {
      EmptyItems(rest);
    } else {
      ItemsStartPlain(items, rest);
    }
    SkipBlank(lead, u);
    ArrayAt(t, b, depth, u);
  }

  lemma EmptyItems(rest: Text)
    ensures var t := WriteItems([]) + ([RBRACKET] + rest); StartsWith(t, RBRACKET) && t[1..] == rest && !IsBlank(t[0])
    ensures var t := WriteFields([]) + ([RBRACE] + rest); StartsWith(t, RBRACE) && t[1..] == rest && !IsBlank(t[0])
  {
  }

  lemma Joined<T>(done: seq<T>, r: T, more: seq<T>)
    ensures done + [r] + more == done + ([r] + more)
  {
  }

  lemma ArrayText(lead: Text, items: seq<Item>, rest: Text)
    ensures var t := Write(Arr(lead, items)) + rest;
            t != [] && t[0] == LBRACKET && t[1..] == lead + (WriteItems(items) + ([RBRACKET] + rest))
  {
    hide WriteItems;
  }

  lemma ObjectText(lead: Text, fields: seq<Field>, rest: Text)
    ensures var t := Write(Obj(lead, fields)) + rest;
            t != [] && t[0] == LBRACE && t[1..] == lead + (WriteFields(fields) + ([RBRACE] + rest))
  {
    hide WriteFields;
  }

  lemma {:induction false} ParseItemsSyntax(items: seq<Item>, rest: Text, b: Budget, depth: nat, done: seq<Raw>)
    requires items != [] && ItemsWellFormed(items)
    requires ItemsOk(MeaningItems(items)) && ItemsWithin(MeaningItems(items), b, depth)
    ensures ParseItems(WriteItems(items) + ([RBRACKET] + rest), b, depth, done)
         == Ok(Parsed(RArray(done + MeaningItems(items)), rest, AfterItems(MeaningItems(items), b)))
    decreases items, 1
  {
    assert items[0].value < items[0];
    hide ParseValue, ParseItems, ParseMembers, Write, WriteItems, Ends, ItemsOk, ItemsWithin, AfterItems,
      RawOk, Within, After, ItemsRest, SkipSpace, Blank, WellFormed, ItemsWellFormed, Meaning, MeaningItems;
    var c, y := items[0].value, ItemsRest(items, rest);
    var x := items[0].after + y;
    MeaningItemsTail(items);
    var r := Meaning(c);
    ItemsSplit(MeaningItems(items), b, depth);
    WriteItemsSplits(items, rest);
    ItemsRestShape(items, rest);
    BlankEnds(items[0].after, y);
    ParseSyntax(c, x, b, depth + 1);
    ItemAt(Write(c) + x, b, depth, done, r, x, After(r, b), y);
    if |items| > 1 {
      NextItem(items, rest);
      ParseItemsSyntax(items[1..], rest, After(r, b), depth, done + [r]);
      Joined(done, r, MeaningItems(items[1..]));
    }
  }

  lemma ItemsRestShape(items: seq<Item>, rest: Text)
    requires items != []
    ensures var y := ItemsRest(items, rest);
            && (StartsWith(y, COMMA) || StartsWith(y, RBRACKET))
            && (|items| == 1 <==> StartsWith(y, RBRACKET)) && (|items| == 1 ==> y[1..] == rest)
  {
    hide WriteItems;
  }

  lemma NextItem(items: seq<Item>, rest: Text)
    requires |items| > 1 && ItemsWellFormed(items)
    ensures var y := ItemsRest(items, rest);
            StartsWith(y, COMMA) && SkipSpace(y[1..]) == WriteItems(items[1..]) + ([RBRACKET] + rest)
  {
    MeaningItemsTail(items);
    ItemsStartPlain(items[1..], rest);
    var y, u := ItemsRest(items, rest), WriteItems(items[1..]) + ([RBRACKET] + rest);
    hide WriteItems, ItemsWellFormed, Blank;
    assert y[1..] == items[0].next + u;
    SkipBlank(items[0].next, u);
  }

  function FieldsRest(fields: seq<Field>, rest: Text): Text
    requires fields != []
  {
    if |fields| == 1 then [RBRACE] + rest
    else [COMMA] + (fields[0].next + (WriteFields(fields[1..]) + ([RBRACE] + rest)))
  }

  // What follows the key of the first field.
  function AfterKey(f: Field, x: Text): Text {
    f.beforeColon + ([COLON] + (f.afterColon + (Write(f.value) + x)))
  }

  function KeyText(f: Field): Text {
    [0x22] + GlyphsText(f.key) + [0x22]
  }

  lemma WriteFieldsSplits(fields: seq<Field>, rest: Text)
    requires fields != []
    ensures WriteFields(fields) + ([RBRACE] + rest)
         == KeyText(fields[0]) + AfterKey(fields[0], fields[0].after + FieldsRest(fields, rest))
  {
    var f, close := fields[0], [RBRACE] + rest;
    var head := KeyText(f) + f.beforeColon + [0x3A] + f.afterColon;
    var tail := if |fields| == 1 then [] else [0x2C] + f.next + WriteFields(fields[1..]);
    assert WriteFields(fields) == head + (Write(f.value) + f.after + tail);
    hide Write, WriteFields, KeyText;
    if |fields| > 1 {
      FiveParts(Write(f.value), f.after, f.next, WriteFields(fields[1..]), close);
    }
    FieldParts(KeyText(f), f.beforeColon, f.afterColon, Write(f.value) + f.after + tail, close);
  }

  lemma FieldParts(key: Text, before: Text, behind: Text, v: Text, close: Text)
    ensures key + before + [0x3A] + behind + v + close == key + (before + ([COLON] + (behind + (v + close))))
  {
  }

  lemma MeaningFieldsTail(fields: seq<Field>)
    requires fields != [] && FieldsWellFormed(fields)
    ensures var f := fields[0];
            && FieldsWellFormed(fields[1..]) && WellFormed(f.value) && GlyphsOk(f.key)
            && Blank(f.beforeColon) && Blank(f.afterColon) && Blank(f.after) && Blank(f.next)
            && MeaningFields(fields) == [Member(GlyphUnits(f.key), Meaning(f.value))] + MeaningFields(fields[1..])
            && MeaningFields(fields)[1..] == MeaningFields(fields[1..])
            && MeaningFields(fields)[0] == Member(GlyphUnits(f.key), Meaning(f.value))
            && (|fields| == 1 ==> MeaningFields(fields) == [Member(GlyphUnits(f.key), Meaning(f.value))])
  {
  }

  lemma FieldsStartPlain(fields: seq<Field>, rest: Text)
    requires fields != []
    ensures var t := WriteFields(fields) + ([RBRACE] + rest); t != [] && t[0] == QUOTE
  {
    hide Write;
  }

  lemma ObjectSyntax(
    lead: Text, fields: seq<Field>, rest: Text, b: Budget, depth: nat, result: Result<Parsed<Raw>, Failure>)
    requires b.nodes + 1 <= NODES && depth <= DEPTH && Blank(lead)
    requires fields != [] ==>
               result == ParseMembers(WriteFields(fields) + ([RBRACE] + rest), b.(nodes := b.nodes + 1), depth, [])
    requires fields == [] ==> result == Ok(Parsed(RObject([]), rest, b.(nodes := b.nodes + 1)))
    ensures ParseValue(Write(Obj(lead, fields)) + rest, b, depth) == result
  {
    hide ParseValue, ParseItems, ParseMembers, WriteFields, Write, Blank;
    var t, u := Write(Obj(lead, fields)) + rest, WriteFields(fields) + ([RBRACE] + rest);
    ObjectText(lead, fields, rest);
    if fields == [] {
      EmptyItems(rest);
    } else {
      FieldsStartPlain(fields, rest);
    }
    SkipBlank(lead, u);
    ObjectAt(t, b, depth, u);
  }

  lemma FieldsRestShape(fields: seq<Field>, rest: Text)
    requires fields != []
    ensures var y := FieldsRest(fields, rest);
            && (StartsWith(y, COMMA) || StartsWith(y, RBRACE))
            && (|fields| == 1 <==> StartsWith(y, RBRACE)) && (|fields| == 1 ==> y[1..] == rest)
  {
    hide WriteFields;
  }

  lemma NextField(fields: seq<Field>, rest: Text)
    requires |fields| > 1 && FieldsWellFormed(fields)
    ensures var y := FieldsRest(fields, rest);
            StartsWith(y, COMMA) && SkipSpace(y[1..]) == WriteFields(fields[1..]) + ([RBRACE] + rest)
  {
    MeaningFieldsTail(fields);
    FieldsStartPlain(fields[1..], rest);
    var y, u := FieldsRest(fields, rest), WriteFields(fields[1..]) + ([RBRACE] + rest);
    hide WriteFields, FieldsWellFormed, Blank;
    assert y[1..] == fields[0].next + u;
    SkipBlank(fields[0].next, u);
  }

  // Between the key of a field and its value.
  lemma KeyToValue(f: Field, x: Text)
    requires Blank(f.beforeColon) && Blank(f.afterColon) && WellFormed(f.value)
    ensures var u := SkipSpace(AfterKey(f, x));
            StartsWith(u, COLON) && SkipSpace(u[1..]) == Write(f.value) + x
  {
    hide Write, Blank, WellFormed;
    WriteStarts(f.value, x);
    var w := Write(f.value) + x;
    SkipBlank(f.beforeColon, [COLON] + (f.afterColon + w));
    assert ([COLON] + (f.afterColon + w))[1..] == f.afterColon + w;
    SkipBlank(f.afterColon, w);
  }

  lemma {:induction false} ParseFieldsSyntax(fields: seq<Field>, rest: Text, b: Budget, depth: nat, done: Members<Raw>)
    requires fields != [] && FieldsWellFormed(fields)
    requires var ms := MeaningFields(fields);
             MembersOk(ms) && DistinctKeys(done + ms) && MembersWithin(ms, b, depth)
    ensures ParseMembers(WriteFields(fields) + ([RBRACE] + rest), b, depth, done)
         == Ok(Parsed(RObject(done + MeaningFields(fields)), rest, AfterMembers(MeaningFields(fields), b)))
    decreases fields, 1
  {
    assert fields[0].value < fields[0];
    hide ParseValue, ParseItems, ParseMembers, Write, WriteFields, Ends, MembersOk, MembersWithin, AfterMembers, RawOk, Within,
      After, FieldsRest, SkipSpace, Blank, WellFormed, FieldsWellFormed, Meaning, MeaningFields, HasKey, DistinctKeys,
      AfterKey, GlyphsText, GlyphUnits, GlyphsOk, FitsString, ParseString;
    var f, y := fields[0], FieldsRest(fields, rest);
    var x := f.after + y;
    var ms := MeaningFields(fields);
    MeaningFieldsTail(fields);
    var key, r := GlyphUnits(f.key), Meaning(f.value);
    MembersSplit(ms, b, depth);
    FreshKey(done, ms);
    WriteFieldsSplits(fields, rest);
    FieldsRestShape(fields, rest);
    BlankEnds(f.after, y);
    ParseSyntax(f.value, x, b, depth + 1);
    ParseText(f.key, AfterKey(f, x));
    KeyToValue(f, x);
    var u := SkipSpace(AfterKey(f, x));
    MemberAt(KeyText(f) + AfterKey(f, x), b, depth, done, Scanned(key, AfterKey(f, x)), u, Write(f.value) + x, r, x,
             After(r, b), y);
    if |fields| > 1 {
      NextField(fields, rest);
      Joined(done, Member(key, r), MeaningFields(fields[1..]));
      ParseFieldsSyntax(fields[1..], rest, After(r, b), depth, done + [Member(key, r)]);
    }
  }

  // ---------------------------------------------------------- nothing else parses

  lemma ItemsWritten(c: Syntax, after: Text, next: Text, more: seq<Item>, rest: Text)
    requires WellFormed(c) && Blank(after) && Blank(next) && ItemsWellFormed(more)
    ensures var items := [Item(c, after, next)] + more;
            && ItemsWellFormed(items) && MeaningItems(items) == [Meaning(c)] + MeaningItems(more)
            && WriteItems(items) + ([RBRACKET] + rest)
               == Write(c) + (after + if more == [] then [RBRACKET] + rest
                                      else [COMMA] + (next + (WriteItems(more) + ([RBRACKET] + rest))))
  {
    var items := [Item(c, after, next)] + more;
    assert items[1..] == more;
    WriteItemsSplits(items, rest);
    hide Write, WriteItems, Blank;
  }

  lemma FieldsWritten(f: Field, more: seq<Field>, rest: Text)
    requires GlyphsOk(f.key) && Blank(f.beforeColon) && Blank(f.afterColon)
    requires WellFormed(f.value) && Blank(f.after) && Blank(f.next) && FieldsWellFormed(more)
    ensures var fields := [f] + more;
            && FieldsWellFormed(fields)
            && MeaningFields(fields) == [Member(GlyphUnits(f.key), Meaning(f.value))] + MeaningFields(more)
            && WriteFields(fields) + ([RBRACE] + rest)
               == KeyText(f) + AfterKey(f, f.after + if more == [] then [RBRACE] + rest
                                                    else [COMMA] + (f.next + (WriteFields(more) + ([RBRACE] + rest))))
  {
    var fields := [f] + more;
    assert fields[1..] == more;
    WriteFieldsSplits(fields, rest);
    hide Write, WriteFields, Blank, GlyphsOk, GlyphUnits, KeyText, AfterKey;
  }

  lemma {:induction false} ItemsAreSyntax(t: Text, b: Budget, depth: nat, done: seq<Raw>) returns (items: seq<Item>)
    requires ParseItems(t, b, depth, done).Ok?
    ensures var p := ParseItems(t, b, depth, done).value;
            && items != [] && ItemsWellFormed(items) && p.value == RArray(done + MeaningItems(items))
            && t == WriteItems(items) + ([RBRACKET] + p.rest)
    decreases |t|, 1
  {
    hide ParseValue, ParseMembers, SkipSpace, Write, WriteItems, Meaning, MeaningItems, WellFormed, ItemsWellFormed, Blank;
    var v := ParseValue(t, b, depth + 1).value;
    var c := ValueIsSyntax(t, b, depth + 1);
    var y := SkipSpace(v.rest);
    var after := SkippedIsBlank(v.rest);
    if StartsWith(y, RBRACKET) {
      NoneWellFormed();
      items := [Item(c, after, [])] + [];
      ItemsWritten(c, after, [], [], y[1..]);
      assert y == [RBRACKET] + y[1..];
      assert [v.value] + [] == [v.value];
    } else {
      var next := SkippedIsBlank(y[1..]);
      var more := ItemsAreSyntax(SkipSpace(y[1..]), v.budget, depth, done + [v.value]);
      items := [Item(c, after, next)] + more;
      ItemsWritten(c, after, next, more, ParseItems(t, b, depth, done).value.rest);
      assert y == [COMMA] + y[1..];
      Joined(done, v.value, MeaningItems(more));
    }
  }

  lemma NoneWellFormed()
    ensures ItemsWellFormed([]) && MeaningItems([]) == [] && FieldsWellFormed([]) && MeaningFields([]) == [] && Blank([])
  {
  }

  lemma {:induction false} FieldsAreSyntax(t: Text, b: Budget, depth: nat, done: Members<Raw>) returns (fields: seq<Field>)
    requires ParseMembers(t, b, depth, done).Ok?
    ensures var p := ParseMembers(t, b, depth, done).value;
            && fields != [] && FieldsWellFormed(fields) && p.value == RObject(done + MeaningFields(fields))
            && t == WriteFields(fields) + ([RBRACE] + p.rest)
    decreases |t|, 1
  {
    hide ParseValue, ParseItems, SkipSpace, Write, WriteFields, Meaning, MeaningFields, WellFormed, FieldsWellFormed, Blank,
      GlyphsText, GlyphUnits, GlyphsOk, HasKey, ParseString;
    var key := ParseString(t).value;
    var gs := KeyIsGlyphs(t);
    var u := SkipSpace(key.rest);
    var before := SkippedIsBlank(key.rest);
    var w := SkipSpace(u[1..]);
    var behind := SkippedIsBlank(u[1..]);
    var v := ParseValue(w, b, depth + 1).value;
    var c := ValueIsSyntax(w, b, depth + 1);
    var y := SkipSpace(v.rest);
    var after := SkippedIsBlank(v.rest);
    assert u == [COLON] + u[1..];
    var m := Member(key.value, v.value);
    if StartsWith(y, RBRACE) {
      NoneWellFormed();
      var f := Field(gs, before, behind, c, after, []);
      fields := [f] + [];
      FieldsWritten(f, [], y[1..]);
      assert y == [RBRACE] + y[1..];
      assert [m] + [] == [m];
    } else {
      var next := SkippedIsBlank(y[1..]);
      var more := FieldsAreSyntax(SkipSpace(y[1..]), v.budget, depth, done + [m]);
      var f := Field(gs, before, behind, c, after, next);
      fields := [f] + more;
      FieldsWritten(f, more, ParseMembers(t, b, depth, done).value.rest);
      assert y == [COMMA] + y[1..];
      Joined(done, m, MeaningFields(more));
    }
  }

  lemma KeyIsGlyphs(t: Text) returns (gs: seq<Glyph>)
    requires StartsWith(t, QUOTE) && ParseString(t).Ok?
    ensures GlyphsOk(gs) && ParseString(t).value.value == GlyphUnits(gs)
    ensures t == [0x22] + GlyphsText(gs) + [0x22] + ParseString(t).value.rest
  {
    gs := ScannedIsGlyphs(t[1..]);
    hide StringBody, GlyphsText, GlyphUnits;
    assert t == [t[0]] + t[1..];
  }

  lemma NumberIsSyntax(t: Text, b: Budget) returns (n: Numeral)
    requires ParseNumber(t, b).Ok?
    ensures var p := ParseNumber(t, b).value;
            NumeralOk(n) && p.value == RNumber(NumeralText(n)) && t == NumeralText(n) + p.rest
  {
    var len := N.NumberLen(t).value;
    assert N.IsNumber(t[..len]);
    n := TokenIsNumeral(t[..len]);
  }

  lemma LeafIsSyntax(t: Text, b: Budget) returns (c: Syntax)
    requires t != [] && ParseLeaf(t, b).Ok?
    ensures var p := ParseLeaf(t, b).value; WellFormed(c) && p.value == Meaning(c) && t == Write(c) + p.rest
  {
    hide ParseString, ParseNumber, NumeralText, NumeralOk, GlyphsText, GlyphsOk, GlyphUnits;
    if t[0] == QUOTE {
      var gs := KeyIsGlyphs(t);
      c := Str(gs);
    } else if t[0] == 0x74 {
      c := True;
      KeywordText(t, Write(c));
    } else if t[0] == 0x66 {
      c := False;
      KeywordText(t, Write(c));
    } else if t[0] == 0x6E {
      c := Null;
      KeywordText(t, Write(c));
    } else {
      var n := NumberIsSyntax(t, b);
      c := Num(n);
    }
  }

  lemma KeywordText(t: Text, keyword: Text)
    ensures keyword <= t ==> t == keyword + t[|keyword|..]
  {
  }

  lemma {:induction false} ValueIsSyntax(t: Text, b: Budget, depth: nat) returns (c: Syntax)
    requires ParseValue(t, b, depth).Ok?
    ensures var p := ParseValue(t, b, depth).value;
            WellFormed(c) && p.value == Meaning(c) && t == Write(c) + p.rest
    decreases |t|, 0
  {
    hide ParseItems, ParseMembers, ParseLeaf, SkipSpace, WriteItems, WriteFields, MeaningItems, MeaningFields, ItemsWellFormed,
      FieldsWellFormed, Blank, ParseString, ParseNumber, ParseKeyword;
    var b' := b.(nodes := b.nodes + 1);
    if t[0] == LBRACKET {
      var u := SkipSpace(t[1..]);
      var lead := SkippedIsBlank(t[1..]);
      ArrayAt(t, b, depth, u);
      if StartsWith(u, RBRACKET) {
        NoneWellFormed();
        EmptyWritten(t, lead, u);
        c := Arr(lead, []);
      } else {
        var items := ItemsAreSyntax(u, b', depth, []);
        c := Arr(lead, items);
        assert [] + MeaningItems(items) == MeaningItems(items);
        ArrayText(lead, items, ParseItems(u, b', depth, []).value.rest);
        SameText(t, Write(c) + ParseItems(u, b', depth, []).value.rest);
      }
    } else if t[0] == LBRACE {
      var u := SkipSpace(t[1..]);
      var lead := SkippedIsBlank(t[1..]);
      ObjectAt(t, b, depth, u);
      if StartsWith(u, RBRACE) {
        NoneWellFormed();
        EmptyWritten(t, lead, u);
        c := Obj(lead, []);
      } else {
        var fields := FieldsAreSyntax(u, b', depth, []);
        c := Obj(lead, fields);
        assert [] + MeaningFields(fields) == MeaningFields(fields);
        ObjectText(lead, fields, ParseMembers(u, b', depth, []).value.rest);
        SameText(t, Write(c) + ParseMembers(u, b', depth, []).value.rest);
      }
    } else {
      ParseValueAtLeaf(t, b, depth);
      c := LeafIsSyntax(t, b');
    }
  }

  lemma SameText(t: Text, u: Text)
    requires t != [] && u != [] && t[0] == u[0] && t[1..] == u[1..]
    ensures t == u
  {
    assert t == [t[0]] + t[1..];
    assert u == [u[0]] + u[1..];
  }

  lemma EmptyWritten(t: Text, lead: Text, u: Text)
    requires t != [] && t[1..] == lead + u
    ensures t[0] == LBRACKET && StartsWith(u, RBRACKET) ==> t == Write(Arr(lead, [])) + u[1..]
    ensures t[0] == LBRACE && StartsWith(u, RBRACE) ==> t == Write(Obj(lead, [])) + u[1..]
  {
    assert t == [t[0]] + t[1..];
    if u != [] {
      assert u == [u[0]] + u[1..];
    }
  }

  // ------------------------------------------------------------------ documents

  predicate IsWritten(t: Text, lead: Text, c: Syntax, tail: Text) {
    WellFormed(c) && Blank(lead) && Blank(tail) && t == lead + (Write(c) + tail)
  }

  // The text is one of the grammar, and the tree is its meaning.
  ghost predicate Denotes(t: Text, r: Raw) {
    exists lead, c, tail :: IsWritten(t, lead, c, tail) && Meaning(c) == r
  }

  // Main result: the parser accepts exactly the texts of RFC 8259 whose size, keys, strings,
  // numbers, nodes and depth are within the limits, and gives each its meaning.
  lemma ParsesExactly(t: Text, r: Raw)
    ensures ParseDocument(t) == Ok(r)
       <==> Denotes(t, r) && Utf8Len(t) <= INPUT_BYTES && RawOk(r) && Within(r, Budget(0, 0), 0)
  {
    hide ParseValue, SkipSpace, Blank, Write, Meaning, WellFormed, RawOk, Within, Utf8Len, After, Sound;
    if ParseDocument(t) == Ok(r) {
      AcceptedDenotes(t, r);
    }
    if Denotes(t, r) && Utf8Len(t) <= INPUT_BYTES && RawOk(r) && Within(r, Budget(0, 0), 0) {
      var lead, c, tail :| IsWritten(t, lead, c, tail) && Meaning(c) == r;
      WrittenParses(t, lead, c, tail);
    }
  }

  lemma WrittenParses(t: Text, lead: Text, c: Syntax, tail: Text)
    requires IsWritten(t, lead, c, tail) && Utf8Len(t) <= INPUT_BYTES
    requires RawOk(Meaning(c)) && Within(Meaning(c), Budget(0, 0), 0)
    ensures ParseDocument(t) == Ok(Meaning(c))
  {
    hide ParseValue, SkipSpace, Blank, Write, Meaning, WellFormed, RawOk, Within, Utf8Len, After, Ends;
    WriteStarts(c, tail);
    SkipBlank(lead, Write(c) + tail);
    TailEnds(tail);
    ParseSyntax(c, tail, Budget(0, 0), 0);
  }

  lemma TailEnds(tail: Text)
    requires Blank(tail)
    ensures Ends(tail) && SkipSpace(tail) == []
  {
    SkipBlank(tail, []);
    assert tail + [] == tail;
    if tail != [] {
      assert IsBlank(tail[0]);
    }
  }

  lemma AcceptedDenotes(t: Text, r: Raw)
    requires ParseDocument(t) == Ok(r)
    ensures Denotes(t, r) && Utf8Len(t) <= INPUT_BYTES && RawOk(r) && Within(r, Budget(0, 0), 0)
  {
    hide ParseValue, SkipSpace, Blank, Write, Meaning, WellFormed, RawOk, Within, Utf8Len, After;
    var u := SkipSpace(t);
    var lead := SkippedIsBlank(t);
    var c := ValueIsSyntax(u, Budget(0, 0), 0);
    var tail := SkippedIsBlank(ParseValue(u, Budget(0, 0), 0).value.rest);
    assert tail + [] == tail;
    assert IsWritten(t, lead, c, tail);
    TextIsSound(u, Budget(0, 0), 0);
  }
}
