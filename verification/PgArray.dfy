/**
 PostgreSQL array literals: the encoder and parser of src/runtime-parameters.ts, and the
 proof that parsing inverts encoding. The format is section 8.15.6 of the PostgreSQL
 documentation.
 */
module PgArray {
  import opened Wrappers
  import opened SqlLex

  datatype ArrayError = Malformed

  // What is written: a text, with quotes where it needs them or always; something like a
  // number, without quotes; or a nested array.
  datatype Element = Null | Text(s: string) | Quoted(s: string) | Bare(text: string) | Nested(items: seq<Element>)

  // ----------------------------------------------------------------------- quoting

  // String.replace of every occurrence of a character.
  function ReplaceAll(s: string, c: char, text: string): string {
    if s == [] then [] else (if s[0] == c then text else [s[0]]) + ReplaceAll(s[1..], c, text)
  }

  // quoteArrayElement, without the quotes.
  function Escape(s: string): string {
    ReplaceAll(ReplaceAll(s, '\\', "\\\\"), '"', "\\\"")
  }

  function Quote(s: string): string {
    "\"" + Escape(s) + "\""
  }

  // What one character becomes.
  function Escaped(c: char): string {
    if c == '\\' then "\\\\" else if c == '"' then "\\\"" else [c]
  }

  lemma {:induction false} ReplaceAppend(a: string, b: string, c: char, text: string)
    ensures ReplaceAll(a + b, c, text) == ReplaceAll(a, c, text) + ReplaceAll(b, c, text)
  {
    if a == [] {
      assert a + b == b;
    } else {
      assert (a + b)[1..] == a[1..] + b;
      ReplaceAppend(a[1..], b, c, text);
    }
  }

  // The two replacements act on each character by itself.
  lemma EscapeStep(s: string)
    requires s != []
    ensures Escape(s) == Escaped(s[0]) + Escape(s[1..])
  {
    var first := if s[0] == '\\' then "\\\\" else [s[0]];
    assert ReplaceAll(s, '\\', "\\\\") == first + ReplaceAll(s[1..], '\\', "\\\\");
    ReplaceAppend(first, ReplaceAll(s[1..], '\\', "\\\\"), '"', "\\\"");
    assert ReplaceAll(first, '"', "\\\"") == Escaped(s[0]) by {
      assert first[1..] == if s[0] == '\\' then "\\" else "";
    }
  }

  // ---------------------------------------------------------------------- encoder

  function Lower(c: char): char {
    if 'A' <= c <= 'Z' then (c as int + 32) as char else c
  }

  predicate IsNullWord(s: string) {
    |s| == 4 && Lower(s[0]) == 'n' && Lower(s[1]) == 'u' && Lower(s[2]) == 'l' && Lower(s[3]) == 'l'
  }

  predicate NeedsQuote(c: char) {
    c == '\\' || c == '"' || c == '{' || c == '}' || c == ',' || IsSpace(c)
  }

  // A text that can be written as it is.
  predicate Plain(s: string) {
    s != [] && (forall k :: 0 <= k < |s| ==> !NeedsQuote(s[k])) && !IsNullWord(s)
  }

  function EncodeElement(v: Element): string {
    match v
    case Null => "NULL"
    case Text(s) => if Plain(s) then s else Quote(s)
    case Quoted(s) => Quote(s)
    case Bare(text) => text
    case Nested(items) => "{" + EncodeItems(items) + "}"
  }

  function EncodeItems(items: seq<Element>): string {
    if items == [] then []
    else EncodeElement(items[0]) + if |items| == 1 then [] else "," + EncodeItems(items[1..])
  }

  // The elements with commas between them, in braces.
  function Encode(items: seq<Element>): string {
    "{" + EncodeItems(items) + "}"
  }

  // ----------------------------------------------------------------------- parser

  datatype Parsed<+T> = Parsed(value: T, rest: string)

  // The closure parseQuoted, after the opening quote.
  function ParseQuoted(t: string): (r: Option<Parsed<string>>)
    ensures r.Some? ==> |r.value.rest| < |t|
    decreases |t|
  {
    if t == [] then None
    else if t[0] == '"' then Some(Parsed([], t[1..]))
    else if t[0] == '\\' then
      if |t| == 1 then ParseQuoted([]) else Prefix([t[1]], ParseQuoted(t[2..]))
    else Prefix([t[0]], ParseQuoted(t[1..]))
  }

  function Prefix(a: string, r: Option<Parsed<string>>): Option<Parsed<string>> {
    if r.None? then None else Some(Parsed(a + r.value.value, r.value.rest))
  }

  lemma PrefixNothing(r: Option<Parsed<string>>)
    ensures Prefix([], r) == r
  {
    if r.Some? {
      assert [] + r.value.value == r.value.value;
    }
  }

  lemma PrefixTwice(a: string, b: string, r: Option<Parsed<string>>)
    ensures Prefix(a, Prefix(b, r)) == Prefix(a + b, r)
  {
    if r.Some? {
      assert a + (b + r.value.value) == a + b + r.value.value;
    }
  }

  // How far an unquoted element reaches.
  function BareLen(t: string): (n: nat)
    ensures n <= |t|
  {
    if t == [] || t[0] == ',' || t[0] == '}' then 0 else 1 + BareLen(t[1..])
  }

  function ParseElement(t: string): (r: Option<Parsed<Element>>)
    requires t != [] && t[0] != '}'
    ensures r.Some? ==> |r.value.rest| <= |t| && (|r.value.rest| == |t| ==> t[0] == ',')
    decreases |t|, 0
  {
    if t[0] == '{' then
      var a := ParseItems(t[1..], []);
      if a.None? then None else Some(Parsed(Nested(a.value.value), a.value.rest))
    else if t[0] == '"' then
      var q := ParseQuoted(t[1..]);
      if q.None? then None else Some(Parsed(Text(q.value.value), q.value.rest))
    else
      var raw := t[..BareLen(t)];
      Some(Parsed(if raw == "NULL" then Null else Text(raw), t[BareLen(t)..]))
  }

  // The closure parseArray, after the opening brace, with the items read so far.
  function ParseItems(t: string, done: seq<Element>): (r: Option<Parsed<seq<Element>>>)
    ensures r.Some? ==> |r.value.rest| < |t|
    decreases |t|, 1
  {
    if t == [] then None
    else if t[0] == '}' then Some(Parsed(done, t[1..]))
    else
      var e := ParseElement(t);
      if e.None? then None
      else
        var x := e.value.rest;
        if x == [] then None
        else if x[0] == ',' then ParseItems(x[1..], done + [e.value.value])
        else if x[0] == '}' then ParseItems(x, done + [e.value.value])
        else None
  }

  function SignLen(t: string): (n: nat)
    ensures n <= |t|
  {
    if Heads(t, '-') then 1 else 0
  }

  function DigitRun(t: string): (n: nat)
    ensures n <= |t|
  {
    if t != [] && IsDigit(t[0]) then 1 + DigitRun(t[1..]) else 0
  }

  // An optionally negative number at the start.
  function NumberRun(t: string): (r: Option<nat>)
    ensures r.Some? ==> 0 < r.value <= |t|
  {
    var d := DigitRun(t[SignLen(t)..]);
    if d == 0 then None else Some(SignLen(t) + d)
  }

  // One pair of bounds in brackets.
  function BoundsLen(t: string): (r: Option<nat>)
    ensures r.Some? ==> 0 < r.value <= |t|
  {
    if !Heads(t, '[') then None
    else
      var lower := NumberRun(t[1..]);
      if lower.None? || !Heads(t[1 + lower.value..], ':') then None
      else
        var upper := NumberRun(t[2 + lower.value..]);
        if upper.None? || !Heads(t[2 + lower.value + upper.value..], ']') then None
        else Some(3 + lower.value + upper.value)
  }

  // Bounds of one or more dimensions, up to the equals sign.
  function DimensionsLen(t: string): (r: Option<nat>)
    ensures r.Some? ==> r.value <= |t|
    decreases |t|
  {
    var bounds := BoundsLen(t);
    if bounds.None? then None
    else if Heads(t[bounds.value..], '=') then Some(bounds.value + 1)
    else
      var more := DimensionsLen(t[bounds.value..]);
      if more.None? then None else Some(bounds.value + more.value)
  }

  // parsePgArrayLiteral, up to the element parser: every element but null is a text.
  function Parse(input: string): Result<seq<Element>, ArrayError> {
    var start := match DimensionsLen(input) { case Some(n) => n case None => 0 };
    var t := input[start..];
    if !Heads(t, '{') then Err(Malformed)
    else
      var a := ParseItems(t[1..], []);
      if a.None? || a.value.rest != [] then Err(Malformed) else Ok(a.value.value)
  }

  // ------------------------------------------------------------------- round trip

  // What is parsed back: everything but null is a text.
  function Textual(v: Element): Element {
    match v
    case Quoted(s) => Text(s)
    case Bare(text) => Text(text)
    case Nested(items) => Nested(TextualItems(items))
    case _ => v
  }

  function TextualItems(items: seq<Element>): seq<Element> {
    if items == [] then [] else [Textual(items[0])] + TextualItems(items[1..])
  }

  predicate BareItems(items: seq<Element>) {
    items != [] ==> BareIsPlain(items[0]) && BareItems(items[1..])
  }

  // Numbers and booleans are written with characters that need no quotes.
  predicate BareIsPlain(v: Element) {
    match v
    case Bare(text) => Plain(text)
    case Nested(items) => BareItems(items)
    case _ => true
  }

  lemma {:induction false} QuotedRoundTrip(s: string, rest: string)
    ensures ParseQuoted(Escape(s) + "\"" + rest) == Some(Parsed(s, rest))
  {
    hide Escape, Escaped, ParseQuoted;
    if s == [] {
      NothingQuoted(rest);
    } else {
      EscapeStep(s);
      QuotedRoundTrip(s[1..], rest);
      var e, more := Escaped(s[0]), Escape(s[1..]);
      ParseEscaped(s[0], more + "\"" + rest);
      FourParts(e, more, "\"", rest);
      assert [s[0]] + s[1..] == s;
    }
  }

  lemma NothingQuoted(rest: string)
    ensures ParseQuoted(Escape([]) + "\"" + rest) == Some(Parsed([], rest))
  {
    assert Escape([]) + "\"" + rest == "\"" + rest && ("\"" + rest)[1..] == rest;
  }

  lemma FourParts(a: string, b: string, c: string, d: string)
    ensures a + b + c + d == a + (b + c + d)
  {
  }

  lemma ParseEscaped(c: char, t: string)
    ensures ParseQuoted(Escaped(c) + t) == Prefix([c], ParseQuoted(t))
  {
    var u := Escaped(c) + t;
    assert u[|Escaped(c)|..] == t;
  }

  // What follows an element inside an array.
  predicate Ends(rest: string) {
    rest != [] && (rest[0] == ',' || rest[0] == '}')
  }

  lemma {:induction false} BareEnds(s: string, rest: string)
    requires (forall k :: 0 <= k < |s| ==> !NeedsQuote(s[k])) && Ends(rest)
    ensures BareLen(s + rest) == |s|
  {
    if s == [] {
      assert s + rest == rest;
    } else {
      assert !NeedsQuote(s[0]);
      assert (s + rest)[1..] == s[1..] + rest;
      BareEnds(s[1..], rest);
    }
  }

  lemma PlainElement(s: string, rest: string)
    requires s != [] && (forall k :: 0 <= k < |s| ==> !NeedsQuote(s[k])) && Ends(rest)
    ensures (s + rest)[0] != '}'
    ensures ParseElement(s + rest) == Some(Parsed(if s == "NULL" then Null else Text(s), rest))
  {
    BareEnds(s, rest);
    assert !NeedsQuote(s[0]) && (s + rest)[0] == s[0];
    assert (s + rest)[..|s|] == s && (s + rest)[|s|..] == rest;
    hide BareLen, ParseItems, ParseQuoted;
  }

  lemma QuotedElement(s: string, rest: string)
    ensures ParseElement(Quote(s) + rest) == Some(Parsed(Text(s), rest))
  {
    QuotedRoundTrip(s, rest);
    assert (Quote(s) + rest)[1..] == Escape(s) + "\"" + rest;
    hide ParseQuoted, ParseItems, Escape;
  }

  lemma {:induction false} ElementRoundTrip(v: Element, rest: string)
    requires BareIsPlain(v) && Ends(rest)
    ensures var t := EncodeElement(v) + rest;
            t != [] && t[0] != '}' && ParseElement(t) == Some(Parsed(Textual(v), rest))
    decreases v, 0
  {
    hide ParseElement, ParseItems, Escape;
    match v
    case Null =>
      NullIsPlain();
      PlainElement("NULL", rest);
    case Text(s) =>
      QuotedElement(s, rest);
      if Plain(s) {
        PlainElement(s, rest);
      }
    case Quoted(s) =>
      QuotedElement(s, rest);
    case Bare(text) =>
      PlainElement(text, rest);
    case Nested(items) =>
      ItemsRoundTrip(items, rest, []);
      assert [] + TextualItems(items) == TextualItems(items);
      NestedElement(items, rest);
  }

  lemma NullIsPlain()
    ensures forall k :: 0 <= k < 4 ==> !NeedsQuote("NULL"[k])
  {
  }

  lemma NestedElement(items: seq<Element>, rest: string)
    requires ParseItems(EncodeItems(items) + ("}" + rest), []) == Some(Parsed(TextualItems(items), rest))
    ensures var t := "{" + EncodeItems(items) + "}" + rest;
            t != [] && t[0] == '{' && ParseElement(t) == Some(Parsed(Nested(TextualItems(items)), rest))
  {
    var t := "{" + EncodeItems(items) + "}" + rest;
    assert t[1..] == EncodeItems(items) + ("}" + rest);
    hide ParseItems, EncodeItems, TextualItems;
  }

  // What is written after the first item, up to the closing brace.
  function ItemsTail(items: seq<Element>, rest: string): string
    requires items != []
  {
    if |items| == 1 then "}" + rest else "," + (EncodeItems(items[1..]) + ("}" + rest))
  }

  lemma Regroup(a: string, b: string, c: string, d: string)
    ensures a + (b + c) + d == a + (b + (c + d)) && a + b + c == a + (b + c)
  {
  }

  lemma ItemsSplit(items: seq<Element>, rest: string)
    requires items != []
    ensures EncodeItems(items) + ("}" + rest)
         == EncodeElement(items[0]) + ItemsTail(items, rest)
    ensures Ends(ItemsTail(items, rest))
  {
    var e, more, close := EncodeElement(items[0]), EncodeItems(items[1..]), "}" + rest;
    assert EncodeItems(items) == e + if |items| == 1 then [] else "," + more;
    hide EncodeElement, EncodeItems;
    if |items| > 1 {
      Regroup(e, ",", more, close);
    } else {
      assert e + [] == e;
    }
  }

  // Where parsing goes on after the first item.
  lemma TailStep(items: seq<Element>, rest: string)
    requires items != []
    ensures var x := ItemsTail(items, rest);
            (if x[0] == ',' then x[1..] else x) == EncodeItems(items[1..]) + ("}" + rest)
  {
    if |items| == 1 {
      assert EncodeItems(items[1..]) == [];
      assert [] + ("}" + rest) == "}" + rest;
    }
    hide EncodeItems;
  }

  lemma {:induction false} ItemsRoundTrip(items: seq<Element>, rest: string, done: seq<Element>)
    requires BareItems(items)
    ensures ParseItems(EncodeItems(items) + ("}" + rest), done)
         == Some(Parsed(done + TextualItems(items), rest))
    decreases items, 1
  {
    if items == [] {
      NoItems(rest, done);
      assert EncodeItems(items) + ("}" + rest) == "}" + rest && done + TextualItems(items) == done;
    } else {
      var v, x := Textual(items[0]), ItemsTail(items, rest);
      var later := TextualItems(items[1..]);
      assert TextualItems(items) == [v] + later;
      hide ParseItems, ParseElement, EncodeElement, EncodeItems, Textual, TextualItems, BareIsPlain, ItemsTail;
      ItemsSplit(items, rest);
      TailStep(items, rest);
      ElementRoundTrip(items[0], x);
      FirstItem(EncodeElement(items[0]) + x, v, x, done);
      ItemsRoundTrip(items[1..], rest, done + [v]);
      Together(done, v, later);
    }
  }

  lemma Together(a: seq<Element>, v: Element, b: seq<Element>)
    ensures a + [v] + b == a + ([v] + b)
  {
  }

  lemma NoItems(rest: string, done: seq<Element>)
    ensures ParseItems("}" + rest, done) == Some(Parsed(done, rest))
  {
    assert ("}" + rest)[1..] == rest;
  }

  // One item, then the rest.
  lemma FirstItem(t: string, v: Element, x: string, done: seq<Element>)
    requires t != [] && t[0] != '}' && ParseElement(t) == Some(Parsed(v, x)) && Ends(x)
    ensures ParseItems(t, done) == ParseItems(if x[0] == ',' then x[1..] else x, done + [v])
  {
    hide ParseElement;
  }

  // Main result: parsing an encoded array gives the nested array back.
  lemma ArrayRoundTrip(items: seq<Element>)
    requires BareItems(items)
    ensures Parse(Encode(items)) == Ok(TextualItems(items))
  {
    var t := Encode(items);
    ParseEncoded(t, items);
    NoBounds(t);
    assert t[0..] == t;
    hide ParseItems, EncodeItems, TextualItems, BoundsLen;
  }

  // What is parsed behind the opening brace.
  lemma ParseEncoded(t: string, items: seq<Element>)
    requires t == Encode(items) && BareItems(items)
    ensures Heads(t, '{') && ParseItems(t[1..], []) == Some(Parsed(TextualItems(items), []))
  {
    hide ParseItems, EncodeItems, TextualItems;
    ItemsRoundTrip(items, [], []);
    assert t[1..] == EncodeItems(items) + ("}" + []);
    assert [] + TextualItems(items) == TextualItems(items);
  }

  lemma NoBounds(t: string)
    requires !Heads(t, '[')
    ensures DimensionsLen(t).None?
  {
  }

  // Parsing is unambiguous: arrays with the same text have the same elements.
  lemma EncodingIsInjective(a: seq<Element>, b: seq<Element>)
    requires BareItems(a) && BareItems(b) && Encode(a) == Encode(b)
    ensures TextualItems(a) == TextualItems(b)
  {
    ArrayRoundTrip(a);
    ArrayRoundTrip(b);
    hide *;
  }

  // ------------------------------------------------------------------- dimensions

  // Bounds of one or more dimensions and an equals sign, and nothing else.
  predicate IsDimensions(d: string) {
    DimensionsLen(d) == Some(|d|)
  }

  lemma {:induction false} DigitsLocal(d: string, rest: string)
    requires DigitRun(d) < |d|
    ensures DigitRun(d + rest) == DigitRun(d)
  {
    if d != [] && IsDigit(d[0]) {
      assert (d + rest)[1..] == d[1..] + rest;
      DigitsLocal(d[1..], rest);
    }
  }

  lemma NumberLocal(d: string, rest: string)
    requires NumberRun(d).Some? && NumberRun(d).value < |d|
    ensures NumberRun(d + rest) == NumberRun(d)
  {
    var n := SignLen(d);
    assert (d + rest)[n..] == d[n..] + rest;
    DigitsLocal(d[n..], rest);
  }

  lemma BoundsLocal(d: string, rest: string)
    requires BoundsLen(d).Some?
    ensures BoundsLen(d + rest) == BoundsLen(d)
  {
    hide NumberRun;
    var t, lower := d + rest, NumberRun(d[1..]).value;
    assert t[1..] == d[1..] + rest;
    assert d[1..][lower..] == d[1 + lower..];
    NumberLocal(d[1..], rest);
    assert t[1 + lower..] == d[1 + lower..] + rest && t[2 + lower..] == d[2 + lower..] + rest;
    var upper := NumberRun(d[2 + lower..]).value;
    assert d[2 + lower..][upper..] == d[2 + lower + upper..];
    NumberLocal(d[2 + lower..], rest);
    assert t[2 + lower + upper..] == d[2 + lower + upper..] + rest;
  }

  lemma {:induction false} DimensionsLocal(d: string, rest: string)
    requires DimensionsLen(d).Some?
    ensures DimensionsLen(d + rest) == DimensionsLen(d)
    decreases |d|
  {
    hide BoundsLen, DimensionsLen;
    DimensionsStep(d);
    DimensionsStep(d + rest);
    BoundsLocal(d, rest);
    var n := BoundsLen(d).value;
    assert (d + rest)[n..] == d[n..] + rest;
    if !Heads(d[n..], '=') {
      DimensionsLocal(d[n..], rest);
      BoundsHead(d[n..]);
    }
  }

  lemma DimensionsStep(t: string)
    ensures BoundsLen(t).None? ==> DimensionsLen(t).None?
    ensures BoundsLen(t).Some? ==>
              var n := BoundsLen(t).value;
              DimensionsLen(t) == if Heads(t[n..], '=') then Some(n + 1)
                                  else if DimensionsLen(t[n..]).None? then None
                                  else Some(n + DimensionsLen(t[n..]).value)
  {
    hide BoundsLen;
  }

  lemma BoundsHead(t: string)
    requires DimensionsLen(t).Some?
    ensures Heads(t, '[')
  {
  }

  // Dimensions in front of an array are skipped.
  lemma DimensionsAreSkipped(d: string, items: seq<Element>)
    requires IsDimensions(d) && BareItems(items)
    ensures Parse(d + Encode(items)) == Ok(TextualItems(items))
  {
    var t := Encode(items);
    DimensionsLocal(d, t);
    ParseEncoded(t, items);
    assert (d + t)[|d|..] == t;
    hide ParseItems, Encode, TextualItems, DimensionsLen;
  }
}
