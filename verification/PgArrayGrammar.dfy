/**
 The language of array literals, spelled out, and that the parser of PgArray reads exactly that
 language, each literal in one way.
 */
module PgArrayGrammar {
  import opened Wrappers
  import opened SqlLex
  import opened PgArray

  // ------------------------------------------------------------------- grammar

  // A character inside quotes: as it is, or behind a backslash.
  datatype Unit = Same(c: char) | Behind(c: char)

  // An element: a word without quotes, a text in quotes, or an array.
  datatype Form = Word(raw: string) | InQuotes(units: seq<Unit>) | Braced(forms: Forms)

  // Elements with commas between them; one more comma may follow the last.
  datatype Forms = End | Only(last: Form) | Then(first: Form, more: Forms)

  predicate UnitOk(u: Unit) {
    u.Same? ==> u.c != '"' && u.c != '\\'
  }

  predicate WordOk(raw: string) {
    && ',' !in raw && '}' !in raw
    && (raw != "" ==> raw[0] != '{' && raw[0] != '"')
  }

  predicate FormOk(f: Form) {
    match f
    case Word(raw) => WordOk(raw)
    case InQuotes(us) => forall u <- us :: UnitOk(u)
    case Braced(fs) => FormsOk(fs)
  }

  // The empty word needs its comma.
  predicate FormsOk(fs: Forms) {
    match fs
    case End => true
    case Only(f) => FormOk(f) && f != Word("")
    case Then(f, more) => FormOk(f) && FormsOk(more)
  }

  function UnitText(u: Unit): string {
    match u
    case Same(c) => [c]
    case Behind(c) => ['\\', c]
  }

  function UnitsText(us: seq<Unit>): string {
    if us == [] then [] else UnitText(us[0]) + UnitsText(us[1..])
  }

  function UnitsValue(us: seq<Unit>): string {
    if us == [] then [] else [us[0].c] + UnitsValue(us[1..])
  }

  function FormText(f: Form): string {
    match f
    case Word(raw) => raw
    case InQuotes(us) => "\"" + UnitsText(us) + "\""
    case Braced(fs) => "{" + FormsText(fs) + "}"
  }

  function FormsText(fs: Forms): string {
    match fs
    case End => ""
    case Only(f) => FormText(f)
    case Then(f, more) => FormText(f) + "," + FormsText(more)
  }

  // Only the word NULL in capitals is null.
  function FormElement(f: Form): Element {
    match f
    case Word(raw) => if raw == "NULL" then Null else Text(raw)
    case InQuotes(us) => Text(UnitsValue(us))
    case Braced(fs) => Nested(FormsElements(fs))
  }

  function FormsElements(fs: Forms): seq<Element> {
    match fs
    case End => []
    case Only(f) => [FormElement(f)]
    case Then(f, more) => [FormElement(f)] + FormsElements(more)
  }

  // ------------------------------------------------------------ what is written is read

  lemma UnitIsRead(u: Unit, t: string)
    requires UnitOk(u)
    ensures ParseQuoted(UnitText(u) + t) == Prefix([u.c], ParseQuoted(t))
  {
    assert (UnitText(u) + t)[|UnitText(u)|..] == t;
  }

  lemma QuoteEnds(rest: string)
    ensures ParseQuoted("\"" + rest) == Some(Parsed([], rest))
  {
    assert ("\"" + rest)[1..] == rest;
  }

  lemma UnitsSplit(us: seq<Unit>, tail: string)
    ensures us == [] ==> UnitsText(us) + tail == tail && UnitsValue(us) == []
    ensures us != [] ==>
              && UnitsText(us) + tail == UnitText(us[0]) + (UnitsText(us[1..]) + tail)
              && UnitsValue(us) == [us[0].c] + UnitsValue(us[1..])
  {
    hide UnitText;
  }

  lemma {:induction false} UnitsAreRead(us: seq<Unit>, rest: string)
    requires forall u <- us :: UnitOk(u)
    ensures ParseQuoted(UnitsText(us) + ("\"" + rest)) == Some(Parsed(UnitsValue(us), rest))
  {
    hide ParseQuoted, UnitText, UnitsText, UnitsValue, UnitOk;
    var tail := "\"" + rest;
    UnitsSplit(us, tail);
    QuoteEnds(rest);
    if us != [] {
      assert us[0] in us && forall u <- us[1..] :: u in us;
      UnitsAreRead(us[1..], rest);
      UnitIsRead(us[0], UnitsText(us[1..]) + tail);
    }
  }

  lemma {:induction false} WordEnds(raw: string, tail: string)
    requires ',' !in raw && '}' !in raw && Ends(tail)
    ensures BareLen(raw + tail) == |raw|
  {
    if raw == [] {
      assert raw + tail == tail;
    } else {
      assert raw[0] in raw && (raw + tail)[1..] == raw[1..] + tail;
      WordEnds(raw[1..], tail);
    }
  }

  lemma WordIsRead(raw: string, tail: string)
    requires WordOk(raw) && Ends(tail) && (raw == "" ==> tail[0] == ',')
    ensures var t := raw + tail;
            && t[0] != '}'
            && ParseElement(t) == Some(Parsed(if raw == "NULL" then Null else Text(raw), tail))
  {
    WordEnds(raw, tail);
    var t := raw + tail;
    assert t[..|raw|] == raw && t[|raw|..] == tail;
    assert raw != [] ==> raw[0] in raw;
    hide ParseQuoted, ParseItems, BareLen;
  }

  lemma QuotedIsRead(us: seq<Unit>, tail: string)
    requires forall u <- us :: UnitOk(u)
    ensures ParseElement("\"" + UnitsText(us) + "\"" + tail) == Some(Parsed(Text(UnitsValue(us)), tail))
  {
    UnitsAreRead(us, tail);
    hide UnitsText, UnitsValue, ParseQuoted, ParseItems;
    var t := "\"" + UnitsText(us) + "\"" + tail;
    assert t[1..] == UnitsText(us) + ("\"" + tail);
  }

  lemma BracedIsRead(inner: string, elements: seq<Element>, tail: string)
    requires ParseItems(inner + ("}" + tail), []) == Some(Parsed(elements, tail))
    ensures ParseElement("{" + inner + "}" + tail) == Some(Parsed(Nested(elements), tail))
  {
    hide ParseQuoted, ParseItems;
    var t := "{" + inner + "}" + tail;
    assert t[1..] == inner + ("}" + tail);
  }

  lemma {:induction false} FormIsRead(f: Form, tail: string)
    requires FormOk(f) && Ends(tail) && (f == Word("") ==> tail[0] == ',')
    ensures var t := FormText(f) + tail;
            t != [] && t[0] != '}' && ParseElement(t) == Some(Parsed(FormElement(f), tail))
    decreases f, 0
  {
    hide ParseElement, ParseItems;
    match f
    case Word(raw) => WordIsRead(raw, tail);
    case InQuotes(us) => QuotedIsRead(us, tail);
    case Braced(fs) =>
      FormsAreRead(fs, tail, []);
      hide FormsText, FormsElements;
      assert [] + FormsElements(fs) == FormsElements(fs);
      BracedIsRead(FormsText(fs), FormsElements(fs), tail);
  }

  // One turn of the loop that reads the elements.
  lemma ItemStep(t: string, tail: string, e: Element, done: seq<Element>)
    requires t != [] && t[0] != '}' && ParseElement(t) == Some(Parsed(e, tail)) && Ends(tail)
    ensures ParseItems(t, done) == if tail[0] == ',' then ParseItems(tail[1..], done + [e]) else ParseItems(tail, done + [e])
  {
    hide ParseElement;
  }

  lemma BraceEnds(rest: string, done: seq<Element>)
    ensures ParseItems("}" + rest, done) == Some(Parsed(done, rest))
  {
    hide ParseElement;
    assert ("}" + rest)[1..] == rest;
  }

  lemma OnlySplit(f: Form, rest: string)
    ensures FormsText(Only(f)) + ("}" + rest) == FormText(f) + ("}" + rest)
    ensures FormsElements(Only(f)) == [FormElement(f)]
  {
  }

  lemma ThenSplit(f: Form, more: Forms, rest: string)
    ensures FormsText(Then(f, more)) + ("}" + rest) == FormText(f) + ("," + (FormsText(more) + ("}" + rest)))
    ensures FormsElements(Then(f, more)) == [FormElement(f)] + FormsElements(more)
  {
    var a, b := FormText(f), FormsText(more);
    assert FormsText(Then(f, more)) == a + "," + b;
    hide FormText, FormsText;
    assert a + "," + b + ("}" + rest) == a + ("," + (b + ("}" + rest)));
  }

  lemma {:induction false} FormsAreRead(fs: Forms, rest: string, done: seq<Element>)
    requires FormsOk(fs)
    ensures ParseItems(FormsText(fs) + ("}" + rest), done) == Some(Parsed(done + FormsElements(fs), rest))
    decreases fs, 1
  {
    hide ParseElement, ParseItems, FormText, FormElement;
    match fs
    case End =>
      BraceEnds(rest, done);
      assert FormsText(fs) + ("}" + rest) == "}" + rest && done + [] == done;
    case Only(f) =>
      var tail := "}" + rest;
      FormIsRead(f, tail);
      ItemStep(FormText(f) + tail, tail, FormElement(f), done);
      BraceEnds(rest, done + [FormElement(f)]);
      OnlySplit(f, rest);
    case Then(f, more) =>
      var after := FormsText(more) + ("}" + rest);
      FormIsRead(f, "," + after);
      FormsAreRead(more, rest, done + [FormElement(f)]);
      ThenSplit(f, more, rest);
      hide FormsText, FormsElements;
      ItemStep(FormText(f) + ("," + after), "," + after, FormElement(f), done);
      assert ("," + after)[1..] == after;
      assert done + [FormElement(f)] + FormsElements(more) == done + ([FormElement(f)] + FormsElements(more));
  }

  // ------------------------------------------------------------ what is read was written

  lemma {:induction false} QuotedWasWritten(t: string) returns (us: seq<Unit>)
    requires ParseQuoted(t).Some?
    ensures var r := ParseQuoted(t).value;
            && (forall u <- us :: UnitOk(u)) && UnitsValue(us) == r.value
            && t == UnitsText(us) + ("\"" + r.rest)
    decreases |t|
  {
    if t[0] == '"' {
      us := [];
      assert t == "\"" + t[1..];
    } else {
      var u, k := if t[0] == '\\' then Behind(t[1]) else Same(t[0]), if t[0] == '\\' then 2 else 1;
      assert ParseQuoted(t) == Prefix([u.c], ParseQuoted(t[k..]));
      assert t == UnitText(u) + t[k..] && UnitOk(u);
      hide ParseQuoted, UnitText, UnitOk;
      var more := QuotedWasWritten(t[k..]);
      us := [u] + more;
      assert us[1..] == more;
      UnitsSplit(us, "\"" + ParseQuoted(t).value.rest);
    }
  }

  lemma {:induction false} BareIsWord(t: string)
    ensures ',' !in t[..BareLen(t)] && '}' !in t[..BareLen(t)]
  {
    if t == [] || t[0] == ',' || t[0] == '}' {
    } else {
      BareIsWord(t[1..]);
      assert t[..BareLen(t)] == [t[0]] + t[1..][..BareLen(t[1..])];
    }
  }

  lemma WordWasWritten(t: string) returns (f: Form)
    requires t != [] && t[0] != '}' && t[0] != '{' && t[0] != '"'
    ensures ParseElement(t).Some?
    ensures var r := ParseElement(t).value;
            FormOk(f) && FormElement(f) == r.value && t == FormText(f) + r.rest && (f == Word("") ==> t[0] == ',')
  {
    BareIsWord(t);
    f := Word(t[..BareLen(t)]);
    assert t == t[..BareLen(t)] + t[BareLen(t)..];
    hide ParseItems, ParseQuoted;
  }

  lemma {:induction false} ElementWasWritten(t: string) returns (f: Form)
    requires t != [] && t[0] != '}' && ParseElement(t).Some?
    ensures var r := ParseElement(t).value;
            FormOk(f) && FormElement(f) == r.value && t == FormText(f) + r.rest && (f == Word("") ==> t[0] == ',')
    decreases |t|, 0
  {
    hide ParseItems, ParseQuoted;
    if t[0] == '{' {
      var fs := ItemsWereWritten(t[1..], []);
      var rest := ParseItems(t[1..], []).value.rest;
      f := Braced(fs);
      hide FormsText, FormsElements;
      assert [] + FormsElements(fs) == FormsElements(fs);
      Bracket("{", FormsText(fs), "}", rest, t);
    } else if t[0] == '"' {
      var us := QuotedWasWritten(t[1..]);
      f := InQuotes(us);
      hide UnitsText, UnitsValue, UnitOk;
      Bracket("\"", UnitsText(us), "\"", ParseQuoted(t[1..]).value.rest, t);
    } else {
      hide ParseElement;
      f := WordWasWritten(t);
    }
  }

  lemma Bracket(a: string, b: string, c: string, d: string, t: string)
    requires |a| == 1 && t != [] && t[0] == a[0] && t[1..] == b + (c + d)
    ensures t == a + b + c + d
  {
    assert t == a + (b + (c + d)) == a + b + c + d;
  }

  lemma EmptyWordComma(f: Form, t: string, x: string)
    requires t != [] && FormOk(f) && t == FormText(f) + x && (f == Word("") ==> t[0] == ',') && Heads(x, '}')
    ensures f != Word("")
  {
  }

  lemma {:induction false} ItemsWereWritten(t: string, done: seq<Element>) returns (fs: Forms)
    requires ParseItems(t, done).Some?
    ensures var r := ParseItems(t, done).value;
            FormsOk(fs) && r.value == done + FormsElements(fs) && t == FormsText(fs) + ("}" + r.rest)
    decreases |t|, 1
  {
    hide ParseElement, FormText, FormElement, FormOk;
    if t[0] == '}' {
      fs := End;
      assert t == FormsText(End) + ("}" + t[1..]) && done + [] == done;
    } else {
      var e, x := ParseElement(t).value.value, ParseElement(t).value.rest;
      var f := ElementWasWritten(t);
      ItemStep(t, x, e, done);
      var rest := ParseItems(t, done).value.rest;
      if x[0] == ',' {
        hide ParseItems;
        var more := ItemsWereWritten(x[1..], done + [e]);
        fs := Then(f, more);
        ThenSplit(f, more, rest);
        assert x == "," + x[1..];
        assert done + [e] + FormsElements(more) == done + ([e] + FormsElements(more));
      } else {
        EmptyWordComma(f, t, x);
        fs := Only(f);
        OnlySplit(f, rest);
        assert x == "}" + x[1..];
        BraceEnds(x[1..], done + [e]);
        hide ParseItems;
      }
    }
  }

  // ------------------------------------------------------------------ dimensions

  datatype Bound = Bound(minus: bool, digits: string)

  datatype Dimension = Dimension(lower: Bound, upper: Bound)

  predicate BoundOk(b: Bound) {
    b.digits != "" && forall c <- b.digits :: '0' <= c <= '9'
  }

  predicate DimensionOk(d: Dimension) {
    BoundOk(d.lower) && BoundOk(d.upper)
  }

  function BoundText(b: Bound): string {
    (if b.minus then "-" else "") + b.digits
  }

  function DimensionText(d: Dimension): string {
    "[" + BoundText(d.lower) + ":" + BoundText(d.upper) + "]"
  }

  function DimensionsText(ds: seq<Dimension>): string {
    if ds == [] then "" else DimensionText(ds[0]) + DimensionsText(ds[1..])
  }

  lemma {:induction false} DigitsAreRun(digits: string, rest: string)
    requires (forall c <- digits :: '0' <= c <= '9') && (rest == [] || !('0' <= rest[0] <= '9'))
    ensures DigitRun(digits + rest) == |digits|
  {
    if digits == [] {
      assert digits + rest == rest;
    } else {
      assert digits[0] in digits && forall c <- digits[1..] :: c in digits;
      assert (digits + rest)[1..] == digits[1..] + rest;
      DigitsAreRun(digits[1..], rest);
    }
  }

  lemma {:induction false} RunIsDigits(t: string)
    ensures forall c <- t[..DigitRun(t)] :: '0' <= c <= '9'
  {
    if t == [] || !IsDigit(t[0]) {
    } else {
      RunIsDigits(t[1..]);
      assert t[..DigitRun(t)] == [t[0]] + t[1..][..DigitRun(t[1..])];
    }
  }

  lemma BoundIsRead(b: Bound, rest: string)
    requires BoundOk(b) && (rest == [] || !('0' <= rest[0] <= '9'))
    ensures NumberRun(BoundText(b) + rest) == Some(|BoundText(b)|)
  {
    var t := BoundText(b) + rest;
    assert b.digits[0] in b.digits;
    DigitsAreRun(b.digits, rest);
    assert t[SignLen(t)..] == b.digits + rest;
    hide DigitRun;
  }

  lemma BoundWasWritten(t: string) returns (b: Bound)
    requires NumberRun(t).Some?
    ensures BoundOk(b) && BoundText(b) == t[..NumberRun(t).value]
  {
    var n := SignLen(t);
    RunIsDigits(t[n..]);
    b := Bound(n == 1, t[n..][..DigitRun(t[n..])]);
    assert t[..NumberRun(t).value] == t[..n] + b.digits;
    hide DigitRun;
  }

  lemma DimensionIsRead(d: Dimension, rest: string)
    requires DimensionOk(d)
    ensures BoundsLen(DimensionText(d) + rest) == Some(|DimensionText(d)|)
  {
    var a, b := BoundText(d.lower), BoundText(d.upper);
    BoundIsRead(d.lower, ":" + b + "]" + rest);
    BoundIsRead(d.upper, "]" + rest);
    hide NumberRun, BoundText, BoundOk;
    DimensionTails(a, b, rest);
  }

  lemma DimensionTails(a: string, b: string, rest: string)
    ensures var t := "[" + a + ":" + b + "]" + rest;
            && t[0] == '[' && t[1..] == a + (":" + b + "]" + rest) && t[1 + |a|..] == ":" + b + "]" + rest
            && t[2 + |a|..] == b + ("]" + rest) && t[2 + |a| + |b|..] == "]" + rest
  {
  }

  lemma DimensionWasWritten(t: string) returns (d: Dimension)
    requires BoundsLen(t).Some?
    ensures DimensionOk(d) && DimensionText(d) == t[..BoundsLen(t).value]
  {
    var l := NumberRun(t[1..]).value;
    var u := NumberRun(t[2 + l..]).value;
    var lower := BoundWasWritten(t[1..]);
    var upper := BoundWasWritten(t[2 + l..]);
    hide NumberRun, BoundText, BoundOk;
    d := Dimension(lower, upper);
    assert t[1 + l] == ':' && t[2 + l + u] == ']';
    DimensionParts(t, l, u);
  }

  lemma DimensionParts(t: string, l: nat, u: nat)
    requires 2 + l + u < |t| && t[0] == '[' && t[1 + l] == ':' && t[2 + l + u] == ']'
    ensures "[" + t[1..][..l] + ":" + t[2 + l..][..u] + "]" == t[..3 + l + u]
  {
  }

  lemma {:induction false} DimensionsAreRead(ds: seq<Dimension>, rest: string)
    requires ds != [] && forall d <- ds :: DimensionOk(d)
    ensures DimensionsLen(DimensionsText(ds) + ("=" + rest)) == Some(|DimensionsText(ds)| + 1)
  {
    hide BoundsLen, DimensionsLen, DimensionText, DimensionOk;
    assert ds[0] in ds && forall d <- ds[1..] :: d in ds;
    var a, more := DimensionText(ds[0]), DimensionsText(ds[1..]);
    var tail := more + ("=" + rest);
    var t := DimensionsText(ds) + ("=" + rest);
    assert t == a + tail && t[|a|..] == tail;
    DimensionIsRead(ds[0], tail);
    DimensionsStep(t);
    if |ds| == 1 {
      assert tail == "=" + rest;
    } else {
      DimensionsAreRead(ds[1..], rest);
      TextStarts(ds[1..], "=" + rest);
    }
  }

  lemma TextStarts(ds: seq<Dimension>, rest: string)
    requires ds != []
    ensures DimensionsText(ds) + rest != [] && (DimensionsText(ds) + rest)[0] == '['
  {
    hide BoundText;
  }

  lemma {:induction false} DimensionsWereWritten(t: string) returns (ds: seq<Dimension>)
    requires DimensionsLen(t).Some?
    ensures ds != [] && (forall d <- ds :: DimensionOk(d)) && t[..DimensionsLen(t).value] == DimensionsText(ds) + "="
    decreases |t|
  {
    hide BoundsLen, DimensionsLen, DimensionText, DimensionOk;
    DimensionsStep(t);
    var n := BoundsLen(t).value;
    var d := DimensionWasWritten(t);
    if Heads(t[n..], '=') {
      ds := [d];
      assert DimensionsText(ds) == DimensionText(d) + DimensionsText([]);
      assert t[..n + 1] == t[..n] + "=";
    } else {
      var more := DimensionsWereWritten(t[n..]);
      ds := [d] + more;
      assert ds[1..] == more;
      assert t[..DimensionsLen(t).value] == t[..n] + t[n..][..DimensionsLen(t[n..]).value];
      assert DimensionText(d) + (DimensionsText(more) + "=") == DimensionText(d) + DimensionsText(more) + "=";
    }
  }

  // ----------------------------------------------------------------- whole literals

  datatype Whole = Whole(dimensions: seq<Dimension>, forms: Forms)

  predicate WholeOk(w: Whole) {
    (forall d <- w.dimensions :: DimensionOk(d)) && FormsOk(w.forms)
  }

  function HeadText(ds: seq<Dimension>): string {
    if ds == [] then "" else DimensionsText(ds) + "="
  }

  function WholeText(w: Whole): string {
    HeadText(w.dimensions) + "{" + FormsText(w.forms) + "}"
  }

  predicate Spells(w: Whole, t: string, items: seq<Element>) {
    WholeOk(w) && WholeText(w) == t && FormsElements(w.forms) == items
  }

  lemma HeadIsRead(ds: seq<Dimension>, rest: string)
    requires (forall d <- ds :: DimensionOk(d)) && Heads(rest, '{')
    ensures DimensionsLen(HeadText(ds) + rest) == if HeadText(ds) == [] then None else Some(|HeadText(ds)|)
  {
    hide DimensionOk;
    if ds == [] {
      hide DimensionsLen;
      assert HeadText(ds) + rest == rest;
      DimensionsStep(rest);
    } else {
      hide DimensionsLen, DimensionsText;
      DimensionsAreRead(ds, rest);
      assert HeadText(ds) + rest == DimensionsText(ds) + ("=" + rest);
    }
  }

  lemma PartsAreRead(head: string, inner: string, elements: seq<Element>)
    requires DimensionsLen(head + ("{" + inner + "}")) == if head == [] then None else Some(|head|)
    requires ParseItems(inner + ("}" + ""), []) == Some(Parsed(elements, ""))
    ensures Parse(head + "{" + inner + "}") == Ok(elements)
  {
    hide DimensionsLen, ParseItems;
    var body := "{" + inner + "}";
    var t := head + "{" + inner + "}";
    assert t == head + body && t[|head|..] == body;
    assert body[1..] == inner + ("}" + "");
  }

  lemma WholeIsRead(w: Whole)
    requires WholeOk(w)
    ensures Parse(WholeText(w)) == Ok(FormsElements(w.forms))
  {
    hide HeadText, FormsText, FormsElements, FormsOk, DimensionOk, DimensionsLen, ParseItems, Parse;
    HeadIsRead(w.dimensions, "{" + FormsText(w.forms) + "}");
    FormsAreRead(w.forms, "", []);
    assert [] + FormsElements(w.forms) == FormsElements(w.forms);
    PartsAreRead(HeadText(w.dimensions), FormsText(w.forms), FormsElements(w.forms));
  }

  lemma HeadWasWritten(t: string) returns (ds: seq<Dimension>)
    ensures (forall d <- ds :: DimensionOk(d))
    ensures var n := if DimensionsLen(t).Some? then DimensionsLen(t).value else 0;
            HeadText(ds) == t[..n]
  {
    hide DimensionsLen, DimensionOk, DimensionText;
    if DimensionsLen(t).Some? {
      ds := DimensionsWereWritten(t);
    } else {
      ds := [];
    }
  }

  lemma WholeWasWritten(t: string) returns (w: Whole)
    requires Parse(t).Ok?
    ensures Spells(w, t, Parse(t).value)
  {
    var ds := HeadWasWritten(t);
    hide DimensionsLen, DimensionOk, ParseItems, HeadText, FormsText, FormsElements, FormsOk;
    var n := if DimensionsLen(t).Some? then DimensionsLen(t).value else 0;
    var body := t[n..];
    var fs := ItemsWereWritten(body[1..], []);
    w := Whole(ds, fs);
    assert [] + FormsElements(fs) == FormsElements(fs);
    assert t == t[..n] + body;
    assert body == "{" + body[1..] && body[1..] == FormsText(fs) + ("}" + "");
    assert HeadText(ds) + "{" + FormsText(fs) + "}" == HeadText(ds) + ("{" + (FormsText(fs) + ("}" + "")));
  }

  // Main result: a text is read as these elements exactly when it is a literal that spells
  // them, and every other text is refused as malformed.
  lemma ParsesExactly(t: string, items: seq<Element>)
    ensures Parse(t) == Ok(items) <==> exists w :: Spells(w, t, items)
    ensures Parse(t).Err? <==> forall w :: WholeOk(w) ==> WholeText(w) != t
  {
    hide Parse, WholeText, WholeOk, FormsElements;
    if Parse(t).Ok? {
      var w := WholeWasWritten(t);
    }
    forall w | WholeOk(w) && WholeText(w) == t ensures Parse(t) == Ok(FormsElements(w.forms)) {
      WholeIsRead(w);
    }
  }

  // ---------------------------------------------------------------------- writing

  // A text is written bare exactly when it is not empty, holds none of the characters that mean
  // something in a literal and no white space, and is not the word null in any capitals.
  lemma TextIsBareExactly(s: string)
    ensures EncodeElement(Text(s)) == s <==>
              && s != ""
              && (forall c <- s :: c !in {'\\', '"', '{', '}', ','} && !('\t' <= c <= '\r') && c != ' ')
              && (forall c <- s :: c != '\U{a0}' && c != '\U{1680}' && !('\U{2000}' <= c <= '\U{200a}')
                    && c !in {'\U{2028}', '\U{2029}', '\U{202f}', '\U{205f}', '\U{3000}', '\U{feff}'})
              && !(|s| == 4 && s[0] in {'n', 'N'} && s[1] in {'u', 'U'} && s[2] in {'l', 'L'} && s[3] in {'l', 'L'})
    ensures EncodeElement(Text(s)) != s ==> EncodeElement(Text(s)) == Quote(s)
  {
    QuoteIsLonger(s);
    hide Quote;
    assert forall k :: 0 <= k < |s| ==> s[k] in s;
    LowerIs();
  }

  lemma LowerIs()
    ensures forall c :: Lower(c) == 'n' <==> c in {'n', 'N'}
    ensures forall c :: Lower(c) == 'u' <==> c in {'u', 'U'}
    ensures forall c :: Lower(c) == 'l' <==> c in {'l', 'L'}
  {
  }

  lemma {:induction false} ReplacedIsLonger(s: string, c: char, text: string)
    requires text != []
    ensures |ReplaceAll(s, c, text)| >= |s|
  {
    if s != [] {
      ReplacedIsLonger(s[1..], c, text);
    }
  }

  lemma QuoteIsLonger(s: string)
    ensures |Quote(s)| > |s|
  {
    ReplacedIsLonger(s, '\\', "\\\\");
    ReplacedIsLonger(ReplaceAll(s, '\\', "\\\\"), '"', "\\\"");
    hide ReplaceAll;
  }
}
