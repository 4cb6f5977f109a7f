/**
 Composite and hstore literals as the server and its users write them: fields and keys with or
 without quotes, quotes doubled or behind a backslash, white space between the parts.
 */
module PgServer {
  import opened Wrappers
  import opened SqlLex
  import opened PgCodecs
  import A = PgArray

  // ---------------------------------------------------------------- quoted values

  // A character as it is, a doubled quote, or a character behind a backslash.
  datatype TextUnit = Same(c: char) | Doubled | Escaped(c: char)

  predicate UnitOk(u: TextUnit) {
    u.Same? ==> u.c != '"' && u.c != '\\'
  }

  function UnitText(u: TextUnit): string {
    match u
    case Same(c) => [c]
    case Doubled => ['"', '"']
    case Escaped(c) => ['\\', c]
  }

  function UnitChar(u: TextUnit): char {
    match u
    case Same(c) => c
    case Doubled => '"'
    case Escaped(c) => c
  }

  function UnitsText(us: seq<TextUnit>): string {
    if us == [] then [] else UnitText(us[0]) + UnitsText(us[1..])
  }

  function UnitsValue(us: seq<TextUnit>): string {
    if us == [] then [] else [UnitChar(us[0])] + UnitsValue(us[1..])
  }

  lemma UnitIsRead(u: TextUnit, t: string)
    requires UnitOk(u)
    ensures ParseText(UnitText(u) + t) == A.Prefix([UnitChar(u)], ParseText(t))
  {
    assert (UnitText(u) + t)[|UnitText(u)|..] == t;
  }

  lemma UnitsEnd(rest: string)
    requires !Heads(rest, '"')
    ensures ParseText("\"" + rest) == Some(A.Parsed([], rest))
  {
    assert ("\"" + rest)[1..] == rest;
  }

  lemma UnitsSplit(us: seq<TextUnit>, tail: string)
    ensures us == [] ==> UnitsText(us) + tail == tail && UnitsValue(us) == []
    ensures us != [] ==>
              && UnitsText(us) + tail == UnitText(us[0]) + (UnitsText(us[1..]) + tail)
              && UnitsValue(us) == [UnitChar(us[0])] + UnitsValue(us[1..])
  {
    hide UnitText, UnitChar;
  }

  lemma {:induction false} UnitsAreRead(us: seq<TextUnit>, rest: string)
    requires (forall u <- us :: UnitOk(u)) && !Heads(rest, '"')
    ensures ParseText(UnitsText(us) + ("\"" + rest)) == Some(A.Parsed(UnitsValue(us), rest))
  {
    hide ParseText, UnitText, UnitChar, UnitsText, UnitsValue, UnitOk;
    var tail := "\"" + rest;
    UnitsSplit(us, tail);
    UnitsEnd(rest);
    if us != [] {
      assert us[0] in us && forall u <- us[1..] :: u in us;
      UnitsAreRead(us[1..], rest);
      UnitIsRead(us[0], UnitsText(us[1..]) + tail);
    }
  }

  // -------------------------------------------------------------------- composites

  // A field of a composite: nothing, a text without quotes, or a quoted one.
  datatype Form = Empty | Bare(text: string) | InQuotes(units: seq<TextUnit>)

  predicate FormOk(f: Form) {
    match f
    case Empty => true
    case Bare(text) => text != [] && text[0] != '"' && ',' !in text
    case InQuotes(us) => forall u <- us :: UnitOk(u)
  }

  function FormText(f: Form): string {
    match f
    case Empty => []
    case Bare(text) => text
    case InQuotes(us) => "\"" + (UnitsText(us) + "\"")
  }

  function FormField(f: Form): Field {
    match f
    case Empty => None
    case Bare(text) => Some(text)
    case InQuotes(us) => Some(UnitsValue(us))
  }

  function FormsText(forms: seq<Form>): string {
    if forms == [] then []
    else FormText(forms[0]) + if |forms| == 1 then [] else "," + FormsText(forms[1..])
  }

  function FormsFields(forms: seq<Form>): seq<Field> {
    seq(|forms|, i requires 0 <= i < |forms| => FormField(forms[i]))
  }

  lemma {:induction false} BareEnds(text: string, rest: string)
    requires ',' !in text && rest != [] && (rest[0] == ',' || |rest| == 1)
    ensures FieldLen(text + rest) == |text|
  {
    if text == [] {
      assert text + rest == rest;
    } else {
      assert text[0] in text && forall c <- text[1..] :: c in text;
      assert (text + rest)[1..] == text[1..] + rest;
      BareEnds(text[1..], rest);
    }
  }

  lemma QuotedIsRead(us: seq<TextUnit>, rest: string)
    requires (forall u <- us :: UnitOk(u)) && !Heads(rest, '"')
    ensures var t := FormText(InQuotes(us)) + rest;
            Heads(t, '"') && |t| > 1 && ParseText(t[1..]) == Some(A.Parsed(UnitsValue(us), rest))
  {
    hide ParseText, UnitsText, UnitsValue, UnitOk;
    UnitsAreRead(us, rest);
    InsideQuotes(UnitsText(us), rest);
  }

  lemma InsideQuotes(x: string, rest: string)
    ensures var t := "\"" + (x + "\"") + rest;
            Heads(t, '"') && |t| > 1 && t[1..] == x + ("\"" + rest)
  {
  }

  // One field before a comma, and the last one before the closing parenthesis.
  lemma FormStep(f: Form, more: string, done: seq<Field>)
    requires FormOk(f) && more != []
    ensures ParseFields(FormText(f) + ("," + more), done) == ParseFields(more, done + [FormField(f)])
  {
    var tail := "," + more;
    assert tail[1..] == more;
    match f
    case Empty =>
      assert FormText(f) + tail == tail && tail[..0] == [] && tail[0..] == tail;
      hide ParseText;
    case Bare(text) =>
      BareEnds(text, tail);
      assert (text + tail)[..|text|] == text && (text + tail)[|text|..] == tail;
      hide ParseText, FieldLen;
    case InQuotes(us) =>
      QuotedIsRead(us, tail);
      hide ParseText, FormText, UnitsValue;
  }

  lemma LastForm(f: Form, done: seq<Field>)
    requires FormOk(f)
    ensures ParseFields(FormText(f) + ")", done) == Ok(if f.Empty? then done else done + [FormField(f)])
  {
    match f
    case Empty => assert FormText(f) + ")" == ")";
    case Bare(text) =>
      BareEnds(text, ")");
      assert (text + ")")[..|text|] == text && (text + ")")[|text|..] == ")";
      hide ParseText, FieldLen;
    case InQuotes(us) =>
      QuotedIsRead(us, ")");
      hide ParseText, FormText, UnitsValue;
  }

  lemma FormsSplit(forms: seq<Form>)
    requires |forms| > 1
    ensures FormsText(forms) + ")" == FormText(forms[0]) + ("," + (FormsText(forms[1..]) + ")"))
  {
    var f, more := FormText(forms[0]), FormsText(forms[1..]);
    assert FormsText(forms) == f + ("," + more);
    hide FormsText, FormText;
    assert f + ("," + more) + ")" == f + ("," + (more + ")"));
  }

  lemma FewForms(forms: seq<Form>, done: seq<Field>)
    requires |forms| <= 1 && forall f <- forms :: FormOk(f)
    ensures ParseFields(FormsText(forms) + ")", done) == Ok(done + WithoutLastNull(FormsFields(forms)))
  {
    if |forms| == 1 {
      assert forms[0] in forms;
      LastForm(forms[0], done);
      hide ParseFields, FormText;
      assert FormsText(forms) == FormText(forms[0]);
      assert FormsFields(forms) == [FormField(forms[0])];
      assert done + [] == done;
    } else {
      assert FormsText(forms) + ")" == ")";
      assert done + [] == done;
    }
  }

  lemma {:induction false} FormsAreRead(forms: seq<Form>, done: seq<Field>)
    requires forall f <- forms :: FormOk(f)
    ensures ParseFields(FormsText(forms) + ")", done) == Ok(done + WithoutLastNull(FormsFields(forms)))
  {
    if |forms| <= 1 {
      FewForms(forms, done);
    } else {
      assert forms[0] in forms && forall f <- forms[1..] :: f in forms;
      hide ParseFields, FormText, FormOk, FormField, WithoutLastNull;
      FormsSplit(forms);
      FormStep(forms[0], FormsText(forms[1..]) + ")", done);
      FormsAreRead(forms[1..], done + [FormField(forms[0])]);
      assert FormsFields(forms)[1..] == FormsFields(forms[1..]);
      LastNullStep(FormsFields(forms));
      Together(done, FormField(forms[0]), WithoutLastNull(FormsFields(forms[1..])));
    }
  }

  // A composite literal gives its fields, however they are written, up to a null at the end.
  lemma CompositeIsRead(forms: seq<Form>)
    requires forall f <- forms :: FormOk(f)
    ensures ParseComposite("(" + (FormsText(forms) + ")")) == Ok(WithoutLastNull(FormsFields(forms)))
  {
    var value := "(" + (FormsText(forms) + ")");
    hide FormsText, ParseFields, WithoutLastNull, FormsFields;
    FormsAreRead(forms, []);
    EmptyFront(WithoutLastNull(FormsFields(forms)));
    assert value[1..] == FormsText(forms) + ")";
    if value == "()" {
      assert FormsText(forms) + ")" == ")" by {
        assert "()"[1..] == ")";
      }
      FieldsEnd(")", []);
    }
  }

  // What the server writes: quotes where a text is empty or holds a character that needs them,
  // and in them quotes and backslashes doubled.
  predicate NeedsQuotes(c: char) {
    || c == '"' || c == '\\' || c == '(' || c == ')' || c == ',' || c == ' '
    || c == '\t' || c == '\n' || c == '\U{b}' || c == '\U{c}' || c == '\r'
  }

  function ServerUnits(s: string): seq<TextUnit> {
    if s == [] then []
    else [ServerUnit(s[0])] + ServerUnits(s[1..])
  }

  function ServerForm(f: Field): Form {
    if f.None? then Empty
    else if f.value == [] || exists c <- f.value :: NeedsQuotes(c) then InQuotes(ServerUnits(f.value))
    else Bare(f.value)
  }

  function ServerForms(fields: seq<Field>): seq<Form> {
    seq(|fields|, i requires 0 <= i < |fields| => ServerForm(fields[i]))
  }

  function ServerUnit(c: char): TextUnit {
    if c == '"' then Doubled else if c == '\\' then Escaped('\\') else Same(c)
  }

  lemma {:induction false} ServerUnitsValue(s: string)
    ensures UnitsValue(ServerUnits(s)) == s && forall u <- ServerUnits(s) :: UnitOk(u)
  {
    if s == [] {
    } else {
      ServerUnitsValue(s[1..]);
      assert UnitOk(ServerUnit(s[0])) && UnitChar(ServerUnit(s[0])) == s[0];
      hide UnitOk, UnitChar, ServerUnit;
      assert ServerUnits(s) == [ServerUnit(s[0])] + ServerUnits(s[1..]);
      assert ServerUnits(s)[1..] == ServerUnits(s[1..]);
      assert s == [s[0]] + s[1..];
    }
  }

  lemma ServerFormOk(f: Field)
    ensures FormOk(ServerForm(f)) && FormField(ServerForm(f)) == f
  {
    if f.Some? {
      ServerUnitsValue(f.value);
      hide UnitsValue, ServerUnits, UnitOk;
      if f.value != [] && !exists c <- f.value :: NeedsQuotes(c) {
        assert !NeedsQuotes(f.value[0]) && (',' in f.value ==> NeedsQuotes(','));
      }
    }
  }

  // Main result: the composite that the server writes is read back, with the padding that the
  // record parser adds.
  lemma RecordIsRead(fields: seq<Field>)
    ensures ParseComposite("(" + (FormsText(ServerForms(fields)) + ")")) == Ok(WithoutLastNull(fields))
    ensures Padded(WithoutLastNull(fields), |fields|) == fields
  {
    var forms := ServerForms(fields);
    forall i | 0 <= i < |fields| ensures FormOk(forms[i]) && FormField(forms[i]) == fields[i] {
      ServerFormOk(fields[i]);
    }
    hide FormOk, FormField, ServerForm;
    assert FormsFields(forms) == fields;
    hide FormsText, ParseComposite, ServerForms, FormsFields;
    CompositeIsRead(forms);
    CompositeRoundTrip(fields);
  }

  // ------------------------------------------------------------------------ hstore

  predicate Spaces(t: string) {
    forall c <- t :: IsSpace(c)
  }

  // A text that trimming leaves alone and that is not taken for a quoted one.
  predicate Trimmed(t: string) {
    t != [] ==> t[0] != '"' && !IsSpace(t[0]) && !IsSpace(t[|t| - 1])
  }

  // A key or a value, and the white space around the parts of an entry.
  datatype Written = Unquoted(text: string) | Quotes(units: seq<TextUnit>)

  datatype Spaced = Spaced(before: string, key: Written, beforeArrow: string, afterArrow: string, item: Written, after: string)

  predicate KeyOk(w: Written) {
    match w
    case Unquoted(text) => Trimmed(text) && NoArrow(text)
    case Quotes(us) => forall u <- us :: UnitOk(u)
  }

  predicate ItemOk(w: Written) {
    match w
    case Unquoted(text) => Trimmed(text) && ',' !in text
    case Quotes(us) => forall u <- us :: UnitOk(u)
  }

  predicate SpacedOk(e: Spaced) {
    && Spaces(e.before) && KeyOk(e.key) && Spaces(e.beforeArrow) && Spaces(e.afterArrow) && ItemOk(e.item) && Spaces(e.after)
  }

  function WrittenText(w: Written): string {
    match w
    case Unquoted(text) => text
    case Quotes(us) => "\"" + (UnitsText(us) + "\"")
  }

  function KeyValue(w: Written): string {
    match w
    case Unquoted(text) => text
    case Quotes(us) => UnitsValue(us)
  }

  // Only without quotes is NULL no text.
  function ItemValue(w: Written): Field {
    match w
    case Unquoted(text) => if text == "NULL" then None else Some(text)
    case Quotes(us) => Some(UnitsValue(us))
  }

  function SpacedText(e: Spaced): string {
    e.before + (WrittenText(e.key) + (e.beforeArrow + ("=>" + (e.afterArrow + (WrittenText(e.item) + e.after)))))
  }

  function EntryOf(e: Spaced): Entry {
    Entry(KeyValue(e.key), ItemValue(e.item))
  }

  lemma {:induction false} SkipSpaces(spaces: string, t: string)
    requires Spaces(spaces) && (t != [] ==> !IsSpace(t[0]))
    ensures SkipSpace(spaces + t) == t
  {
    hide IsSpace;
    if spaces == [] {
      assert spaces + t == t;
    } else {
      assert IsSpace(spaces[0]) && forall c <- spaces[1..] :: c in spaces;
      assert (spaces + t)[1..] == spaces[1..] + t;
      SkipSpaces(spaces[1..], t);
    }
  }

  lemma {:induction false} TrimSpaces(t: string, spaces: string)
    requires Spaces(spaces) && (t != [] ==> !IsSpace(t[|t| - 1]))
    ensures TrimEnd(t + spaces) == t
  {
    hide IsSpace;
    if spaces == [] {
      assert t + spaces == t;
    } else {
      var last := |spaces| - 1;
      assert spaces[last] in spaces && forall c <- spaces[..last] :: c in spaces;
      assert (t + spaces)[..|t + spaces| - 1] == t + spaces[..last];
      TrimSpaces(t, spaces[..last]);
    }
  }

  // A text and the white space behind it, trimmed.
  lemma TrimIs(text: string, spaces: string)
    requires Trimmed(text) && Spaces(spaces)
    ensures Trim(text + spaces) == text
  {
    hide IsSpace, SkipSpace, TrimEnd;
    if text == [] {
      SkipSpaces(spaces, []);
      assert text + spaces == spaces + [];
      TrimSpaces([], []);
      assert [] + spaces == spaces && TrimEnd([]) == [] by {
        var none: string := [];
        assert none + [] == none;
      }
    } else {
      SkipSpaces([], text + spaces);
      assert [] + (text + spaces) == text + spaces;
      TrimSpaces(text, spaces);
    }
  }

  // The arrow and what follows it.
  function Arrow(x: string): string {
    "=>" + x
  }

  predicate NoArrow(t: string) {
    forall k :: 0 <= k < |t| ==> !Starts2(t[k..], '=', '>')
  }

  lemma NoArrowBefore(text: string, spaces: string)
    requires NoArrow(text) && Spaces(spaces)
    ensures NoArrow(text + spaces)
  {
    var t := text + spaces;
    forall k | 0 <= k < |t| ensures !Starts2(t[k..], '=', '>') {
      if k + 1 < |text| {
        assert !Starts2(text[k..], '=', '>') && text[k..][0] == t[k] && text[k..][1] == t[k + 1];
      } else if k + 1 < |t| {
        assert t[k + 1] == spaces[k + 1 - |text|] && IsSpace(t[k + 1]);
      }
    }
  }

  lemma {:induction false} KeyEnds(u: string, x: string)
    requires NoArrow(u)
    ensures KeyLen(u + Arrow(x)) == |u|
  {
    var t := u + Arrow(x);
    if u == [] {
      assert t == Arrow(x);
    } else {
      assert !Starts2(u[0..], '=', '>') && u[0..] == u;
      assert t[1..] == u[1..] + Arrow(x);
      forall k | 0 <= k < |u[1..]| ensures !Starts2(u[1..][k..], '=', '>') {
        assert u[1..][k..] == u[k + 1..];
      }
      KeyEnds(u[1..], x);
      assert !Starts2(t, '=', '>');
    }
  }

  // A key and where the arrow is.
  lemma KeyIsRead(before: string, w: Written, spaces: string, x: string)
    requires Spaces(before) && KeyOk(w) && Spaces(spaces)
    ensures var r := ParseKey(before + (WrittenText(w) + (spaces + Arrow(x))));
            r.Some? && r.value.value == KeyValue(w) && SkipSpace(r.value.rest) == Arrow(x)
  {
    var tail := spaces + Arrow(x);
    SkipSpaces(spaces, Arrow(x));
    match w
    case Quotes(us) =>
      assert !Heads(tail, '"') by {
        assert spaces != [] ==> spaces[0] in spaces;
      }
      hide ParseText, UnitsText, UnitsValue, UnitOk, KeyLen, Trim, SkipSpace, Spaces;
      UnitsAreRead(us, tail);
      InsideQuotes(UnitsText(us), tail);
      SkipSpaces(before, WrittenText(w) + tail);
    case Unquoted(text) =>
      BareKeyIsRead(before, text, spaces, x);
  }

  lemma BareKeyIsRead(before: string, text: string, spaces: string, x: string)
    requires Spaces(before) && Trimmed(text) && NoArrow(text) && Spaces(spaces)
    ensures var r := ParseKey(before + (text + (spaces + Arrow(x))));
            r.Some? && r.value.value == text && SkipSpace(r.value.rest) == Arrow(x)
  {
    hide IsSpace, KeyLen, Trim, ParseText, NoArrow, SkipSpace, Arrow;
    ArrowStarts(x);
    Nothing(Arrow(x));
    if text == [] {
      SpacesJoin(before, spaces);
      SkipSpaces(before + spaces, Arrow(x));
      assert before + (text + (spaces + Arrow(x))) == before + spaces + Arrow(x);
      KeyEnds([], x);
      TrimNothing();
      SkipSpaces([], Arrow(x));
    } else {
      SkipSpaces(before, text + (spaces + Arrow(x)));
      NoArrowBefore(text, spaces);
      KeyEnds(text + spaces, x);
      TrimIs(text, spaces);
      SkipSpaces([], Arrow(x));
      var u := text + (spaces + Arrow(x));
      assert u == text + spaces + Arrow(x);
      assert u[..|text + spaces|] == text + spaces && u[|text + spaces|..] == Arrow(x);
    }
  }

  lemma TrimNothing()
    ensures Trim([]) == []
  {
  }

  lemma ArrowStarts(x: string)
    ensures Arrow(x) != [] && !IsSpace(Arrow(x)[0]) && Arrow(x)[0] != '"' && Arrow(x)[2..] == x
  {
  }

  lemma Nothing(t: string)
    ensures [] + t == t && t[..0] == [] && t[0..] == t && NoArrow([]) && Spaces([])
  {
  }

  lemma SpacesJoin(a: string, b: string)
    requires Spaces(a) && Spaces(b)
    ensures Spaces(a + b)
  {
    hide IsSpace;
  }

  lemma {:induction false} ItemEnds(u: string, rest: string)
    requires ',' !in u && (rest == [] || rest[0] == ',')
    ensures ItemLen(u + rest) == |u|
  {
    if u == [] {
      assert u + rest == rest;
    } else {
      assert u[0] in u && forall c <- u[1..] :: c in u;
      assert (u + rest)[1..] == u[1..] + rest;
      ItemEnds(u[1..], rest);
    }
  }

  // A value and what stands behind it.
  lemma ItemIsRead(before: string, w: Written, spaces: string, rest: string)
    requires Spaces(before) && ItemOk(w) && Spaces(spaces) && (rest == [] || rest[0] == ',')
    ensures var r := ParseItem(before + (WrittenText(w) + (spaces + rest)));
            r.Some? && r.value.value == ItemValue(w) && SkipSpace(r.value.rest) == rest
  {
    var tail := spaces + rest;
    SkipSpaces(spaces, rest);
    match w
    case Quotes(us) =>
      assert !Heads(tail, '"') by {
        assert spaces != [] ==> spaces[0] in spaces;
      }
      hide ParseText, UnitsText, UnitsValue, UnitOk, ItemLen, Trim, SkipSpace, Spaces;
      UnitsAreRead(us, tail);
      InsideQuotes(UnitsText(us), tail);
      SkipSpaces(before, WrittenText(w) + tail);
    case Unquoted(text) => BareItemIsRead(before, text, spaces, rest);
  }

  lemma BareItemIsRead(before: string, text: string, spaces: string, rest: string)
    requires Spaces(before) && Trimmed(text) && ',' !in text && Spaces(spaces) && (rest == [] || rest[0] == ',')
    ensures var r := ParseItem(before + (text + (spaces + rest)));
            r.Some? && r.value.value == ItemValue(Unquoted(text)) && SkipSpace(r.value.rest) == rest
  {
    assert !IsSpace(',');
    hide IsSpace, ItemLen, Trim, ParseText, SkipSpace;
    Nothing(rest);
    SkipSpaces([], rest);
    if text == [] {
      SpacesJoin(before, spaces);
      SkipSpaces(before + spaces, rest);
      assert before + (text + (spaces + rest)) == before + spaces + rest;
      ItemEnds([], rest);
      TrimNothing();
    } else {
      SkipSpaces(before, text + (spaces + rest));
      CommaFree(text, spaces);
      ItemEnds(text + spaces, rest);
      TrimIs(text, spaces);
      var u := text + (spaces + rest);
      assert u == text + spaces + rest;
      assert u[..|text + spaces|] == text + spaces && u[|text + spaces|..] == rest;
    }
  }

  lemma CommaFree(text: string, spaces: string)
    requires ',' !in text && Spaces(spaces)
    ensures ',' !in text + spaces
  {
    assert !IsSpace(',');
  }

  lemma EntryIsRead(e: Spaced, rest: string)
    requires SpacedOk(e) && (rest == [] || rest[0] == ',')
    ensures ParseEntry(SpacedText(e) + rest) == Some(A.Parsed(EntryOf(e), rest)) && SpacedText(e) != []
  {
    var x := e.afterArrow + (WrittenText(e.item) + (e.after + rest));
    SpacedSplits(e, rest);
    KeyIsRead(e.before, e.key, e.beforeArrow, x);
    ItemIsRead(e.afterArrow, e.item, e.after, rest);
    ArrowStarts(x);
    ArrowTwo(x);
    assert rest != [] ==> !IsSpace(rest[0]);
    hide ParseKey, ParseItem, SkipSpace, SpacedText, WrittenText, KeyValue, ItemValue, Arrow, IsSpace;
  }

  lemma ArrowTwo(x: string)
    ensures Starts2(Arrow(x), '=', '>')
  {
  }

  lemma SpacedSplits(e: Spaced, rest: string)
    ensures SpacedText(e) + rest
         == e.before + (WrittenText(e.key)
                        + (e.beforeArrow + Arrow(e.afterArrow + (WrittenText(e.item) + (e.after + rest)))))
    ensures SpacedText(e) != []
  {
    hide WrittenText;
    var i, a := WrittenText(e.item), e.after;
    assert "=>" + (e.afterArrow + (i + a)) + rest == "=>" + (e.afterArrow + (i + (a + rest)));
    SevenParts(e.before, WrittenText(e.key), e.beforeArrow, "=>" + (e.afterArrow + (i + a)), rest);
  }

  lemma SevenParts(a: string, b: string, c: string, d: string, e: string)
    ensures a + (b + (c + d)) + e == a + (b + (c + (d + e)))
  {
  }

  function AllText(es: seq<Spaced>): string {
    if es == [] then [] else SpacedText(es[0]) + if |es| == 1 then [] else "," + AllText(es[1..])
  }

  function EntriesOf(es: seq<Spaced>): seq<Entry> {
    if es == [] then [] else [EntryOf(es[0])] + EntriesOf(es[1..])
  }

  lemma {:induction false} AllAreRead(es: seq<Spaced>, result: map<string, Field>)
    requires forall e <- es :: SpacedOk(e)
    ensures ParseEntries(AllText(es), result) == Ok(Adding(EntriesOf(es), result))
  {
    if es == [] {
    } else {
      var e := es[0];
      var rest := if |es| == 1 then [] else "," + AllText(es[1..]);
      assert e in es && forall f <- es[1..] :: f in es;
      assert AllText(es) == SpacedText(e) + rest;
      assert EntriesOf(es) == [EntryOf(e)] + EntriesOf(es[1..]) && ([EntryOf(e)] + EntriesOf(es[1..]))[1..] == EntriesOf(es[1..]);
      hide SpacedText, ParseEntry, ParseEntries, AllText, EntryOf, SpacedOk;
      EntryIsRead(e, rest);
      EntriesTurn(SpacedText(e) + rest, result, EntryOf(e), rest);
      if |es| > 1 {
        assert rest[1..] == AllText(es[1..]);
        AllAreRead(es[1..], result[EntryOf(e).key := EntryOf(e).value]);
      } else {
        assert EntriesOf(es[1..]) == [];
      }
    }
  }

  // Main result: an hstore gives its entries, however they are written; a key that comes again
  // takes the later value.
  lemma HstoreIsRead(es: seq<Spaced>)
    requires forall e <- es :: SpacedOk(e)
    ensures ParseHstore(AllText(es)) == Ok(Adding(EntriesOf(es), map[]))
  {
    AllAreRead(es, map[]);
    hide ParseEntries, AllText, EntriesOf, Adding;
  }
}
