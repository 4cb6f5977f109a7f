/**
 hstore and composite literals: the codecs of src/postgres-codecs.ts, and the proofs that
 parsing inverts serialising. Composite literals are section 8.16.6 of the PostgreSQL
 documentation.
 */
module PgCodecs {
  import opened Wrappers
  import opened SqlLex
  import A = PgArray

  datatype CodecError = Malformed

  type Parsed<+T> = A.Parsed<T>

  // A value of a field or of an hstore key; None is SQL NULL.
  type Field = Option<string>

  // ---------------------------------------------------------------- quoted values

  // parseQuoted after the opening quote: a doubled quote and a backslash escape.
  function ParseText(t: string): (r: Option<Parsed<string>>)
    ensures r.Some? ==> |r.value.rest| < |t|
    decreases |t|
  {
    if t == [] then None
    else if t[0] == '"' then
      if |t| > 1 && t[1] == '"' then A.Prefix(['"'], ParseText(t[2..])) else Some(A.Parsed([], t[1..]))
    else if t[0] == '\\' && |t| > 1 then A.Prefix([t[1]], ParseText(t[2..]))
    else A.Prefix([t[0]], ParseText(t[1..]))
  }

  lemma ParseEscaped(c: char, t: string)
    requires t != []
    ensures ParseText(A.Escaped(c) + t) == A.Prefix([c], ParseText(t))
  {
    assert (A.Escaped(c) + t)[|A.Escaped(c)|..] == t;
  }

  lemma EscapedEnd(rest: string)
    requires !Heads(rest, '"')
    ensures ParseText(A.Escape([]) + "\"" + rest) == Some(A.Parsed([], rest))
  {
    assert A.Escape([]) + "\"" + rest == "\"" + rest && ("\"" + rest)[1..] == rest;
  }

  lemma {:induction false} TextRoundTrip(s: string, rest: string)
    requires !Heads(rest, '"')
    ensures ParseText(A.Escape(s) + "\"" + rest) == Some(A.Parsed(s, rest))
  {
    hide A.Escape, A.Escaped, ParseText;
    if s == [] {
      EscapedEnd(rest);
    } else {
      A.EscapeStep(s);
      TextRoundTrip(s[1..], rest);
      var e, more := A.Escaped(s[0]), A.Escape(s[1..]);
      ParseEscaped(s[0], more + "\"" + rest);
      A.FourParts(e, more, "\"", rest);
      assert [s[0]] + s[1..] == s;
    }
  }

  lemma QuotedText(s: string, rest: string)
    requires !Heads(rest, '"')
    ensures var t := A.Quote(s) + rest;
            Heads(t, '"') && ParseText(t[1..]) == Some(A.Parsed(s, rest))
  {
    TextRoundTrip(s, rest);
    assert (A.Quote(s) + rest)[1..] == A.Escape(s) + "\"" + rest;
    hide A.Escape, ParseText;
  }

  // The loop of parseQuoted.
  method ReadQuoted(value: string, start: nat) returns (r: Option<string>, next: nat)
    requires start < |value| && value[start] == '"'
    ensures r.None? ==> ParseText(value[start + 1..]) == None
    ensures r.Some? ==> start < next <= |value| && ParseText(value[start + 1..]) == Some(A.Parsed(r.value, value[next..]))
  {
    hide ParseText;
    ghost var body := value[start + 1..];
    var result := "";
    next := start + 1;
    A.PrefixNothing(ParseText(body));
    while next < |value|
      invariant start < next <= |value| && ParseText(body) == A.Prefix(result, ParseText(value[next..]))
      decreases |value| - next
    {
      ghost var t := value[next..];
      var character := value[next];
      assert t[1..] == value[next + 1..] && (|t| > 1 ==> t[2..] == value[next + 2..]);
      TextStep(t);
      next := next + 1;
      if character == '"' {
        if next < |value| && value[next] == '"' {
          A.PrefixTwice(result, ['"'], ParseText(t[2..]));
          result := result + ['"'];
          next := next + 1;
        } else {
          assert result + [] == result;
          return Some(result), next;
        }
      } else if character == '\\' && next < |value| {
        A.PrefixTwice(result, [value[next]], ParseText(t[2..]));
        result := result + [value[next]];
        next := next + 1;
      } else {
        A.PrefixTwice(result, [character], ParseText(t[1..]));
        result := result + [character];
      }
    }
    TextEnd();
    return None, next;
  }

  lemma TextStep(t: string)
    requires t != []
    ensures ParseText(t)
         == if t[0] == '"' then
              if |t| > 1 && t[1] == '"' then A.Prefix(['"'], ParseText(t[2..])) else Some(A.Parsed([], t[1..]))
            else if t[0] == '\\' && |t| > 1 then A.Prefix([t[1]], ParseText(t[2..]))
            else A.Prefix([t[0]], ParseText(t[1..]))
  {
  }

  lemma TextEnd()
    ensures ParseText([]) == None
  {
  }

  // -------------------------------------------------------------------- composites

  function WriteField(f: Field): string {
    match f
    case None => []
    case Some(s) => A.Quote(s)
  }

  function WriteFields(fields: seq<Field>): string {
    if fields == [] then []
    else WriteField(fields[0]) + if |fields| == 1 then [] else "," + WriteFields(fields[1..])
  }

  // serializeCompositeLiteral.
  function SerializeComposite(fields: seq<Field>): string {
    "(" + WriteFields(fields) + ")"
  }

  // An unquoted field: up to a comma, and not the last character.
  function FieldLen(t: string): (n: nat)
    ensures n < |t| || t == []
    ensures t != [] && n == 0 ==> |t| == 1 || t[0] == ','
  {
    if |t| <= 1 || t[0] == ',' then 0 else 1 + FieldLen(t[1..])
  }

  function AfterComma(t: string): string {
    if Heads(t, ',') then t[1..] else t
  }

  // The fields from here up to the last character, with the ones read so far.
  function ParseFields(t: string, done: seq<Field>): Result<seq<Field>, CodecError>
    decreases |t|
  {
    if |t| <= 1 then Ok(done)
    else if t[0] == '"' then
      var q := ParseText(t[1..]);
      if q.None? then Err(Malformed) else ParseFields(AfterComma(q.value.rest), done + [Some(q.value.value)])
    else
      var raw := t[..FieldLen(t)];
      ParseFields(AfterComma(t[FieldLen(t)..]), done + [if raw == [] then None else Some(raw)])
  }

  // parseCompositeLiteral.
  function ParseComposite(value: string): Result<seq<Field>, CodecError> {
    if !Heads(value, '(') || value[|value| - 1] != ')' then Err(Malformed)
    else if value == "()" then Ok([])
    else ParseFields(value[1..], [])
  }

  // The fields without a null at the end.
  function WithoutLastNull(fields: seq<Field>): seq<Field> {
    if fields != [] && fields[|fields| - 1].None? then fields[..|fields| - 1] else fields
  }

  // What the record parser reads by position: missing fields are null.
  function Padded(raw: seq<Field>, count: nat): seq<Field> {
    seq(count, i requires 0 <= i < count => if i < |raw| then raw[i] else None)
  }

  lemma FieldStep(f: Field, more: string, done: seq<Field>)
    requires more != []
    ensures ParseFields(WriteField(f) + "," + more, done) == ParseFields(more, done + [f])
  {
    var tail := "," + more;
    assert WriteField(f) + "," + more == WriteField(f) + tail && tail[1..] == more;
    match f
    case None =>
      assert WriteField(f) + tail == tail && tail[..0] == [] && tail[0..] == tail;
      hide ParseText;
    case Some(s) =>
      QuotedText(s, tail);
      hide ParseText, A.Quote;
  }

  lemma LastField(f: Field, done: seq<Field>)
    ensures ParseFields(WriteField(f) + ")", done) == Ok(if f.None? then done else done + [f])
  {
    match f
    case None => assert WriteField(f) + ")" == ")";
    case Some(s) =>
      QuotedText(s, ")");
      assert |A.Quote(s)| > 1;
      hide ParseText, A.Quote;
  }

  lemma FewFields(fields: seq<Field>, done: seq<Field>)
    requires |fields| <= 1
    ensures ParseFields(WriteFields(fields) + ")", done) == Ok(done + WithoutLastNull(fields))
  {
    if |fields| == 1 {
      assert fields == [fields[0]];
      assert WriteFields(fields) == WriteField(fields[0]) + [];
      LastField(fields[0], done);
      hide WriteFields, ParseFields, WriteField;
      assert WriteField(fields[0]) + [] == WriteField(fields[0]);
      assert done + [] == done;
    } else {
      assert WriteFields(fields) + ")" == ")";
      assert done + [] == done;
    }
  }

  lemma LastNullStep(fields: seq<Field>)
    requires |fields| > 1
    ensures WithoutLastNull(fields) == [fields[0]] + WithoutLastNull(fields[1..])
  {
    var rest := fields[1..];
    assert rest[|rest| - 1] == fields[|fields| - 1];
    assert fields[..|fields| - 1] == [fields[0]] + rest[..|rest| - 1];
  }

  lemma FieldsSplit(fields: seq<Field>)
    requires |fields| > 1
    ensures WriteFields(fields) + ")" == WriteField(fields[0]) + "," + (WriteFields(fields[1..]) + ")")
  {
    var f, more := WriteField(fields[0]), WriteFields(fields[1..]);
    assert WriteFields(fields) == f + ("," + more);
    hide WriteFields, WriteField;
    Commas(f, ",", more, ")");
  }

  lemma {:induction false} FieldsRoundTrip(fields: seq<Field>, done: seq<Field>)
    ensures ParseFields(WriteFields(fields) + ")", done) == Ok(done + WithoutLastNull(fields))
  {
    if |fields| <= 1 {
      FewFields(fields, done);
    } else {
      hide WriteField, WriteFields, ParseFields, WithoutLastNull;
      FieldsSplit(fields);
      LastNullStep(fields);
      FieldStep(fields[0], WriteFields(fields[1..]) + ")", done);
      FieldsRoundTrip(fields[1..], done + [fields[0]]);
      Together(done, fields[0], WithoutLastNull(fields[1..]));
    }
  }

  lemma Together(a: seq<Field>, f: Field, b: seq<Field>)
    ensures a + [f] + b == a + ([f] + b)
  {
  }

  lemma Commas(a: string, b: string, c: string, d: string)
    ensures a + (b + c) + d == a + b + (c + d)
  {
  }

  lemma NoFields(fields: seq<Field>)
    requires SerializeComposite(fields) == "()"
    ensures WithoutLastNull(fields) == []
  {
    hide WriteFields, ParseFields, SerializeComposite, WithoutLastNull;
    CompositeShape(fields);
    assert "()"[1..] == ")";
    FieldsRoundTrip(fields, []);
    FieldsEnd(")", []);
    EmptyFront(WithoutLastNull(fields));
  }

  lemma CompositeShape(fields: seq<Field>)
    ensures var value := SerializeComposite(fields);
            Heads(value, '(') && value[|value| - 1] == ')' && value[1..] == WriteFields(fields) + ")"
  {
    hide WriteFields;
  }

  // Main result: parsing a composite literal loses exactly a null at the end, and padding to
  // the number of fields gives every field list back.
  lemma CompositeRoundTrip(fields: seq<Field>)
    ensures ParseComposite(SerializeComposite(fields)) == Ok(WithoutLastNull(fields))
    ensures Padded(WithoutLastNull(fields), |fields|) == fields
  {
    hide WriteFields, ParseFields, SerializeComposite, ParseComposite, WithoutLastNull, Padded;
    PaddedBack(fields);
    CompositeShape(fields);
    FieldsRoundTrip(fields, []);
    EmptyFront(WithoutLastNull(fields));
    if SerializeComposite(fields) == "()" {
      NoFields(fields);
      EmptyComposite();
    } else {
      ParsesFields(SerializeComposite(fields));
    }
  }

  lemma PaddedBack(fields: seq<Field>)
    ensures Padded(WithoutLastNull(fields), |fields|) == fields
  {
  }

  lemma EmptyFront(fields: seq<Field>)
    ensures [] + fields == fields
  {
  }

  lemma EmptyComposite()
    ensures ParseComposite("()") == Ok([])
  {
  }

  lemma ParsesFields(value: string)
    requires Heads(value, '(') && value[|value| - 1] == ')' && value != "()"
    ensures ParseComposite(value) == ParseFields(value[1..], [])
  {
    hide ParseFields;
  }

  // Without the padding the field list comes back exactly when it does not end in a null.
  lemma PaddingIsNeeded(fields: seq<Field>)
    ensures ParseComposite(SerializeComposite(fields)) == Ok(fields)
            <==> fields == [] || fields[|fields| - 1].Some?
  {
    CompositeRoundTrip(fields);
    hide ParseComposite, SerializeComposite;
  }

  // One field: its value, and where it ends.
  method ReadField(value: string, index: nat) returns (r: Option<Field>, next: nat)
    requires index + 1 < |value|
    ensures r.None? ==> forall done :: ParseFields(value[index..], done) == Err(Malformed)
    ensures r.Some? ==> index < next <= |value| || (next == index && value[index] == ',')
    ensures r.Some? ==> forall done :: ParseFields(value[index..], done)
                                    == ParseFields(AfterComma(value[next..]), done + [r.value])
  {
    hide ParseText, ParseFields, FieldLen;
    ghost var t := value[index..];
    forall done {
      FieldsTurn(t, done);
    }
    assert t[1..] == value[index + 1..];
    if value[index] == '"' {
      var text;
      text, next := ReadQuoted(value, index);
      return if text.None? then None else Some(Some(text.value)), next;
    }
    var n := FieldLen(value[index..]);
    var raw := value[index..index + n];
    assert raw == t[..n] && t[n..] == value[index + n..];
    return Some(if raw == [] then None else Some(raw)), index + n;
  }

  // The loop of parseCompositeLiteral.
  method ReadComposite(value: string) returns (r: Result<seq<Field>, CodecError>)
    ensures r == ParseComposite(value)
  {
    hide ParseText, ParseFields;
    if |value| == 0 || value[0] != '(' || value[|value| - 1] != ')' {
      return Err(Malformed);
    }
    if value == "()" {
      return Ok([]);
    }
    var result: seq<Field> := [];
    var index := 1;
    while index + 1 < |value|
      invariant 1 <= index <= |value|
      invariant ParseFields(value[1..], []) == ParseFields(value[index..], result)
      decreases |value| - index
    {
      var field, next := ReadField(value, index);
      if field.None? {
        return Err(Malformed);
      }
      SkipComma(value, next);
      result := result + [field.value];
      index := if next < |value| && value[next] == ',' then next + 1 else next;
    }
    FieldsEnd(value[index..], result);
    return Ok(result);
  }

  lemma SkipComma(value: string, next: nat)
    requires next <= |value|
    ensures AfterComma(value[next..]) == value[if next < |value| && value[next] == ',' then next + 1 else next..]
  {
  }

  lemma FieldsTurn(t: string, done: seq<Field>)
    requires |t| > 1
    ensures ParseFields(t, done)
         == if t[0] == '"' then
              var q := ParseText(t[1..]);
              if q.None? then Err(Malformed) else ParseFields(AfterComma(q.value.rest), done + [Some(q.value.value)])
            else
              var raw := t[..FieldLen(t)];
              ParseFields(AfterComma(t[FieldLen(t)..]), done + [if raw == [] then None else Some(raw)])
  {
    hide ParseText;
  }

  lemma FieldsEnd(t: string, done: seq<Field>)
    requires |t| <= 1
    ensures ParseFields(t, done) == Ok(done)
  {
  }

  // ------------------------------------------------------------------------ hstore

  datatype Entry = Entry(key: string, value: Field)

  function WriteValue(f: Field): string {
    match f
    case None => "NULL"
    case Some(s) => A.Quote(s)
  }

  function WriteEntry(e: Entry): string {
    A.Quote(e.key) + "=>" + WriteValue(e.value)
  }

  // serializeHstore of the entries of an object.
  function SerializeHstore(entries: seq<Entry>): string {
    if entries == [] then []
    else WriteEntry(entries[0]) + if |entries| == 1 then [] else ", " + SerializeHstore(entries[1..])
  }

  function SkipSpace(t: string): (u: string)
    ensures |u| <= |t| && (u != [] ==> !IsSpace(u[0]))
  {
    if t != [] && IsSpace(t[0]) then SkipSpace(t[1..]) else t
  }

  function TrimEnd(t: string): string {
    if t != [] && IsSpace(t[|t| - 1]) then TrimEnd(t[..|t| - 1]) else t
  }

  // String.trim.
  function Trim(t: string): string {
    TrimEnd(SkipSpace(t))
  }

  // Up to an arrow, and up to a comma.
  function KeyLen(t: string): (n: nat)
    ensures n <= |t|
  {
    if t == [] || Starts2(t, '=', '>') then 0 else 1 + KeyLen(t[1..])
  }

  function ItemLen(t: string): (n: nat)
    ensures n <= |t|
  {
    if t == [] || t[0] == ',' then 0 else 1 + ItemLen(t[1..])
  }

  // The closure token(true).
  function ParseKey(t: string): (r: Option<Parsed<string>>)
    ensures r.Some? ==> |r.value.rest| <= |t|
  {
    var u := SkipSpace(t);
    if Heads(u, '"') then ParseText(u[1..]) else Some(A.Parsed(Trim(u[..KeyLen(u)]), u[KeyLen(u)..]))
  }

  // The value behind the arrow.
  function ParseItem(t: string): (r: Option<Parsed<Field>>)
    ensures r.Some? ==> |r.value.rest| <= |t|
  {
    var u := SkipSpace(t);
    if Heads(u, '"') then
      var q := ParseText(u[1..]);
      if q.None? then None else Some(A.Parsed(Some(q.value.value), q.value.rest))
    else
      var raw := Trim(u[..ItemLen(u)]);
      Some(A.Parsed(if raw == "NULL" then None else Some(raw), u[ItemLen(u)..]))
  }

  // One entry with the space after it.
  function ParseEntry(t: string): (r: Option<Parsed<Entry>>)
    ensures r.Some? ==> |r.value.rest| < |t|
  {
    var key := ParseKey(t);
    if key.None? then None
    else
      var u := SkipSpace(key.value.rest);
      if !Starts2(u, '=', '>') then None
      else
        var item := ParseItem(u[2..]);
        if item.None? then None
        else Some(A.Parsed(Entry(key.value.value, item.value.value), SkipSpace(item.value.rest)))
  }

  // The entries from here on, added to the object so far; a key that comes again is replaced.
  function ParseEntries(t: string, result: map<string, Field>): Result<map<string, Field>, CodecError>
    decreases |t|
  {
    if t == [] then Ok(result)
    else
      var e := ParseEntry(t);
      if e.None? then Err(Malformed)
      else
        var more := result[e.value.value.key := e.value.value.value];
        if e.value.rest == [] then Ok(more)
        else if e.value.rest[0] != ',' then Err(Malformed)
        else ParseEntries(e.value.rest[1..], more)
  }

  // parseHstore.
  function ParseHstore(value: string): Result<map<string, Field>, CodecError> {
    ParseEntries(value, map[])
  }

  // The object with these entries, added in order.
  function Adding(entries: seq<Entry>, result: map<string, Field>): map<string, Field> {
    if entries == [] then result else Adding(entries[1..], result[entries[0].key := entries[0].value])
  }

  lemma KeyRoundTrip(key: string, rest: string)
    requires !Heads(rest, '"')
    ensures ParseKey(A.Quote(key) + rest) == Some(A.Parsed(key, rest))
    ensures ParseKey(" " + (A.Quote(key) + rest)) == Some(A.Parsed(key, rest))
  {
    QuotedText(key, rest);
    var t := A.Quote(key) + rest;
    hide A.Quote, ParseText, KeyLen, Trim;
    assert SkipSpace(t) == t && (" " + t)[1..] == t;
  }

  lemma {:induction false} NullEnds(s: string, rest: string)
    requires (forall k :: 0 <= k < |s| ==> s[k] != ',') && (rest == [] || rest[0] == ',')
    ensures ItemLen(s + rest) == |s|
  {
    if s == [] {
      assert s + rest == rest;
    } else {
      assert (s + rest)[1..] == s[1..] + rest;
      NullEnds(s[1..], rest);
    }
  }

  lemma ItemRoundTrip(f: Field, rest: string)
    requires rest == [] || rest[0] == ','
    ensures ParseItem(WriteValue(f) + rest) == Some(A.Parsed(f, rest))
  {
    var t := WriteValue(f) + rest;
    match f
    case Some(s) =>
      QuotedText(s, rest);
      hide A.Quote, ParseText, ItemLen, Trim;
      assert SkipSpace(t) == t;
    case None =>
      NullEnds("NULL", rest);
      assert SkipSpace(t) == t && t[..4] == "NULL" && t[4..] == rest;
      assert Trim("NULL") == "NULL";
      hide ItemLen, Trim, ParseText;
  }

  // An entry from a key, an arrow and an item that are read one after the other.
  lemma EntryFrom(t: string, key: string, tail: string, item: string, f: Field, rest: string)
    requires ParseKey(t) == Some(A.Parsed(key, tail)) && tail == "=>" + item
    requires ParseItem(item) == Some(A.Parsed(f, rest)) && (rest == [] || rest[0] == ',')
    ensures ParseEntry(t) == Some(A.Parsed(Entry(key, f), rest))
  {
    hide ParseKey, ParseItem;
    assert SkipSpace(tail) == tail && tail[2..] == item && SkipSpace(rest) == rest;
  }

  lemma WrittenEntry(e: Entry, rest: string)
    ensures WriteEntry(e) + rest == A.Quote(e.key) + ("=>" + (WriteValue(e.value) + rest))
  {
    var a, b := A.Quote(e.key), WriteValue(e.value);
    assert WriteEntry(e) == a + "=>" + b;
    hide WriteEntry, WriteValue, A.Quote;
    FourTogether(a, "=>", b, rest);
  }

  lemma FourTogether(a: string, b: string, c: string, d: string)
    ensures a + b + c + d == a + (b + (c + d))
  {
  }

  lemma EntryRoundTrip(e: Entry, rest: string)
    requires rest == [] || rest[0] == ','
    ensures ParseEntry(WriteEntry(e) + rest) == Some(A.Parsed(e, rest))
    ensures ParseEntry(" " + (WriteEntry(e) + rest)) == Some(A.Parsed(e, rest))
  {
    var item := WriteValue(e.value) + rest;
    var tail := "=>" + item;
    assert !Heads(tail, '"');
    hide ParseKey, ParseItem, ParseEntry, WriteValue, WriteEntry, A.Quote;
    KeyRoundTrip(e.key, tail);
    ItemRoundTrip(e.value, rest);
    WrittenEntry(e, rest);
    EntryFrom(WriteEntry(e) + rest, e.key, tail, item, e.value, rest);
    EntryFrom(" " + (WriteEntry(e) + rest), e.key, tail, item, e.value, rest);
  }

  // After a comma the text goes on with a space; at the start it does not.
  lemma {:induction false} EntriesRoundTrip(entries: seq<Entry>, result: map<string, Field>)
    requires entries != []
    ensures ParseEntries(SerializeHstore(entries), result) == Ok(Adding(entries, result))
    ensures ParseEntries(" " + SerializeHstore(entries), result) == Ok(Adding(entries, result))
  {
    var e := entries[0];
    var rest := if |entries| == 1 then [] else ", " + SerializeHstore(entries[1..]);
    assert SerializeHstore(entries) == WriteEntry(e) + rest;
    hide WriteEntry, ParseEntry, SerializeHstore, ParseEntries;
    EntryRoundTrip(e, rest);
    EntriesTurn(WriteEntry(e) + rest, result, e, rest);
    EntriesTurn(" " + (WriteEntry(e) + rest), result, e, rest);
    if |entries| > 1 {
      EntriesRoundTrip(entries[1..], result[e.key := e.value]);
      assert rest[1..] == " " + SerializeHstore(entries[1..]);
    }
  }

  lemma EntriesTurn(t: string, result: map<string, Field>, e: Entry, rest: string)
    requires ParseEntry(t) == Some(A.Parsed(e, rest)) && (rest == [] || rest[0] == ',')
    ensures ParseEntries(t, result)
         == if rest == [] then Ok(result[e.key := e.value]) else ParseEntries(rest[1..], result[e.key := e.value])
  {
    assert t != [];
    hide ParseEntry;
  }

  lemma {:induction false} AddingAll(entries: seq<Entry>, result: map<string, Field>, m: map<string, Field>)
    requires forall e <- entries :: e.key in m && m[e.key] == e.value
    requires forall k <- result :: k in m && m[k] == result[k]
    ensures forall k <- Adding(entries, result) :: k in m && m[k] == Adding(entries, result)[k]
    ensures forall k :: k in Adding(entries, result) <==> k in result || exists i :: 0 <= i < |entries| && entries[i].key == k
  {
    if entries == [] {
    } else {
      assert entries[0] in entries && forall e <- entries[1..] :: e in entries;
      var more := result[entries[0].key := entries[0].value];
      AddingAll(entries[1..], more, m);
      forall k ensures k in Adding(entries, result)
                       <==> k in result || exists i :: 0 <= i < |entries| && entries[i].key == k
      {
        if i :| 0 <= i < |entries[1..]| && entries[1..][i].key == k {
          assert entries[i + 1].key == k;
        }
        if i :| 0 <= i < |entries| && entries[i].key == k {
          assert i == 0 || entries[1..][i - 1].key == k;
        }
      }
    }
  }

  // Main result: parsing a serialised hstore gives every map back, in whatever order its
  // entries are listed.
  lemma HstoreRoundTrip(entries: seq<Entry>, m: map<string, Field>)
    requires forall e <- entries :: e.key in m && m[e.key] == e.value
    requires forall k <- m :: exists i :: 0 <= i < |entries| && entries[i].key == k
    ensures ParseHstore(SerializeHstore(entries)) == Ok(m)
  {
    hide ParseEntries, SerializeHstore, Adding;
    if entries == [] {
      NoEntries();
      assert m == map[];
    } else {
      EntriesRoundTrip(entries, map[]);
      AddingAll(entries, map[], m);
      assert Adding(entries, map[]) == m;
    }
  }

  lemma NoEntries()
    ensures SerializeHstore([]) == [] && ParseEntries([], map[]) == Ok(map[])
  {
  }

  // ------------------------------------------------------------------- the closures

  // The closures of parseHstore, which share an index.
  class HstoreParser {
    const value: string
    var index: nat

    constructor (value: string)
      ensures this.value == value && index == 0
    {
      this.value := value;
      index := 0;
    }

    ghost predicate Valid()
      reads this
    {
      index <= |value|
    }

    ghost function Left(): string
      requires Valid()
      reads this
    {
      value[index..]
    }

    method SkipSpaces()
      requires Valid()
      modifies this
      ensures Valid() && index >= old(index) && Left() == SkipSpace(old(Left()))
    {
      while index < |value| && IsSpace(value[index])
        invariant old(index) <= index <= |value| && SkipSpace(Left()) == SkipSpace(old(Left()))
      {
        assert Left()[1..] == value[index + 1..];
        index := index + 1;
      }
    }

    // parseQuoted at the index.
    method Quoted() returns (r: Option<string>)
      requires Valid() && Heads(Left(), '"')
      modifies this
      ensures r.None? ==> ParseText(old(Left())[1..]) == None
      ensures r.Some? ==> Valid() && index > old(index) && ParseText(old(Left())[1..]) == Some(A.Parsed(r.value, Left()))
    {
      hide ParseText;
      assert Left()[1..] == value[index + 1..];
      var text, next := ReadQuoted(value, index);
      if text.Some? {
        index := next;
      }
      return text;
    }

    // token(true): a key.
    method Key() returns (r: Option<string>)
      requires Valid()
      modifies this
      ensures r.None? ==> ParseKey(old(Left())) == None
      ensures r.Some? ==> Valid() && index >= old(index) && ParseKey(old(Left())) == Some(A.Parsed(r.value, Left()))
    {
      hide ParseText, Trim, KeyLen;
      SkipSpaces();
      if index < |value| && value[index] == '"' {
        r := Quoted();
        return;
      }
      var raw := BareKey();
      return Some(Trim(raw));
    }

    // Up to the arrow.
    method BareKey() returns (raw: string)
      requires Valid()
      modifies this
      ensures Valid() && index >= old(index)
      ensures var t := old(Left()); raw == t[..KeyLen(t)] && Left() == t[KeyLen(t)..]
    {
      var start := index;
      while index < |value| && !(index + 1 < |value| && value[index] == '=' && value[index + 1] == '>')
        invariant start <= index <= |value| && index - start + KeyLen(Left()) == KeyLen(value[start..])
      {
        assert Left()[1..] == value[index + 1..];
        index := index + 1;
      }
      raw := value[start..index];
      assert raw == value[start..][..index - start] && value[start..][index - start..] == Left();
    }

    // The value of an entry: a quoted one, or token(false).
    method Item() returns (r: Option<Field>)
      requires Valid()
      modifies this
      ensures r.None? ==> ParseItem(old(Left())) == None
      ensures r.Some? ==> Valid() && index >= old(index) && ParseItem(old(Left())) == Some(A.Parsed(r.value, Left()))
    {
      hide ParseText, Trim, ItemLen;
      SkipSpaces();
      if index < |value| && value[index] == '"' {
        var text := Quoted();
        return if text.None? then None else Some(Some(text.value));
      }
      var raw := BareItem();
      return Some(if Trim(raw) == "NULL" then None else Some(Trim(raw)));
    }

    // Up to the comma.
    method BareItem() returns (raw: string)
      requires Valid()
      modifies this
      ensures Valid() && index >= old(index)
      ensures var t := old(Left()); raw == t[..ItemLen(t)] && Left() == t[ItemLen(t)..]
    {
      var start := index;
      while index < |value| && value[index] != ','
        invariant start <= index <= |value| && index - start + ItemLen(Left()) == ItemLen(value[start..])
      {
        assert Left()[1..] == value[index + 1..];
        index := index + 1;
      }
      raw := value[start..index];
      assert raw == value[start..][..index - start] && value[start..][index - start..] == Left();
    }

    method ReadEntry() returns (r: Option<Entry>)
      requires Valid()
      modifies this
      ensures r.None? ==> ParseEntry(old(Left())) == None
      ensures r.Some? ==> Valid() && index > old(index) && ParseEntry(old(Left())) == Some(A.Parsed(r.value, Left()))
    {
      hide ParseKey, ParseItem, SkipSpace;
      var key := Key();
      if key.None? {
        return None;
      }
      SkipSpaces();
      if !(index + 1 < |value| && value[index] == '=' && value[index + 1] == '>') {
        return None;
      }
      assert Left()[2..] == value[index + 2..];
      index := index + 2;
      var item := Item();
      if item.None? {
        return None;
      }
      SkipSpaces();
      return Some(Entry(key.value, item.value));
    }
  }

  // parseHstore.
  method ReadHstore(value: string) returns (r: Result<map<string, Field>, CodecError>)
    ensures r == ParseHstore(value)
  {
    hide ParseEntry, ParseEntries, SkipSpace;
    var parser := new HstoreParser(value);
    var result: map<string, Field> := map[];
    assert parser.Left() == value;
    while parser.index < |value|
      invariant parser.value == value && parser.Valid() && fresh(parser)
      invariant ParseHstore(value) == ParseEntries(parser.Left(), result)
      decreases |value| - parser.index
    {
      ghost var t := parser.Left();
      EntriesStep(t, result);
      var entry := parser.ReadEntry();
      if entry.None? {
        return Err(Malformed);
      }
      ghost var rest := parser.Left();
      result := result[entry.value.key := entry.value.value];
      if parser.index >= |value| {
        return Ok(result);
      }
      if value[parser.index] != ',' {
        return Err(Malformed);
      }
      parser.index := parser.index + 1;
      assert rest[1..] == parser.Left();
    }
    assert parser.Left() == [];
    NoMoreEntries(result);
    return Ok(result);
  }

  // What the loop of parseHstore does after an entry.
  function AfterEntry(r: Option<Parsed<Entry>>, result: map<string, Field>): Result<map<string, Field>, CodecError> {
    if r.None? then Err(Malformed)
    else
      var more := result[r.value.value.key := r.value.value.value];
      if r.value.rest == [] then Ok(more)
      else if r.value.rest[0] != ',' then Err(Malformed)
      else ParseEntries(r.value.rest[1..], more)
  }

  lemma EntriesStep(t: string, result: map<string, Field>)
    requires t != []
    ensures ParseEntries(t, result) == AfterEntry(ParseEntry(t), result)
  {
    hide ParseEntry;
  }

  lemma NoMoreEntries(result: map<string, Field>)
    ensures ParseEntries([], result) == Ok(result)
  {
  }
}
