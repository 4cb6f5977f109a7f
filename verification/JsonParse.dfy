/**
 The exact parser of src/json-value.ts as a function on the remaining text, and the
 proof that it inverts the printing of raw trees. The grammar is RFC 8259: section 6 for
 numbers and section 7 for strings.
 */
module JsonParse {
  import opened Wrappers
  import opened JsonText
  import opened JsonSort
  import opened JsonValue
  import N = JsonNumber

  datatype Failure =
    | Malformed | TooManyNodes | TooDeep | DuplicateKey | StringTooLong | NumberTooLong
    | BadNumber(error: N.NumberError) | TooMuchNumberData | InputTooLong

  // The parser's counters: nodes seen and canonical number data reserved.
  datatype Budget = Budget(nodes: nat, bytes: nat)

  datatype Parsed<+T> = Parsed(value: T, rest: Text, budget: Budget)

  datatype Scanned = Scanned(value: Text, rest: Text)

  predicate IsSpace(c: Unit) {
    c == 0x20 || c == 0x09 || c == 0x0D || c == 0x0A
  }

  function SkipSpace(t: Text): (u: Text)
    ensures |u| <= |t|
  {
    if t != [] && IsSpace(t[0]) then SkipSpace(t[1..]) else t
  }

  // ------------------------------------------------------------------ strings

  function HexValue(c: Unit): Option<nat> {
    if IsDigit(c) then Some(c - ZERO)
    else if 0x61 <= c <= 0x66 then Some(c - 0x57)
    else if 0x41 <= c <= 0x46 then Some(c - 0x37)
    else None
  }

  function HexUnit(t: Text): Option<Unit>
    requires |t| == 4
  {
    var a, b, c, d := HexValue(t[0]), HexValue(t[1]), HexValue(t[2]), HexValue(t[3]);
    if a.None? || b.None? || c.None? || d.None? then None
    else Some(a.value * 0x1000 + b.value * 0x100 + c.value * 0x10 + d.value)
  }

  // The unit that a two-character escape stands for.
  function Unescape(c: Unit): Option<Unit> {
    if c == QUOTE || c == BACKSLASH || c == SLASH then Some(c)
    else if c == 0x62 then Some(0x08)
    else if c == 0x66 then Some(0x0C)
    else if c == 0x6E then Some(0x0A)
    else if c == 0x72 then Some(0x0D)
    else if c == 0x74 then Some(0x09)
    else None
  }

  function Prepend(head: Text, r: Option<Scanned>): Option<Scanned> {
    if r.None? then None else Some(Scanned(head + r.value.value, r.value.rest))
  }

  // The contents of a string up to its closing quote.
  function StringBody(t: Text): (r: Option<Scanned>)
    ensures r.Some? ==> |r.value.rest| < |t|
    decreases |t|
  {
    if t == [] then None
    else if t[0] == QUOTE then Some(Scanned([], t[1..]))
    else if t[0] < 0x20 then None
    else if t[0] != BACKSLASH then Prepend([t[0]], StringBody(t[1..]))
    else if |t| < 2 then None
    else if t[1] == 0x75 then
      if |t| < 6 || HexUnit(t[2..6]).None? then None
      else Prepend([HexUnit(t[2..6]).value], StringBody(t[6..]))
    else if Unescape(t[1]).None? then None
    else Prepend([Unescape(t[1]).value], StringBody(t[2..]))
  }

  // parseString at an opening quote.
  function ParseString(t: Text): (r: Result<Scanned, Failure>)
    requires StartsWith(t, QUOTE)
    ensures r.Ok? ==> |r.value.rest| < |t|
  {
    var body := StringBody(t[1..]);
    if body.None? then Err(Malformed)
    else if !FitsString(body.value.value) then Err(StringTooLong)
    else Ok(body.value)
  }

  lemma UnescapeShort(c: Unit)
    requires ShortEscape(c).Some?
    ensures var e := ShortEscape(c).value;
            e != 0x75 && Unescape(e) == Some(c)
  {
  }

  lemma HexRoundTrip(n: nat)
    requires n < 0x10
    ensures HexValue(HexDigit(n)) == Some(n)
  {
  }

  lemma UnicodeRoundTrip(c: Unit)
    requires c < 0x10000
    ensures HexUnit(UnicodeEscape(c)[2..6]) == Some(c)
  {
    var q := c / 0x10;
    var p := q / 0x10;
    HexRoundTrip(p / 0x10);
    HexRoundTrip(p % 0x10);
    HexRoundTrip(q % 0x10);
    HexRoundTrip(c % 0x10);
    hide HexValue, HexDigit;
    var t := UnicodeEscape(c)[2..6];
    assert t == [HexDigit(p / 0x10), HexDigit(p % 0x10), HexDigit(q % 0x10), HexDigit(c % 0x10)];
    assert c == q * 0x10 + c % 0x10 && q == p * 0x10 + q % 0x10 && p == (p / 0x10) * 0x10 + p % 0x10;
  }

  lemma ScanUnicode(c: Unit, t: Text)
    requires c < 0x10000
    ensures StringBody(UnicodeEscape(c) + t) == Prepend([c], StringBody(t))
  {
    var whole := UnicodeEscape(c) + t;
    UnicodeRoundTrip(c);
    assert whole[2..6] == UnicodeEscape(c)[2..6] && whole[6..] == t;
    hide HexUnit;
  }

  lemma ScanShort(c: Unit, t: Text)
    requires ShortEscape(c).Some?
    ensures StringBody([BACKSLASH, ShortEscape(c).value] + t) == Prepend([c], StringBody(t))
  {
    UnescapeShort(c);
    assert ([BACKSLASH, ShortEscape(c).value] + t)[2..] == t;
  }

  lemma ScanPlain(c: Unit, t: Text)
    requires c >= 0x20 && c != QUOTE && c != BACKSLASH
    ensures StringBody([c] + t) == Prepend([c], StringBody(t))
  {
    assert ([c] + t)[1..] == t;
  }

  lemma ScanEnd(rest: Text)
    ensures StringBody([QUOTE] + rest) == Some(Scanned([], rest))
  {
    assert ([QUOTE] + rest)[1..] == rest;
  }

  lemma PrependTwice(a: Text, b: Text, r: Option<Scanned>)
    ensures Prepend(a, Prepend(b, r)) == Prepend(a + b, r)
  {
    if r.Some? {
      assert a + (b + r.value.value) == a + b + r.value.value;
    }
  }

  lemma ScanUnit(s: Text, t: Text)
    requires s != []
    ensures StringBody(UnitText(s) + t) == Prepend(s[..UnitCount(s)], StringBody(t))
  {
    hide StringBody, UnicodeEscape;
    assert s[..UnitCount(s)] == if UnitCount(s) == 1 then [s[0]] else [s[0], s[1]];
    if ShortEscape(s[0]).Some? {
      ScanShort(s[0], t);
    } else if s[0] < 0x20 {
      ScanUnicode(s[0], t);
    } else if UnitCount(s) == 2 {
      ScanPlain(s[1], t);
      ScanPlain(s[0], [s[1]] + t);
      PrependTwice([s[0]], [s[1]], StringBody(t));
      assert [s[0]] + [s[1]] == [s[0], s[1]];
      assert UnitText(s) + t == [s[0]] + ([s[1]] + t);
    } else if IsHigh(s[0]) || IsLow(s[0]) {
      ScanUnicode(s[0], t);
    } else {
      ScanPlain(s[0], t);
    }
  }

  // Scanning inverts JSON.stringify of every string, lone surrogates included.
  lemma {:induction false} StringRoundTrip(s: Text, rest: Text)
    ensures StringBody(QuoteBody(s) + [QUOTE] + rest) == Some(Scanned(s, rest))
    decreases |s|
  {
    hide StringBody, UnitText, UnitCount;
    if s == [] {
      ScanEnd(rest);
      assert QuoteBody(s) + [QUOTE] + rest == [QUOTE] + rest;
    } else {
      var s' := s[UnitCount(s)..];
      StringRoundTrip(s', rest);
      Regroup(UnitText(s), QuoteBody(s'), [QUOTE], rest);
      ScanUnit(s, QuoteBody(s') + [QUOTE] + rest);
      assert s == s[..UnitCount(s)] + s';
    }
  }

  // ------------------------------------------------------------------ numbers

  function ParseNumber(t: Text, b: Budget): (r: Result<Parsed<Raw>, Failure>)
    ensures r.Ok? ==> |r.value.rest| < |t|
  {
    var n := N.NumberLen(t);
    if n.None? then Err(Malformed)
    else if n.value > N.TOKEN_LENGTH then Err(NumberTooLong)
    else
      var token := t[..n.value];
      var analysis := N.Analyze(token);
      if analysis.Err? then Err(BadNumber(analysis.error))
      else if b.bytes + N.CanonicalLength(token) > NUMBER_BYTES then Err(TooMuchNumberData)
      else Ok(Parsed(RNumber(token), t[n.value..], b.(bytes := b.bytes + N.CanonicalLength(token))))
  }

  // What may follow a value inside a document.
  predicate Ends(rest: Text) {
    || rest == [] || rest[0] == COMMA || rest[0] == RBRACKET || rest[0] == RBRACE
    || rest[0] == 0x20 || rest[0] == 0x09 || rest[0] == 0x0A || rest[0] == 0x0D
  }

  lemma {:induction false} DigitsEnd(u: Text, rest: Text)
    requires Ends(rest)
    ensures LeadingDigits(u + rest) == LeadingDigits(u)
  {
    if u == [] {
      assert u + rest == rest;
    } else {
      assert (u + rest)[1..] == u[1..] + rest;
      DigitsEnd(u[1..], rest);
    }
  }

  lemma IntegerEnds(u: Text, rest: Text)
    requires Ends(rest) && N.IntegerLen(u).Some?
    ensures N.IntegerLen(u + rest) == N.IntegerLen(u)
  {
    DigitsEnd(u, rest);
  }

  lemma FractionEnds(u: Text, rest: Text)
    requires Ends(rest) && N.FractionLen(u).Some?
    ensures N.FractionLen(u + rest) == N.FractionLen(u)
  {
    if u != [] {
      DigitsEnd(u[1..], rest);
      assert (u + rest)[1..] == u[1..] + rest;
    }
  }

  lemma ExponentEnds(u: Text, rest: Text)
    requires Ends(rest) && N.ExponentLen(u).Some?
    ensures N.ExponentLen(u + rest) == N.ExponentLen(u)
  {
    if u != [] {
      var w := u[1..];
      assert (u + rest)[1..] == w + rest;
      assert N.SignLen(w + rest) == N.SignLen(w);
      if StartsWith(u, LOWER_E) || StartsWith(u, UPPER_E) {
        var d := u[1 + N.SignLen(w)..];
        DigitsEnd(d, rest);
        assert (u + rest)[1 + N.SignLen(w)..] == d + rest;
      }
    }
  }

  lemma MinusEnds(u: Text, rest: Text)
    requires u != []
    ensures N.MinusLen(u + rest) == N.MinusLen(u)
  {
  }

  lemma NumberEnds(token: Text, rest: Text)
    requires N.IsNumber(token) && Ends(rest)
    ensures N.NumberLen(token + rest) == Some(|token|)
  {
    hide N.IntegerLen, N.FractionLen, N.ExponentLen, N.MinusLen, N.IsNumber, N.NumberLen, Ends;
    var t := token + rest;
    var m, i, f, e := N.PiecesOfNumber(token);
    MinusEnds(token, rest);
    IntegerEnds(token[m..], rest);
    FractionEnds(token[m + i..], rest);
    ExponentEnds(token[m + i + f..], rest);
    assert t[m..] == token[m..] + rest;
    assert t[m + i..] == token[m + i..] + rest;
    assert t[m + i + f..] == token[m + i + f..] + rest;
    N.NumberFromPieces(t, m, i, f, e);
  }

  lemma AcceptedIsNumber(token: Text)
    requires N.Accepted(token)
    ensures N.IsNumber(token) && |token| <= N.TOKEN_LENGTH && N.Analyze(token).Ok?
  {
  }

  // ------------------------------------------------------------------- values

  predicate HasKey(ms: Members<Raw>, key: Text) {
    exists i :: 0 <= i < |ms| && ms[i].key == key
  }

  function ParseKeyword(t: Text, keyword: Text, value: Raw, b: Budget): (r: Result<Parsed<Raw>, Failure>)
    requires keyword != []
    ensures r.Ok? ==> |r.value.rest| < |t|
  {
    if keyword <= t then Ok(Parsed(value, t[|keyword|..], b)) else Err(Malformed)
  }

  function ParseValue(t: Text, before: Budget, depth: nat): (r: Result<Parsed<Raw>, Failure>)
    ensures r.Ok? ==> |r.value.rest| < |t|
    decreases |t|, 0
  {
    var b := before.(nodes := before.nodes + 1);
    if b.nodes > NODES then Err(TooManyNodes)
    else if depth > DEPTH then Err(TooDeep)
    else if t == [] then Err(Malformed)
    else if t[0] == QUOTE then
      var s := ParseString(t);
      if s.Err? then Err(s.error) else Ok(Parsed(RString(s.value.value), s.value.rest, b))
    else if t[0] == LBRACE then
      var u := SkipSpace(t[1..]);
      if StartsWith(u, RBRACE) then Ok(Parsed(RObject([]), u[1..], b)) else ParseMembers(u, b, depth, [])
    else if t[0] == LBRACKET then
      var u := SkipSpace(t[1..]);
      if StartsWith(u, RBRACKET) then Ok(Parsed(RArray([]), u[1..], b)) else ParseItems(u, b, depth, [])
    else if t[0] == 0x74 then ParseKeyword(t, Ascii("true"), RBool(true), b)
    else if t[0] == 0x66 then ParseKeyword(t, Ascii("false"), RBool(false), b)
    else if t[0] == 0x6E then ParseKeyword(t, Ascii("null"), RNull, b)
    else if t[0] == MINUS || IsDigit(t[0]) then ParseNumber(t, b)
    else Err(Malformed)
  }

  // The members of an object from a key on, with the ones read so far.
  function ParseMembers(t: Text, b: Budget, depth: nat, done: Members<Raw>): (r: Result<Parsed<Raw>, Failure>)
    ensures r.Ok? ==> |r.value.rest| < |t|
    decreases |t|, 1
  {
    if !StartsWith(t, QUOTE) then Err(Malformed)
    else
      var key := ParseString(t);
      if key.Err? then Err(key.error)
      else if HasKey(done, key.value.value) then Err(DuplicateKey)
      else
        var u := SkipSpace(key.value.rest);
        if !StartsWith(u, COLON) then Err(Malformed)
        else
          var v := ParseValue(SkipSpace(u[1..]), b, depth + 1);
          if v.Err? then Err(v.error)
          else
            var more := done + [Member(key.value.value, v.value.value)];
            var x := SkipSpace(v.value.rest);
            if StartsWith(x, RBRACE) then Ok(Parsed(RObject(more), x[1..], v.value.budget))
            else if StartsWith(x, COMMA) then ParseMembers(SkipSpace(x[1..]), v.value.budget, depth, more)
            else Err(Malformed)
  }

  // The items of an array from one on, with the ones read so far.
  function ParseItems(t: Text, b: Budget, depth: nat, done: seq<Raw>): (r: Result<Parsed<Raw>, Failure>)
    ensures r.Ok? ==> |r.value.rest| < |t|
    decreases |t|, 1
  {
    if t == [] then Err(Malformed)
    else
      var v := ParseValue(t, b, depth + 1);
      if v.Err? then Err(v.error)
      else
        var x := SkipSpace(v.value.rest);
        if StartsWith(x, RBRACKET) then Ok(Parsed(RArray(done + [v.value.value]), x[1..], v.value.budget))
        else if StartsWith(x, COMMA) then
          ParseItems(SkipSpace(x[1..]), v.value.budget, depth, done + [v.value.value])
        else Err(Malformed)
  }

  // parse: one value with nothing but white space around it.
  function ParseDocument(t: Text): Result<Raw, Failure> {
    if Utf8Len(t) > INPUT_BYTES then Err(InputTooLong)
    else
      var v := ParseValue(SkipSpace(t), Budget(0, 0), 0);
      if v.Err? then Err(v.error)
      else if SkipSpace(v.value.rest) != [] then Err(Malformed)
      else Ok(v.value.value)
  }

  // --------------------------------------------------------------- round trip

  function After(r: Raw, b: Budget): Budget {
    Budget(b.nodes + RawNodes(r), b.bytes + RawBytes(r))
  }

  // The tree can be parsed within the limits from this state.
  predicate Within(r: Raw, b: Budget, depth: nat) {
    b.nodes + RawNodes(r) <= NODES && depth + RawHeight(r) <= DEPTH && b.bytes + RawBytes(r) <= NUMBER_BYTES
  }

  lemma FirstOfNumber(token: Text)
    requires N.IsNumber(token)
    ensures token != [] && (token[0] == MINUS || IsDigit(token[0]))
  {
    assert token[N.MinusLen(token)..] != [];
  }

  lemma NoSpace(t: Text)
    requires t != [] && !IsSpace(t[0])
    ensures SkipSpace(t) == t
  {
  }

  lemma ParsePrintString(s: Text, rest: Text)
    requires FitsString(s)
    ensures StartsWith(Quote(s) + rest, QUOTE)
    ensures ParseString(Quote(s) + rest) == Ok(Scanned(s, rest))
  {
    assert (Quote(s) + rest)[1..] == QuoteBody(s) + [QUOTE] + rest;
    StringRoundTrip(s, rest);
  }

  lemma ParseNumberAt(t: Text, n: nat, b: Budget)
    requires N.NumberLen(t) == Some(n) && 0 < n <= |t| && n <= N.TOKEN_LENGTH && N.Accepted(t[..n])
    requires b.bytes + N.CanonicalLength(t[..n]) <= NUMBER_BYTES
    ensures ParseNumber(t, b)
         == Ok(Parsed(RNumber(t[..n]), t[n..], b.(bytes := b.bytes + N.CanonicalLength(t[..n]))))
  {
    hide N.NumberLen, N.CanonicalLength, N.Analyze, N.IsNumber;
  }

  lemma ParsePrintNumber(token: Text, rest: Text, b: Budget)
    requires N.Accepted(token) && Ends(rest) && b.bytes + N.CanonicalLength(token) <= NUMBER_BYTES
    ensures ParseNumber(token + rest, b)
         == Ok(Parsed(RNumber(token), rest, b.(bytes := b.bytes + N.CanonicalLength(token))))
  {
    hide N.NumberLen, N.CanonicalLength, N.Analyze, N.Accepted, ParseNumber, Ends;
    AcceptedIsNumber(token);
    NumberEnds(token, rest);
    FirstOfNumber(token);
    var t := token + rest;
    assert t[..|token|] == token && t[|token|..] == rest;
    ParseNumberAt(t, |token|, b);
  }

  lemma ParsePrintKeyword(keyword: Text, rest: Text, value: Raw, b: Budget)
    requires keyword != []
    ensures ParseKeyword(keyword + rest, keyword, value, b) == Ok(Parsed(value, rest, b))
  {
    assert (keyword + rest)[|keyword|..] == rest;
  }

  // What parseValue does at the first unit of a leaf, within the limits.
  function ParseLeaf(t: Text, b: Budget): Result<Parsed<Raw>, Failure>
    requires t != []
  {
    if t[0] == QUOTE then
      var s := ParseString(t);
      if s.Err? then Err(s.error) else Ok(Parsed(RString(s.value.value), s.value.rest, b))
    else if t[0] == 0x74 then ParseKeyword(t, Ascii("true"), RBool(true), b)
    else if t[0] == 0x66 then ParseKeyword(t, Ascii("false"), RBool(false), b)
    else if t[0] == 0x6E then ParseKeyword(t, Ascii("null"), RNull, b)
    else if t[0] == MINUS || IsDigit(t[0]) then ParseNumber(t, b)
    else Err(Malformed)
  }

  lemma ParseValueAtLeaf(t: Text, b: Budget, depth: nat)
    requires t != [] && t[0] != LBRACE && t[0] != LBRACKET && b.nodes + 1 <= NODES && depth <= DEPTH
    ensures ParseValue(t, b, depth) == ParseLeaf(t, b.(nodes := b.nodes + 1))
  {
    hide ParseString, ParseNumber, ParseKeyword, Ascii, ParseMembers, ParseItems;
  }

  lemma LeafNumber(token: Text, rest: Text, b: Budget)
    requires N.Accepted(token) && Ends(rest) && b.bytes + N.CanonicalLength(token) <= NUMBER_BYTES
    ensures token != [] && (token + rest)[0] != LBRACE && (token + rest)[0] != LBRACKET
    ensures ParseLeaf(token + rest, b)
         == Ok(Parsed(RNumber(token), rest, b.(bytes := b.bytes + N.CanonicalLength(token))))
  {
    hide N.Accepted, N.Analyze, N.CanonicalLength, N.IsNumber, ParseNumber, ParseString, ParseKeyword, Ends;
    AcceptedIsNumber(token);
    FirstOfNumber(token);
    ParsePrintNumber(token, rest, b);
    assert (token + rest)[0] == token[0];
  }

  lemma LeafString(s: Text, rest: Text, b: Budget)
    requires FitsString(s)
    ensures ParseLeaf(Quote(s) + rest, b) == Ok(Parsed(RString(s), rest, b))
  {
    hide FitsString, ParseString;
    ParsePrintString(s, rest);
  }

  lemma LeafKeyword(r: Raw, rest: Text, b: Budget)
    requires r.RNull? || r.RBool?
    ensures Print(r) != [] && (Print(r) + rest)[0] in {0x74, 0x66, 0x6E}
    ensures ParseLeaf(Print(r) + rest, b) == Ok(Parsed(r, rest, b))
  {
    ParsePrintKeyword(Print(r), rest, r, b);
    hide ParseKeyword;
  }

  // The leaves: everything but arrays and objects.
  lemma ParsePrintLeaf(r: Raw, rest: Text, b: Budget, depth: nat)
    requires !r.RArray? && !r.RObject?
    requires RawOk(r) && Within(r, b, depth) && Ends(rest)
    ensures ParseValue(Print(r) + rest, b, depth) == Ok(Parsed(r, rest, After(r, b)))
  {
    hide N.Accepted, N.CanonicalLength, FitsString, ParseValue, ParseLeaf, Quote;
    var b' := b.(nodes := b.nodes + 1);
    match r
    case RString(s) =>
      LeafString(s, rest, b');
      QuoteStarts(s);
      ParseValueAtLeaf(Quote(s) + rest, b, depth);
    case RNumber(token) =>
      LeafNumber(token, rest, b');
      ParseValueAtLeaf(token + rest, b, depth);
    case _ =>
      LeafKeyword(r, rest, b');
      ParseValueAtLeaf(Print(r) + rest, b, depth);
  }

  lemma QuoteStarts(s: Text)
    ensures StartsWith(Quote(s), QUOTE)
  {
  }

  // -------------------------------------------------- arrays, objects, documents

  lemma AfterColon(t: Text)
    ensures SkipSpace([COLON] + t) == [COLON] + t && ([COLON] + t)[1..] == t
  {
  }

  // Printed values do not start with white space.
  lemma PrintStarts(r: Raw, rest: Text)
    requires RawOk(r)
    ensures Print(r) + rest != [] && SkipSpace(Print(r) + rest) == Print(r) + rest
  {
    if r.RNumber? {
      AcceptedIsNumber(r.token);
      FirstOfNumber(r.token);
    }
    hide N.Accepted, N.IsNumber, QuoteBody, PrintItems, PrintMembers;
  }

  lemma ParseArrayAt(t: Text, b: Budget, depth: nat)
    requires t != [] && t[0] == LBRACKET && b.nodes + 1 <= NODES && depth <= DEPTH
    requires SkipSpace(t[1..]) == t[1..]
    ensures ParseValue(t, b, depth)
         == if StartsWith(t[1..], RBRACKET) then Ok(Parsed(RArray([]), t[2..], b.(nodes := b.nodes + 1)))
            else ParseItems(t[1..], b.(nodes := b.nodes + 1), depth, [])
  {
    hide ParseItems, ParseMembers;
  }

  lemma ParseObjectAt(t: Text, b: Budget, depth: nat)
    requires t != [] && t[0] == LBRACE && b.nodes + 1 <= NODES && depth <= DEPTH
    requires SkipSpace(t[1..]) == t[1..]
    ensures ParseValue(t, b, depth)
         == if StartsWith(t[1..], RBRACE) then Ok(Parsed(RObject([]), t[2..], b.(nodes := b.nodes + 1)))
            else ParseMembers(t[1..], b.(nodes := b.nodes + 1), depth, [])
  {
    hide ParseItems, ParseMembers;
  }

  // One item, then the rest of the array.
  lemma ParseItemsAt(t: Text, b: Budget, depth: nat, done: seq<Raw>, r: Raw, x: Text, b': Budget)
    requires ParseValue(t, b, depth + 1) == Ok(Parsed(r, x, b'))
    requires StartsWith(x, RBRACKET) || StartsWith(x, COMMA)
    ensures StartsWith(x, RBRACKET) ==>
              ParseItems(t, b, depth, done) == Ok(Parsed(RArray(done + [r]), x[1..], b'))
    ensures StartsWith(x, COMMA) && SkipSpace(x[1..]) == x[1..] ==>
              ParseItems(t, b, depth, done) == ParseItems(x[1..], b', depth, done + [r])
  {
    hide ParseValue, ParseMembers;
  }

  // One member, then the rest of the object.
  lemma ParseMembersAt(
    key: Text, t: Text, b: Budget, depth: nat, done: Members<Raw>, r: Raw, x: Text, b': Budget)
    requires FitsString(key) && !HasKey(done, key) && SkipSpace(t) == t
    requires ParseValue(t, b, depth + 1) == Ok(Parsed(r, x, b'))
    requires StartsWith(x, RBRACE) || StartsWith(x, COMMA)
    ensures var whole := Quote(key) + [COLON] + t;
            var more := done + [Member(key, r)];
            && (StartsWith(x, RBRACE) ==>
                  ParseMembers(whole, b, depth, done) == Ok(Parsed(RObject(more), x[1..], b')))
            && (StartsWith(x, COMMA) && SkipSpace(x[1..]) == x[1..] ==>
                  ParseMembers(whole, b, depth, done) == ParseMembers(x[1..], b', depth, more))
  {
    var whole := Quote(key) + [COLON] + t;
    assert whole == Quote(key) + ([COLON] + t);
    ParsePrintString(key, [COLON] + t);
    AfterColon(t);
    hide ParseValue, ParseItems, ParseString, FitsString, Quote;
  }

  lemma ArrayFromItems(items: seq<Raw>, rest: Text, b: Budget, depth: nat, result: Result<Parsed<Raw>, Failure>)
    requires b.nodes + 1 <= NODES && depth <= DEPTH && ItemsOk(items)
    requires items != [] ==>
               result == ParseItems(PrintItems(items) + ([RBRACKET] + rest), b.(nodes := b.nodes + 1), depth, [])
    requires items == [] ==> result == Ok(Parsed(RArray([]), rest, b.(nodes := b.nodes + 1)))
    ensures ParseValue(Print(RArray(items)) + rest, b, depth) == result
  {
    hide ParseValue, ParseItems, ParseMembers, PrintItems, ItemsOk;
    var t := Print(RArray(items)) + rest;
    assert t[1..] == PrintItems(items) + ([RBRACKET] + rest);
    if items == [] {
      EmptyPrints();
      assert t[1..] == [RBRACKET] + rest && t[2..] == rest;
    } else {
      ItemsStart(items, [RBRACKET] + rest);
    }
    ParseArrayAt(t, b, depth);
  }

  lemma ObjectFromMembers(
    ms: Members<Raw>, rest: Text, b: Budget, depth: nat, result: Result<Parsed<Raw>, Failure>)
    requires b.nodes + 1 <= NODES && depth <= DEPTH
    requires ms != [] ==>
               result == ParseMembers(PrintMembers(ms) + ([RBRACE] + rest), b.(nodes := b.nodes + 1), depth, [])
    requires ms == [] ==> result == Ok(Parsed(RObject([]), rest, b.(nodes := b.nodes + 1)))
    ensures ParseValue(Print(RObject(ms)) + rest, b, depth) == result
  {
    hide ParseValue, ParseItems, ParseMembers, PrintMembers;
    var t := Print(RObject(ms)) + rest;
    assert t[1..] == PrintMembers(ms) + ([RBRACE] + rest);
    if ms == [] {
      EmptyPrints();
      assert t[1..] == [RBRACE] + rest && t[2..] == rest;
    } else {
      MembersStart(ms, [RBRACE] + rest);
    }
    ParseObjectAt(t, b, depth);
  }

  // Main result. Parsing the printed text of a tree within the limits gives the tree back,
  // leaves what follows, and counts exactly its nodes and number data.
  lemma {:induction false} ParsePrint(r: Raw, rest: Text, b: Budget, depth: nat)
    requires RawOk(r) && Within(r, b, depth) && Ends(rest)
    ensures ParseValue(Print(r) + rest, b, depth) == Ok(Parsed(r, rest, After(r, b)))
    decreases r, 0
  {
    hide ParseValue, ParseItems, ParseMembers, Ends, Print, PrintItems, PrintMembers, FitsString, N.Accepted;
    var b' := b.(nodes := b.nodes + 1);
    match r
    case RArray(items) =>
      if items != [] {
        ParsePrintItems(items, rest, b', depth, []);
        assert [] + items == items;
      }
      ArrayFromItems(items, rest, b, depth, Ok(Parsed(r, rest, After(r, b))));
    case RObject(ms) =>
      if ms != [] {
        assert [] + ms == ms;
        ParsePrintMembers(ms, rest, b', depth, []);
      }
      ObjectFromMembers(ms, rest, b, depth, Ok(Parsed(r, rest, After(r, b))));
    case _ => ParsePrintLeaf(r, rest, b, depth);
  }

  lemma EmptyPrints()
    ensures PrintItems([]) == [] && PrintMembers([]) == []
  {
  }

  lemma ItemsStart(items: seq<Raw>, rest: Text)
    requires items != [] && ItemsOk(items)
    ensures var t := PrintItems(items) + rest;
            t != [] && SkipSpace(t) == t && t[0] != RBRACKET
  {
    var tail := if |items| == 1 then rest else [COMMA] + PrintItems(items[1..]) + rest;
    assert PrintItems(items) + rest == Print(items[0]) + tail;
    PrintStarts(items[0], tail);
    PrintFirst(items[0]);
  }

  lemma PrintFirst(r: Raw)
    requires RawOk(r)
    ensures Print(r) != [] && Print(r)[0] != RBRACKET
  {
    if r.RNumber? {
      AcceptedIsNumber(r.token);
      FirstOfNumber(r.token);
    }
    hide N.Accepted, N.IsNumber, QuoteBody, PrintItems, PrintMembers;
  }

  lemma MembersStart(ms: Members<Raw>, rest: Text)
    requires ms != []
    ensures var t := PrintMembers(ms) + rest;
            t != [] && t[0] == QUOTE && SkipSpace(t) == t
  {
    hide QuoteBody;
  }

  // The text of some items: the first, and what follows it up to the closing bracket.
  function ItemsTail(items: seq<Raw>, rest: Text): Text
    requires items != []
  {
    if |items| == 1 then [RBRACKET] + rest else [COMMA] + (PrintItems(items[1..]) + ([RBRACKET] + rest))
  }

  lemma PrintItemsSplits(items: seq<Raw>, rest: Text)
    requires items != []
    ensures PrintItems(items) + ([RBRACKET] + rest) == Print(items[0]) + ItemsTail(items, rest)
  {
    var close := [RBRACKET] + rest;
    if |items| > 1 {
      assert PrintItems(items) == Print(items[0]) + [COMMA] + PrintItems(items[1..]);
      hide PrintItems, Print;
      Regroup(Print(items[0]), [COMMA], PrintItems(items[1..]), close);
    }
  }

  lemma ItemsTailShape(items: seq<Raw>, rest: Text)
    requires items != []
    ensures Ends(ItemsTail(items, rest))
    ensures |items| == 1 ==> StartsWith(ItemsTail(items, rest), RBRACKET) && ItemsTail(items, rest)[1..] == rest
    ensures |items| > 1 ==> StartsWith(ItemsTail(items, rest), COMMA)
                            && ItemsTail(items, rest)[1..] == PrintItems(items[1..]) + ([RBRACKET] + rest)
  {
    hide PrintItems;
  }

  predicate ItemsWithin(items: seq<Raw>, b: Budget, depth: nat) {
    && b.nodes + ItemNodes(items) <= NODES && depth + ItemHeight(items) <= DEPTH
    && b.bytes + ItemBytes(items) <= NUMBER_BYTES
  }

  function AfterItems(items: seq<Raw>, b: Budget): Budget {
    Budget(b.nodes + ItemNodes(items), b.bytes + ItemBytes(items))
  }

  // Taking the first item off.
  lemma ItemsSplit(items: seq<Raw>, b: Budget, depth: nat)
    requires items != [] && ItemsOk(items) && ItemsWithin(items, b, depth)
    ensures RawOk(items[0]) && Within(items[0], b, depth + 1)
    ensures ItemsOk(items[1..]) && ItemsWithin(items[1..], After(items[0], b), depth)
    ensures AfterItems(items, b) == AfterItems(items[1..], After(items[0], b))
    ensures |items| == 1 ==> AfterItems(items, b) == After(items[0], b)
  {
  }

  lemma {:induction false} ParsePrintItems(items: seq<Raw>, rest: Text, b: Budget, depth: nat, done: seq<Raw>)
    requires items != [] && ItemsOk(items) && ItemsWithin(items, b, depth)
    ensures ParseItems(PrintItems(items) + ([RBRACKET] + rest), b, depth, done)
         == Ok(Parsed(RArray(done + items), rest, AfterItems(items, b)))
    decreases items, 1
  {
    hide ParseValue, ParseItems, ParseMembers, Print, PrintItems, Ends, ItemsOk, ItemsWithin, AfterItems,
      RawOk, Within, After, ItemsTail, SkipSpace;
    var r := items[0];
    var x := ItemsTail(items, rest);
    ItemsSplit(items, b, depth);
    PrintItemsSplits(items, rest);
    ItemsTailShape(items, rest);
    ParsePrint(r, x, b, depth + 1);
    ParseItemsAt(Print(r) + x, b, depth, done, r, x, After(r, b));
    if |items| > 1 {
      ItemsStart(items[1..], [RBRACKET] + rest);
      ParsePrintItems(items[1..], rest, After(r, b), depth, done + [r]);
      assert done + [r] + items[1..] == done + items;
    } else {
      assert items == [r];
    }
  }

  // What follows the first member up to the closing brace.
  function MoreMembers(ms: Members<Raw>): Text
    requires ms != []
  {
    if |ms| == 1 then [] else [COMMA] + PrintMembers(ms[1..])
  }

  function MembersTail(ms: Members<Raw>, rest: Text): Text
    requires ms != []
  {
    MoreMembers(ms) + ([RBRACE] + rest)
  }

  lemma PrintFirstMember(ms: Members<Raw>)
    requires ms != []
    ensures PrintMembers(ms) == Quote(ms[0].key) + [COLON] + Print(ms[0].value) + MoreMembers(ms)
  {
  }

  lemma PrintMembersSplits(ms: Members<Raw>, rest: Text)
    requires ms != []
    ensures PrintMembers(ms) + ([RBRACE] + rest)
         == Quote(ms[0].key) + [COLON] + (Print(ms[0].value) + MembersTail(ms, rest))
  {
    PrintFirstMember(ms);
    hide PrintMembers, Print, Quote, MoreMembers;
    Regroup(Quote(ms[0].key) + [COLON], Print(ms[0].value), MoreMembers(ms), [RBRACE] + rest);
  }

  lemma MembersTailShape(ms: Members<Raw>, rest: Text)
    requires ms != []
    ensures Ends(MembersTail(ms, rest))
    ensures |ms| == 1 ==> StartsWith(MembersTail(ms, rest), RBRACE) && MembersTail(ms, rest)[1..] == rest
    ensures |ms| > 1 ==> StartsWith(MembersTail(ms, rest), COMMA)
                         && MembersTail(ms, rest)[1..] == PrintMembers(ms[1..]) + ([RBRACE] + rest)
  {
    hide PrintMembers;
  }

  lemma FreshKey(done: Members<Raw>, ms: Members<Raw>)
    requires ms != [] && DistinctKeys(done + ms)
    ensures !HasKey(done, ms[0].key)
  {
    assert (done + ms)[|done|] == ms[0];
    forall i | 0 <= i < |done| ensures done[i].key != ms[0].key {
      assert (done + ms)[i] == done[i];
    }
  }

  predicate MembersWithin(ms: Members<Raw>, b: Budget, depth: nat) {
    && b.nodes + MemberNodes(ms) <= NODES && depth + MemberHeight(ms) <= DEPTH
    && b.bytes + MemberBytes(ms) <= NUMBER_BYTES
  }

  function AfterMembers(ms: Members<Raw>, b: Budget): Budget {
    Budget(b.nodes + MemberNodes(ms), b.bytes + MemberBytes(ms))
  }

  // Taking the first member off.
  lemma MembersSplit(ms: Members<Raw>, b: Budget, depth: nat)
    requires ms != [] && MembersOk(ms) && MembersWithin(ms, b, depth)
    ensures FitsString(ms[0].key) && RawOk(ms[0].value) && Within(ms[0].value, b, depth + 1)
    ensures MembersOk(ms[1..]) && MembersWithin(ms[1..], After(ms[0].value, b), depth)
    ensures AfterMembers(ms, b) == AfterMembers(ms[1..], After(ms[0].value, b))
    ensures |ms| == 1 ==> AfterMembers(ms, b) == After(ms[0].value, b)
  {
  }

  lemma {:induction false} ParsePrintMembers(
    ms: Members<Raw>, rest: Text, b: Budget, depth: nat, done: Members<Raw>)
    requires ms != [] && MembersOk(ms) && DistinctKeys(done + ms) && MembersWithin(ms, b, depth)
    ensures ParseMembers(PrintMembers(ms) + ([RBRACE] + rest), b, depth, done)
         == Ok(Parsed(RObject(done + ms), rest, AfterMembers(ms, b)))
    decreases ms, 1
  {
    hide ParseValue, ParseItems, ParseMembers, Print, PrintMembers, Ends, MembersOk, MembersWithin, AfterMembers,
      RawOk, Within, After, MembersTail, SkipSpace, FitsString, HasKey, Quote, DistinctKeys;
    var m := ms[0];
    assert m.value < m && m == Member(m.key, m.value);
    var x := MembersTail(ms, rest);
    MembersSplit(ms, b, depth);
    FreshKey(done, ms);
    PrintMembersSplits(ms, rest);
    MembersTailShape(ms, rest);
    ParsePrint(m.value, x, b, depth + 1);
    PrintStarts(m.value, x);
    ParseMembersAt(m.key, Print(m.value) + x, b, depth, done, m.value, x, After(m.value, b));
    if |ms| > 1 {
      MembersStart(ms[1..], [RBRACE] + rest);
      assert done + [m] + ms[1..] == done + ms;
      ParsePrintMembers(ms[1..], rest, After(m.value, b), depth, done + [m]);
    } else {
      assert ms == [m];
    }
  }

  // A whole document: printing then parsing gives the same raw tree.
  lemma DocumentRoundTrip(r: Raw)
    requires RawOk(r) && Within(r, Budget(0, 0), 0) && Utf8Len(Print(r)) <= INPUT_BYTES
    ensures ParseDocument(Print(r)) == Ok(r)
  {
    PrintStarts(r, []);
    assert Print(r) + [] == Print(r);
    ParsePrint(r, [], Budget(0, 0), 0);
    hide ParseValue;
  }
}
