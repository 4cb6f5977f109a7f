/**
 ExactJsonParser of src/json-value.ts: the parser that advances an index through the
 input, proved equal to the parser on the remaining text.
 */
module JsonParser {
  import opened Wrappers
  import opened JsonText
  import opened JsonSort
  import opened JsonValue
  import P = JsonParse
  import N = JsonNumber

  type Failure = P.Failure

  // What JSON.parse makes of a string token whose escapes are well formed.
  function StringOfToken(token: Text): Option<Text> {
    if token == [] then None
    else
      var body := P.StringBody(token[1..]);
      if body.Some? && body.value.rest == [] then Some(body.value.value) else None
  }

  // How many units the first unit of a string is written with.
  function HeadLen(t: Text): nat
    requires t != []
  {
    if t[0] != BACKSLASH then 1 else if |t| > 1 && t[1] == 0x75 then 6 else 2
  }

  lemma HeadStep(t: Text)
    requires P.StringBody(t).Some? && t[0] != QUOTE
    ensures HeadLen(t) <= |t| && P.StringBody(t[HeadLen(t)..]).Some?
    ensures P.StringBody(t).value.rest == P.StringBody(t[HeadLen(t)..]).value.rest
  {
    hide P.HexUnit, P.Unescape;
  }

  // The same head before another text.
  lemma HeadAgain(t: Text, u: Text)
    requires P.StringBody(t).Some? && t[0] != QUOTE && HeadLen(t) <= |t|
    requires P.StringBody(u).Some? && P.StringBody(t[HeadLen(t)..]).Some?
    requires P.StringBody(u).value.value == P.StringBody(t[HeadLen(t)..]).value.value
    ensures P.StringBody(t[..HeadLen(t)] + u) == Some(P.Scanned(P.StringBody(t).value.value, P.StringBody(u).value.rest))
  {
    hide P.HexUnit, P.Unescape;
    var w := t[..HeadLen(t)] + u;
    assert w[HeadLen(t)..] == u;
    if HeadLen(t) == 6 {
      assert w[2..6] == t[2..6];
    }
  }

  // Scanning a string looks at nothing behind its closing quote.
  lemma {:induction false} StringBodyIsLocal(t: Text)
    requires P.StringBody(t).Some?
    ensures var s := P.StringBody(t).value;
            && t[|t| - |s.rest|..] == s.rest
            && P.StringBody(t[..|t| - |s.rest|]) == Some(P.Scanned(s.value, []))
    decreases |t|
  {
    var rest := P.StringBody(t).value.rest;
    var u := t[..|t| - |rest|];
    if t[0] == QUOTE {
      assert u == [QUOTE] && u[1..] == [];
    } else {
      hide P.StringBody;
      HeadStep(t);
      var t' := t[HeadLen(t)..];
      StringBodyIsLocal(t');
      var u' := t'[..|t'| - |rest|];
      assert u == t[..HeadLen(t)] + u';
      HeadAgain(t, u');
    }
  }

  predicate IsHex(t: Text) {
    |t| == 4 && forall c <- t :: P.HexValue(c).Some?
  }

  lemma HexUnits(t: Text)
    requires |t| == 4
    ensures IsHex(t) <==> P.HexUnit(t).Some?
  {
    hide P.HexValue;
    assert t == [t[0], t[1], t[2], t[3]];
  }

  lemma ScanEscape(t: Text)
    requires |t| >= 2 && t[0] == BACKSLASH
    ensures t[1] == 0x75 && |t| >= 6 && IsHex(t[2..6]) ==>
              P.HexUnit(t[2..6]).Some? && P.StringBody(t) == P.Prepend([P.HexUnit(t[2..6]).value], P.StringBody(t[6..]))
    ensures t[1] == 0x75 && !(|t| >= 6 && IsHex(t[2..6])) ==> P.StringBody(t) == None
    ensures t[1] != 0x75 && P.Unescape(t[1]).Some? ==>
              P.StringBody(t) == P.Prepend([P.Unescape(t[1]).value], P.StringBody(t[2..]))
    ensures t[1] != 0x75 && P.Unescape(t[1]).None? ==> P.StringBody(t) == None
  {
    if |t| >= 6 {
      HexUnits(t[2..6]);
    }
    hide P.HexUnit, IsHex;
  }

  lemma ScanHead(t: Text)
    requires t != []
    ensures t[0] == QUOTE ==> P.StringBody(t) == Some(P.Scanned([], t[1..]))
    ensures t[0] < 0x20 ==> P.StringBody(t) == None
    ensures t[0] >= 0x20 && t[0] != QUOTE && t[0] != BACKSLASH ==>
              P.StringBody(t) == P.Prepend([t[0]], P.StringBody(t[1..]))
    ensures t == [BACKSLASH] ==> P.StringBody(t) == None
  {
  }

  lemma TokenValue(body: Text, decoded: Text, left: Text)
    requires P.StringBody(body) == Some(P.Scanned(decoded, left))
    ensures |left| <= |body| && StringOfToken([QUOTE] + body[..|body| - |left|]) == Some(decoded)
  {
    hide P.StringBody;
    StringBodyIsLocal(body);
    TokenOf(body[..|body| - |left|], decoded);
  }

  lemma TokenOf(u: Text, decoded: Text)
    requires P.StringBody(u) == Some(P.Scanned(decoded, []))
    ensures StringOfToken([QUOTE] + u) == Some(decoded)
  {
    assert ([QUOTE] + u)[1..] == u;
    hide P.StringBody;
  }

  class ExactJsonParser {
    const input: Text
    var index: nat
    var nodes: nat
    var canonicalBytes: nat

    constructor (input: Text)
      ensures this.input == input && index == 0 && nodes == 0 && canonicalBytes == 0
    {
      this.input := input;
      index, nodes, canonicalBytes := 0, 0, 0;
    }

    ghost predicate Valid()
      reads this
    {
      index <= |input|
    }

    ghost function Left(): Text
      requires Valid()
      reads this
    {
      input[index..]
    }

    ghost function Spent(): P.Budget
      reads this
    {
      P.Budget(nodes, canonicalBytes)
    }

    // The outcome of a method is the outcome of the parser on the text that was left.
    ghost predicate Agrees(r: Result<Raw, Failure>, spec: Result<P.Parsed<Raw>, Failure>)
      reads this
    {
      if r.Err? then spec == Err(r.error) else Valid() && spec == Ok(P.Parsed(r.value, Left(), Spent()))
    }

    method SkipWhitespace()
      requires Valid()
      modifies this`index
      ensures Valid() && Left() == P.SkipSpace(old(Left()))
    {
      while index < |input| && P.IsSpace(input[index])
        invariant Valid() && P.SkipSpace(Left()) == P.SkipSpace(old(Left()))
      {
        assert Left()[1..] == input[index + 1..];
        index := index + 1;
      }
    }

    method SkipDigits() returns (n: nat)
      requires Valid()
      modifies this`index
      ensures Valid() && n == LeadingDigits(old(Left())) && index == old(index) + n
    {
      n := 0;
      while index < |input| && IsDigit(input[index])
        invariant Valid() && index == old(index) + n && n + LeadingDigits(Left()) == LeadingDigits(old(Left()))
      {
        assert Left()[1..] == input[index + 1..];
        index, n := index + 1, n + 1;
      }
    }

    // The rest of an escape, after its backslash.
    method SkipEscape() returns (ok: bool, ghost unit: Unit)
      requires Valid()
      modifies this`index
      ensures ok ==> Valid() && index > old(index)
      ensures P.StringBody([BACKSLASH] + old(Left()))
           == if ok then P.Prepend([unit], P.StringBody(Left())) else None
    {
      hide P.HexUnit, IsHex, P.StringBody, P.Unescape;
      ghost var left := [BACKSLASH] + Left();
      ok, unit := false, 0;
      if index >= |input| {
        assert left == [BACKSLASH];
        ScanHead(left);
        return;
      }
      ScanEscape(left);
      var escape := input[index];
      index := index + 1;
      assert left[2..] == Left() && left[1] == escape;
      if escape == 0x75 {
        assert |left| >= 6 ==> left[2..6] == input[index..index + 4] && left[6..] == input[index + 4..];
        if index + 4 > |input| || !IsHex(input[index..index + 4]) {
          return;
        }
        unit := P.HexUnit(left[2..6]).value;
        index := index + 4;
      } else {
        if P.Unescape(escape).None? {
          return;
        }
        unit := P.Unescape(escape).value;
      }
      ok := true;
    }

    // parseString.
    method ParseString() returns (r: Result<Text, Failure>)
      requires Valid() && StartsWith(Left(), QUOTE)
      modifies this`index
      ensures r.Err? ==> P.ParseString(old(Left())) == Err(r.error)
      ensures r.Ok? ==> Valid() && P.ParseString(old(Left())) == Ok(P.Scanned(r.value, Left()))
    {
      hide FitsString, P.StringBody, StringOfToken;
      var start := index;
      index := index + 1;
      ghost var body := input[start + 1..];
      assert old(Left())[1..] == body;
      ghost var decoded: Text := [];
      EmptyPrefix(P.StringBody(body));
      while index < |input|
        invariant start < index && Valid()
        invariant P.StringBody(body) == P.Prepend(decoded, P.StringBody(Left()))
      {
        ghost var left := Left();
        var code := input[index];
        index := index + 1;
        assert left[1..] == Left() && left == [code] + Left();
        ScanHead(left);
        if code == QUOTE {
          assert decoded + [] == decoded;
          var token := input[start..index];
          TokenValue(body, decoded, Left());
          assert token == [QUOTE] + body[..|body| - |Left()|];
          var value := StringOfToken(token).value;
          if !FitsString(value) {
            return Err(P.StringTooLong);
          }
          return Ok(value);
        }
        if code < 0x20 {
          return Err(P.Malformed);
        }
        ghost var unit := code;
        if code == BACKSLASH {
          var ok;
          ok, unit := SkipEscape();
          if !ok {
            return Err(P.Malformed);
          }
        }
        P.PrependTwice(decoded, [unit], P.StringBody(Left()));
        decoded := decoded + [unit];
      }
      EmptyScan(Left());
      return Err(P.Malformed);
    }

    // The digits before the fraction.
    method SkipInteger() returns (ok: bool)
      requires Valid()
      modifies this`index
      ensures Valid() && index >= old(index)
      ensures N.IntegerLen(old(Left())) == if ok then Some(index - old(index)) else None
    {
      ghost var left := Left();
      if index < |input| && input[index] == ZERO {
        index := index + 1;
        ok := !(index < |input| && IsDigit(input[index]));
      } else {
        if !(index < |input| && IsDigit(input[index])) {
          return false;
        }
        var n := SkipDigits();
        ok := true;
      }
    }

    method SkipFraction() returns (ok: bool)
      requires Valid()
      modifies this`index
      ensures Valid() && index >= old(index)
      ensures N.FractionLen(old(Left())) == if ok then Some(index - old(index)) else None
    {
      ok := true;
      if index < |input| && input[index] == DOT {
        assert Left()[1..] == input[index + 1..];
        index := index + 1;
        var n := SkipDigits();
        ok := n > 0;
      }
    }

    method SkipExponent() returns (ok: bool)
      requires Valid()
      modifies this`index
      ensures Valid() && index >= old(index)
      ensures N.ExponentLen(old(Left())) == if ok then Some(index - old(index)) else None
    {
      ok := true;
      if index < |input| && (input[index] == LOWER_E || input[index] == UPPER_E) {
        ghost var after := input[index + 1..];
        assert Left()[1..] == after;
        index := index + 1;
        if index < |input| && (input[index] == PLUS || input[index] == MINUS) {
          index := index + 1;
        }
        assert old(Left())[1 + N.SignLen(after)..] == Left();
        var n := SkipDigits();
        ok := n > 0;
      }
    }

    // The token that the input starts with.
    method SkipNumber() returns (ok: bool)
      requires Valid()
      modifies this`index
      ensures Valid() && index >= old(index)
      ensures N.NumberLen(old(Left())) == if ok then Some(index - old(index)) else None
    {
      hide N.IntegerLen, N.FractionLen, N.ExponentLen, N.NumberLen;
      ghost var t := Left();
      var start := index;
      if index < |input| && input[index] == MINUS {
        index := index + 1;
      }
      ghost var m := index - start;
      assert m == N.MinusLen(t) && t[m..] == Left();
      ok := SkipInteger();
      ghost var i := index - start;
      assert t[i..] == Left();
      if !ok {
        NoInteger(t);
        return;
      }
      ok := SkipFraction();
      ghost var f := index - start;
      assert t[f..] == Left();
      if !ok {
        NoFraction(t, m, i - m);
        return;
      }
      ok := SkipExponent();
      if ok {
        N.NumberFromPieces(t, m, i - m, f - i, index - start - f);
      } else {
        NoExponentPart(t, m, i - m, f - i);
      }
    }

    method ReserveCanonicalNumberBytes(bytes: nat) returns (ok: bool)
      modifies this`canonicalBytes
      ensures canonicalBytes == old(canonicalBytes) + bytes && (ok <==> canonicalBytes <= NUMBER_BYTES)
    {
      canonicalBytes := canonicalBytes + bytes;
      return canonicalBytes <= NUMBER_BYTES;
    }

    // parseNumber.
    method ParseNumber() returns (r: Result<Raw, Failure>)
      requires Valid()
      modifies this`index, this`canonicalBytes
      ensures Agrees(r, P.ParseNumber(old(Left()), old(Spent())))
    {
      hide N.NumberLen, N.Analyze, N.CanonicalLength;
      var start := index;
      var ok := SkipNumber();
      if !ok {
        return Err(P.Malformed);
      }
      var token := input[start..index];
      assert old(Left())[..index - start] == token && old(Left())[index - start..] == Left();
      if |token| > N.TOKEN_LENGTH {
        return Err(P.NumberTooLong);
      }
      var analysis := N.Analyze(token);
      if analysis.Err? {
        return Err(P.BadNumber(analysis.error));
      }
      var reserved := ReserveCanonicalNumberBytes(N.CanonicalLength(token));
      if !reserved {
        return Err(P.TooMuchNumberData);
      }
      return Ok(RNumber(token));
    }

    // parseKeyword.
    method ParseKeyword(keyword: Text, value: Raw) returns (r: Result<Raw, Failure>)
      requires Valid() && keyword != []
      modifies this`index
      ensures Agrees(r, P.ParseKeyword(old(Left()), keyword, value, old(Spent())))
    {
      assert index + |keyword| <= |input| ==> Left()[..|keyword|] == input[index..index + |keyword|];
      if !(index + |keyword| <= |input| && input[index..index + |keyword|] == keyword) {
        return Err(P.Malformed);
      }
      assert Left()[..|keyword|] == keyword;
      assert Left()[|keyword|..] == input[index + |keyword|..];
      index := index + |keyword|;
      return Ok(value);
    }

    // One member of an object: its key, a colon and its value.
    method ParseMember(depth: nat, keys: set<Text>, ghost done: Members<Raw>) returns (r: Result<Member<Raw>, Failure>)
      requires Valid() && forall k :: k in keys <==> P.HasKey(done, k)
      modifies this
      ensures r.Err? ==> ReadMember(old(Left()), old(Spent()), depth, done) == Err(r.error)
      ensures r.Ok? ==>
                Valid() && ReadMember(old(Left()), old(Spent()), depth, done) == Ok(P.Parsed(r.value, Left(), Spent()))
      decreases |input| - index, 2
    {
      hide P.ParseValue, P.ParseString, P.HasKey, P.SkipSpace;
      if !(index < |input| && input[index] == QUOTE) {
        return Err(P.Malformed);
      }
      var key := ParseString();
      if key.Err? {
        return Err(key.error);
      }
      if key.value in keys {
        return Err(P.DuplicateKey);
      }
      SkipWhitespace();
      if !(index < |input| && input[index] == COLON) {
        return Err(P.Malformed);
      }
      assert Left()[1..] == input[index + 1..];
      index := index + 1;
      SkipWhitespace();
      var value := ParseValue(depth + 1);
      if value.Err? {
        return Err(value.error);
      }
      return Ok(Member(key.value, value.value));
    }

    // parseObject, from the opening brace.
    method ParseObject(depth: nat) returns (r: Result<Raw, Failure>)
      requires Valid() && StartsWith(Left(), LBRACE)
      modifies this
      ensures Agrees(r, ObjectSpec(old(Left()), old(Spent()), depth))
      decreases |input| - index, 0
    {
      hide P.ParseMembers, P.ParseValue, ReadMember, P.SkipSpace;
      assert Left()[1..] == input[index + 1..];
      index := index + 1;
      SkipWhitespace();
      if index < |input| && input[index] == RBRACE {
        assert Left()[1..] == input[index + 1..];
        index := index + 1;
        return Ok(RObject([]));
      }
      ghost var spec := P.ParseMembers(Left(), Spent(), depth, []);
      var result: Members<Raw> := [];
      var keys: set<Text> := {};
      while index < |input|
        invariant Valid() && index > old(index)
        invariant forall k :: k in keys <==> P.HasKey(result, k)
        invariant spec == P.ParseMembers(Left(), Spent(), depth, result)
        decreases |input| - index
      {
        MembersTurn(Left(), Spent(), depth, result);
        var member := ParseMember(depth, keys, result);
        if member.Err? {
          return Err(member.error);
        }
        AddKey(result, member.value);
        result, keys := result + [member.value], keys + {member.value.key};
        SkipWhitespace();
        if !(index < |input| && (input[index] == RBRACE || input[index] == COMMA)) {
          return Err(P.Malformed);
        }
        assert Left()[1..] == input[index + 1..];
        var separator := input[index];
        index := index + 1;
        if separator == RBRACE {
          return Ok(RObject(result));
        }
        SkipWhitespace();
      }
      MembersTurn(Left(), Spent(), depth, result);
      NothingLeft(Left(), Spent(), depth, result);
      return Err(P.Malformed);
    }

    // parseArray, from the opening bracket.
    method ParseArray(depth: nat) returns (r: Result<Raw, Failure>)
      requires Valid() && StartsWith(Left(), LBRACKET)
      modifies this
      ensures Agrees(r, ArraySpec(old(Left()), old(Spent()), depth))
      decreases |input| - index, 0
    {
      hide P.ParseItems, P.ParseValue, P.SkipSpace;
      assert Left()[1..] == input[index + 1..];
      index := index + 1;
      SkipWhitespace();
      if index < |input| && input[index] == RBRACKET {
        assert Left()[1..] == input[index + 1..];
        index := index + 1;
        return Ok(RArray([]));
      }
      ghost var spec := P.ParseItems(Left(), Spent(), depth, []);
      var result: seq<Raw> := [];
      while index < |input|
        invariant Valid() && index > old(index)
        invariant spec == P.ParseItems(Left(), Spent(), depth, result)
        decreases |input| - index
      {
        ItemsTurn(Left(), Spent(), depth, result);
        var item := ParseValue(depth + 1);
        if item.Err? {
          return Err(item.error);
        }
        result := result + [item.value];
        SkipWhitespace();
        if !(index < |input| && (input[index] == RBRACKET || input[index] == COMMA)) {
          return Err(P.Malformed);
        }
        assert Left()[1..] == input[index + 1..];
        var separator := input[index];
        index := index + 1;
        if separator == RBRACKET {
          return Ok(RArray(result));
        }
        SkipWhitespace();
      }
      NoItemsLeft(Left(), Spent(), depth, result);
      return Err(P.Malformed);
    }

    // parseValue.
    method ParseValue(depth: nat) returns (r: Result<Raw, Failure>)
      requires Valid()
      modifies this
      ensures Agrees(r, P.ParseValue(old(Left()), old(Spent()), depth))
      decreases |input| - index, 1
    {
      hide P.ParseItems, P.ParseMembers, P.ParseString, P.ParseNumber, P.ParseKeyword, P.SkipSpace, Ascii;
      nodes := nodes + 1;
      if nodes > NODES {
        return Err(P.TooManyNodes);
      }
      if depth > DEPTH {
        return Err(P.TooDeep);
      }
      if index >= |input| {
        return Err(P.Malformed);
      }
      var first := input[index];
      if first == QUOTE {
        var s := ParseString();
        return if s.Err? then Err(s.error) else Ok(RString(s.value));
      }
      if first == LBRACE {
        r := ParseObject(depth);
      } else if first == LBRACKET {
        r := ParseArray(depth);
      } else if first == 0x74 {
        r := ParseKeyword(Ascii("true"), RBool(true));
      } else if first == 0x66 {
        r := ParseKeyword(Ascii("false"), RBool(false));
      } else if first == 0x6E {
        r := ParseKeyword(Ascii("null"), RNull);
      } else if first == MINUS || IsDigit(first) {
        r := ParseNumber();
      } else {
        r := Err(P.Malformed);
      }
    }

    // parse.
    method Parse() returns (r: Result<Raw, Failure>)
      requires index == 0 && nodes == 0 && canonicalBytes == 0
      modifies this
      ensures Utf8Len(input) <= INPUT_BYTES ==> r == P.ParseDocument(input)
    {
      hide P.ParseValue, P.SkipSpace, Utf8Len;
      assert Left() == input;
      SkipWhitespace();
      var value := ParseValue(0);
      if value.Err? {
        return value;
      }
      SkipWhitespace();
      if index != |input| {
        return Err(P.Malformed);
      }
      return value;
    }
  }

  // parseJsonResult up to decoding: the size of the input is checked first.
  method ParseText(text: Text) returns (r: Result<Raw, Failure>)
    ensures r == P.ParseDocument(text)
  {
    hide P.ParseValue, Utf8Len;
    if Utf8Len(text) > INPUT_BYTES {
      return Err(P.InputTooLong);
    }
    var parser := new ExactJsonParser(text);
    r := parser.Parse();
  }

  // ------------------------------------------------- number tokens that fail

  lemma NoInteger(t: Text)
    requires N.IntegerLen(t[N.MinusLen(t)..]).None?
    ensures N.NumberLen(t) == None
  {
    hide N.IntegerLen, N.FractionLen, N.ExponentLen, N.MinusLen;
  }

  lemma NoFraction(t: Text, m: nat, i: nat)
    requires m == N.MinusLen(t) && N.IntegerLen(t[m..]) == Some(i) && m + i <= |t|
    requires N.FractionLen(t[m + i..]).None?
    ensures N.NumberLen(t) == None
  {
    hide N.IntegerLen, N.FractionLen, N.ExponentLen, N.MinusLen;
  }

  lemma NoExponentPart(t: Text, m: nat, i: nat, f: nat)
    requires m == N.MinusLen(t) && N.IntegerLen(t[m..]) == Some(i) && m + i + f <= |t|
    requires N.FractionLen(t[m + i..]) == Some(f) && N.ExponentLen(t[m + i + f..]).None?
    ensures N.NumberLen(t) == None
  {
    hide N.IntegerLen, N.FractionLen, N.ExponentLen, N.MinusLen;
  }

  // --------------------------------------------------------- turns of the loops

  // What the parser does at an opening brace or bracket.
  function ObjectSpec(t: Text, b: P.Budget, depth: nat): Result<P.Parsed<Raw>, Failure>
    requires StartsWith(t, LBRACE)
  {
    var u := P.SkipSpace(t[1..]);
    if StartsWith(u, RBRACE) then Ok(P.Parsed(RObject([]), u[1..], b)) else P.ParseMembers(u, b, depth, [])
  }

  function ArraySpec(t: Text, b: P.Budget, depth: nat): Result<P.Parsed<Raw>, Failure>
    requires StartsWith(t, LBRACKET)
  {
    var u := P.SkipSpace(t[1..]);
    if StartsWith(u, RBRACKET) then Ok(P.Parsed(RArray([]), u[1..], b)) else P.ParseItems(u, b, depth, [])
  }

  function ReadMember(t: Text, b: P.Budget, depth: nat, done: Members<Raw>)
    : (r: Result<P.Parsed<Member<Raw>>, Failure>)
    ensures r.Ok? ==> |r.value.rest| < |t|
  {
    if !StartsWith(t, QUOTE) then Err(P.Malformed)
    else
      var key := P.ParseString(t);
      if key.Err? then Err(key.error)
      else if P.HasKey(done, key.value.value) then Err(P.DuplicateKey)
      else
        var u := P.SkipSpace(key.value.rest);
        if !StartsWith(u, COLON) then Err(P.Malformed)
        else
          var v := P.ParseValue(P.SkipSpace(u[1..]), b, depth + 1);
          if v.Err? then Err(v.error)
          else Ok(P.Parsed(Member(key.value.value, v.value.value), v.value.rest, v.value.budget))
  }

  function AfterMember(p: P.Parsed<Member<Raw>>, depth: nat, done: Members<Raw>): Result<P.Parsed<Raw>, Failure> {
    var x := P.SkipSpace(p.rest);
    if StartsWith(x, RBRACE) then Ok(P.Parsed(RObject(done + [p.value]), x[1..], p.budget))
    else if StartsWith(x, COMMA) then P.ParseMembers(P.SkipSpace(x[1..]), p.budget, depth, done + [p.value])
    else Err(P.Malformed)
  }

  lemma MembersTurn(t: Text, b: P.Budget, depth: nat, done: Members<Raw>)
    ensures var r := ReadMember(t, b, depth, done);
            P.ParseMembers(t, b, depth, done) == if r.Err? then Err(r.error) else AfterMember(r.value, depth, done)
  {
    hide P.ParseValue, P.ParseString, P.HasKey, P.SkipSpace;
  }

  lemma NothingLeft(t: Text, b: P.Budget, depth: nat, done: Members<Raw>)
    requires t == []
    ensures ReadMember(t, b, depth, done) == Err(P.Malformed)
  {
  }

  lemma AddKey(done: Members<Raw>, m: Member<Raw>)
    ensures forall k :: P.HasKey(done + [m], k) <==> P.HasKey(done, k) || k == m.key
  {
    forall k | P.HasKey(done, k) || k == m.key ensures P.HasKey(done + [m], k) {
      if P.HasKey(done, k) {
        var i :| 0 <= i < |done| && done[i].key == k;
        assert (done + [m])[i].key == k;
      } else {
        assert (done + [m])[|done|].key == k;
      }
    }
  }

  function AfterItem(p: P.Parsed<Raw>, depth: nat, done: seq<Raw>): Result<P.Parsed<Raw>, Failure> {
    var x := P.SkipSpace(p.rest);
    if StartsWith(x, RBRACKET) then Ok(P.Parsed(RArray(done + [p.value]), x[1..], p.budget))
    else if StartsWith(x, COMMA) then P.ParseItems(P.SkipSpace(x[1..]), p.budget, depth, done + [p.value])
    else Err(P.Malformed)
  }

  lemma ItemsTurn(t: Text, b: P.Budget, depth: nat, done: seq<Raw>)
    requires t != []
    ensures var r := P.ParseValue(t, b, depth + 1);
            P.ParseItems(t, b, depth, done) == if r.Err? then Err(r.error) else AfterItem(r.value, depth, done)
  {
    hide P.ParseValue, P.SkipSpace;
  }

  lemma NoItemsLeft(t: Text, b: P.Budget, depth: nat, done: seq<Raw>)
    requires t == []
    ensures P.ParseItems(t, b, depth, done) == Err(P.Malformed)
  {
  }

  lemma EmptyScan(t: Text)
    requires t == []
    ensures P.StringBody(t) == None
  {
  }

  lemma EmptyPrefix(r: Option<P.Scanned>)
    ensures P.Prepend([], r) == r
  {
    if r.Some? {
      assert [] + r.value.value == r.value.value;
    }
  }
}
