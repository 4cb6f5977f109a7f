/**
 The bytes that a text is sent as: UTF-8 (RFC 3629, section 3) of its code points, and that an
 encoded document survives them.
 */
module JsonBytesSent {
  import opened Wrappers
  import opened JsonText
  import opened JsonSort
  import opened JsonValue
  import opened JsonParse
  import opened JsonEncode
  import opened JsonBytes
  import N = JsonNumber

  // --------------------------------------------------------------- code points

  predicate Leading(c: Unit) {
    0xD800 <= c < 0xDC00
  }

  predicate Trailing(c: Unit) {
    0xDC00 <= c < 0xE000
  }

  // The code points of a text; a surrogate that is not part of a pair is replaced.
  function Points(t: Text): seq<nat> {
    if t == [] then []
    else if Leading(t[0]) && |t| > 1 && Trailing(t[1]) then
      [0x10000 + (t[0] - 0xD800) * 0x400 + (t[1] - 0xDC00)] + Points(t[2..])
    else [if Leading(t[0]) || Trailing(t[0]) then 0xFFFD else t[0]] + Points(t[1..])
  }

  function PointUnits(p: nat): Text {
    if p < 0x10000 then [p] else [0xD800 + (p - 0x10000) / 0x400, 0xDC00 + (p - 0x10000) % 0x400]
  }

  function UnitsOf(ps: seq<nat>): Text {
    if ps == [] then [] else PointUnits(ps[0]) + UnitsOf(ps[1..])
  }

  // Every surrogate is part of a pair.
  predicate Paired(t: Text) {
    if t == [] then true
    else if Leading(t[0]) then |t| > 1 && Trailing(t[1]) && Paired(t[2..])
    else !Trailing(t[0]) && Paired(t[1..])
  }

  predicate SixteenBit(t: Text) {
    forall c <- t :: c < 0x10000
  }

  lemma PairUnits(high: Unit, low: Unit)
    requires Leading(high) && Trailing(low)
    ensures var p := 0x10000 + (high - 0xD800) * 0x400 + (low - 0xDC00); p < 0x110000 && PointUnits(p) == [high, low]
  {
  }

  predicate Scalar(p: nat) {
    p < 0x110000 && !(0xD800 <= p < 0xE000)
  }

  // What a text starts with is one code point, and the rest is paired again.
  lemma FirstPoint(t: Text) returns (p: nat, k: nat)
    requires t != [] && Paired(t) && t[0] < 0x10000
    ensures 0 < k <= |t| && Points(t) == [p] + Points(t[k..])
    ensures Scalar(p) && PointUnits(p) == t[..k] && Paired(t[k..])
  {
    if Leading(t[0]) {
      PairUnits(t[0], t[1]);
      p, k := 0x10000 + (t[0] - 0xD800) * 0x400 + (t[1] - 0xDC00), 2;
      hide PointUnits;
    } else {
      p, k := t[0], 1;
    }
  }

  lemma {:induction false} PairedUnits(t: Text)
    requires Paired(t) && SixteenBit(t)
    ensures UnitsOf(Points(t)) == t && forall p <- Points(t) :: Scalar(p)
    decreases |t|
  {
    if t == [] {
    } else {
      assert t[0] in t;
      var p, k := FirstPoint(t);
      hide Points, PointUnits, Paired, Scalar;
      assert forall c <- t[k..] :: c in t;
      PairedUnits(t[k..]);
      assert Points(t)[1..] == Points(t[k..]) && t == t[..k] + t[k..];
    }
  }

  // ---------------------------------------------------------------------- bytes

  function PointBytes(p: nat): seq<nat> {
    if p < 0x80 then [p]
    else if p < 0x800 then [0xC0 + p / 0x40, 0x80 + p % 0x40]
    else if p < 0x10000 then [0xE0 + p / 0x1000, 0x80 + p / 0x40 % 0x40, 0x80 + p % 0x40]
    else [0xF0 + p / 0x40000, 0x80 + p / 0x1000 % 0x40, 0x80 + p / 0x40 % 0x40, 0x80 + p % 0x40]
  }

  function BytesOf(ps: seq<nat>): seq<nat> {
    if ps == [] then [] else PointBytes(ps[0]) + BytesOf(ps[1..])
  }

  // What TextEncoder writes.
  function Utf8(t: Text): seq<nat> {
    BytesOf(Points(t))
  }

  // The code points that bytes stand for.
  function ReadPoints(b: seq<nat>): seq<nat> {
    if b == [] then []
    else if b[0] < 0x80 then [b[0]] + ReadPoints(b[1..])
    else if 0xC0 <= b[0] < 0xE0 && |b| > 1 && 0x80 <= b[1] then
      [(b[0] - 0xC0) * 0x40 + (b[1] - 0x80)] + ReadPoints(b[2..])
    else if 0xE0 <= b[0] < 0xF0 && |b| > 2 && 0x80 <= b[1] && 0x80 <= b[2] then
      [((b[0] - 0xE0) * 0x40 + (b[1] - 0x80)) * 0x40 + (b[2] - 0x80)] + ReadPoints(b[3..])
    else if 0xF0 <= b[0] && |b| > 3 && 0x80 <= b[1] && 0x80 <= b[2] && 0x80 <= b[3] then
      [(((b[0] - 0xF0) * 0x40 + (b[1] - 0x80)) * 0x40 + (b[2] - 0x80)) * 0x40 + (b[3] - 0x80)] + ReadPoints(b[4..])
    else [0xFFFD] + ReadPoints(b[1..])
  }

  lemma OneOrTwoBytes(p: nat, rest: seq<nat>)
    requires p < 0x800
    ensures ReadPoints(PointBytes(p) + rest) == [p] + ReadPoints(rest)
  {
    var b := PointBytes(p) + rest;
    assert b[|PointBytes(p)|..] == rest;
  }

  lemma ThreeBytes(p: nat, a: nat, b: nat, c: nat, rest: seq<nat>)
    requires 0x800 <= p < 0x10000 && PointBytes(p) == [a, b, c]
    ensures ReadPoints([a, b, c] + rest) == [p] + ReadPoints(rest)
  {
    var t := [a, b, c] + rest;
    assert t[3..] == rest;
  }

  lemma FourDigits(p: nat)
    ensures p / 0x40000 * 0x40 + p / 0x1000 % 0x40 == p / 0x1000
    ensures p / 0x1000 * 0x40 + p / 0x40 % 0x40 == p / 0x40
    ensures p / 0x40 * 0x40 + p % 0x40 == p
  {
  }

  lemma FourBytes(p: nat, a: nat, b: nat, c: nat, d: nat, rest: seq<nat>)
    requires 0x10000 <= p < 0x110000
    requires a == 0xF0 + p / 0x40000 && b == 0x80 + p / 0x1000 % 0x40
    requires c == 0x80 + p / 0x40 % 0x40 && d == 0x80 + p % 0x40
    ensures ReadPoints([a, b, c, d] + rest) == [p] + ReadPoints(rest)
  {
    FourDigits(p);
    hide PointBytes;
    var t := [a, b, c, d] + rest;
    assert t[4..] == rest;
  }

  lemma PointIsRead(p: nat, rest: seq<nat>)
    requires p < 0x110000
    ensures ReadPoints(PointBytes(p) + rest) == [p] + ReadPoints(rest)
  {
    hide ReadPoints;
    var b := PointBytes(p);
    if p < 0x800 {
      OneOrTwoBytes(p, rest);
    } else if p < 0x10000 {
      ThreeBytes(p, b[0], b[1], b[2], rest);
    } else {
      FourBytes(p, b[0], b[1], b[2], b[3], rest);
    }
  }

  lemma {:induction false} PointsAreRead(ps: seq<nat>)
    requires forall p <- ps :: p < 0x110000
    ensures ReadPoints(BytesOf(ps)) == ps
  {
    if ps == [] {
    } else {
      hide ReadPoints, PointBytes;
      assert ps[0] in ps && forall p <- ps[1..] :: p in ps;
      PointsAreRead(ps[1..]);
      PointIsRead(ps[0], BytesOf(ps[1..]));
      assert ps == [ps[0]] + ps[1..];
    }
  }

  // The number of bytes that the limits count is the number of bytes that are sent.
  lemma {:induction false} Utf8LenIsBytes(t: Text)
    requires SixteenBit(t)
    ensures Utf8Len(t) == |Utf8(t)|
    decreases |t|
  {
    if t == [] {
    } else {
      assert t[0] in t && forall c <- t[1..] :: c in t;
      if Leading(t[0]) && |t| > 1 && Trailing(t[1]) {
        assert forall c <- t[2..] :: c in t;
        Utf8LenIsBytes(t[2..]);
        assert Points(t)[1..] == Points(t[2..]);
      } else {
        Utf8LenIsBytes(t[1..]);
        assert Points(t)[1..] == Points(t[1..]);
      }
    }
  }

  // ------------------------------------------------------------ encoded documents

  lemma {:induction false} PairedAppend(a: Text, b: Text)
    requires Paired(a) && Paired(b)
    ensures Paired(a + b)
    decreases |a|
  {
    if a == [] {
      assert a + b == b;
    } else if Leading(a[0]) {
      assert (a + b)[2..] == a[2..] + b;
      PairedAppend(a[2..], b);
    } else {
      assert (a + b)[1..] == a[1..] + b;
      PairedAppend(a[1..], b);
    }
  }

  lemma {:induction false} PlainIsPaired(t: Text)
    requires forall c <- t :: c < 0x80
    ensures Paired(t)
  {
    if t == [] {
    } else {
      assert t[0] in t && forall c <- t[1..] :: c in t;
      PlainIsPaired(t[1..]);
    }
  }

  lemma UnitTextPaired(s: Text)
    requires s != []
    ensures Paired(UnitText(s))
  {
    if ShortEscape(s[0]).Some? || s[0] < 0x20 || (UnitCount(s) == 1 && (IsHigh(s[0]) || IsLow(s[0]))) {
      EscapeIsPlain(s);
      PlainIsPaired(UnitText(s));
    } else if UnitCount(s) == 2 {
      assert [s[0], s[1]][2..] == [];
    } else {
      assert [s[0]][1..] == [];
    }
  }

  lemma EscapeIsPlain(s: Text)
    requires s != [] && (ShortEscape(s[0]).Some? || s[0] < 0x20 || (UnitCount(s) == 1 && (IsHigh(s[0]) || IsLow(s[0]))))
    ensures forall c <- UnitText(s) :: c < 0x80
  {
  }

  lemma {:induction false} QuotePaired(s: Text)
    ensures Paired(QuoteBody(s))
    decreases |s|
  {
    if s == [] {
    } else {
      UnitTextPaired(s);
      QuotePaired(s[UnitCount(s)..]);
      hide UnitText, Paired, UnitCount;
      PairedAppend(UnitText(s), QuoteBody(s[UnitCount(s)..]));
    }
  }

  lemma WrapPaired(open: Unit, t: Text, close: Unit)
    requires open < 0x80 && close < 0x80 && Paired(t)
    ensures Paired([open] + t + [close])
  {
    PlainIsPaired([open]);
    PlainIsPaired([close]);
    PairedAppend([open], t);
    PairedAppend([open] + t, [close]);
  }

  lemma NumberPaired(token: Text)
    requires N.Accepted(token)
    ensures Paired(token)
  {
    hide Paired;
    assert N.IsNumber(token);
    hide N.Accepted, N.IsNumber;
    NumberAscii(token);
    PlainIsPaired(token);
  }

  lemma WordPaired(r: Raw)
    requires r.RNull? || r.RBool?
    ensures Paired(Print(r))
  {
    hide Paired;
    PlainIsPaired(Print(r));
  }

  lemma StringPaired(s: Text)
    ensures Paired(Quote(s))
  {
    hide Paired, QuoteBody;
    QuotePaired(s);
    WrapPaired(QUOTE, QuoteBody(s), QUOTE);
  }

  lemma {:induction false} PrintPaired(r: Raw)
    requires RawOk(r)
    ensures Paired(Print(r))
    decreases r, 0
  {
    hide Paired, N.Accepted, Quote;
    match r
    case RNull => WordPaired(r);
    case RBool(_) => WordPaired(r);
    case RString(s) => StringPaired(s);
    case RNumber(token) => NumberPaired(token);
    case RArray(items) =>
      ItemsPaired(items);
      hide PrintItems;
      WrapPaired(LBRACKET, PrintItems(items), RBRACKET);
    case RObject(ms) =>
      MembersPaired(ms);
      hide PrintMembers;
      WrapPaired(LBRACE, PrintMembers(ms), RBRACE);
  }

  lemma {:induction false} ItemsPaired(items: seq<Raw>)
    requires ItemsOk(items)
    ensures Paired(PrintItems(items))
    decreases items, 1
  {
    if items == [] {
    } else {
      PrintPaired(items[0]);
      ItemsPaired(items[1..]);
      hide Print, RawOk, Paired;
      if |items| > 1 {
        PlainIsPaired([COMMA]);
        PairedAppend(Print(items[0]), [COMMA]);
        PairedAppend(Print(items[0]) + [COMMA], PrintItems(items[1..]));
      }
    }
  }

  lemma {:induction false} MembersPaired(ms: Members<Raw>)
    requires MembersOk(ms)
    ensures Paired(PrintMembers(ms))
    decreases ms, 1
  {
    if ms == [] {
    } else {
      assert ms[0].value < ms[0];
      PrintPaired(ms[0].value);
      StringPaired(ms[0].key);
      MembersPaired(ms[1..]);
      hide Print, RawOk, Paired, Quote, FitsString;
      PlainIsPaired([COLON]);
      PlainIsPaired([COMMA]);
      PlainIsPaired([]);
      PairedAppend(Quote(ms[0].key), [COLON]);
      PairedAppend(Quote(ms[0].key) + [COLON], Print(ms[0].value));
      PairedAppend([COMMA], PrintMembers(ms[1..]));
      PairedAppend(Quote(ms[0].key) + [COLON] + Print(ms[0].value), [COMMA] + PrintMembers(ms[1..]));
      PairedAppend(Quote(ms[0].key) + [COLON] + Print(ms[0].value), []);
    }
  }

  // Main result: whatever strings a document holds, lone surrogates included, no byte of its
  // text is a replacement, and reading the bytes gives the text back.
  lemma SentTextIsRead(v: Value)
    requires ValueOk(v) && BigintsFit(v) && SixteenBit(Encode(v))
    ensures Paired(Encode(v)) && UnitsOf(ReadPoints(Utf8(Encode(v)))) == Encode(v) && Utf8Len(Encode(v)) == |Utf8(Encode(v))|
  {
    hide Encode, ValueOk, RawOf, Print, RawOk, Paired, Points, BytesOf, ReadPoints, Utf8Len, UnitsOf;
    EncodeIsPrint(v);
    ValuesAgree(v);
    PrintPaired(RawOf(v));
    PairedUnits(Encode(v));
    assert forall p <- Points(Encode(v)) :: Scalar(p) && p < 0x110000;
    PointsAreRead(Points(Encode(v)));
    Utf8LenIsBytes(Encode(v));
  }
}
