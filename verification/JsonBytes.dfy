/**
 The UTF-8 length of encoded text, piece by piece, and the load that a value puts on the
 encoder's limits.
 */
module JsonBytes {
  import opened Wrappers
  import opened JsonText
  import opened JsonSort
  import opened JsonValue
  import opened JsonEncode
  import N = JsonNumber

  // ------------------------------------------------------------------- pieces

  // Lengths add up wherever the cut is not inside a surrogate pair.
  lemma {:induction false} Utf8Append(a: Text, b: Text)
    requires a == [] || b == [] || !IsHigh(a[|a| - 1]) || !IsLow(b[0])
    ensures Utf8Len(a + b) == Utf8Len(a) + Utf8Len(b)
    decreases |a|
  {
    if a == [] {
      assert a + b == b;
    } else if IsHigh(a[0]) && |a| > 1 && IsLow(a[1]) {
      assert (a + b)[2..] == a[2..] + b;
      Utf8Append(a[2..], b);
    } else {
      assert (a + b)[1..] == a[1..] + b;
      Utf8Append(a[1..], b);
    }
  }

  // The bytes that what s starts with takes between the quotes.
  function UnitBytes(s: Text): nat
    requires s != []
  {
    if ShortEscape(s[0]).Some? then 2
    else if s[0] < 0x20 then 6
    else if s[0] < 0x80 then 1
    else if s[0] < 0x800 then 2
    else if IsHigh(s[0]) && |s| > 1 && IsLow(s[1]) then 4
    else if IsHigh(s[0]) || IsLow(s[0]) then 6
    else 3
  }

  lemma AsciiPrefix(a: Text, b: Text)
    requires forall c :: c in a ==> c < 0x80
    ensures Utf8Len(a + b) == |a| + Utf8Len(b)
  {
    AsciiBytes(a);
    assert a != [] ==> a[|a| - 1] in a;
    Utf8Append(a, b);
  }

  lemma UnicodeEscapeAscii(c: Unit, b: Text)
    requires c < 0x10000
    ensures Utf8Len(UnicodeEscape(c) + b) == 6 + Utf8Len(b)
  {
    AsciiPrefix(UnicodeEscape(c), b);
  }

  lemma UnitTextBytes(s: Text, rest: Text)
    requires s != []
    ensures Utf8Len(UnitText(s) + rest) == UnitBytes(s) + Utf8Len(rest)
  {
    hide UnicodeEscape;
    if ShortEscape(s[0]).Some? {
      ShortEscapeAscii(s[0], rest);
    } else if s[0] < 0x20 {
      UnicodeEscapeAscii(s[0], rest);
    } else if UnitCount(s) == 2 {
      PairBytes(s[0], s[1], rest);
    } else if IsHigh(s[0]) || IsLow(s[0]) {
      UnicodeEscapeAscii(s[0], rest);
    } else {
      assert ([s[0]] + rest)[1..] == rest;
    }
  }

  lemma ShortEscapeAscii(c: Unit, b: Text)
    requires ShortEscape(c).Some?
    ensures Utf8Len([BACKSLASH, ShortEscape(c).value] + b) == 2 + Utf8Len(b)
  {
    AsciiPrefix([BACKSLASH, ShortEscape(c).value], b);
  }

  lemma PairBytes(c: Unit, d: Unit, b: Text)
    requires IsHigh(c) && IsLow(d)
    ensures Utf8Len([c, d] + b) == 4 + Utf8Len(b)
  {
    assert ([c, d] + b)[2..] == b;
  }

  // One step of the quoted form.
  lemma QuoteStep(s: Text)
    requires s != []
    ensures Utf8Len(QuoteBody(s)) == UnitBytes(s) + Utf8Len(QuoteBody(s[UnitCount(s)..]))
  {
    hide UnitText, Utf8Len, UnitCount, UnitBytes;
    UnitTextBytes(s, QuoteBody(s[UnitCount(s)..]));
  }

  lemma QuoteBytes(s: Text)
    ensures Utf8Len(Quote(s)) == 2 + Utf8Len(QuoteBody(s))
  {
    Utf8Append([QUOTE] + QuoteBody(s), [QUOTE]);
    Utf8Append([QUOTE], QuoteBody(s));
    hide QuoteBody;
    assert Utf8Len([QUOTE]) == 1;
  }

  const TAG_OPEN: nat := |Ascii("{\"$sqlx\":{\"type\":")|
  const TAG_MIDDLE: nat := |Ascii(",\"v\":") + PROTOCOL + Ascii("},\"value\":")|

  lemma AsciiUnits(s: string, b: Text)
    requires forall i :: 0 <= i < |s| ==> s[i] as int < 0x80
    ensures Utf8Len(Ascii(s) + b) == |Ascii(s)| + Utf8Len(b)
  {
    AsciiPrefix(Ascii(s), b);
  }

  lemma TagMiddleBytes(tail: Text)
    ensures Utf8Len(Ascii(",\"v\":") + PROTOCOL + Ascii("},\"value\":") + tail) == TAG_MIDDLE + Utf8Len(tail)
  {
    var middle := Ascii(",\"v\":") + PROTOCOL + Ascii("},\"value\":");
    assert forall c :: c in middle ==> c < 0x80;
    AsciiPrefix(middle, tail);
  }

  lemma BraceBytes(payload: Text)
    ensures Utf8Len(payload + [RBRACE]) == Utf8Len(payload) + 1
  {
    Utf8Append(payload, [RBRACE]);
    assert Utf8Len([RBRACE]) == 1;
  }

  lemma TagShape(tag: Text, payload: Text)
    ensures EncodeTag(tag, payload)
         == Ascii("{\"$sqlx\":{\"type\":")
            + (Quote(tag) + (Ascii(",\"v\":") + PROTOCOL + Ascii("},\"value\":") + (payload + [RBRACE])))
  {
    hide Quote, Ascii;
  }

  lemma TagBytes(tag: Text, payload: Text)
    ensures Utf8Len(EncodeTag(tag, payload)) == TAG_OPEN + Utf8Len(Quote(tag)) + TAG_MIDDLE + Utf8Len(payload) + 1
  {
    hide Utf8Len, Quote, Ascii, EncodeTag;
    var tail := payload + [RBRACE];
    var rest := Ascii(",\"v\":") + PROTOCOL + Ascii("},\"value\":") + tail;
    TagShape(tag, payload);
    AsciiUnits("{\"$sqlx\":{\"type\":", Quote(tag) + rest);
    QuoteSplit(tag, rest);
    TagMiddleBytes(tail);
    BraceBytes(payload);
  }

  lemma QuoteSplit(s: Text, b: Text)
    ensures Utf8Len(Quote(s) + b) == Utf8Len(Quote(s)) + Utf8Len(b)
  {
    hide QuoteBody;
    Utf8Append(Quote(s), b);
  }

  // -------------------------------------------------------------- collections

  // The bytes of the items of an array, and of the members of an object in the order given.
  function ItemsText(items: seq<Value>): nat {
    if items == [] then 0
    else Utf8Len(Encode(items[0])) + if |items| == 1 then 0 else 1 + ItemsText(items[1..])
  }

  function MembersText(ms: Members<Value>): nat {
    if ms == [] then 0
    else
      Utf8Len(Quote(ms[0].key)) + 1 + Utf8Len(Encode(ms[0].value))
      + if |ms| == 1 then 0 else 1 + MembersText(ms[1..])
  }

  lemma {:induction false} ItemsTextIsLength(items: seq<Value>)
    ensures Utf8Len(EncodeItems(items)) == ItemsText(items)
  {
    if |items| > 1 {
      ItemsTextIsLength(items[1..]);
      hide Encode;
      CommaSplit(Encode(items[0]), EncodeItems(items[1..]));
    }
  }

  lemma CommaSplit(a: Text, b: Text)
    ensures Utf8Len(a + [COMMA] + b) == Utf8Len(a) + 1 + Utf8Len(b)
  {
    Utf8Append(a + [COMMA], b);
    Utf8Append(a, [COMMA]);
    assert Utf8Len([COMMA]) == 1;
  }

  lemma MemberSplit(key: Text, value: Text, more: Text)
    requires more == [] || more[0] == COMMA
    ensures Utf8Len(Quote(key) + [COLON] + value + more)
         == Utf8Len(Quote(key)) + 1 + Utf8Len(value) + Utf8Len(more)
  {
    var head := Quote(key) + [COLON];
    Utf8Append(head + value, more);
    Utf8Append(head, value);
    Utf8Append(Quote(key), [COLON]);
    assert Utf8Len([COLON]) == 1;
    hide QuoteBody;
  }

  lemma {:induction false} MembersTextIsLength(ms: Members<Value>)
    ensures Utf8Len(JoinMembers(EncodeMembers(ms))) == MembersText(ms)
  {
    if ms == [] {
    } else {
      MembersTextIsLength(ms[1..]);
      EncodeMembersAt(ms[1..]);
      hide Encode, Quote;
      var ts := EncodeMembers(ms);
      assert ts[1..] == EncodeMembers(ms[1..]);
      var more := if |ms| == 1 then [] else [COMMA] + JoinMembers(ts[1..]);
      MemberSplit(ms[0].key, Encode(ms[0].value), more);
      CommaSplit([], JoinMembers(ts[1..]));
      assert [] + [COMMA] + JoinMembers(ts[1..]) == [COMMA] + JoinMembers(ts[1..]);
    }
  }

  lemma {:induction false} EncodeMembersAt(ms: Members<Value>)
    ensures EncodeMembers(ms) == MapMembers(ms, Encode) && |EncodeMembers(ms)| == |ms|
  {
    if ms == [] {
    } else {
      EncodeMembersAt(ms[1..]);
      hide Encode;
    }
  }

  // The members in key order give the text that the encoder writes.
  lemma SortedMembersText(ms: Members<Value>)
    ensures Utf8Len(JoinMembers(SortByKey(EncodeMembers(ms)))) == MembersText(SortByKey(ms))
  {
    EncodeMembersAt(ms);
    SortMap(ms, Encode);
    EncodeMembersAt(SortByKey(ms));
    MembersTextIsLength(SortByKey(ms));
  }

  lemma BracketBytes(open: Unit, body: Text, close: Unit)
    requires open < 0x80 && close < 0x80
    ensures Utf8Len([open] + body + [close]) == 2 + Utf8Len(body)
  {
    Utf8Append([open] + body, [close]);
    Utf8Append([open], body);
    assert Utf8Len([open]) == 1 && Utf8Len([close]) == 1;
  }

  // ------------------------------------------------------------------ numbers

  lemma NumberAscii(t: Text)
    requires N.IsNumber(t)
    ensures Utf8Len(t) == |t| && forall c <- t :: c < 0x80
  {
    hide N.IsNumber;
    var m, i, f, e := N.PiecesOfNumber(t);
    var integer, fraction, exponent := t[m..], t[m + i..], t[m + i + f..];
    hide N.IntegerLen, N.FractionLen, N.ExponentLen, Utf8Len;
    N.IntegerIsDigits(integer);
    FractionAscii(fraction);
    ExponentAscii(exponent);
    forall k | 0 <= k < |t| ensures t[k] < 0x80 {
      if m <= k < m + i {
        assert integer[..i][k - m] == t[k] && t[k] in integer[..i];
      } else if m + i <= k < m + i + f {
        assert fraction[k - m - i] == t[k];
      } else if m + i + f <= k {
        assert exponent[k - m - i - f] == t[k];
      }
    }
    AsciiBytes(t);
  }

  lemma FractionAscii(t: Text)
    requires N.FractionLen(t).Some?
    ensures forall k :: 0 <= k < N.FractionLen(t).value && k < |t| ==> t[k] < 0x80
  {
    if N.FractionLen(t).value > 0 {
      N.FractionIsDigits(t);
      forall k | 0 < k < N.FractionLen(t).value ensures t[k] < 0x80 {
        var digits := t[1..N.FractionLen(t).value];
        assert digits[k - 1] == t[k] && t[k] in digits;
      }
    }
  }

  lemma ExponentAscii(t: Text)
    requires N.ExponentLen(t) == Some(|t|)
    ensures forall k :: 0 <= k < |t| ==> t[k] < 0x80
  {
    if t != [] {
      N.ExponentIsDigits(t);
      var s := 1 + N.SignLen(t[1..]);
      forall k | 0 <= k < |t| ensures t[k] < 0x80 {
        if k >= s {
          assert t[s..][k - s] == t[k] && t[k] in t[s..];
        }
      }
    }
  }

  lemma ExactAscii(t: Text)
    requires N.Accepted(t)
    ensures Utf8Len(t) == |t|
  {
    assert N.IsNumber(t);
    NumberAscii(t);
  }
}
