/**
 The tokens that rewriteNamedParameters of src/sql-params.ts finds in a query, the numbers
 of its names, and the proof that the text with the names numbered is read as the same
 tokens.
 */
module SqlParams {
  import opened SqlLex

  // ---------------------------------------------------------------------- tokens

  // A token is copied as it is, or is a placeholder.
  datatype Token = Copied(text: string) | Positional(digits: string) | Named(name: string)

  function DigitLen(t: string): (n: nat)
    ensures n <= |t| && (forall k :: 0 <= k < n ==> IsDigit(t[k])) && (n < |t| ==> !IsDigit(t[n]))
  {
    if t != [] && IsDigit(t[0]) then 1 + DigitLen(t[1..]) else 0
  }

  predicate IsNameChar(c: char) {
    IsLetter(c) || IsDigit(c)
  }

  function NameLen(t: string): (n: nat)
    ensures n <= |t| && (forall k :: 0 <= k < n ==> IsNameChar(t[k])) && (n < |t| ==> !IsNameChar(t[n]))
  {
    if t != [] && IsNameChar(t[0]) then 1 + NameLen(t[1..]) else 0
  }

  function TextOf(k: Token): string {
    match k
    case Copied(text) => text
    case Positional(digits) => "$" + digits
    case Named(name) => "$" + name
  }

  // The token that t starts with.
  function Read(c: Context, t: string): Token
    requires t != []
  {
    if Special(c, t).Some? then Copied(t[..Special(c, t).value.len])
    else if t[0] == '$' && !c.word && |t| > 1 && '1' <= t[1] <= '9' then Positional(t[1..][..DigitLen(t[1..])])
    else if t[0] == '$' && !c.word && |t| > 1 && IsLetter(t[1]) then Named(t[1..][..NameLen(t[1..])])
    else Copied(t[..1])
  }

  lemma ReadIsPrefix(c: Context, t: string)
    requires t != []
    ensures var text := TextOf(Read(c, t));
            text != [] && |text| <= |t| && t[..|text|] == text
  {
    hide Special, DigitLen, NameLen;
  }

  function Lex(c: Context, t: string): seq<Token>
    decreases |t|
  {
    if t == [] then []
    else
      ReadIsPrefix(c, t);
      var k := Read(c, t);
      [k] + Lex(Extend(c, TextOf(k)), t[|TextOf(k)|..])
  }

  function Join(tokens: seq<Token>): string {
    if tokens == [] then "" else Join(tokens[..|tokens| - 1]) + TextOf(tokens[|tokens| - 1])
  }

  lemma JoinSnoc(a: seq<Token>, k: Token)
    ensures Join(a + [k]) == Join(a) + TextOf(k)
  {
    assert (a + [k])[..|a|] == a;
    hide TextOf;
  }

  lemma {:induction false} JoinAppend(a: seq<Token>, b: seq<Token>)
    ensures Join(a + b) == Join(a) + Join(b)
  {
    if b == [] {
      assert a + b == a;
      assert Join([]) == "";
    } else {
      var b', k := b[..|b| - 1], b[|b| - 1];
      hide Join, TextOf;
      assert b == b' + [k] && a + b == (a + b') + [k];
      JoinAppend(a, b');
      JoinSnoc(a + b', k);
      JoinSnoc(b', k);
      Regroup(Join(a), Join(b'), TextOf(k));
    }
  }

  lemma Regroup(a: string, b: string, c: string)
    ensures a + b + c == a + (b + c)
  {
  }

  lemma JoinCons(k: Token, b: seq<Token>)
    ensures Join([k] + b) == TextOf(k) + Join(b)
  {
    assert Join([]) == "";
    hide Join, TextOf;
    JoinAppend([k], b);
    JoinSnoc([], k);
    assert [] + [k] == [k] && "" + TextOf(k) == TextOf(k);
  }

  lemma {:induction false} JoinLex(c: Context, t: string)
    ensures Join(Lex(c, t)) == t
    decreases |t|
  {
    if t == [] {
    } else {
      ReadIsPrefix(c, t);
      var k := Read(c, t);
      var rest := t[|TextOf(k)|..];
      JoinLex(Extend(c, TextOf(k)), rest);
      JoinCons(k, Lex(Extend(c, TextOf(k)), rest));
    }
  }

  // ------------------------------------------------------------------- numbering

  // The names in the order in which they first appear.
  function Names(tokens: seq<Token>): seq<string> {
    if tokens == [] then []
    else
      var before := Names(tokens[..|tokens| - 1]);
      var k := tokens[|tokens| - 1];
      if k.Named? && k.name !in before then before + [k.name] else before
  }

  function Position(names: seq<string>, name: string): (i: nat)
    requires name in names
    ensures i < |names| && names[i] == name && name !in names[..i]
  {
    if names[0] == name then 0 else
      assert names == [names[0]] + names[1..];
      var next := Position(names[1..], name);
      assert names[..next + 1] == [names[0]] + names[1..][..next];
      next + 1
  }

  function Decimal(n: nat): string {
    if n < 10 then [('0' as int + n) as char] else Decimal(n / 10) + [('0' as int + n % 10) as char]
  }

  function NumberOf(digits: string): nat {
    if digits == [] then 0
    else
      var c := digits[|digits| - 1];
      NumberOf(digits[..|digits| - 1]) * 10 + if IsDigit(c) then c as int - '0' as int else 0
  }

  lemma {:induction false} DecimalDigits(n: nat)
    ensures Decimal(n) != [] && (forall k :: 0 <= k < |Decimal(n)| ==> IsDigit(Decimal(n)[k]))
    ensures n > 0 ==> '1' <= Decimal(n)[0] <= '9'
    ensures NumberOf(Decimal(n)) == n
  {
    if n < 10 {
      assert Decimal(n)[..0] == [];
    } else {
      DecimalDigits(n / 10);
      assert Decimal(n)[..|Decimal(n)| - 1] == Decimal(n / 10);
    }
  }

  function NumberedToken(k: Token, names: seq<string>): Token {
    if k.Named? && k.name in names then Positional(Decimal(Position(names, k.name) + 1)) else k
  }

  // Every name replaced by the number of its first appearance.
  function Numbered(tokens: seq<Token>, names: seq<string>): seq<Token> {
    seq(|tokens|, i requires 0 <= i < |tokens| => NumberedToken(tokens[i], names))
  }

  lemma NumberedAppend(a: seq<Token>, b: seq<Token>, names: seq<string>)
    ensures Numbered(a + b, names) == Numbered(a, names) + Numbered(b, names)
  {
  }

  // -------------------------------------------------------------------- locality

  // Two texts that go on alike: both empty or with the same first character.
  predicate SameHead(post: string, other: string) {
    if post == [] then other == [] else Heads(other, post[0])
  }

  lemma {:induction false} DigitLenAppend(d: string, post: string)
    requires forall k :: 0 <= k < |d| ==> IsDigit(d[k])
    requires post != [] ==> !IsDigit(post[0])
    ensures DigitLen(d + post) == |d|
  {
    if d == [] {
      assert d + post == post;
    } else {
      assert (d + post)[1..] == d[1..] + post;
      DigitLenAppend(d[1..], post);
    }
  }

  lemma {:induction false} NameLenAppend(d: string, post: string)
    requires forall k :: 0 <= k < |d| ==> IsNameChar(d[k])
    requires post != [] ==> !IsNameChar(post[0])
    ensures NameLen(d + post) == |d|
  {
    if d == [] {
      assert d + post == post;
    } else {
      assert (d + post)[1..] == d[1..] + post;
      NameLenAppend(d[1..], post);
    }
  }

  // What the first character behind a placeholder cannot be.
  lemma AfterPlaceholder(c: Context, k: Token, post: string)
    requires TextOf(k) != [] && Read(c, TextOf(k) + post) == k && !k.Copied?
    ensures !c.word && Special(c, TextOf(k) + post).None?
    ensures k.Positional? ==> DigitLen(k.digits + post) == |k.digits| && k.digits != [] && '1' <= k.digits[0] <= '9'
    ensures k.Named? ==> NameLen(k.name + post) == |k.name| && k.name != [] && IsLetter(k.name[0])
  {
    var t := TextOf(k) + post;
    hide Special, DigitLen, NameLen;
    assert t[1..] == (if k.Positional? then k.digits else k.name) + post;
  }

  lemma PlaceholderHead(c: Context, k: Token, post: string)
    requires TextOf(k) != [] && Read(c, TextOf(k) + post) == k && !k.Copied?
    ensures k.Positional? && post != [] ==> !IsDigit(post[0])
    ensures k.Named? && post != [] ==> !IsNameChar(post[0])
    ensures k.Positional? ==> forall i :: 0 <= i < |k.digits| ==> IsDigit(k.digits[i])
    ensures k.Named? ==> forall i :: 0 <= i < |k.name| ==> IsNameChar(k.name[i])
  {
    AfterPlaceholder(c, k, post);
    var d := if k.Positional? then k.digits else k.name;
    var v := d + post;
    if post != [] {
      assert v[|d|] == post[0];
    }
    forall i | 0 <= i < |d| ensures v[i] == d[i] {
    }
  }

  // A dollar sign in front of digits is a positional placeholder.
  lemma ReadDigits(c: Context, digits: string, post: string)
    requires !c.word && digits != [] && '1' <= digits[0] <= '9'
    requires (forall i :: 0 <= i < |digits| ==> IsDigit(digits[i])) && (post != [] ==> !IsDigit(post[0]))
    ensures Read(c, "$" + digits + post) == Positional(digits)
  {
    var t := "$" + digits + post;
    assert t[1..] == digits + post;
    DigitLenAppend(digits, post);
    hide DigitLen, Find, TagLen;
    assert (digits + post)[..|digits|] == digits;
  }

  // A copied token is copied again before a text that goes on alike.
  lemma ReadCopied(c: Context, text: string, post: string, other: string)
    requires text != [] && Read(c, text + post) == Copied(text) && SameHead(post, other)
    requires OpensDollar(other) ==> OpensDollar(post)
    ensures Read(c, text + other) == Copied(text)
  {
    var t, v := text + post, text + other;
    if post == [] {
      assert v == t;
    } else if Special(c, t).Some? {
      hide Special;
      SpecialIsLocal(c, text, post, other);
      assert v[..|text|] == text;
    } else {
      hide Special, OpensDollar, DigitLen, NameLen;
      assert text == [text[0]];
      OrdinaryIsLocal(c, text[0], post, other);
      assert v[1..] == other && t[1..] == post && v[1] == t[1];
    }
  }

  // The text with its names numbered.
  function Output(c: Context, t: string, names: seq<string>): string {
    Join(Numbered(Lex(c, t), names))
  }

  predicate Covered(tokens: seq<Token>, names: seq<string>) {
    forall k <- tokens :: k.Named? ==> k.name in names
  }

  lemma OutputStep(c: Context, t: string, names: seq<string>)
    requires t != []
    ensures var k := Read(c, t);
            var n := |TextOf(k)|;
            && n <= |t| && t == TextOf(k) + t[n..]
            && Lex(c, t) == [k] + Lex(Extend(c, TextOf(k)), t[n..])
            && Numbered(Lex(c, t), names)
               == [NumberedToken(k, names)] + Numbered(Lex(Extend(c, TextOf(k)), t[n..]), names)
            && Output(c, t, names)
               == TextOf(NumberedToken(k, names)) + Output(Extend(c, TextOf(k)), t[n..], names)
  {
    ReadIsPrefix(c, t);
    var k := Read(c, t);
    var rest := Lex(Extend(c, TextOf(k)), t[|TextOf(k)|..]);
    NumberedAppend([k], rest, names);
    hide Read, Lex, Join, TextOf;
    assert Numbered([k], names) == [NumberedToken(k, names)];
    JoinCons(NumberedToken(k, names), Numbered(rest, names));
  }

  lemma OutputHead(c: Context, t: string, names: seq<string>)
    ensures SameHead(t, Output(c, t, names))
  {
    if t != [] {
      OutputStep(c, t, names);
      ReadIsPrefix(c, t);
      hide Read, Lex, Join, Numbered, Output;
    }
  }

  lemma TagIsCopied(c: Context, t: string)
    requires t != [] && IsTag(t[0])
    ensures Read(c, t) == Copied(t[..1])
  {
  }

  function AfterTag(t: string): string {
    t[TagLen(t)..]
  }

  lemma TagStep(x: char, t: string)
    requires IsTag(x)
    ensures TagLen([x] + t) == 1 + TagLen(t) && AfterTag([x] + t) == AfterTag(t)
  {
    assert ([x] + t)[1..] == t;
  }

  lemma NoTag(t: string)
    requires t == [] || !IsTag(t[0])
    ensures TagLen(t) == 0 && AfterTag(t) == t
  {
  }

  // The same run of tag characters, and the same character after it.
  lemma {:induction false} OutputRun(c: Context, t: string, names: seq<string>)
    ensures var o := Output(c, t, names);
            TagLen(o) == TagLen(t) && SameHead(AfterTag(t), AfterTag(o))
    decreases |t|
  {
    hide Read, Lex, Join, Numbered, Output, TagLen, AfterTag;
    OutputHead(c, t, names);
    if t != [] && IsTag(t[0]) {
      OutputStep(c, t, names);
      TagIsCopied(c, t);
      OutputRun(Extend(c, t[..1]), t[1..], names);
      assert t == [t[0]] + t[1..] && t[..1] == [t[0]];
      TagStep(t[0], t[1..]);
      TagStep(t[0], Output(Extend(c, t[..1]), t[1..], names));
    } else {
      NoTag(t);
      NoTag(Output(c, t, names));
    }
  }

  lemma OutputOpens(c: Context, t: string, names: seq<string>)
    ensures OpensDollar(Output(c, t, names)) <==> OpensDollar(t)
  {
    OutputRun(c, t, names);
    OutputHead(c, t, names);
    hide Output, TagLen;
  }

  // ------------------------------------------------------------------- re-lexing

  // Replacing a name by a number leaves the same context behind.
  lemma SameContext(c: Context, k: Token, names: seq<string>)
    requires k.Named? ==> k.name != [] && forall i :: 0 <= i < |k.name| ==> IsNameChar(k.name[i])
    ensures Extend(c, TextOf(NumberedToken(k, names))) == Extend(c, TextOf(k))
  {
    if k.Named? && k.name in names {
      var d := Decimal(Position(names, k.name) + 1);
      DecimalDigits(Position(names, k.name) + 1);
      var t, v := "$" + k.name, "$" + d;
      assert IsNameChar(k.name[|k.name| - 1]) && IsDigit(d[|d| - 1]);
      assert t[|t| - 1] == k.name[|k.name| - 1] && v[|v| - 1] == d[|d| - 1];
      assert |k.name| > 1 ==> t[|t| - 2] == k.name[|k.name| - 2];
      assert |d| > 1 ==> v[|v| - 2] == d[|d| - 2];
    }
  }

  // One token read back from the output.
  lemma ReadAgain(c: Context, t: string, names: seq<string>)
    requires t != [] && (Read(c, t).Named? ==> Read(c, t).name in names)
    ensures Output(c, t, names) != [] && Read(c, Output(c, t, names)) == NumberedToken(Read(c, t), names)
    ensures Extend(c, TextOf(NumberedToken(Read(c, t), names))) == Extend(c, TextOf(Read(c, t)))
  {
    var k := Read(c, t);
    var n := |TextOf(k)|;
    var d := Extend(c, TextOf(k));
    var post := t[n..];
    var other := Output(d, post, names);
    ReadIsPrefix(c, t);
    OutputStep(c, t, names);
    OutputHead(d, post, names);
    OutputOpens(d, post, names);
    hide Read, Output, OpensDollar, Lex;
    match k
    case Copied(text) => ReadCopied(c, text, post, other);
    case Positional(digits) => ReadPlaceholder(c, k, post, other, digits);
    case Named(name) =>
      PlaceholderHead(c, k, post);
      AfterPlaceholder(c, k, post);
      SameContext(c, k, names);
      DecimalDigits(Position(names, name) + 1);
      ReadPlaceholder(c, k, post, other, Decimal(Position(names, name) + 1));
  }

  lemma ReadPlaceholder(c: Context, k: Token, post: string, other: string, digits: string)
    requires !k.Copied? && Read(c, TextOf(k) + post) == k && SameHead(post, other)
    requires digits != [] && '1' <= digits[0] <= '9' && forall i :: 0 <= i < |digits| ==> IsDigit(digits[i])
    ensures Read(c, "$" + digits + other) == Positional(digits)
  {
    AfterPlaceholder(c, k, post);
    PlaceholderHead(c, k, post);
    ReadDigits(c, digits, other);
  }

  // Main lemma: the output is lexed to the tokens of the query with names numbered. Literals,
  // quoted identifiers, comments and dollar bodies come back as they were.
  lemma {:induction false} LexOutput(c: Context, t: string, names: seq<string>)
    requires Covered(Lex(c, t), names)
    ensures Lex(c, Output(c, t, names)) == Numbered(Lex(c, t), names)
    decreases |t|
  {
    if t == [] {
    } else {
      var k := Read(c, t);
      var rest := t[|TextOf(k)|..];
      OutputStep(c, t, names);
      ReadIsPrefix(c, t);
      assert k in Lex(c, t) && forall j <- Lex(Extend(c, TextOf(k)), rest) :: j in Lex(c, t);
      ReadAgain(c, t, names);
      LexOutput(Extend(c, TextOf(k)), rest, names);
      LexConcat(c, NumberedToken(k, names), Output(Extend(c, TextOf(k)), rest, names));
    }
  }

  lemma LexConcat(c: Context, k: Token, o: string)
    requires TextOf(k) + o != [] && Read(c, TextOf(k) + o) == k
    ensures Lex(c, TextOf(k) + o) == [k] + Lex(Extend(c, TextOf(k)), o)
  {
    ReadIsPrefix(c, TextOf(k) + o);
    assert (TextOf(k) + o)[|TextOf(k)|..] == o;
    hide Read;
  }
}
