/**
 The tokens of a query written out: comments, literals, quoted identifiers, dollar-quoted bodies
 and placeholders, each by its characters. The readers find exactly these.
 */
module SqlGrammar {
  import opened Wrappers
  import opened SqlLex
  import opened SqlParams

  // ------------------------------------------------------------------ characters

  predicate Alphabetic(c: char) {
    ('A' <= c && c <= 'Z') || ('a' <= c && c <= 'z') || c == '_'
  }

  predicate Numeric(c: char) {
    '0' <= c && c <= '9'
  }

  // A character of a word, with which a dollar sign behind it belongs to the word.
  predicate WordPart(c: char) {
    Alphabetic(c) || Numeric(c) || c == '$' || '\U{80}' <= c
  }

  // A character of the tag of a dollar quote.
  predicate TagPart(c: char) {
    Alphabetic(c) || Numeric(c) || '\U{80}' <= c
  }

  predicate BehindWord(pre: string) {
    pre != [] && WordPart(pre[|pre| - 1])
  }

  // An E that is not part of a word makes the literal behind it an escape string.
  predicate BehindEscape(pre: string) {
    && pre != [] && (pre[|pre| - 1] == 'e' || pre[|pre| - 1] == 'E')
    && !(|pre| > 1 && WordPart(pre[|pre| - 2]))
  }

  lemma ContextIs(pre: string)
    ensures ContextOf(pre) == Context(BehindWord(pre), BehindEscape(pre))
  {
  }

  function Concat(parts: seq<string>): string {
    if parts == [] then "" else parts[0] + Concat(parts[1..])
  }

  // ---------------------------------------------------------------------- quotes

  // What a quoted text is made of: doubled quotes, escaped characters, and other characters.
  predicate QuoteUnit(u: string, quote: char, escape: bool) {
    || u == [quote, quote]
    || (|u| == 2 && escape && u[0] == '\\')
    || (|u| == 1 && u[0] != quote && !(escape && u[0] == '\\'))
  }

  // The text behind the opening quote: units and a closing quote that no quote follows; or, at
  // the end of the query, units that are not closed.
  predicate Quoted(text: string, rest: string, units: seq<string>, quote: char, escape: bool) {
    && (forall u <- units :: QuoteUnit(u, quote, escape))
    && (|| (text == Concat(units) + [quote] && !Heads(rest, quote))
        || (rest == [] && text == Concat(units))
        || (rest == [] && escape && text == Concat(units) + ['\\']))
  }

  lemma QuoteStep(u: string, t: string, quote: char, escape: bool)
    requires QuoteUnit(u, quote, escape) && (escape ==> quote != '\\')
    ensures QuoteLen(u + t, quote, escape) == |u| + QuoteLen(t, quote, escape)
  {
    assert (u + t)[|u|..] == t;
  }

  lemma {:induction false} QuotedIsRead(
    text: string, rest: string, units: seq<string>, quote: char, escape: bool)
    requires Quoted(text, rest, units, quote, escape) && (escape ==> quote != '\\')
    ensures QuoteLen(text + rest, quote, escape) == |text|
  {
    if units == [] {
      assert Concat(units) == "";
      if rest == [] {
        assert text + rest == text;
      }
    } else {
      var u := units[0];
      assert QuoteUnit(u, quote, escape) && |u| <= |text| && text[..|u|] == u;
      var inner := text[|u|..];
      assert text + rest == u + (inner + rest);
      QuoteStep(u, inner + rest, quote, escape);
      InnerQuoted(text, rest, units, quote, escape);
      hide Quoted, QuoteUnit, QuoteLen;
      QuotedIsRead(inner, rest, units[1..], quote, escape);
    }
  }

  lemma InnerQuoted(text: string, rest: string, units: seq<string>, quote: char, escape: bool)
    requires Quoted(text, rest, units, quote, escape) && units != []
    ensures |units[0]| <= |text| && Quoted(text[|units[0]|..], rest, units[1..], quote, escape)
  {
    var u, more := units[0], Concat(units[1..]);
    assert Concat(units) == u + more;
    hide QuoteUnit;
    assert (u + more)[|u|..] == more;
    assert u + more + [quote] == u + (more + [quote]) && u + more + ['\\'] == u + (more + ['\\']);
  }

  // The first unit of a quoted text, unless it ends there.
  function UnitLen(t: string, quote: char, escape: bool): nat {
    if t == [] then 0
    else if escape && t[0] == '\\' then if |t| < 2 then 0 else 2
    else if t[0] == quote then if |t| > 1 && t[1] == quote then 2 else 0
    else 1
  }

  lemma UnitIs(t: string, quote: char, escape: bool)
    requires UnitLen(t, quote, escape) > 0
    ensures var k := UnitLen(t, quote, escape);
            k <= |t| && QuoteUnit(t[..k], quote, escape) && QuoteLen(t, quote, escape) == k + QuoteLen(t[k..], quote, escape)
  {
  }

  lemma NoUnit(t: string, quote: char, escape: bool)
    requires UnitLen(t, quote, escape) == 0
    ensures var n := QuoteLen(t, quote, escape); Quoted(t[..n], t[n..], [], quote, escape)
  {
    assert Concat([]) == "";
  }

  lemma QuotedCons(u: string, text: string, rest: string, units: seq<string>, quote: char, escape: bool)
    requires QuoteUnit(u, quote, escape) && Quoted(text, rest, units, quote, escape)
    ensures Quoted(u + text, rest, [u] + units, quote, escape)
  {
    hide QuoteUnit;
    assert ([u] + units)[1..] == units;
    assert Concat([u] + units) == u + Concat(units);
    hide Concat;
    assert u + (Concat(units) + [quote]) == u + Concat(units) + [quote];
    assert u + (Concat(units) + ['\\']) == u + Concat(units) + ['\\'];
  }

  lemma {:induction false} ReadIsQuoted(t: string, quote: char, escape: bool) returns (units: seq<string>)
    ensures var n := QuoteLen(t, quote, escape); Quoted(t[..n], t[n..], units, quote, escape)
    decreases |t|
  {
    var k := UnitLen(t, quote, escape);
    if k == 0 {
      NoUnit(t, quote, escape);
      units := [];
    } else {
      UnitIs(t, quote, escape);
      hide QuoteLen, QuoteUnit, UnitLen, Quoted;
      var more := ReadIsQuoted(t[k..], quote, escape);
      units := [t[..k]] + more;
      var m := QuoteLen(t[k..], quote, escape);
      QuotedCons(t[..k], t[k..][..m], t[k..][m..], more, quote, escape);
      assert t[..k + m] == t[..k] + t[k..][..m] && t[k + m..] == t[k..][m..];
    }
  }

  // -------------------------------------------------------------------- comments

  // The text behind two dashes: up to the first line feed, or the rest of a query without one.
  predicate LineRest(text: string, rest: string) {
    || (text != [] && text[|text| - 1] == '\n' && forall k :: 0 <= k < |text| - 1 ==> text[k] != '\n')
    || (rest == [] && forall k :: 0 <= k < |text| ==> text[k] != '\n')
  }

  lemma {:induction false} LineIsRead(text: string, rest: string)
    requires LineRest(text, rest)
    ensures LineLen(text + rest) == |text|
  {
    if text == [] {
      assert text + rest == [];
    } else if text[0] == '\n' {
    } else {
      assert (text + rest)[1..] == text[1..] + rest;
      LineIsRead(text[1..], rest);
    }
  }

  lemma {:induction false} ReadIsLine(t: string)
    ensures var n := LineLen(t); LineRest(t[..n], t[n..])
  {
    if t == [] || t[0] == '\n' {
    } else {
      ReadIsLine(t[1..]);
      var n := LineLen(t[1..]);
      assert LineLen(t) == n + 1;
      assert t[..n + 1] == [t[0]] + t[1..][..n] && t[n + 1..] == t[1..][n..];
      hide LineLen;
    }
  }

  // A comment is read in steps: an opener, a closer, or a character that starts neither.
  predicate CommentStep(step: string, following: string) {
    || step == "/*" || step == "*/"
    || (|step| == 1 && !Starts2(step + following, '/', '*') && !Starts2(step + following, '*', '/'))
  }

  function Deeper(step: string, depth: nat): int {
    if step == "/*" then depth + 1 else if step == "*/" then depth - 1 else depth
  }

  // The steps from a depth of open comments down to none, or to the end of the query.
  predicate BlockSteps(steps: seq<string>, rest: string, depth: nat) {
    if steps == [] then depth == 0 || rest == []
    else
      && depth > 0 && CommentStep(steps[0], Concat(steps[1..]) + rest) && Deeper(steps[0], depth) >= 0
      && BlockSteps(steps[1..], rest, Deeper(steps[0], depth))
  }

  lemma {:induction false} BlockIsRead(steps: seq<string>, rest: string, depth: nat)
    requires BlockSteps(steps, rest, depth)
    ensures BlockLen(Concat(steps) + rest, depth) == |Concat(steps)|
  {
    if steps == [] {
      assert Concat(steps) + rest == rest;
    } else {
      var s, u := steps[0], Concat(steps[1..]) + rest;
      var t := Concat(steps) + rest;
      assert t == s + u;
      BlockIsRead(steps[1..], rest, Deeper(s, depth));
      assert t[|s|..] == u;
      BlockStep(t, depth);
      hide BlockLen, BlockSteps;
    }
  }

  // The first step of a comment that is open.
  function FirstStep(t: string): string
    requires t != []
  {
    if Starts2(t, '/', '*') || Starts2(t, '*', '/') then t[..2] else t[..1]
  }

  lemma FirstStepIs(t: string, depth: nat)
    requires t != [] && depth > 0
    ensures var s := FirstStep(t);
            && 0 < |s| <= |t| && t == s + t[|s|..] && CommentStep(s, t[|s|..]) && Deeper(s, depth) >= 0
            && BlockLen(t, depth) == |s| + BlockLen(t[|s|..], Deeper(s, depth))
  {
    var s := FirstStep(t);
    assert t == s + t[|s|..];
    BlockStep(t, depth);
    hide BlockLen;
  }

  lemma {:induction false} ReadIsBlock(t: string, depth: nat) returns (steps: seq<string>)
    ensures var n := BlockLen(t, depth); Concat(steps) == t[..n] && BlockSteps(steps, t[n..], depth)
    decreases |t|
  {
    if t == [] || depth == 0 {
      steps := [];
    } else {
      var s := FirstStep(t);
      FirstStepIs(t, depth);
      hide BlockLen, FirstStep, CommentStep, Deeper;
      var u := t[|s|..];
      var more := ReadIsBlock(u, Deeper(s, depth));
      var m := BlockLen(u, Deeper(s, depth));
      steps := [s] + more;
      assert steps[1..] == more;
      assert t[..|s| + m] == s + u[..m] && t[|s| + m..] == u[m..] && u[..m] + u[m..] == u;
    }
  }

  // --------------------------------------------------------------- dollar quotes

  // The name in a tag: none, or tag characters of which the first is no digit.
  predicate TagName(name: string) {
    (forall c <- name :: TagPart(c)) && (name != [] ==> !Numeric(name[0]))
  }

  // What follows a dollar sign opens a dollar quote with this name.
  predicate Opens(t: string, name: string) {
    TagName(name) && |name| < |t| && t[..|name|] == name && t[|name|] == '$'
  }

  ghost predicate OpensSome(t: string) {
    exists name :: Opens(t, name)
  }

  function Tag(name: string): string {
    "$" + name + "$"
  }

  // The text behind the opening tag: up to the first tag like it and including it, or all that
  // is left.
  ghost predicate DollarRest(text: string, rest: string, tag: string) {
    || (exists k: nat :: FirstAt(text + rest, tag, k) && |text| == k + |tag|)
    || (rest == [] && forall k: nat :: !OccursAt(text, tag, k))
  }

  lemma {:induction false} TagLenIs(name: string, after: string)
    requires forall c <- name :: TagPart(c)
    ensures TagLen(name + "$" + after) == |name|
  {
    var t := name + "$" + after;
    if name == [] {
      assert t == "$" + after;
    } else {
      assert t[1..] == name[1..] + "$" + after;
      assert TagPart(name[0]);
      TagLenIs(name[1..], after);
    }
  }

  lemma OpensIs(t: string)
    ensures OpensDollar(t) <==> OpensSome(t)
    ensures forall name :: Opens(t, name) ==> OpeningTag(t) == Tag(name) && Body(t) == t[|name| + 1..]
  {
    if OpensDollar(t) {
      var name := t[..TagLen(t)];
      forall c | c in name ensures TagPart(c) {
        var k :| 0 <= k < |name| && name[k] == c;
      }
      assert Opens(t, name);
    }
    forall name | Opens(t, name) ensures OpensDollar(t) && OpeningTag(t) == Tag(name) && Body(t) == t[|name| + 1..] {
      assert t == name + "$" + t[|name| + 1..];
      TagLenIs(name, t[|name| + 1..]);
      assert name != [] ==> t[0] == name[0] && TagPart(name[0]);
      hide TagLen;
      assert t[..|name| + 1] == name + "$";
      assert ['$'] + (name + "$") == Tag(name);
    }
  }

  // How much of the body and its closing tag is read.
  function BodyReach(body: string, tag: string): nat {
    if Find(body, tag).None? then |body| else Find(body, tag).value + |tag|
  }

  lemma ReachIs(body: string, tag: string, m: nat)
    requires m <= |body|
    ensures BodyReach(body, tag) == m <==> DollarRest(body[..m], body[m..], tag)
  {
    assert body == body[..m] + body[m..];
    var found := Find(body, tag);
    forall k: nat ensures found == Some(k) <==> FirstAt(body, tag, k) {
      FindIsFirst(body, tag, k);
    }
    NowhereFirst(body, tag);
    hide Find, OccursAt, FirstAt;
    if found.Some? {
      assert FirstAt(body, tag, found.value);
      FirstOccurs(body, tag, found.value);
    } else {
      assert m == |body| ==> body[..m] == body;
    }
    if body[m..] == [] {
      assert body[..m] == body;
    }
  }

  lemma FirstOccurs(t: string, tag: string, k: nat)
    requires FirstAt(t, tag, k)
    ensures OccursAt(t, tag, k)
  {
  }

  // How far a dollar quote reaches, by its name.
  lemma DollarIs(t: string, name: string, n: nat)
    requires Opens(t, name)
    ensures DollarLen(t) == Some(n)
       <==> |name| + 1 <= n <= |t| && DollarRest(t[|name| + 1..n], t[n..], Tag(name))
  {
    hide BodyReach, OpensDollar, DollarRest, DollarLen, Tag;
    var tag, body := Tag(name), t[|name| + 1..];
    DollarReaches(t, name);
    ReachFits(body, tag);
    hide Opens;
    if |name| + 1 <= n <= |t| {
      var m := n - (|name| + 1);
      ReachIs(body, tag, m);
      assert body[..m] == t[|name| + 1..n] && body[m..] == t[n..];
    }
  }

  lemma DollarReaches(t: string, name: string)
    requires Opens(t, name)
    ensures DollarLen(t) == Some(|name| + 1 + BodyReach(t[|name| + 1..], Tag(name)))
  {
    OpensIs(t);
    hide Find, Tag, TagLen, OpensDollar, OpeningTag, Body;
    NameFits(t, name);
  }

  lemma NameFits(t: string, name: string)
    requires Opens(t, name)
    ensures |name| < |t| && |t[|name| + 1..]| == |t| - |name| - 1
  {
  }

  lemma ReachFits(body: string, tag: string)
    ensures BodyReach(body, tag) <= |body|
  {
  }

  lemma NowhereFirst(t: string, tag: string)
    ensures (forall k: nat :: !FirstAt(t, tag, k)) <==> (forall k: nat :: !OccursAt(t, tag, k))
  {
    if exists k: nat :: OccursAt(t, tag, k) {
      var k: nat :| OccursAt(t, tag, k);
      var f := LeastOccurrence(t, tag, k);
    }
  }

  lemma {:induction false} LeastOccurrence(t: string, tag: string, k: nat) returns (f: nat)
    requires OccursAt(t, tag, k)
    ensures FirstAt(t, tag, f)
  {
    hide OccursAt;
    if j: nat :| j < k && OccursAt(t, tag, j) {
      f := LeastOccurrence(t, tag, j);
    } else {
      f := k;
    }
  }

  // ---------------------------------------------------------------------- tokens

  // What a query has at a position: `pre` stands before the token, `rest` behind it.
  predicate IsLine(text: string, rest: string) {
    Starts2(text, '-', '-') && LineRest(text[2..], rest)
  }

  ghost predicate IsBlock(text: string, rest: string) {
    Starts2(text, '/', '*') && exists steps :: Concat(steps) == text[2..] && BlockSteps(steps, rest, 1)
  }

  ghost predicate IsLiteral(pre: string, text: string, rest: string) {
    Heads(text, '\'') && exists units :: Quoted(text[1..], rest, units, '\'', BehindEscape(pre))
  }

  ghost predicate IsIdentifier(text: string, rest: string) {
    Heads(text, '"') && exists units :: Quoted(text[1..], rest, units, '"', false)
  }

  // With this name.
  ghost predicate DollarNamed(text: string, rest: string, name: string) {
    text != [] && Opens(text[1..] + rest, name) && |name| + 2 <= |text| && DollarRest(text[|name| + 2..], rest, Tag(name))
  }

  ghost predicate IsDollar(pre: string, text: string, rest: string) {
    !BehindWord(pre) && Heads(text, '$') && exists name :: DollarNamed(text, rest, name)
  }

  // A placeholder number: no leading zero, and no digit behind it.
  predicate IsPositional(pre: string, digits: string, rest: string) {
    && !BehindWord(pre) && digits != [] && digits[0] != '0'
    && (forall c <- digits :: Numeric(c)) && (rest != [] ==> !Numeric(rest[0]))
  }

  // A placeholder name: the longest run of letters, digits and underscores behind the dollar
  // sign, if no digit starts it and no dollar quote opens there.
  ghost predicate IsNamed(pre: string, name: string, rest: string) {
    && !BehindWord(pre) && name != [] && !Numeric(name[0])
    && (forall c <- name :: Alphabetic(c) || Numeric(c))
    && (rest != [] ==> !Alphabetic(rest[0]) && !Numeric(rest[0]))
    && !OpensSome(name + rest)
  }

  // A character at which nothing else starts.
  ghost predicate IsSingle(pre: string, text: string, rest: string) {
    && |text| == 1 && text != "'" && text != "\""
    && !Starts2(text + rest, '-', '-') && !Starts2(text + rest, '/', '*')
    && (text == "$" ==>
          || BehindWord(pre)
          || (!OpensSome(rest) && (rest != [] ==> !('1' <= rest[0] <= '9') && !Alphabetic(rest[0]))))
  }

  ghost predicate TokenAt(pre: string, k: Token, rest: string) {
    match k
    case Positional(digits) => IsPositional(pre, digits, rest)
    case Named(name) => IsNamed(pre, name, rest)
    case Copied(text) =>
      || IsLine(text, rest) || IsBlock(text, rest) || IsLiteral(pre, text, rest) || IsIdentifier(text, rest)
      || IsDollar(pre, text, rest) || IsSingle(pre, text, rest)
  }

  // ------------------------------------------------------- comments and literals

  lemma LineExactly(text: string, rest: string)
    requires Starts2(text + rest, '-', '-') && text != []
    ensures |text| == 2 + LineLen((text + rest)[2..]) <==> IsLine(text, rest)
  {
    hide LineLen, LineRest;
    var t := text + rest;
    if |text| >= 2 {
      assert t[2..] == text[2..] + rest;
      if IsLine(text, rest) {
        LineIsRead(text[2..], rest);
      }
      var n := LineLen(t[2..]);
      ReadIsLine(t[2..]);
      if |text| == 2 + n {
        assert t[2..][..n] == text[2..] && t[2..][n..] == rest;
      }
    }
  }

  lemma BlockExactly(text: string, rest: string)
    requires Starts2(text + rest, '/', '*') && text != []
    ensures |text| == 2 + BlockLen((text + rest)[2..], 1) <==> IsBlock(text, rest)
  {
    hide BlockLen, BlockSteps, Concat;
    var t := text + rest;
    if |text| >= 2 {
      assert t[2..] == text[2..] + rest;
      if IsBlock(text, rest) {
        var steps :| Concat(steps) == text[2..] && BlockSteps(steps, rest, 1);
        BlockIsRead(steps, rest, 1);
      }
      var n := BlockLen(t[2..], 1);
      var steps := ReadIsBlock(t[2..], 1);
      if |text| == 2 + n {
        assert t[2..][..n] == text[2..] && t[2..][n..] == rest;
      }
    }
  }

  lemma QuoteExactly(text: string, rest: string, quote: char, escape: bool)
    requires Heads(text + rest, quote) && text != [] && quote != '\\'
    ensures |text| == 1 + QuoteLen((text + rest)[1..], quote, escape)
       <==> exists units :: Quoted(text[1..], rest, units, quote, escape)
  {
    hide QuoteLen, Quoted;
    var t := text + rest;
    assert t[1..] == text[1..] + rest;
    if units :| Quoted(text[1..], rest, units, quote, escape) {
      QuotedIsRead(text[1..], rest, units, quote, escape);
    }
    var n := QuoteLen(t[1..], quote, escape);
    var units := ReadIsQuoted(t[1..], quote, escape);
    if |text| == 1 + n {
      assert t[1..][..n] == text[1..] && t[1..][n..] == rest;
    }
  }

  lemma DollarExactly(text: string, rest: string)
    requires Heads(text + rest, '$') && text != []
    ensures DollarLen((text + rest)[1..]) == Some(|text| - 1) <==> exists name :: DollarNamed(text, rest, name)
  {
    hide DollarLen, DollarRest, Opens, Tag;
    var t, n := text + rest, |text| - 1;
    var u := t[1..];
    assert u == text[1..] + rest;
    forall name | Opens(u, name) ensures DollarLen(u) == Some(n) <==> DollarNamed(text, rest, name) {
      DollarIs(u, name, n);
      if |name| + 1 <= n {
        assert u[|name| + 1..n] == text[|name| + 2..] && u[n..] == rest;
      }
    }
    NoDollar(u);
  }

  lemma NoDollar(t: string)
    ensures DollarLen(t).Some? <==> exists name :: Opens(t, name)
  {
    OpensIs(t);
    hide Find, Opens;
  }

  // Where each special token starts.
  lemma SpecialStarts(pre: string, t: string)
    requires t != []
    ensures var c, r := ContextOf(pre), Special(ContextOf(pre), t);
            if Starts2(t, '-', '-') then r == Some(Reach(LineComment, 2 + LineLen(t[2..])))
            else if Starts2(t, '/', '*') then r == Some(Reach(BlockComment, 2 + BlockLen(t[2..], 1)))
            else if t[0] == '\'' then r == Some(Reach(Literal, 1 + QuoteLen(t[1..], '\'', BehindEscape(pre))))
            else if t[0] == '"' then r == Some(Reach(QuotedIdentifier, 1 + QuoteLen(t[1..], '"', false)))
            else if t[0] == '$' && !BehindWord(pre) && OpensSome(t[1..]) then
              DollarLen(t[1..]).Some? && r == Some(Reach(DollarBody, 1 + DollarLen(t[1..]).value))
            else r == None
  {
    ContextIs(pre);
    NoDollar(t[1..]);
    hide LineLen, BlockLen, QuoteLen, DollarLen, Opens, ContextOf;
  }

  lemma CopiedSpecial(pre: string, text: string, rest: string)
    requires text != [] && Special(ContextOf(pre), text + rest).Some?
    ensures Read(ContextOf(pre), text + rest) == Copied(text) <==> Special(ContextOf(pre), text + rest).value.len == |text|
  {
    hide Special;
    var t := text + rest;
    var n := Special(ContextOf(pre), t).value.len;
    assert t[..|text|] == text;
    assert |t[..n]| == n;
  }

  predicate IsComment(kind: Kind) {
    kind.LineComment? || kind.BlockComment?
  }

  // Special tokens are the comments, literals, quoted identifiers and dollar-quoted bodies.
  lemma SpecialExactly(pre: string, text: string, rest: string)
    requires text != [] && Special(ContextOf(pre), text + rest).Some?
    ensures var r := Special(ContextOf(pre), text + rest).value;
            && (r.len == |text| && IsComment(r.kind) <==> IsLine(text, rest) || IsBlock(text, rest))
            && (r.len == |text| && !IsComment(r.kind)
                <==> IsLiteral(pre, text, rest) || IsIdentifier(text, rest) || IsDollar(pre, text, rest))
  {
    var t := text + rest;
    SpecialStarts(pre, t);
    hide LineLen, BlockLen, QuoteLen, DollarLen, Special, ContextOf, LineRest, Quoted, DollarNamed, BlockSteps, Concat,
      BehindEscape, OpensSome;
    if Starts2(t, '-', '-') {
      LineExactly(text, rest);
    } else if Starts2(t, '/', '*') {
      BlockExactly(text, rest);
    } else if t[0] == '\'' {
      QuoteExactly(text, rest, '\'', BehindEscape(pre));
    } else if t[0] == '"' {
      QuoteExactly(text, rest, '"', false);
    } else {
      DollarExactly(text, rest);
    }
  }

  lemma CopiedExactly(pre: string, text: string, rest: string)
    requires text != []
    ensures Read(ContextOf(pre), text + rest) == Copied(text) <==> TokenAt(pre, Copied(text), rest)
  {
    var t := text + rest;
    if Special(ContextOf(pre), t).Some? {
      CopiedSpecial(pre, text, rest);
      SpecialExactly(pre, text, rest);
      NotSingle(pre, text, rest);
      hide Special, Read, ContextOf, IsLine, IsBlock, IsLiteral, IsIdentifier, IsDollar, IsSingle;
    } else {
      SpecialStarts(pre, t);
      hide Special, OpensSome, Read;
      SingleExactly(pre, text, rest);
    }
  }

  // Where a special token starts no single character is one.
  lemma NotSingle(pre: string, text: string, rest: string)
    requires text != [] && Special(ContextOf(pre), text + rest).Some?
    ensures !IsSingle(pre, text, rest)
  {
    var t := text + rest;
    SpecialStarts(pre, t);
    hide LineLen, BlockLen, QuoteLen, DollarLen, Special, ContextOf, BehindEscape, OpensSome;
    if |text| == 1 {
      assert text == [t[0]] && t[1..] == rest;
    }
  }

  lemma SingleExactly(pre: string, text: string, rest: string)
    requires text != [] && Special(ContextOf(pre), text + rest).None?
    requires var t := text + rest;
             && !Starts2(t, '-', '-') && !Starts2(t, '/', '*') && t[0] != '\'' && t[0] != '"'
             && !(t[0] == '$' && !BehindWord(pre) && OpensSome(t[1..]))
    ensures Read(ContextOf(pre), text + rest) == Copied(text) <==> TokenAt(pre, Copied(text), rest)
  {
    var t := text + rest;
    ContextIs(pre);
    assert text[0] == t[0];
    NotDollar(pre, text, rest);
    hide Special, ContextOf, LineRest, Quoted, DollarNamed, BlockSteps, Concat, OpensSome, DigitLen, NameLen;
    assert t[1..] == text[1..] + rest && (|text| == 1 ==> t[1..] == rest);
    assert |t[..1]| == 1;
    if |text| == 1 {
      assert t[..1] == text;
      assert text == [text[0]];
    }
  }

  lemma NotDollar(pre: string, text: string, rest: string)
    requires text != [] && !((text + rest)[0] == '$' && !BehindWord(pre) && OpensSome((text + rest)[1..]))
    ensures !IsDollar(pre, text, rest)
  {
    hide Opens, DollarRest, BehindWord;
    assert (text + rest)[1..] == text[1..] + rest && (text + rest)[0] == text[0];
  }

  // ---------------------------------------------------------------- placeholders

  lemma NameIs(name: string, rest: string)
    ensures NameLen(name + rest) == |name|
       <==> (forall c <- name :: Alphabetic(c) || Numeric(c)) && (rest != [] ==> !Alphabetic(rest[0]) && !Numeric(rest[0]))
  {
    var t := name + rest;
    if NameLen(t) == |name| {
      forall c | c in name ensures Alphabetic(c) || Numeric(c) {
        var k :| 0 <= k < |name| && name[k] == c;
        assert t[k] == c;
      }
      assert rest != [] ==> t[|name|] == rest[0];
    }
    if (forall c <- name :: Alphabetic(c) || Numeric(c)) && (rest != [] ==> !Alphabetic(rest[0]) && !Numeric(rest[0])) {
      forall k | 0 <= k < |name| ensures IsNameChar(name[k]) {
        assert name[k] in name;
      }
      NameLenAppend(name, rest);
    }
  }

  lemma DigitsAre(digits: string, rest: string)
    ensures DigitLen(digits + rest) == |digits|
       <==> (forall c <- digits :: Numeric(c)) && (rest != [] ==> !Numeric(rest[0]))
  {
    var t := digits + rest;
    if DigitLen(t) == |digits| {
      forall c | c in digits ensures Numeric(c) {
        var k :| 0 <= k < |digits| && digits[k] == c;
        assert t[k] == c;
      }
      assert rest != [] ==> t[|digits|] == rest[0];
    }
    if (forall c <- digits :: Numeric(c)) && (rest != [] ==> !Numeric(rest[0])) {
      forall k | 0 <= k < |digits| ensures IsDigit(digits[k]) {
        assert digits[k] in digits;
      }
      DigitLenAppend(digits, rest);
    }
  }

  lemma NamedExactly(pre: string, name: string, rest: string)
    ensures Read(ContextOf(pre), "$" + name + rest) == Named(name) <==> IsNamed(pre, name, rest)
  {
    var t := "$" + name + rest;
    assert t[1..] == name + rest;
    ContextIs(pre);
    SpecialStarts(pre, t);
    NameIs(name, rest);
    hide LineLen, BlockLen, QuoteLen, DollarLen, Special, ContextOf, OpensSome, BehindEscape, BehindWord, NameLen, DigitLen;
    if name != [] {
      assert t[1] == name[0] && name[0] in name;
    }
    assert (name + rest)[..|name|] == name;
    assert NameLen(t[1..]) <= |t[1..]| && |t[1..][..NameLen(t[1..])]| == NameLen(t[1..]);
  }

  lemma PositionalExactly(pre: string, digits: string, rest: string)
    ensures Read(ContextOf(pre), "$" + digits + rest) == Positional(digits) <==> IsPositional(pre, digits, rest)
  {
    var t := "$" + digits + rest;
    assert t[1..] == digits + rest;
    ContextIs(pre);
    SpecialStarts(pre, t);
    DigitsAre(digits, rest);
    if digits != [] {
      assert t[1] == digits[0] && digits[0] in digits;
      DigitOpensNone(digits, rest);
    }
    hide LineLen, BlockLen, QuoteLen, DollarLen, Special, ContextOf, OpensSome, BehindEscape, BehindWord, NameLen, DigitLen;
    assert (digits + rest)[..|digits|] == digits;
    assert DigitLen(t[1..]) <= |t[1..]| && |t[1..][..DigitLen(t[1..])]| == DigitLen(t[1..]);
  }

  // No dollar quote opens where a digit follows the dollar sign.
  lemma DigitOpensNone(digits: string, rest: string)
    requires digits != []
    ensures Numeric(digits[0]) ==> !OpensSome(digits + rest)
  {
    forall name | Opens(digits + rest, name) ensures !Numeric(digits[0]) {
      assert (digits + rest)[0] == digits[0];
      assert name != [] ==> name[0] == digits[0];
    }
  }

  // Main result: the token that is read is the one that the grammar has there, and the grammar
  // has no other.
  lemma ReadsExactly(pre: string, k: Token, rest: string)
    requires TextOf(k) != []
    ensures Read(ContextOf(pre), TextOf(k) + rest) == k <==> TokenAt(pre, k, rest)
  {
    hide Read, ContextOf, IsNamed, IsPositional, IsLine, IsBlock, IsLiteral, IsIdentifier, IsDollar, IsSingle;
    match k
    case Positional(digits) => PositionalExactly(pre, digits, rest);
    case Named(name) => NamedExactly(pre, name, rest);
    case Copied(text) => CopiedExactly(pre, text, rest);
  }

  // The tokens of a text behind `pre`, one after the other.
  ghost predicate Tokenizes(pre: string, tokens: seq<Token>, t: string)
    decreases |t|
  {
    if tokens == [] then t == []
    else
      var k := tokens[0];
      var n := |TextOf(k)|;
      && 0 < n <= |t| && t[..n] == TextOf(k) && TokenAt(pre, k, t[n..])
      && Tokenizes(pre + TextOf(k), tokens[1..], t[n..])
  }

  // So is the whole sequence of tokens of a query.
  lemma {:induction false} LexesExactly(pre: string, tokens: seq<Token>, t: string)
    ensures Lex(ContextOf(pre), t) == tokens <==> Tokenizes(pre, tokens, t)
    decreases |t|
  {
    hide TokenAt, Read, TextOf, ContextOf;
    if t == [] {
    } else {
      var k := Read(ContextOf(pre), t);
      ReadIsPrefix(ContextOf(pre), t);
      var n := |TextOf(k)|;
      assert t == TextOf(k) + t[n..];
      ReadsExactly(pre, k, t[n..]);
      ContextExtends(pre, TextOf(k));
      var rest := Lex(ContextOf(pre + TextOf(k)), t[n..]);
      assert Lex(ContextOf(pre), t) == [k] + rest;
      if tokens != [] {
        OtherToken(pre, tokens[0], t);
        LexesExactly(pre + TextOf(k), tokens[1..], t[n..]);
        HeadAndTail(tokens, k, rest);
      }
    }
  }

  lemma HeadAndTail(tokens: seq<Token>, k: Token, rest: seq<Token>)
    requires tokens != []
    ensures [k] + rest == tokens <==> tokens[0] == k && tokens[1..] == rest
  {
    assert ([k] + rest)[1..] == rest && ([k] + rest)[0] == k;
    assert tokens == [tokens[0]] + tokens[1..];
  }

  lemma OtherToken(pre: string, k: Token, t: string)
    requires t != []
    ensures var n := |TextOf(k)|;
            0 < n <= |t| && t[..n] == TextOf(k) && TokenAt(pre, k, t[n..]) ==> Read(ContextOf(pre), t) == k
  {
    hide TokenAt, Read, ContextOf, TextOf;
    var n := |TextOf(k)|;
    if 0 < n <= |t| && t[..n] == TextOf(k) {
      assert t == TextOf(k) + t[n..];
      ReadsExactly(pre, k, t[n..]);
    }
  }
}
