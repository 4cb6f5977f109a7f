/**
 The token readers of src/sql-lex.ts: how far a comment, a string, a quoted identifier or
 a dollar-quoted body reaches. A character beyond U+FFFF counts as one here.
 */
module SqlLex {
  import opened Wrappers

  // ------------------------------------------------------------------ characters

  predicate IsLetter(c: char) {
    'a' <= c <= 'z' || 'A' <= c <= 'Z' || c == '_'
  }

  predicate IsDigit(c: char) {
    '0' <= c <= '9'
  }

  predicate IsWide(c: char) {
    c >= '\U{80}'
  }

  // isIdentifierContinuation.
  predicate IsWord(c: char) {
    IsLetter(c) || IsDigit(c) || c == '$' || IsWide(c)
  }

  // The characters of a dollar-quote tag.
  predicate IsTag(c: char) {
    IsLetter(c) || IsDigit(c) || IsWide(c)
  }

  predicate IsExponent(c: char) {
    c == 'e' || c == 'E'
  }

  // The \s class of JavaScript.
  predicate IsSpace(c: char) {
    || '\t' <= c <= '\r' || c == ' ' || c == '\U{a0}' || c == '\U{1680}' || '\U{2000}' <= c <= '\U{200a}'
    || c == '\U{2028}' || c == '\U{2029}' || c == '\U{202f}' || c == '\U{205f}' || c == '\U{3000}' || c == '\U{feff}'
  }

  predicate Heads(t: string, c: char) {
    t != [] && t[0] == c
  }

  // What the readers look at in front of a token: whether a word reaches up to it, and
  // whether the E of an escape string does.
  datatype Context = Context(word: bool, escape: bool)

  const FRESH := Context(false, false)

  function ContextOf(pre: string): Context {
    if pre == [] then FRESH
    else
      var last := pre[|pre| - 1];
      Context(IsWord(last), IsExponent(last) && !(|pre| > 1 && IsWord(pre[|pre| - 2])))
  }

  function Extend(c: Context, text: string): Context {
    if text == [] then c
    else
      var last := text[|text| - 1];
      Context(IsWord(last), IsExponent(last) && !(if |text| > 1 then IsWord(text[|text| - 2]) else c.word))
  }

  lemma ContextExtends(pre: string, text: string)
    ensures ContextOf(pre + text) == Extend(ContextOf(pre), text)
  {
    if text == [] {
      assert pre + text == pre;
    }
  }

  // --------------------------------------------------------------------- lengths

  // What a quoted text takes after its opening quote; all that is left when it is not closed.
  function QuoteLen(t: string, quote: char, escape: bool): (n: nat)
    ensures n <= |t|
  {
    if t == [] then 0
    else if escape && t[0] == '\\' then if |t| < 2 then 1 else 2 + QuoteLen(t[2..], quote, escape)
    else if t[0] == quote then if |t| > 1 && t[1] == quote then 2 + QuoteLen(t[2..], quote, escape) else 1
    else 1 + QuoteLen(t[1..], quote, escape)
  }

  // What a line comment takes after its dashes, its line break included.
  function LineLen(t: string): (n: nat)
    ensures n <= |t|
  {
    if t == [] then 0 else if t[0] == '\n' then 1 else 1 + LineLen(t[1..])
  }

  predicate Starts2(t: string, a: char, b: char) {
    |t| > 1 && t[0] == a && t[1] == b
  }

  // What nested block comments take after the first opener.
  function BlockLen(t: string, depth: nat): (n: nat)
    ensures n <= |t|
    decreases |t|
  {
    if t == [] || depth == 0 then 0
    else if Starts2(t, '/', '*') then 2 + BlockLen(t[2..], depth + 1)
    else if Starts2(t, '*', '/') then 2 + BlockLen(t[2..], depth - 1)
    else 1 + BlockLen(t[1..], depth)
  }

  function TagLen(t: string): (n: nat)
    ensures n <= |t| && forall k :: 0 <= k < n ==> IsTag(t[k])
    ensures n < |t| ==> !IsTag(t[n])
  {
    if t != [] && IsTag(t[0]) then 1 + TagLen(t[1..]) else 0
  }

  // indexOf.
  function Find(t: string, tag: string): (r: Option<nat>)
    ensures r.Some? ==> r.value + |tag| <= |t|
  {
    if |t| < |tag| then None
    else if t[..|tag|] == tag then Some(0)
    else if t == [] then None
    else
      var r := Find(t[1..], tag);
      if r.None? then None else Some(1 + r.value)
  }

  predicate OccursAt(t: string, tag: string, k: nat) {
    k + |tag| <= |t| && t[k..k + |tag|] == tag
  }

  // The first occurrence: there is none at an earlier position.
  ghost predicate FirstAt(t: string, tag: string, k: nat) {
    OccursAt(t, tag, k) && forall j :: 0 <= j < k ==> !OccursAt(t, tag, j)
  }

  lemma {:induction false} FindIsFirst(t: string, tag: string, k: nat)
    ensures Find(t, tag) == Some(k) <==> FirstAt(t, tag, k)
  {
    if OccursAt(t, tag, 0) {
      assert t[..|tag|] == t[0..0 + |tag|];
    } else if |t| >= |tag| {
      assert t[..|tag|] == t[0..0 + |tag|];
      if k > 0 && t != [] {
        FindIsFirst(t[1..], tag, k - 1);
        ShiftFirst(t, tag, k);
      }
    }
  }

  lemma ShiftFirst(t: string, tag: string, k: nat)
    requires t != [] && 0 < k && !OccursAt(t, tag, 0)
    ensures FirstAt(t, tag, k) <==> FirstAt(t[1..], tag, k - 1)
  {
    forall j: nat ensures OccursAt(t[1..], tag, j) <==> OccursAt(t, tag, j + 1) {
      if j + 1 + |tag| <= |t| {
        assert t[1..][j..j + |tag|] == t[j + 1..j + 1 + |tag|];
      }
    }
    hide OccursAt;
    if FirstAt(t[1..], tag, k - 1) {
      forall j | 0 <= j < k ensures !OccursAt(t, tag, j) {
        assert j > 0 ==> !OccursAt(t[1..], tag, j - 1);
      }
    }
  }

  // Whether a dollar quote opens when this follows a dollar sign.
  predicate OpensDollar(t: string) {
    && t != [] && (t[0] == '$' || (IsTag(t[0]) && !IsDigit(t[0])))
    && TagLen(t) < |t| && t[TagLen(t)] == '$'
  }

  // The opening tag with both its dollar signs, and what follows it.
  function OpeningTag(t: string): string
    requires OpensDollar(t)
  {
    ['$'] + t[..TagLen(t) + 1]
  }

  function Body(t: string): string
    requires OpensDollar(t)
  {
    t[TagLen(t) + 1..]
  }

  // readDollarQuoted after the first dollar sign.
  function DollarLen(t: string): (r: Option<nat>)
    ensures r.Some? ==> r.value <= |t|
  {
    if !OpensDollar(t) then None
    else
      var close := Find(Body(t), OpeningTag(t));
      if close.None? then Some(|t|) else Some(|t| - |Body(t)| + close.value + |OpeningTag(t)|)
  }

  // -------------------------------------------------------------------- locality

  // A closed quote reads the same before any text that does not start with the quote.
  lemma {:induction false} QuoteIsLocal(u: string, post: string, other: string, quote: char, escape: bool)
    requires QuoteLen(u + post, quote, escape) == |u| && post != [] && !Heads(other, quote)
    ensures QuoteLen(u + other, quote, escape) == |u|
    decreases |u|
  {
    var t := u + post;
    assert u != [];
    var n := if (escape && t[0] == '\\') || (t[0] == quote && |t| > 1 && t[1] == quote) then 2 else 1;
    assert n <= |u|;
    if t[0] == quote && n == 1 {
      assert u == [quote];
    } else {
      assert t[n..] == u[n..] + post && (u + other)[n..] == u[n..] + other;
      QuoteIsLocal(u[n..], post, other, quote, escape);
    }
  }

  lemma {:induction false} LineIsLocal(u: string, post: string, other: string)
    requires LineLen(u + post) == |u| && post != []
    ensures LineLen(u + other) == |u|
  {
    assert u != [];
    if u[0] != '\n' {
      assert (u + post)[1..] == u[1..] + post && (u + other)[1..] == u[1..] + other;
      LineIsLocal(u[1..], post, other);
    }
  }

  lemma {:induction false} BlockIsLocal(u: string, post: string, other: string, depth: nat)
    requires BlockLen(u + post, depth) == |u| && post != []
    ensures BlockLen(u + other, depth) == |u|
    decreases |u|
  {
    if depth > 0 {
      assert |u| > 1;
      var n := if Starts2(u, '/', '*') || Starts2(u, '*', '/') then 2 else 1;
      assert (u + post)[n..] == u[n..] + post && (u + other)[n..] == u[n..] + other;
      BlockIsLocal(u[n..], post, other, if n == 1 then depth else if u[0] == '/' then depth + 1 else depth - 1);
    }
  }

  // The first occurrence of a tag does not depend on what follows it.
  lemma {:induction false} FindIsLocal(u: string, post: string, other: string, tag: string)
    requires |tag| > 0 && |tag| <= |u| && Find(u + post, tag) == Some(|u| - |tag|)
    ensures Find(u + other, tag) == Some(|u| - |tag|)
    decreases |u|
  {
    var t, v := u + post, u + other;
    assert t[..|tag|] == u[..|tag|] == v[..|tag|];
    if u[..|tag|] != tag {
      assert t[1..] == u[1..] + post && v[1..] == u[1..] + other;
      assert Find(t[1..], tag) == Some(|u| - 1 - |tag|);
      FindIsLocal(u[1..], post, other, tag);
    }
  }

  lemma {:induction false} TagLenAppend(u: string, post: string)
    requires TagLen(u) < |u|
    ensures TagLen(u + post) == TagLen(u)
  {
    if u != [] && IsTag(u[0]) {
      assert (u + post)[1..] == u[1..] + post;
      TagLenAppend(u[1..], post);
    }
  }

  lemma {:induction false} TagLenPrefix(u: string, post: string)
    requires TagLen(u + post) < |u|
    ensures TagLen(u) == TagLen(u + post)
  {
    if u != [] && IsTag(u[0]) {
      assert (u + post)[1..] == u[1..] + post;
      TagLenPrefix(u[1..], post);
    }
  }

  // The same opening before another text.
  lemma OpensLocally(u: string, post: string, other: string) returns (body: string)
    requires OpensDollar(u + post) && TagLen(u + post) < |u|
    ensures OpensDollar(u + other) && OpeningTag(u + other) == OpeningTag(u + post)
    ensures Body(u + post) == body + post && Body(u + other) == body + other
  {
    TagLenPrefix(u, post);
    TagLenAppend(u, other);
    hide OpensDollar, TagLen, OpeningTag, Body;
    body := u[TagLen(u) + 1..];
    OpensWithin(u, post);
    OpensWithin(u, other);
  }

  // An opening inside the first part of a text.
  lemma OpensWithin(u: string, post: string)
    requires TagLen(u + post) == TagLen(u) < |u|
    ensures OpensDollar(u + post) <==> OpensDollar(u)
    ensures OpensDollar(u) ==> OpeningTag(u + post) == OpeningTag(u) && Body(u + post) == u[TagLen(u) + 1..] + post
  {
    hide TagLen;
    var t, n := u + post, TagLen(u);
    assert t[n] == u[n] && t[0] == u[0] && t[..n + 1] == u[..n + 1] && t[n + 1..] == u[n + 1..] + post;
  }

  lemma ClosedDollar(t: string)
    requires DollarLen(t).Some? && DollarLen(t).value < |t|
    ensures OpensDollar(t) && TagLen(t) < DollarLen(t).value
    ensures Find(Body(t), OpeningTag(t)) == Some(DollarLen(t).value - (|t| - |Body(t)|) - |OpeningTag(t)|)
  {
    hide TagLen, Find;
  }

  lemma DollarIsLocal(u: string, post: string, other: string)
    requires DollarLen(u + post) == Some(|u|) && post != []
    ensures DollarLen(u + other) == Some(|u|)
  {
    ClosedDollar(u + post);
    var body := OpensLocally(u, post, other);
    hide OpensDollar, TagLen, Find, OpeningTag, Body;
    FindIsLocal(body, post, other, OpeningTag(u + post));
  }

  // ------------------------------------------------------------- special tokens

  datatype Kind = LineComment | BlockComment | Literal | QuotedIdentifier | DollarBody

  datatype Reach = Reach(kind: Kind, len: nat)

  // The comment, literal, quoted identifier or dollar-quoted body that t starts with.
  function Special(c: Context, t: string): (r: Option<Reach>)
    requires t != []
    ensures r.Some? ==> 1 <= r.value.len <= |t|
  {
    if Starts2(t, '-', '-') then Some(Reach(LineComment, 2 + LineLen(t[2..])))
    else if Starts2(t, '/', '*') then Some(Reach(BlockComment, 2 + BlockLen(t[2..], 1)))
    else if t[0] == '\'' then Some(Reach(Literal, 1 + QuoteLen(t[1..], '\'', c.escape)))
    else if t[0] == '"' then Some(Reach(QuotedIdentifier, 1 + QuoteLen(t[1..], '"', false)))
    else if t[0] == '$' && !c.word && DollarLen(t[1..]).Some? then
      Some(Reach(DollarBody, 1 + DollarLen(t[1..]).value))
    else None
  }

  // What may stand behind a token instead of `post`: the same first character, a space or
  // the end.
  predicate Follows(post: string, other: string) {
    other == [] || other[0] == ' ' || (post != [] && other[0] == post[0])
  }

  lemma {:induction false} ClosedQuote(u: string, post: string, quote: char, escape: bool)
    requires QuoteLen(u + post, quote, escape) == |u| && post != []
    ensures post[0] != quote
    decreases |u|
  {
    var t := u + post;
    assert u != [];
    var n := if (escape && t[0] == '\\') || (t[0] == quote && |t| > 1 && t[1] == quote) then 2 else 1;
    assert n <= |u|;
    if t[0] == quote && n == 1 {
      assert t[1..] == post;
    } else {
      assert t[n..] == u[n..] + post;
      ClosedQuote(u[n..], post, quote, escape);
    }
  }

  // A token that ends before the text does is the same token before whatever may follow it.
  lemma SpecialIsLocal(c: Context, u: string, post: string, other: string)
    requires u != [] && post != [] && Special(c, u + post).Some? && Special(c, u + post).value.len == |u|
    requires Follows(post, other)
    ensures Special(c, u + other) == Special(c, u + post)
  {
    var t, v := u + post, u + other;
    assert v[0] == t[0] && (|u| > 1 ==> v[1] == t[1]);
    hide QuoteLen, LineLen, BlockLen, DollarLen;
    var kind := Special(c, t).value.kind;
    var n := if kind.LineComment? || kind.BlockComment? then 2 else 1;
    assert n <= |u|;
    var inner := u[n..];
    assert t[n..] == inner + post && v[n..] == inner + other;
    match kind
    case LineComment => LineIsLocal(inner, post, other);
    case BlockComment => BlockIsLocal(inner, post, other, 1);
    case Literal =>
      ClosedQuote(inner, post, '\'', c.escape);
      QuoteIsLocal(inner, post, other, '\'', c.escape);
    case QuotedIdentifier =>
      ClosedQuote(inner, post, '"', false);
      QuoteIsLocal(inner, post, other, '"', false);
    case DollarBody => DollarIsLocal(inner, post, other);
  }

  // A single character stays one when no dollar quote opens behind it.
  lemma OrdinaryIsLocal(c: Context, x: char, post: string, other: string)
    requires Special(c, [x] + post).None? && Follows(post, other)
    requires x == '$' && OpensDollar(other) ==> OpensDollar(post)
    ensures Special(c, [x] + other).None?
  {
    assert ([x] + post)[1..] == post && ([x] + other)[1..] == other;
    hide OpensDollar, Find;
  }

  // -------------------------------------------------------------------- readers

  // isEscapeStringPrefix.
  predicate EscapePrefix(query: string, quote: nat)
    requires quote <= |query|
  {
    quote > 0 && IsExponent(query[quote - 1]) && !(quote > 1 && IsWord(query[quote - 2]))
  }

  method ReadSingleQuoted(query: string, start: nat, escapeBackslash: bool) returns (end: nat)
    requires start < |query|
    ensures end == start + 1 + QuoteLen(query[start + 1..], '\'', escapeBackslash)
  {
    end := ReadQuote(query, start, '\'', escapeBackslash);
  }

  method ReadQuotedIdentifier(query: string, start: nat) returns (end: nat)
    requires start < |query|
    ensures end == start + 1 + QuoteLen(query[start + 1..], '"', false)
  {
    end := ReadQuote(query, start, '"', false);
  }

  // The loop that both readers of quotes share.
  method ReadQuote(query: string, start: nat, quote: char, escapeBackslash: bool) returns (end: nat)
    requires start < |query|
    ensures end == start + 1 + QuoteLen(query[start + 1..], quote, escapeBackslash)
  {
    var i := start + 1;
    while i < |query|
      invariant start + 1 <= i <= |query|
      invariant i + QuoteLen(query[i..], quote, escapeBackslash)
             == start + 1 + QuoteLen(query[start + 1..], quote, escapeBackslash)
    {
      ghost var left := query[i..];
      assert left[1..] == query[i + 1..] && (|left| > 1 ==> left[2..] == query[i + 2..]);
      if escapeBackslash && query[i] == '\\' {
        if i + 2 > |query| {
          return |query|;
        }
        i := i + 2;
      } else if query[i] == quote {
        if i + 1 < |query| && query[i + 1] == quote {
          i := i + 2;
        } else {
          return i + 1;
        }
      } else {
        i := i + 1;
      }
    }
    return |query|;
  }

  method ReadLineComment(query: string, start: nat) returns (end: nat)
    requires start + 2 <= |query|
    ensures end == start + 2 + LineLen(query[start + 2..])
  {
    end := start + 2;
    while end < |query|
      invariant start + 2 <= end <= |query|
      invariant end + LineLen(query[end..]) == start + 2 + LineLen(query[start + 2..])
    {
      assert query[end..][1..] == query[end + 1..];
      end := end + 1;
      if query[end - 1] == '\n' {
        return;
      }
    }
  }

  lemma BlockStep(t: string, depth: nat)
    requires t != [] && depth > 0
    ensures BlockLen(t, depth)
         == if Starts2(t, '/', '*') then 2 + BlockLen(t[2..], depth + 1)
            else if Starts2(t, '*', '/') then 2 + BlockLen(t[2..], depth - 1)
            else 1 + BlockLen(t[1..], depth)
  {
  }

  lemma BlockEnd(t: string, depth: nat)
    requires t == [] || depth == 0
    ensures BlockLen(t, depth) == 0
  {
  }

  method ReadBlockComment(query: string, start: nat) returns (end: nat)
    requires start + 2 <= |query|
    ensures end == start + 2 + BlockLen(query[start + 2..], 1)
  {
    hide BlockLen;
    var depth := 1;
    end := start + 2;
    while end < |query| && depth > 0
      invariant start + 2 <= end <= |query|
      invariant end + BlockLen(query[end..], depth) == start + 2 + BlockLen(query[start + 2..], 1)
      decreases |query| - end
    {
      ghost var left := query[end..];
      BlockStep(left, depth);
      assert left[1..] == query[end + 1..] && (|left| > 1 ==> left[2..] == query[end + 2..]);
      if end + 1 < |query| && query[end] == '/' && query[end + 1] == '*' {
        depth, end := depth + 1, end + 2;
      } else if end + 1 < |query| && query[end] == '*' && query[end + 1] == '/' {
        depth, end := depth - 1, end + 2;
      } else {
        end := end + 1;
      }
    }
    BlockEnd(query[end..], depth);
  }

  function Shift(n: int, r: Option<nat>): Option<int> {
    if r.None? then None else Some(n + r.value)
  }

  lemma FindStep(t: string, tag: string)
    requires tag != []
    ensures |t| < |tag| ==> Find(t, tag) == None
    ensures |t| >= |tag| ==> Find(t, tag) == if t[..|tag|] == tag then Some(0) else Shift(1, Find(t[1..], tag))
  {
  }

  // indexOf from a position on.
  method IndexOf(query: string, tag: string, from: nat) returns (r: Option<nat>)
    requires from <= |query| && tag != []
    ensures r == Shift(from, Find(query[from..], tag))
  {
    hide Find;
    var i := from;
    while i + |tag| <= |query|
      invariant from <= i <= |query|
      invariant Shift(from, Find(query[from..], tag)) == Shift(i, Find(query[i..], tag))
      decreases |query| - i
    {
      FindStep(query[i..], tag);
      assert query[i..][..|tag|] == query[i..i + |tag|] && query[i..][1..] == query[i + 1..];
      if query[i..i + |tag|] == tag {
        return Some(i);
      }
      i := i + 1;
    }
    FindStep(query[i..], tag);
    return None;
  }

  // Up to the first character that no tag has.
  method SkipTag(query: string, start: nat) returns (end: nat)
    requires start <= |query|
    ensures end == start + TagLen(query[start..])
  {
    end := start;
    while end < |query| && IsTag(query[end])
      invariant start <= end <= |query|
      invariant end - start + TagLen(query[end..]) == TagLen(query[start..])
    {
      assert query[end..][1..] == query[end + 1..];
      end := end + 1;
    }
  }

  method ReadDollarQuoted(query: string, start: nat) returns (r: Option<nat>)
    requires start < |query| && query[start] == '$'
    ensures r == Shift(start + 1, DollarLen(query[start + 1..]))
  {
    hide Find, TagLen;
    ghost var t := query[start + 1..];
    var end := start + 1;
    if end >= |query| || (query[end] != '$' && !(IsTag(query[end]) && !IsDigit(query[end]))) {
      return None;
    }
    end := SkipTag(query, end);
    if end >= |query| || query[end] != '$' {
      return None;
    }
    var opening := query[start..end + 1];
    assert opening == OpeningTag(t);
    assert Body(t) == query[end + 1..];
    var close := IndexOf(query, opening, end + 1);
    r := match close { case None => Some(|query|) case Some(k) => Some(k + |opening|) };
  }
}
