/**
 normalizeQuery of src/query-id.ts: comments and runs of white space become one space, the
 rest is copied. The query identifier is a hash of the result.
 */
module QueryId {
  import opened Wrappers
  import opened SqlLex

  function StepLen(c: Context, t: string): (n: nat)
    requires t != []
    ensures 1 <= n <= |t|
  {
    if IsSpace(t[0]) || Special(c, t).None? then 1 else Special(c, t).value.len
  }

  // White space and comments.
  predicate Skips(c: Context, t: string)
    requires t != []
  {
    || IsSpace(t[0])
    || (Special(c, t).Some? && (Special(c, t).value.kind.LineComment? || Special(c, t).value.kind.BlockComment?))
  }

  // The output for what is left: whether anything was written, and whether a space is due.
  function Norm(c: Context, t: string, started: bool, pending: bool): string
    decreases |t|
  {
    if t == [] then ""
    else
      var n := StepLen(c, t);
      if Skips(c, t) then Norm(Extend(c, t[..n]), t[n..], started, pending || started)
      else (if pending && started then " " else "") + t[..n] + Norm(Extend(c, t[..n]), t[n..], true, false)
  }

  function Normalize(query: string): string {
    Norm(FRESH, query, false, false)
  }

  // A literal, a quoted identifier, a dollar-quoted body or any other character, and whether
  // white space or comments stand between it and the one before.
  datatype Piece = Piece(gap: bool, text: string)

  function Pieces(c: Context, t: string, started: bool, pending: bool): seq<Piece>
    decreases |t|
  {
    if t == [] then []
    else
      var n := StepLen(c, t);
      if Skips(c, t) then Pieces(Extend(c, t[..n]), t[n..], started, pending || started)
      else [Piece(pending && started, t[..n])] + Pieces(Extend(c, t[..n]), t[n..], true, false)
  }

  // What the readers make of a query.
  function PiecesOf(query: string): seq<Piece> {
    Pieces(FRESH, query, false, false)
  }

  function Render(pieces: seq<Piece>): string {
    if pieces == [] then ""
    else (if pieces[0].gap then " " else "") + pieces[0].text + Render(pieces[1..])
  }

  // The normal form is the pieces with one space in each gap.
  lemma {:induction false} NormIsRendered(c: Context, t: string, started: bool, pending: bool)
    ensures Norm(c, t, started, pending) == Render(Pieces(c, t, started, pending))
    decreases |t|
  {
    if t == [] {
    } else {
      var n := StepLen(c, t);
      if Skips(c, t) {
        hide StepLen, Skips, Extend;
        NormIsRendered(Extend(c, t[..n]), t[n..], started, pending || started);
      } else {
        hide StepLen, Skips, Extend;
        NormIsRendered(Extend(c, t[..n]), t[n..], true, false);
        RenderFirst(Piece(pending && started, t[..n]), Pieces(Extend(c, t[..n]), t[n..], true, false));
      }
    }
  }

  lemma RenderFirst(p: Piece, rest: seq<Piece>)
    ensures Render([p] + rest) == (if p.gap then " " else "") + p.text + Render(rest)
  {
    assert ([p] + rest)[1..] == rest;
  }

  // ---------------------------------------------------------- what the output hides

  // The tag characters that are not white space.
  function SolidLen(t: string): (n: nat)
    ensures n <= |t|
  {
    if t != [] && IsTag(t[0]) && !IsSpace(t[0]) then 1 + SolidLen(t[1..]) else 0
  }

  // A dollar quote opens behind a dollar sign, with no white space in its tag.
  predicate OpensSolid(t: string) {
    && t != [] && (t[0] == '$' || (SolidLen(t) > 0 && !IsDigit(t[0])))
    && SolidLen(t) < |t| && t[SolidLen(t)] == '$'
  }

  // White space and comments only.
  predicate OnlyGaps(c: Context, t: string)
    decreases |t|
  {
    t != [] ==> Skips(c, t) && OnlyGaps(Extend(c, t[..StepLen(c, t)]), t[StepLen(c, t)..])
  }

  // The literal that t starts with, and what follows it in the output up to gaps.
  function LiteralAndRest(c: Context, t: string): string
    requires t != []
  {
    var n := StepLen(c, t);
    if OnlyGaps(Extend(c, t[..n]), t[n..]) then t[1..n] else t[1..]
  }

  // A piece of the query, in context c, is read back from the output, in context d: no dollar
  // quote opens that was behind a word, and a literal that becomes an escape string is as long.
  predicate ReadsSame(c: Context, d: Context, t: string)
    requires t != []
  {
    && (t[0] == '$' && c.word && !d.word ==> !OpensSolid(t[1..]))
    && (t[0] == '\'' && !c.escape && d.escape ==>
          QuoteLen(LiteralAndRest(c, t), '\'', true) == StepLen(c, t) - 1)
  }

  // Every piece is. In the output a piece behind a gap starts afresh.
  predicate Clear(c: Context, d: Context, t: string)
    decreases |t|
  {
    if t == [] then true
    else
      var n := StepLen(c, t);
      if Skips(c, t) then Clear(Extend(c, t[..n]), FRESH, t[n..])
      else ReadsSame(c, d, t) && Clear(Extend(c, t[..n]), Extend(d, t[..n]), t[n..])
  }

  predicate ClearQuery(query: string) {
    Clear(FRESH, FRESH, query)
  }

  const WORD := Context(true, false)

  // The contexts that can differ: white space that is part of a word to the readers, and an
  // E behind it.
  predicate Near(c: Context, d: Context) {
    c == d || (c == WORD && (d == FRESH || d == Context(true, true)))
  }

  // ---------------------------------------------------------------- the output

  lemma {:induction false} PendingHead(c: Context, t: string)
    ensures var o := Norm(c, t, true, true); o == [] || o[0] == ' '
    decreases |t|
  {
    if t != [] && Skips(c, t) {
      PendingHead(Extend(c, t[..StepLen(c, t)]), t[StepLen(c, t)..]);
    }
  }

  // The output goes on as the text does, or with a space, or it ends.
  lemma OutputFollows(c: Context, t: string)
    ensures Follows(t, Norm(c, t, true, false))
  {
    if t != [] {
      PendingHead(Extend(c, t[..StepLen(c, t)]), t[StepLen(c, t)..]);
    }
  }

  lemma {:induction false} NothingWritten(c: Context, t: string, pending: bool)
    ensures Norm(c, t, true, pending) == [] <==> OnlyGaps(c, t)
    decreases |t|
  {
    if t != [] && Skips(c, t) {
      NothingWritten(Extend(c, t[..StepLen(c, t)]), t[StepLen(c, t)..], true);
    }
  }

  lemma SolidIsOrdinary(c: Context, t: string)
    requires t != [] && IsTag(t[0]) && !IsSpace(t[0])
    ensures !Skips(c, t) && StepLen(c, t) == 1
  {
  }

  lemma GapHead(c: Context, t: string)
    requires t != [] && IsSpace(t[0])
    ensures var o := Norm(c, t, true, false); o == [] || o[0] == ' '
  {
    PendingHead(Extend(c, t[..1]), t[1..]);
  }

  lemma DollarHead(c: Context, t: string)
    requires Heads(t, '$')
    ensures var o := Norm(c, t, true, false); o != [] && o[0] == '$'
  {
  }

  lemma SolidHead(c: Context, t: string)
    requires t != [] && IsTag(t[0]) && !IsSpace(t[0])
    ensures var o := Norm(c, t, true, false);
            o == [t[0]] + Norm(Extend(c, t[..1]), t[1..], true, false)
  {
    SolidIsOrdinary(c, t);
  }

  // The output goes on with the same tag characters, up to white space.
  lemma {:induction false} OutputRun(c: Context, t: string)
    ensures var o := Norm(c, t, true, false);
            && TagLen(o) == SolidLen(t)
            && (Heads(o[TagLen(o)..], '$') <==> Heads(t[SolidLen(t)..], '$'))
            && (TagLen(o) > 0 ==> o[0] == t[0])
    decreases |t|
  {
    hide Norm, Extend;
    var o := Norm(c, t, true, false);
    if t != [] && IsTag(t[0]) && !IsSpace(t[0]) {
      SolidHead(c, t);
      var rest := Norm(Extend(c, t[..1]), t[1..], true, false);
      OutputRun(Extend(c, t[..1]), t[1..]);
      assert o[1..] == rest;
      assert o[TagLen(o)..] == rest[TagLen(rest)..] && t[SolidLen(t)..] == t[1..][SolidLen(t[1..])..];
    } else if t != [] && IsSpace(t[0]) {
      GapHead(c, t);
    } else {
      OutputFollows(c, t);
      if Heads(t, '$') {
        DollarHead(c, t);
      }
    }
  }

  // A dollar quote opens in the output exactly where one opens in the text without white
  // space in its tag.
  lemma OutputOpens(c: Context, t: string)
    ensures OpensDollar(Norm(c, t, true, false)) <==> OpensSolid(t)
    ensures OpensSolid(t) ==> OpensDollar(t)
  {
    OutputRun(c, t);
    OutputFollows(c, t);
    SolidIsTag(t);
    hide Norm;
    if Heads(t, '$') {
      DollarHead(c, t);
    }
  }

  lemma {:induction false} SolidIsTag(t: string)
    ensures SolidLen(t) < |t| && t[SolidLen(t)] == '$' ==> TagLen(t) == SolidLen(t)
  {
    if t != [] && IsTag(t[0]) && !IsSpace(t[0]) {
      SolidIsTag(t[1..]);
    }
  }

  // ------------------------------------------------------------------- comments

  lemma {:induction false} LineEnds(t: string)
    requires LineLen(t) < |t|
    ensures LineLen(t) > 0 && t[LineLen(t) - 1] == '\n'
  {
    if t[0] != '\n' {
      LineEnds(t[1..]);
    }
  }

  lemma {:induction false} BlockEnds(t: string, depth: nat)
    requires BlockLen(t, depth) < |t| && depth > 0
    ensures BlockLen(t, depth) > 0 && t[BlockLen(t, depth) - 1] == '/'
    decreases |t|
  {
    if Starts2(t, '/', '*') {
      BlockEnds(t[2..], depth + 1);
    } else if Starts2(t, '*', '/') {
      if depth > 1 {
        BlockEnds(t[2..], depth - 1);
      }
    } else {
      BlockEnds(t[1..], depth);
    }
  }

  // After ASCII white space, or a comment that has ended, a token starts afresh; after wide
  // white space it starts behind a word.
  lemma SkipsToFresh(c: Context, t: string)
    requires t != [] && Skips(c, t) && StepLen(c, t) < |t|
    ensures Near(Extend(c, t[..StepLen(c, t)]), FRESH)
  {
    if !IsSpace(t[0]) {
      if Special(c, t).value.kind.LineComment? {
        LineEnds(t[2..]);
      } else {
        BlockEnds(t[2..], 1);
      }
    }
  }

  lemma ExtendNear(c: Context, d: Context, tok: string)
    requires Near(c, d) && tok != []
    ensures Near(Extend(c, tok), Extend(d, tok))
  {
  }

  // ------------------------------------------------------------ pieces read again

  // A piece is read back from the output as it was read from the text, or it is not.
  lemma PieceAgain(c: Context, d: Context, t: string)
    requires t != [] && !Skips(c, t) && Near(c, d)
    ensures var n := StepLen(c, t);
            var v := t[..n] + Norm(Extend(c, t[..n]), t[n..], true, false);
            v != [] && !Skips(d, v) && (StepLen(d, v) == n <==> ReadsSame(c, d, t))
  {
    var n := StepLen(c, t);
    var tok, post := t[..n], t[n..];
    var e := Extend(c, tok);
    var o := Norm(e, post, true, false);
    assert t == tok + post && (tok + o)[0] == t[0];
    OutputFollows(e, post);
    OutputOpens(e, post);
    NothingWritten(e, post, false);
    hide Norm, OnlyGaps;
    if t[0] == '\'' {
      LiteralAgain(c, d, tok, post, o);
    } else if t[0] == '$' && c.word && !d.word {
      HiddenDollar(c, d, tok, post, o);
    } else {
      SameSpecial(c, d, t);
      SameAgain(c, d, tok, post, o);
    }
  }

  // Nothing but a literal or a dollar sign depends on the context.
  lemma SameSpecial(c: Context, d: Context, t: string)
    requires t != [] && Near(c, d) && t[0] != '\'' && !(t[0] == '$' && c.word && !d.word)
    ensures Special(c, t) == Special(d, t) && Skips(c, t) == Skips(d, t) && StepLen(c, t) == StepLen(d, t)
  {
    hide LineLen, BlockLen, QuoteLen, DollarLen;
  }

  lemma SameAgain(c: Context, d: Context, tok: string, post: string, o: string)
    requires tok != [] && !Skips(d, tok + post) && StepLen(d, tok + post) == |tok|
    requires Follows(post, o) && (OpensDollar(o) ==> OpensDollar(post)) && (post == [] ==> o == [])
    ensures !Skips(d, tok + o) && StepLen(d, tok + o) == |tok|
  {
    hide OpensDollar, Special;
    var t := tok + post;
    if post == [] {
      assert tok + o == t;
    } else if Special(d, t).Some? {
      assert !IsSpace(t[0]) && (tok + o)[0] == t[0];
      SpecialIsLocal(d, tok, post, o);
    } else {
      assert !IsSpace(t[0]) && (tok + o)[0] == t[0];
      assert tok == [t[0]];
      OrdinaryIsLocal(d, t[0], post, o);
    }
  }

  lemma HiddenDollar(c: Context, d: Context, tok: string, post: string, o: string)
    requires tok != [] && tok[0] == '$' && c.word && !d.word
    requires StepLen(c, tok + post) == |tok| && (OpensDollar(o) <==> OpensSolid(post))
    ensures !Skips(c, tok + post) && !Skips(d, tok + o)
    ensures StepLen(d, tok + o) == |tok| <==> ReadsSame(c, d, tok + post)
  {
    hide OpensDollar, OpensSolid;
    var t, v := tok + post, tok + o;
    assert t[0] == '$' && v[0] == '$';
    assert tok == [t[0]];
    assert t[1..] == post && v[1..] == o;
    DollarReach(d, v);
  }

  lemma DollarReach(d: Context, v: string)
    requires Heads(v, '$') && !d.word
    ensures !Skips(d, v) && (StepLen(d, v) == 1 <==> !OpensDollar(v[1..]))
  {
    if OpensDollar(v[1..]) {
      assert DollarLen(v[1..]).value >= 1;
    }
  }

  // Where a literal ends.
  lemma LiteralStep(c: Context, t: string)
    requires Heads(t, '\'')
    ensures !Skips(c, t) && StepLen(c, t) == 1 + QuoteLen(t[1..], '\'', c.escape)
  {
    hide QuoteLen;
  }

  lemma LiteralAgain(c: Context, d: Context, tok: string, post: string, o: string)
    requires tok != [] && tok[0] == '\'' && StepLen(c, tok + post) == |tok| && Near(c, d)
    requires Follows(post, o) && (post == [] ==> o == []) && (o == [] <==> OnlyGaps(Extend(c, tok), post))
    ensures !Skips(d, tok + o) && (StepLen(d, tok + o) == |tok| <==> ReadsSame(c, d, tok + post))
  {
    hide QuoteLen, OnlyGaps, Extend, StepLen, Skips;
    var t, v, inner := tok + post, tok + o, tok[1..];
    assert t[0] == '\'' && v[0] == '\'' && t[..|tok|] == tok && t[|tok|..] == post;
    assert t[1..] == inner + post && v[1..] == inner + o && t[1..|tok|] == inner;
    LiteralStep(c, t);
    LiteralStep(d, v);
    assert inner + [] == inner;
    if post != [] {
      ClosedQuote(inner, post, '\'', c.escape);
      if o != [] {
        LiteralLocally(inner, post, o, d.escape);
      } else if c.escape == d.escape {
        QuoteIsLocal(inner, post, o, '\'', c.escape);
      }
    }
  }

  // A literal is as long before the output as before the text.
  lemma LiteralLocally(inner: string, post: string, o: string, escape: bool)
    requires post != [] && o != [] && !Heads(post, '\'') && !Heads(o, '\'')
    ensures QuoteLen(inner + post, '\'', escape) == |inner| <==> QuoteLen(inner + o, '\'', escape) == |inner|
  {
    hide QuoteLen;
    if QuoteLen(inner + post, '\'', escape) == |inner| {
      QuoteIsLocal(inner, post, o, '\'', escape);
    }
    if QuoteLen(inner + o, '\'', escape) == |inner| {
      QuoteIsLocal(inner, o, post, '\'', escape);
    }
  }

  lemma NormPiece(c: Context, t: string, started: bool, pending: bool)
    requires t != [] && !Skips(c, t)
    ensures var n := StepLen(c, t);
            && Norm(c, t, started, pending)
               == (if pending && started then " " else "") + t[..n] + Norm(Extend(c, t[..n]), t[n..], true, false)
            && Pieces(c, t, started, pending)
               == [Piece(pending && started, t[..n])] + Pieces(Extend(c, t[..n]), t[n..], true, false)
  {
    hide Skips, StepLen;
  }

  lemma NormSkip(c: Context, t: string, started: bool, pending: bool)
    requires t != [] && Skips(c, t)
    ensures var n := StepLen(c, t);
            && Norm(c, t, started, pending) == Norm(Extend(c, t[..n]), t[n..], started, pending || started)
            && Pieces(c, t, started, pending) == Pieces(Extend(c, t[..n]), t[n..], started, pending || started)
  {
    hide Skips, StepLen;
  }

  lemma SpaceSkips(c: Context, v: string)
    ensures var t := " " + v;
            Skips(c, t) && StepLen(c, t) == 1 && t[1..] == v && Extend(c, t[..1]) == FRESH
  {
  }

  // A piece in front of a text.
  lemma NormConcat(c: Context, tok: string, o: string, started: bool, pending: bool)
    requires tok != [] && !Skips(c, tok + o) && StepLen(c, tok + o) == |tok|
    ensures Norm(c, tok + o, started, pending)
         == (if pending && started then " " else "") + tok + Norm(Extend(c, tok), o, true, false)
    ensures Pieces(c, tok + o, started, pending)
         == [Piece(pending && started, tok)] + Pieces(Extend(c, tok), o, true, false)
  {
    hide Norm, Pieces, Skips, StepLen, Extend;
    NormPiece(c, tok + o, started, pending);
    assert (tok + o)[..|tok|] == tok && (tok + o)[|tok|..] == o;
  }

  lemma Regroup(a: string, b: string, c: string)
    ensures a + b + c == a + (b + c)
  {
  }

  lemma AfterGap(d: Context, v: string)
    ensures Norm(d, " " + v, true, false) == Norm(FRESH, v, true, true)
    ensures Pieces(d, " " + v, true, false) == Pieces(FRESH, v, true, true)
  {
    SpaceSkips(d, v);
    hide Norm, Pieces, Skips, StepLen;
    NormSkip(d, " " + v, true, false);
  }

  // The context in which the output is read again where the text is read in c.
  function Seen(d: Context, started: bool, pending: bool): Context {
    if pending || !started then FRESH else d
  }

  // What is promised of reading the output for t again, in context d.
  ghost predicate Again(c: Context, d: Context, t: string, started: bool, pending: bool) {
    var v := Norm(c, t, started, pending);
    && (Pieces(d, v, started, false) == Pieces(c, t, started, pending) <==> Clear(c, Seen(d, started, pending), t))
    && (Clear(c, Seen(d, started, pending), t) ==> Norm(d, v, started, false) == v)
  }

  lemma ClearPiece(c: Context, d: Context, t: string)
    requires t != [] && !Skips(c, t)
    ensures var n := StepLen(c, t);
            Clear(c, d, t) <==> ReadsSame(c, d, t) && Clear(Extend(c, t[..n]), Extend(d, t[..n]), t[n..])
  {
    hide Skips, StepLen, ReadsSame, Extend;
  }

  lemma ClearSkip(c: Context, d: Context, t: string)
    requires t != [] && Skips(c, t)
    ensures var n := StepLen(c, t); Clear(c, d, t) <==> Clear(Extend(c, t[..n]), FRESH, t[n..])
  {
    hide Skips, StepLen, ReadsSame, Extend;
  }

  // The output of a piece and of what follows it, read from the piece on.
  lemma PieceFirst(c: Context, d: Context, t: string, started: bool, pending: bool)
    requires t != [] && !Skips(c, t) && Near(c, d) && (pending ==> started)
    requires var n := StepLen(c, t); Again(Extend(c, t[..n]), Extend(d, t[..n]), t[n..], true, false)
    ensures var n := StepLen(c, t);
            var v := t[..n] + Norm(Extend(c, t[..n]), t[n..], true, false);
            && Norm(c, t, started, pending) == (if pending then " " else "") + v
            && (Pieces(d, v, started, pending) == Pieces(c, t, started, pending) <==> Clear(c, d, t))
            && (Clear(c, d, t) ==> Norm(d, v, started, pending) == (if pending then " " else "") + v)
  {
    PieceAgain(c, d, t);
    ClearPiece(c, d, t);
    hide Norm, Pieces, Skips, StepLen, Extend, Clear, ReadsSame, Near;
    var tok := t[..StepLen(c, t)];
    var rest := t[StepLen(c, t)..];
    var o := Norm(Extend(c, tok), rest, true, false);
    NormPiece(c, t, started, pending);
    Regroup(if pending then " " else "", tok, o);
    if ReadsSame(c, d, t) {
      NormConcat(d, tok, o, started, pending);
      PiecesCancel(Piece(pending && started, tok), Pieces(Extend(d, tok), o, true, false),
                   Pieces(Extend(c, tok), rest, true, false));
    } else {
      OtherFirst(d, tok, o, started, pending, Pieces(Extend(c, tok), rest, true, false));
    }
  }

  // A first piece of another length is another piece.
  lemma OtherFirst(d: Context, tok: string, o: string, started: bool, pending: bool, rest: seq<Piece>)
    requires tok + o != [] && !Skips(d, tok + o) && StepLen(d, tok + o) != |tok|
    ensures Pieces(d, tok + o, started, pending) != [Piece(pending && started, tok)] + rest
  {
    hide Norm, Pieces, Skips, StepLen, Extend;
    var v := tok + o;
    var n := StepLen(d, v);
    NormPiece(d, v, started, pending);
    assert |v[..n]| == n;
    assert Pieces(d, v, started, pending)[0].text == v[..n];
  }

  lemma PiecesCancel(p: Piece, a: seq<Piece>, b: seq<Piece>)
    ensures [p] + a == [p] + b <==> a == b
  {
    assert ([p] + a)[1..] == a && ([p] + b)[1..] == b;
  }

  lemma AgainPiece(c: Context, d: Context, t: string, started: bool, pending: bool)
    requires t != [] && !Skips(c, t) && (pending ==> started) && (!started ==> d == FRESH)
    requires Near(c, Seen(d, started, pending))
    requires var n := StepLen(c, t);
             Again(Extend(c, t[..n]), Extend(Seen(d, started, pending), t[..n]), t[n..], true, false)
    ensures Again(c, d, t, started, pending)
  {
    PieceFirst(c, Seen(d, started, pending), t, started, pending);
    hide Norm, Pieces, Skips, StepLen, Extend, Clear, ReadsSame;
    var n := StepLen(c, t);
    var v := t[..n] + Norm(Extend(c, t[..n]), t[n..], true, false);
    if pending {
      AfterGap(d, v);
    } else {
      assert "" + v == v;
    }
  }

  lemma {:induction false} OutputAgain(c: Context, d: Context, t: string, started: bool, pending: bool)
    requires (pending ==> started) && (!started ==> d == FRESH)
    requires t != [] ==> Near(c, Seen(d, started, pending))
    ensures Again(c, d, t, started, pending)
    decreases |t|
  {
    if t == [] {
    } else {
      var n := StepLen(c, t);
      var e, d' := Extend(c, t[..n]), Seen(d, started, pending);
      if Skips(c, t) {
        NormSkip(c, t, started, pending);
        ClearSkip(c, d', t);
        if n < |t| {
          SkipsToFresh(c, t);
        }
        hide Skips, StepLen, Norm, Pieces, Clear, Extend;
        OutputAgain(e, d, t[n..], started, pending || started);
      } else {
        ExtendNear(c, d', t[..n]);
        hide Skips, StepLen, Norm, Pieces, Clear, Extend;
        OutputAgain(e, Extend(d', t[..n]), t[n..], true, false);
        AgainPiece(c, d, t, started, pending);
      }
    }
  }

  // Main result: the normal form is read as the same pieces, with the same gaps, exactly for
  // the clear queries.
  lemma NormalizeKeepsPieces(query: string)
    ensures PiecesOf(Normalize(query)) == PiecesOf(query) <==> ClearQuery(query)
  {
    hide Norm, Pieces, Clear;
    OutputAgain(FRESH, FRESH, query, false, false);
  }

  // Normalizing again changes nothing exactly when the normal form is tidy, and that of a clear
  // query is.
  lemma NormalizeIsIdempotent(query: string)
    ensures Normalize(Normalize(query)) == Normalize(query) <==> Tidy(FRESH, Normalize(query), false)
    ensures ClearQuery(query) ==> Normalize(Normalize(query)) == Normalize(query)
  {
    hide Norm, Pieces, Clear, Tidy;
    NormalForms(Normalize(query));
    OutputAgain(FRESH, FRESH, query, false, false);
  }

  // Clear queries have the same normal form, and so the same identifier, exactly when they
  // have the same pieces and gaps.
  lemma SameFormSamePieces(q: string, r: string)
    requires ClearQuery(q) && ClearQuery(r)
    ensures Normalize(q) == Normalize(r) <==> PiecesOf(q) == PiecesOf(r)
  {
    hide Norm, Pieces, Clear, Render;
    NormalizeKeepsPieces(q);
    NormalizeKeepsPieces(r);
    NormIsRendered(FRESH, q, false, false);
    NormIsRendered(FRESH, r, false, false);
  }

  // ------------------------------------------------------------ a simple condition

  // No white space beyond ASCII has a dollar sign or the start of an escape string right
  // behind it.
  predicate Guarded(t: string) {
    forall k :: 0 <= k && k + 1 < |t| && IsSpace(t[k]) && IsWide(t[k]) ==> !Hidden(t[k + 1..])
  }

  predicate Hidden(t: string) {
    Heads(t, '$') || (t != [] && IsExponent(t[0]) && Heads(t[1..], '\''))
  }

  // Guarded queries are clear: in particular those without such white space.
  lemma GuardedIsClear(query: string)
    requires Guarded(query)
    ensures ClearQuery(query)
  {
    hide Clear;
    GuardedFrom(FRESH, FRESH, query);
  }

  // What a text cannot start with where the two contexts differ.
  predicate Starts(c: Context, d: Context, t: string) {
    c == d || (if d == FRESH then !Hidden(t) else !Heads(t, '\''))
  }

  lemma {:induction false} GuardedFrom(c: Context, d: Context, t: string)
    requires Guarded(t) && (t != [] ==> Near(c, d) && Starts(c, d, t))
    ensures Clear(c, d, t)
    decreases |t|
  {
    if t == [] {
    } else {
      var n := StepLen(c, t);
      GuardedRest(t, n);
      if Skips(c, t) {
        ClearSkip(c, d, t);
        if n < |t| {
          SkipsToFresh(c, t);
          SkipStarts(c, t);
        }
        hide Skips, StepLen, Clear, Extend, Guarded, Starts;
        GuardedFrom(Extend(c, t[..n]), FRESH, t[n..]);
      } else {
        ClearPiece(c, d, t);
        ExtendNear(c, d, t[..n]);
        PieceStarts(c, d, t);
        hide Skips, StepLen, Clear, Extend, Guarded, Starts, ReadsSame;
        GuardedFrom(Extend(c, t[..n]), Extend(d, t[..n]), t[n..]);
      }
    }
  }

  lemma GuardedRest(t: string, n: nat)
    requires Guarded(t) && n <= |t|
    ensures Guarded(t[n..])
  {
    var u := t[n..];
    forall k | 0 <= k && k + 1 < |u| && IsSpace(u[k]) && IsWide(u[k]) ensures !Hidden(u[k + 1..]) {
      assert u[k] == t[n + k] && u[k + 1..] == t[n + k + 1..];
    }
  }

  lemma SkipStarts(c: Context, t: string)
    requires Guarded(t) && t != [] && Skips(c, t) && StepLen(c, t) < |t|
    ensures Starts(Extend(c, t[..StepLen(c, t)]), FRESH, t[StepLen(c, t)..])
  {
    SkipsToFresh(c, t);
    if !IsSpace(t[0]) {
      if Special(c, t).value.kind.LineComment? {
        LineEnds(t[2..]);
      } else {
        BlockEnds(t[2..], 1);
      }
    }
  }

  lemma PieceStarts(c: Context, d: Context, t: string)
    requires t != [] && !Skips(c, t) && Near(c, d) && Starts(c, d, t)
    ensures ReadsSame(c, d, t)
    ensures var n := StepLen(c, t); Starts(Extend(c, t[..n]), Extend(d, t[..n]), t[n..])
  {
    hide QuoteLen, LineLen, BlockLen, DollarLen, OnlyGaps, OpensSolid;
  }

  // -------------------------------------------------------------------- normal forms

  // No comments, and single spaces between two pieces only.
  predicate Tidy(c: Context, t: string, started: bool)
    decreases |t|
  {
    if t == [] then true
    else if Skips(c, t) then
      started && t[0] == ' ' && |t| > 1 && !Skips(FRESH, t[1..]) && Tidy(FRESH, t[1..], true)
    else Tidy(Extend(c, t[..StepLen(c, t)]), t[StepLen(c, t)..], true)
  }

  lemma {:induction false} NormShrinks(c: Context, t: string, started: bool, pending: bool)
    ensures |Norm(c, t, started, pending)| <= |t| + if pending && started then 1 else 0
    decreases |t|
  {
    if t == [] {
    } else {
      var n := StepLen(c, t);
      if Skips(c, t) {
        NormSkip(c, t, started, pending);
        hide Norm, Skips, StepLen, Extend;
        NormShrinks(Extend(c, t[..n]), t[n..], started, pending || started);
      } else {
        NormPiece(c, t, started, pending);
        hide Norm, Skips, StepLen, Extend;
        NormShrinks(Extend(c, t[..n]), t[n..], true, false);
      }
    }
  }

  // The texts that normalizing leaves alone are the tidy ones.
  lemma NormalForms(t: string)
    ensures Normalize(t) == t <==> Tidy(FRESH, t, false)
  {
    hide Norm, Tidy;
    TidyFrom(FRESH, t, false);
  }

  lemma {:induction false} TidyFrom(c: Context, t: string, started: bool)
    ensures Norm(c, t, started, false) == t <==> Tidy(c, t, started)
    decreases |t|
  {
    if t == [] {
    } else {
      TidyStep(c, t, started);
      hide Norm, Skips, StepLen, Extend, Tidy;
      if Skips(c, t) {
        GapFrom(c, t, started);
        if |t| > 1 {
          TidyFrom(FRESH, t[1..], true);
        }
      } else {
        PieceFrom(c, t, started);
        TidyFrom(Extend(c, t[..StepLen(c, t)]), t[StepLen(c, t)..], true);
      }
    }
  }

  lemma PieceFrom(c: Context, t: string, started: bool)
    requires t != [] && !Skips(c, t)
    ensures var n := StepLen(c, t);
            Norm(c, t, started, false) == t <==> Norm(Extend(c, t[..n]), t[n..], true, false) == t[n..]
  {
    hide Norm, Skips, StepLen, Extend;
    var n := StepLen(c, t);
    NormPiece(c, t, started, false);
    var rest := Norm(Extend(c, t[..n]), t[n..], true, false);
    SameTail(t[..n], rest, t[n..], t);
    assert "" + t[..n] + rest == t[..n] + rest;
  }

  lemma TidyStep(c: Context, t: string, started: bool)
    requires t != []
    ensures Tidy(c, t, started) <==>
              if Skips(c, t) then
                started && t[0] == ' ' && |t| > 1 && !Skips(FRESH, t[1..]) && Tidy(FRESH, t[1..], true)
              else Tidy(Extend(c, t[..StepLen(c, t)]), t[StepLen(c, t)..], true)
  {
    hide Skips, StepLen, Extend;
  }

  lemma SameTail(a: string, x: string, y: string, t: string)
    requires a + y == t
    ensures a + x == t <==> x == y
  {
    assert (a + x)[|a|..] == x && (a + y)[|a|..] == y;
  }

  // A gap that is kept is one space with a piece behind it.
  lemma GapFrom(c: Context, t: string, started: bool)
    requires t != [] && Skips(c, t)
    ensures Norm(c, t, started, false) == t
       <==> started && t[0] == ' ' && |t| > 1 && !Skips(FRESH, t[1..]) && Norm(FRESH, t[1..], true, false) == t[1..]
  {
    var n := StepLen(c, t);
    NormSkip(c, t, started, false);
    if !started {
      NormShrinks(Extend(c, t[..n]), t[n..], false, false);
    } else {
      PendingHead(Extend(c, t[..n]), t[n..]);
      if t[0] == ' ' {
        assert t[..1] == " " && Extend(c, " ") == FRESH && n == 1;
        OneSpace(t);
      }
    }
  }

  lemma OneSpace(t: string)
    requires t != [] && t[0] == ' '
    ensures Norm(FRESH, t[1..], true, true) == t
       <==> |t| > 1 && !Skips(FRESH, t[1..]) && Norm(FRESH, t[1..], true, false) == t[1..]
  {
    hide Skips, StepLen, Norm, Extend;
    var u := t[1..];
    if u == [] {
      NormEnd(FRESH, true, true);
    } else if Skips(FRESH, u) {
      var m := StepLen(FRESH, u);
      NormSkip(FRESH, u, true, true);
      NormShrinks(Extend(FRESH, u[..m]), u[m..], true, true);
    } else {
      NormPiece(FRESH, u, true, true);
      NormPiece(FRESH, u, true, false);
      var v := Norm(FRESH, u, true, false);
      var rest := Norm(Extend(FRESH, u[..StepLen(FRESH, u)]), u[StepLen(FRESH, u)..], true, false);
      Regroup(" ", u[..StepLen(FRESH, u)], rest);
      assert "" + u[..StepLen(FRESH, u)] + rest == u[..StepLen(FRESH, u)] + rest;
      SameTail(" ", v, u, t);
    }
  }

  // ------------------------------------------------------------------ the loop

  // What is left after one turn of the loop.
  lemma Turn(query: string, i: nat, next: nat, started: bool, pending: bool)
    requires i < |query| && next == i + StepLen(ContextOf(query[..i]), query[i..])
    ensures next <= |query|
    ensures Norm(ContextOf(query[..i]), query[i..], started, pending)
         == if Skips(ContextOf(query[..i]), query[i..])
            then Norm(ContextOf(query[..next]), query[next..], started, pending || started)
            else (if pending && started then " " else "") + query[i..next]
                 + Norm(ContextOf(query[..next]), query[next..], true, false)
  {
    hide Norm, Skips, StepLen, ContextOf, Extend, Pieces;
    var c, t := ContextOf(query[..i]), query[i..];
    var n := StepLen(c, t);
    assert t[..n] == query[i..next] && t[n..] == query[next..];
    assert query[..next] == query[..i] + t[..n];
    ContextExtends(query[..i], t[..n]);
    if Skips(c, t) {
      NormSkip(c, t, started, pending);
    } else {
      NormPiece(c, t, started, pending);
    }
  }

  // normalizeQuery.
  method NormalizeQuery(query: string) returns (out: string)
    ensures out == Normalize(query)
  {
    hide Norm, Skips, StepLen, ContextOf;
    out := "";
    var pendingSpace := false;
    var i := 0;
    StartContext(query);
    while i < |query|
      invariant i <= |query| && (pendingSpace ==> out != [])
      invariant Normalize(query) == out + Norm(ContextOf(query[..i]), query[i..], out != [], pendingSpace)
    {
      var next, skip := Advance(query, i);
      Turn(query, i, next, out != [], pendingSpace);
      if skip {
        pendingSpace := pendingSpace || out != [];
      } else {
        ghost var rest := Norm(ContextOf(query[..next]), query[next..], true, false);
        var emitted := (if pendingSpace && out != [] then " " else "") + query[i..next];
        Regroup(out, emitted, rest);
        out := out + emitted;
        pendingSpace := false;
      }
      i := next;
    }
    assert query[i..] == [];
    NormEnd(ContextOf(query[..i]), out != [], pendingSpace);
    assert out + "" == out;
  }

  lemma StartContext(query: string)
    ensures ContextOf(query[..0]) == FRESH && query[0..] == query
    ensures Normalize(query) == "" + Norm(ContextOf(query[..0]), query[0..], false, false)
  {
    hide Norm;
  }

  lemma NormEnd(c: Context, started: bool, pending: bool)
    ensures Norm(c, [], started, pending) == ""
  {
  }

  // One turn of the loop: where the step ends, and whether it is skipped.
  method Advance(query: string, i: nat) returns (next: nat, skip: bool)
    requires i < |query|
    ensures next == i + StepLen(ContextOf(query[..i]), query[i..])
    ensures skip == Skips(ContextOf(query[..i]), query[i..])
  {
    hide QuoteLen, LineLen, BlockLen, DollarLen;
    ghost var t := query[i..];
    var ch := query[i];
    assert |t| > 1 ==> t[2..] == query[i + 2..];
    assert t[1..] == query[i + 1..];
    if IsSpace(ch) {
      return i + 1, true;
    }
    if ch == '-' && i + 1 < |query| && query[i + 1] == '-' {
      next := ReadLineComment(query, i);
      return next, true;
    }
    if ch == '/' && i + 1 < |query| && query[i + 1] == '*' {
      next := ReadBlockComment(query, i);
      return next, true;
    }
    if ch == '\'' {
      next := ReadSingleQuoted(query, i, EscapePrefix(query, i));
      return next, false;
    }
    if ch == '"' {
      next := ReadQuotedIdentifier(query, i);
      return next, false;
    }
    if ch == '$' && (i == 0 || !IsWord(query[i - 1])) {
      var end := ReadDollarQuoted(query, i);
      if end.Some? {
        return end.value, false;
      }
    }
    return i + 1, false;
  }
}
