/**
 Queries that normalizeQuery of src/query-id.ts reads differently once it has normalised
 them: white space beyond ASCII is a gap to the normalizer but part of a word to the readers.
 */
module QueryIdLimits {
  import opened Wrappers
  import opened SqlLex
  import opened QueryId

  // Taking the space away lets a dollar quote open.
  lemma HiddenDollarMatters()
    ensures var query := "\U{a0}$$'$$\t";
            && Normalize(query) == "$$'$$\t" && Normalize(Normalize(query)) == "$$'$$" && !ClearQuery(query)
  {
    hide Norm, Clear;
    var query, form := "\U{a0}$$'$$\t", "$$'$$\t";
    assert query[1..] == form;
    DollarOnce(query);
    DollarTwice(form);
    assert form[..5] == "$$'$$";
    Unclear(query);
  }

  // It also lets an escape string open.
  lemma HiddenEscapeMatters()
    ensures var query := "\U{a0}E'\\''\t";
            && Normalize(query) == "E'\\''\t" && Normalize(Normalize(query)) == "E'\\''" && !ClearQuery(query)
  {
    hide Norm, Clear;
    var query, form := "\U{a0}E'\\''\t", "E'\\''\t";
    assert query[1..] == form;
    EscapeOnce(query);
    EscapeTwice(form);
    assert form[..5] == "E'\\''";
    Unclear(query);
  }

  // Two queries with one identifier and different pieces.
  lemma IdentifiersCollide()
    ensures var q, r := "\U{a0}$$", "$$";
            Normalize(q) == Normalize(r) && PiecesOf(q) != PiecesOf(r) && !ClearQuery(q)
  {
    hide Norm, Pieces, Clear;
    var q, r := "\U{a0}$$", "$$";
    assert q[1..] == r;
    OneBody(r);
    TwoDollars(q);
    NormalizeKeepsPieces(q);
  }

  lemma Unclear(query: string)
    requires |Normalize(Normalize(query))| != |Normalize(query)|
    ensures !ClearQuery(query)
  {
    hide Norm, Clear;
    if ClearQuery(query) {
      NormalizeIsIdempotent(query);
    }
  }

  // ------------------------------------------------------------------- reading on

  // A character that starts nothing.
  lemma Ordinary(c: Context, t: string, started: bool)
    requires t != [] && (IsExponent(t[0]) || (t[0] == '$' && c.word))
    ensures Norm(c, t, started, false) == t[..1] + Norm(Extend(c, t[..1]), t[1..], true, false)
    ensures Pieces(c, t, started, false) == [Piece(false, t[..1])] + Pieces(Extend(c, t[..1]), t[1..], true, false)
  {
    assert Special(c, t).None?;
    hide Norm, Pieces, Special, Extend;
    NormPiece(c, t, started, false);
    assert "" + t[..1] == t[..1];
  }

  // A wide space at the start.
  lemma WideStart(t: string)
    requires Heads(t, '\U{a0}')
    ensures Normalize(t) == Norm(WORD, t[1..], false, false) && PiecesOf(t) == Pieces(WORD, t[1..], false, false)
  {
    assert Extend(FRESH, t[..1]) == WORD;
    hide Norm, Pieces, Extend;
    NormSkip(FRESH, t, false, false);
  }

  // A piece, and nothing but a space behind it.
  lemma Last(c: Context, t: string, started: bool, n: nat)
    requires t != [] && !Skips(c, t) && StepLen(c, t) == n
    requires n == |t| || (n == |t| - 1 && IsSpace(t[n]))
    ensures Norm(c, t, started, false) == t[..n]
    ensures Pieces(c, t, started, false) == [Piece(false, t[..n])]
  {
    var d := Extend(c, t[..n]);
    hide Norm, Pieces, StepLen, Skips, Extend;
    NormPiece(c, t, started, false);
    Nothing(d, t[n..], false);
    assert "" + t[..n] + "" == t[..n];
  }

  lemma Nothing(c: Context, t: string, pending: bool)
    requires t == [] || (|t| == 1 && IsSpace(t[0]))
    ensures Norm(c, t, true, pending) == [] && Pieces(c, t, true, pending) == []
  {
    if t != [] {
      assert t[1..] == [];
    }
  }

  // ------------------------------------------------------------- the dollar input

  lemma DollarLiteral(t: string)
    requires |t| == 4 && t[0] == '\'' && t[1] == '$' && t[2] == '$' && t[3] == '\t'
    ensures !Skips(WORD, t) && StepLen(WORD, t) == 4
  {
    var u := t[1..];
    assert u[1..][1..][1..] == [] && QuoteLen(u[1..][1..], '\'', false) == 1;
    assert QuoteLen(u, '\'', false) == 3;
    LiteralStep(WORD, t);
  }

  lemma DollarOnce(query: string)
    requires query == "\U{a0}$$'$$\t"
    ensures Normalize(query) == query[1..]
  {
    var a, b, c := query[1..], query[1..][1..], query[1..][1..][1..];
    DollarLiteral(c);
    hide Norm, StepLen, Skips;
    WideStart(query);
    WordDollar(a, false);
    WordDollar(b, true);
    Last(WORD, c, true, 4);
    assert c[..4] == c;
  }

  // A dollar sign in a word.
  lemma WordDollar(t: string, started: bool)
    requires Heads(t, '$')
    ensures Norm(WORD, t[1..], true, false) == t[1..] ==> Norm(WORD, t, started, false) == t
    ensures Pieces(WORD, t, started, false) == [Piece(false, t[..1])] + Pieces(WORD, t[1..], true, false)
  {
    assert Extend(WORD, t[..1]) == WORD;
    hide Norm, Pieces, Extend;
    Ordinary(WORD, t, started);
    Rejoin(t);
  }

  lemma Rejoin(t: string)
    requires t != []
    ensures t == t[..1] + t[1..]
  {
  }

  lemma DollarTwice(form: string)
    requires form == "$$'$$\t"
    ensures Normalize(form) == form[..5]
  {
    BodyReach(form, 3);
    assert IsSpace(form[5]);
    hide Norm, StepLen, Skips;
    Last(FRESH, form, false, 5);
  }

  // A dollar body with an empty tag, closed k characters behind its opening.
  lemma BodyReach(t: string, k: nat)
    requires k + 2 <= |t| && t[0] == '$' && t[1] == '$' && k >= 2
    requires t[k] == '$' && t[k + 1] == '$' && forall i :: 2 <= i < k ==> t[i] != '$'
    ensures !Skips(FRESH, t) && StepLen(FRESH, t) == k + 2
  {
    var u := t[1..];
    assert TagLen(u) == 0 && OpensDollar(u) && OpeningTag(u) == "$$" && Body(u) == t[2..];
    FindClose(t[2..], k - 2);
    hide Find;
  }

  lemma {:induction false} FindClose(t: string, k: nat)
    requires k + 2 <= |t| && t[k] == '$' && t[k + 1] == '$' && forall i :: 0 <= i < k ==> t[i] != '$'
    ensures Find(t, "$$") == Some(k)
  {
    if k == 0 {
      assert t[..2] == "$$";
    } else {
      assert t[..2][0] != "$$"[0];
      FindClose(t[1..], k - 1);
    }
  }

  // ------------------------------------------------------------- the escape input

  lemma EscapeLiteral(t: string)
    requires t == "'\\''\t"
    ensures !Skips(WORD, t) && StepLen(WORD, t) == 5
  {
    var u := t[1..];
    assert u[1..][0] == '\'' && u[1..][1] == '\'' && |u[1..][2..]| == 1 && u[1..][2..][0] == '\t';
    assert QuoteLen(u[1..][2..], '\'', false) == 1;
    assert QuoteLen(u, '\'', false) == 4;
    LiteralStep(WORD, t);
  }

  lemma EscapeOnce(query: string)
    requires query == "\U{a0}E'\\''\t"
    ensures Normalize(query) == query[1..]
  {
    var a, b := query[1..], query[1..][1..];
    assert b == "'\\''\t";
    EscapeLiteral(b);
    assert a[..1] == "E" && Extend(WORD, "E") == WORD;
    hide Norm, Extend, StepLen, Skips;
    WideStart(query);
    Ordinary(WORD, a, false);
    Last(WORD, b, true, 5);
    Rejoin(a);
    assert b[..5] == b;
  }

  lemma EscapeTwice(form: string)
    requires form == "E'\\''\t"
    ensures Normalize(form) == form[..5]
  {
    var b, d := form[1..], Context(true, true);
    assert |b| == 5 && b[0] == '\'' && QuoteLen(b[1..], '\'', true) == 3 by {
      var u := b[1..];
      assert u[2..][0] == '\'' && u[2..][1] == '\t' && QuoteLen(u[2..], '\'', true) == 1;
    }
    assert form[..1] == "E" && Extend(FRESH, "E") == d && IsSpace(b[4]);
    LiteralStep(d, b);
    hide Norm, Extend, QuoteLen, StepLen, Skips;
    Ordinary(FRESH, form, false);
    Last(d, b, true, 4);
    assert form[..5] == form[..1] + b[..4];
  }

  // ----------------------------------------------------------- the colliding input

  lemma OneBody(t: string)
    requires t == "$$"
    ensures Normalize(t) == t && PiecesOf(t) == [Piece(false, t)]
  {
    assert DollarLen(t[1..]) == Some(1) by {
      assert TagLen(t[1..]) == 0 && OpensDollar(t[1..]) && Find(Body(t[1..]), OpeningTag(t[1..])) == None;
    }
    assert !Skips(FRESH, t) && StepLen(FRESH, t) == 2 && t[..2] == t;
    hide Norm, Pieces, StepLen, Skips;
    Last(FRESH, t, false, 2);
  }

  lemma TwoDollars(t: string)
    requires t == "\U{a0}$$"
    ensures Normalize(t) == t[1..] && PiecesOf(t) == [Piece(false, "$"), Piece(false, "$")]
  {
    var a, b := t[1..], t[1..][1..];
    assert !Skips(WORD, b) && StepLen(WORD, b) == 1 && b[..1] == b;
    assert a[..1] == "$" && b == "$";
    hide Norm, Pieces, StepLen, Skips;
    WideStart(t);
    WordDollar(a, false);
    Last(WORD, b, true, 1);
  }
}
