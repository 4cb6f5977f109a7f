/**
 What rewriting returns, said of the tokens of the query: when it refuses and why, in which order
 the names come, the count of the positional placeholders, and each entry of the position map.
 */
module SqlVerdict {
  import opened Wrappers
  import opened SqlLex
  import opened SqlParams
  import opened SqlRewrite

  predicate HasNamed(tokens: seq<Token>) {
    exists k <- tokens :: k.Named?
  }

  predicate HasNumbered(tokens: seq<Token>) {
    exists k <- tokens :: k.Positional?
  }

  // A query is refused for the name __proto__, and otherwise exactly when it has placeholders of
  // both kinds.
  lemma RewriteExactly(query: string)
    ensures var tokens := Lex(FRESH, query);
            Rewrite(query).Err? <==> Named("__proto__") in tokens || (HasNamed(tokens) && HasNumbered(tokens))
    ensures Rewrite(query) == Err(ReservedName) <==> Named("__proto__") in Lex(FRESH, query)
  {
    var tokens := Lex(FRESH, query);
    NamesCover(tokens);
    assert HasNamed(tokens) <==> Names(tokens) != [] by {
      if Names(tokens) != [] {
        assert Names(tokens)[0] in Names(tokens);
        assert Named(Names(tokens)[0]) in tokens;
      }
    }
    hide Lex, Names;
  }

  // The first token that is a placeholder of the name.
  function FirstUse(tokens: seq<Token>, name: string): nat
    requires Named(name) in tokens
  {
    if tokens[0] == Named(name) then 0
    else
      assert tokens == [tokens[0]] + tokens[1..];
      1 + FirstUse(tokens[1..], name)
  }

  lemma {:induction false} FirstUseBefore(before: seq<Token>, k: Token, name: string)
    requires Named(name) in before + [k]
    ensures FirstUse(before + [k], name) == if Named(name) in before then FirstUse(before, name) else |before|
    ensures Named(name) in before ==> FirstUse(before, name) < |before|
  {
    if before == [] {
      assert before + [k] == [k];
    } else if before[0] != Named(name) {
      assert before == [before[0]] + before[1..];
      assert (before + [k])[1..] == before[1..] + [k];
      FirstUseBefore(before[1..], k, name);
    }
  }

  ghost predicate InOrder(tokens: seq<Token>, names: seq<string>)
    requires forall n <- names :: Named(n) in tokens
  {
    forall i, j :: 0 <= i < j < |names| ==> FirstUse(tokens, names[i]) < FirstUse(tokens, names[j])
  }

  // The names are the names used, each once, in the order of their first use.
  lemma {:induction false} NamesInOrder(tokens: seq<Token>)
    ensures forall n :: n in Names(tokens) <==> Named(n) in tokens
    ensures InOrder(tokens, Names(tokens))
  {
    NamesCover(tokens);
    if tokens != [] {
      var before, k := tokens[..|tokens| - 1], tokens[|tokens| - 1];
      NamesInOrder(before);
      NamesCover(before);
      assert tokens == before + [k];
      var names, old' := Names(tokens), Names(before);
      forall i, j | 0 <= i < j < |names| ensures FirstUse(tokens, names[i]) < FirstUse(tokens, names[j]) {
        FirstUseBefore(before, k, names[i]);
        FirstUseBefore(before, k, names[j]);
        assert names[i] == old'[i] && old'[i] in old';
        if j < |old'| {
          assert names[j] == old'[j] && old'[j] in old';
        }
      }
    }
  }

  // The count is the greatest number of a positional placeholder, 0 without any.
  lemma CountExactly(query: string)
    requires Rewrite(query).Ok?
    ensures var tokens, count := Lex(FRESH, query), Rewrite(query).value.positionalCount;
            && (forall k <- tokens :: k.Positional? ==> NumberOf(k.digits) <= count)
            && (count == 0 || exists k <- tokens :: k.Positional? && NumberOf(k.digits) == count)
  {
    hide Lex, Join, Positions, Numbered;
    PositionalCountIsGreatest(Lex(FRESH, query));
  }

  // ---------------------------------------------------------------- position map

  lemma PositionsLength(tokens: seq<Token>, names: seq<string>)
    ensures |Positions(tokens, names)| == |Join(Numbered(tokens, names))|
  {
    PositionsPoint(tokens, names);
  }

  lemma {:induction false} RunsOf(before: seq<Token>, k: Token, after: seq<Token>, names: seq<string>, o: nat)
    requires o < |TextOf(NumberedToken(k, names))|
    ensures var entries := Positions(before + [k] + after, names);
            var at := |Join(Numbered(before, names))| + o;
            at < |entries| && entries[at] == |Join(before)| + o
    decreases |after|
  {
    hide TextOf, NumberedToken, Numbered, Join;
    var whole := before + [k] + after;
    if after == [] {
      PositionsLength(before, names);
      assert whole[..|whole| - 1] == before && whole[|whole| - 1] == k;
    } else {
      var less := after[..|after| - 1];
      RunsOf(before, k, less, names, o);
      assert whole[..|whole| - 1] == before + [k] + less;
    }
  }

  // The characters written for a token map to the characters from its start on, and the place
  // behind the output to the place behind the query.
  lemma MapExactly(query: string, before: seq<Token>, k: Token, after: seq<Token>, o: nat)
    requires Rewrite(query).Ok? && Lex(FRESH, query) == before + [k] + after
    requires o < |TextOf(NumberedToken(k, Rewrite(query).value.names))|
    ensures var r := Rewrite(query).value;
            var at := |Join(Numbered(before, r.names))| + o;
            && |r.positionMap| == |r.query| + 1 && r.positionMap[|r.query|] == |query|
            && at < |r.query| && r.positionMap[at] == |Join(before)| + o
  {
    hide Lex, Names, Join, Numbered, Positions, TextOf, NumberedToken;
    RewriteParts(query);
    var tokens, names := Lex(FRESH, query), Rewrite(query).value.names;
    RunsOf(before, k, after, names, o);
    PositionsLength(tokens, names);
    hide Rewrite;
    assert Rewrite(query).value.positionMap[..|Positions(tokens, names)|] == Positions(tokens, names);
  }

  lemma RewriteParts(query: string)
    requires Rewrite(query).Ok?
    ensures var r, tokens := Rewrite(query).value, Lex(FRESH, query);
            r.query == Join(Numbered(tokens, r.names)) && r.positionMap == Positions(tokens, r.names) + [|query|]
  {
    hide Lex, Names, Join, Numbered, Positions;
  }
}
