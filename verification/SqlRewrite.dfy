/**
 Rewriting named parameters preserves the meaning of a query: what is proved of the
 rewritten text, its names and its position map, and the loop that computes them.
 */
module SqlRewrite {
  import opened Wrappers
  import opened SqlLex
  import opened SqlParams

  datatype Rewritten = Rewritten(query: string, names: seq<string>, positionalCount: nat, positionMap: seq<nat>)

  datatype RewriteError = ReservedName | MixedParameters

  const RESERVED := Named("__proto__")

  predicate HasPositional(tokens: seq<Token>) {
    exists k <- tokens :: k.Positional?
  }

  function MaxPositional(tokens: seq<Token>): nat {
    if tokens == [] then 0
    else
      var before := MaxPositional(tokens[..|tokens| - 1]);
      var k := tokens[|tokens| - 1];
      if k.Positional? && NumberOf(k.digits) > before then NumberOf(k.digits) else before
  }

  // The source positions from `start` on, one for each character written.
  function Run(start: nat, count: nat): seq<nat> {
    seq(count, j => start + j)
  }

  // The position map of the output, without its last entry.
  function Positions(tokens: seq<Token>, names: seq<string>): seq<nat> {
    if tokens == [] then []
    else
      var before := tokens[..|tokens| - 1];
      Positions(before, names)
      + Run(|Join(before)|, |TextOf(NumberedToken(tokens[|tokens| - 1], names))|)
  }

  function Rewrite(query: string): Result<Rewritten, RewriteError> {
    var tokens := Lex(FRESH, query);
    var names := Names(tokens);
    if RESERVED in tokens then Err(ReservedName)
    else if HasPositional(tokens) && names != [] then Err(MixedParameters)
    else
      Ok(Rewritten(Join(Numbered(tokens, names)), names, MaxPositional(tokens),
                   Positions(tokens, names) + [|query|]))
  }

  // ------------------------------------------------------------------------ names

  lemma {:induction false} NamesCover(tokens: seq<Token>)
    ensures Covered(tokens, Names(tokens))
    ensures forall n <- Names(tokens) :: Named(n) in tokens
    ensures forall i, j :: 0 <= i < j < |Names(tokens)| ==> Names(tokens)[i] != Names(tokens)[j]
  {
    if tokens == [] {
    } else {
      var before, k := tokens[..|tokens| - 1], tokens[|tokens| - 1];
      NamesCover(before);
      assert tokens == before + [k];
    }
  }

  lemma {:induction false} PositionIn(names: seq<string>, more: seq<string>, n: string)
    requires n in names
    ensures n in names + more && Position(names + more, n) == Position(names, n)
  {
    if names[0] != n {
      assert names == [names[0]] + names[1..];
      assert (names + more)[1..] == names[1..] + more;
      PositionIn(names[1..], more, n);
    }
  }

  // Later names do not change the numbers of earlier ones.
  lemma NumberedStable(tokens: seq<Token>, names: seq<string>, more: seq<string>)
    requires Covered(tokens, names)
    ensures Numbered(tokens, names + more) == Numbered(tokens, names)
    ensures Covered(tokens, names + more)
  {
    forall i | 0 <= i < |tokens|
      ensures NumberedToken(tokens[i], names + more) == NumberedToken(tokens[i], names)
    {
      if tokens[i].Named? {
        PositionIn(names, more, tokens[i].name);
      }
    }
  }

  lemma {:induction false} PositionsStable(tokens: seq<Token>, names: seq<string>, more: seq<string>)
    requires Covered(tokens, names)
    ensures Positions(tokens, names + more) == Positions(tokens, names)
  {
    if tokens == [] {
    } else {
      var before, k := tokens[..|tokens| - 1], tokens[|tokens| - 1];
      assert k in tokens && forall j <- before :: j in tokens;
      PositionsStable(before, names, more);
      if k.Named? {
        PositionIn(names, more, k.name);
      }
    }
  }

  // --------------------------------------------------------------------- meaning

  // Main result: the rewritten query has the tokens of the query, its names numbered by
  // first appearance and everything else copied.
  lemma RewriteKeepsTokens(query: string)
    requires Rewrite(query).Ok?
    ensures var r := Rewrite(query).value;
            Lex(FRESH, r.query) == Numbered(Lex(FRESH, query), r.names)
  {
    NamesCover(Lex(FRESH, query));
    LexOutput(FRESH, query, Names(Lex(FRESH, query)));
  }

  lemma NumberedHasNoNames(tokens: seq<Token>, names: seq<string>)
    requires Covered(tokens, names)
    ensures forall k <- Numbered(tokens, names) :: !k.Named?
  {
    forall i | 0 <= i < |tokens| ensures !Numbered(tokens, names)[i].Named? {
      assert tokens[i] in tokens;
    }
  }

  lemma {:induction false} NoNames(tokens: seq<Token>)
    requires forall k <- tokens :: !k.Named?
    ensures Names(tokens) == [] && Numbered(tokens, []) == tokens
  {
    if tokens == [] {
    } else {
      assert forall k <- tokens[..|tokens| - 1] :: k in tokens;
      NoNames(tokens[..|tokens| - 1]);
      assert tokens[|tokens| - 1] in tokens;
    }
  }

  // Rewriting again changes nothing and reports no names.
  lemma RewriteIsIdempotent(query: string)
    requires Rewrite(query).Ok?
    ensures var r := Rewrite(query).value;
            && Rewrite(r.query).Ok? && Rewrite(r.query).value.query == r.query
            && Rewrite(r.query).value.names == []
  {
    var r := Rewrite(query).value;
    RewriteKeepsTokens(query);
    NamesCover(Lex(FRESH, query));
    NumberedHasNoNames(Lex(FRESH, query), r.names);
    NoNames(Lex(FRESH, r.query));
    JoinLex(FRESH, r.query);
  }

  // What a query text means once its placeholders are bound.
  datatype Piece<V> = Sql(text: string) | Value(value: V) | Missing

  function NamedPiece<V>(k: Token, values: map<string, V>): Piece<V> {
    match k
    case Copied(text) => Sql(text)
    case Named(name) => if name in values then Value(values[name]) else Missing
    case Positional(_) => Missing
  }

  function PositionalPiece<V>(k: Token, params: seq<V>): Piece<V> {
    match k
    case Copied(text) => Sql(text)
    case Named(_) => Missing
    case Positional(digits) =>
      if 1 <= NumberOf(digits) <= |params| then Value(params[NumberOf(digits) - 1]) else Missing
  }

  function BoundByName<V>(tokens: seq<Token>, values: map<string, V>): seq<Piece<V>> {
    seq(|tokens|, i requires 0 <= i < |tokens| => NamedPiece(tokens[i], values))
  }

  function BoundByPosition<V>(tokens: seq<Token>, params: seq<V>): seq<Piece<V>> {
    seq(|tokens|, i requires 0 <= i < |tokens| => PositionalPiece(tokens[i], params))
  }

  datatype BindError = NeedsObject | MissingNames(names: seq<string>) | UnknownNames(extra: set<string>)

  function Absent<V>(names: seq<string>, values: map<string, V>): seq<string> {
    if names == [] then []
    else (if names[0] in values then [] else [names[0]]) + Absent(names[1..], values)
  }

  lemma {:induction false} AbsentNames<V>(names: seq<string>, values: map<string, V>)
    ensures Absent(names, values) == [] <==> forall n <- names :: n in values
  {
    if names == [] {
    } else {
      AbsentNames(names[1..], values);
      assert names == [names[0]] + names[1..];
    }
  }

  // bindNamedParameters; `fields` gives the own properties of an argument that is an object.
  function Bind<V>(r: Rewritten, args: seq<V>, fields: V -> Option<map<string, V>>): Result<seq<V>, BindError> {
    if r.names == [] then Ok(args)
    else if |args| != 1 || fields(args[0]).None? then Err(NeedsObject)
    else
      var values := fields(args[0]).value;
      var extra := values.Keys - (set n | n in r.names);
      if Absent(r.names, values) != [] then Err(MissingNames(Absent(r.names, values)))
      else if extra != {} then Err(UnknownNames(extra))
      else
        AbsentNames(r.names, values);
        Ok(seq(|r.names|, i requires 0 <= i < |r.names| => values[r.names[i]]))
  }

  // Binding succeeds exactly for one object that has the names of the query and no others.
  lemma BindAccepts<V>(r: Rewritten, args: seq<V>, fields: V -> Option<map<string, V>>)
    requires r.names != []
    ensures Bind(r, args, fields).Ok?
            <==> |args| == 1 && fields(args[0]).Some? && fields(args[0]).value.Keys == (set n | n in r.names)
  {
    if |args| == 1 && fields(args[0]).Some? {
      var values := fields(args[0]).value;
      var wanted := set n | n in r.names;
      AbsentNames(r.names, values);
      assert wanted <= values.Keys <==> forall n <- r.names :: n in values;
      NoExtra(values.Keys, wanted);
    }
  }

  lemma NoExtra(a: set<string>, b: set<string>)
    ensures a - b == {} <==> a <= b
  {
    if !(a <= b) {
      var x :| x in a && x !in b;
      assert x in a - b;
    }
  }

  lemma BoundToken<V>(k: Token, names: seq<string>, values: map<string, V>, params: seq<V>)
    requires !k.Positional? && (k.Named? ==> k.name in names) && |params| == |names|
    requires forall i :: 0 <= i < |names| ==> names[i] in values && params[i] == values[names[i]]
    ensures PositionalPiece(NumberedToken(k, names), params) == NamedPiece(k, values)
  {
    if k.Named? {
      DecimalDigits(Position(names, k.name) + 1);
      hide Decimal, NumberOf;
    }
  }

  lemma BoundTokens<V>(tokens: seq<Token>, names: seq<string>, values: map<string, V>, params: seq<V>)
    requires Covered(tokens, names) && !HasPositional(tokens) && |params| == |names|
    requires forall i :: 0 <= i < |names| ==> names[i] in values && params[i] == values[names[i]]
    ensures BoundByPosition(Numbered(tokens, names), params) == BoundByName(tokens, values)
  {
    forall i | 0 <= i < |tokens|
      ensures PositionalPiece(NumberedToken(tokens[i], names), params) == NamedPiece(tokens[i], values)
    {
      assert tokens[i] in tokens;
      BoundToken(tokens[i], names, values, params);
    }
    hide PositionalPiece, NamedPiece, NumberedToken;
  }

  lemma BoundParams<V>(r: Rewritten, args: seq<V>, fields: V -> Option<map<string, V>>)
    requires r.names != [] && Bind(r, args, fields).Ok?
    ensures |args| == 1 && fields(args[0]).Some?
    ensures var params, values := Bind(r, args, fields).value, fields(args[0]).value;
            && |params| == |r.names|
            && forall i :: 0 <= i < |r.names| ==> r.names[i] in values && params[i] == values[r.names[i]]
  {
    AbsentNames(r.names, fields(args[0]).value);
  }

  // Main result: binding $k in the rewritten text to the k-th parameter is binding every
  // $name in the query to its value.
  lemma RewritePreservesMeaning<V>(query: string, args: seq<V>, fields: V -> Option<map<string, V>>)
    requires Rewrite(query).Ok? && Rewrite(query).value.names != []
    requires Bind(Rewrite(query).value, args, fields).Ok?
    ensures BoundByPosition(Lex(FRESH, Rewrite(query).value.query), Bind(Rewrite(query).value, args, fields).value)
         == BoundByName(Lex(FRESH, query), fields(args[0]).value)
  {
    var r := Rewrite(query).value;
    var tokens := Lex(FRESH, query);
    RewriteKeepsTokens(query);
    NamesCover(tokens);
    assert !HasPositional(tokens) && r.names == Names(tokens);
    hide Rewrite, Names, HasPositional, Lex, Bind, Numbered, Covered;
    BoundParams(r, args, fields);
    BoundTokens(tokens, r.names, fields(args[0]).value, Bind(r, args, fields).value);
  }

  // Without names the query is left alone, and so are the arguments.
  lemma RewriteWithoutNames<V>(query: string, args: seq<V>, fields: V -> Option<map<string, V>>)
    requires Rewrite(query).Ok? && Rewrite(query).value.names == []
    ensures Rewrite(query).value.query == query && Bind(Rewrite(query).value, args, fields) == Ok(args)
  {
    var tokens := Lex(FRESH, query);
    NamesCover(tokens);
    hide Lex, Join, Numbered;
    NoNames(tokens);
    JoinLex(FRESH, query);
  }

  // positionalCount is the greatest number of a placeholder, and 0 when there is none.
  lemma {:induction false} PositionalCountIsGreatest(tokens: seq<Token>)
    ensures forall k <- tokens :: k.Positional? ==> NumberOf(k.digits) <= MaxPositional(tokens)
    ensures MaxPositional(tokens) > 0 ==>
              exists k <- tokens :: k.Positional? && NumberOf(k.digits) == MaxPositional(tokens)
  {
    if tokens == [] {
    } else {
      hide NumberOf;
      var before, k := tokens[..|tokens| - 1], tokens[|tokens| - 1];
      PositionalCountIsGreatest(before);
      assert tokens == before + [k] && k in tokens;
      if MaxPositional(before) > 0 {
        var m :| m in before && m.Positional? && NumberOf(m.digits) == MaxPositional(before);
        assert m in tokens;
      }
    }
  }

  // ---------------------------------------------------------------- position map

  function Flags(count: nat, flag: bool): seq<bool> {
    seq(count, _ => flag)
  }

  // Whether a character of the output belongs to a placeholder that was a name.
  function Replaced(tokens: seq<Token>, names: seq<string>): seq<bool> {
    if tokens == [] then []
    else
      var k := tokens[|tokens| - 1];
      Replaced(tokens[..|tokens| - 1], names) + Flags(|TextOf(NumberedToken(k, names))|, k.Named?)
  }

  // The character behind a position of the output outside the placeholders that were names.
  lemma {:induction false} PositionsPoint(tokens: seq<Token>, names: seq<string>)
    ensures Points(Join(Numbered(tokens, names)), Positions(tokens, names), Replaced(tokens, names), Join(tokens))
  {
    if tokens == [] {
      NothingPoints(names);
    } else {
      hide Positions, Replaced, Join, Numbered, Points;
      FrontAndLast(tokens);
      PositionsPoint(tokens[..|tokens| - 1], names);
      PointsSnoc(tokens[..|tokens| - 1], tokens[|tokens| - 1], names);
    }
  }

  lemma NothingPoints(names: seq<string>)
    ensures Points(Join(Numbered([], names)), Positions([], names), Replaced([], names), Join([]))
  {
  }

  lemma FrontAndLast(tokens: seq<Token>)
    requires tokens != []
    ensures tokens == tokens[..|tokens| - 1] + [tokens[|tokens| - 1]]
  {
  }

  lemma PointsSnoc(before: seq<Token>, k: Token, names: seq<string>)
    requires Points(Join(Numbered(before, names)), Positions(before, names), Replaced(before, names), Join(before))
    ensures var tokens := before + [k];
            Points(Join(Numbered(tokens, names)), Positions(tokens, names), Replaced(tokens, names), Join(tokens))
  {
    hide Positions, Replaced, Join, Numbered, TextOf, Points, NumberedToken, Run, Flags;
    LastPoints(before, k, names);
    LastRun(before, k, names);
    var text := TextOf(NumberedToken(k, names));
    PointsAppend(Join(Numbered(before, names)), Positions(before, names), Replaced(before, names), Join(before),
                 text, Run(|Join(before)|, |text|), Flags(|text|, k.Named?), TextOf(k));
  }

  // The positions point at the same characters, where nothing was replaced.
  predicate Points(out: string, positions: seq<nat>, replaced: seq<bool>, source: string) {
    && |positions| == |out| == |replaced|
    && forall i :: 0 <= i < |out| && !replaced[i] ==> positions[i] < |source| && out[i] == source[positions[i]]
  }

  lemma PointsAppend(out: string, positions: seq<nat>, replaced: seq<bool>, source: string,
                     text: string, run: seq<nat>, flags: seq<bool>, more: string)
    requires Points(out, positions, replaced, source) && Points(text, run, flags, source + more)
    ensures Points(out + text, positions + run, replaced + flags, source + more)
  {
  }

  lemma LastRun(before: seq<Token>, k: Token, names: seq<string>)
    ensures var text := TextOf(NumberedToken(k, names));
            Points(text, Run(|Join(before)|, |text|), Flags(|text|, k.Named?), Join(before) + TextOf(k))
  {
    hide Join, TextOf;
  }

  lemma LastPoints(before: seq<Token>, k: Token, names: seq<string>)
    ensures var tokens := before + [k];
            && Join(Numbered(tokens, names)) == Join(Numbered(before, names)) + TextOf(NumberedToken(k, names))
            && Join(tokens) == Join(before) + TextOf(k)
            && Positions(tokens, names)
               == Positions(before, names) + Run(|Join(before)|, |TextOf(NumberedToken(k, names))|)
            && Replaced(tokens, names)
               == Replaced(before, names) + Flags(|TextOf(NumberedToken(k, names))|, k.Named?)
  {
    NumberedAppend(before, [k], names);
    assert Numbered([k], names) == [NumberedToken(k, names)];
    JoinSnoc(before, k);
    JoinSnoc(Numbered(before, names), NumberedToken(k, names));
    assert (before + [k])[..|before|] == before;
  }

  // Main result: outside the rewritten placeholders the position map points at the same
  // character of the query, and it has one entry more than the output.
  lemma PositionMapPoints(query: string)
    requires Rewrite(query).Ok?
    ensures var r := Rewrite(query).value;
            var replaced := Replaced(Lex(FRESH, query), r.names);
            && |r.positionMap| == |r.query| + 1 && r.positionMap[|r.query|] == |query|
            && |replaced| == |r.query|
            && forall i :: 0 <= i < |r.query| && !replaced[i] ==>
                 r.positionMap[i] < |query| && r.query[i] == query[r.positionMap[i]]
  {
    PositionsPoint(Lex(FRESH, query), Rewrite(query).value.names);
    JoinLex(FRESH, query);
  }

  // originalPosition, for a position that is a positive integer.
  function OriginalPosition(r: Rewritten, position: nat): nat
    requires position >= 1
  {
    (if position - 1 < |r.positionMap| then r.positionMap[position - 1] else position - 1) + 1
  }

  // An error position is mapped to the same character of the query.
  lemma OriginalPositionPoints(query: string, position: nat)
    requires Rewrite(query).Ok? && 1 <= position <= |Rewrite(query).value.query| + 1
    ensures var r := Rewrite(query).value;
            var p := OriginalPosition(r, position);
            if position == |r.query| + 1 then p == |query| + 1
            else |Replaced(Lex(FRESH, query), r.names)| == |r.query|
                 && (!Replaced(Lex(FRESH, query), r.names)[position - 1] ==>
                       1 <= p <= |query| && query[p - 1] == r.query[position - 1])
  {
    hide Rewrite, Replaced, Lex;
    PositionMapPoints(query);
    var r := Rewrite(query).value;
    if position <= |r.query| {
      assert r.positionMap[position - 1] == OriginalPosition(r, position) - 1;
    }
  }

  // -------------------------------------------------------------------- the loop

  // The map gives every name its number.
  ghost predicate Indexed(names: seq<string>, indexes: map<string, nat>) {
    && (forall n :: n in names <==> n in indexes)
    && forall n <- names :: indexes[n] == Position(names, n) + 1
  }

  lemma {:induction false} PositionOfNew(names: seq<string>, n: string)
    requires n !in names
    ensures Position(names + [n], n) == |names|
  {
    if names == [] {
    } else {
      assert names == [names[0]] + names[1..];
      assert (names + [n])[1..] == names[1..] + [n];
      PositionOfNew(names[1..], n);
    }
  }

  lemma IndexNew(names: seq<string>, indexes: map<string, nat>, n: string)
    requires Indexed(names, indexes) && n !in names
    ensures Indexed(names + [n], indexes[n := |names| + 1])
  {
    PositionOfNew(names, n);
    forall m | m in names ensures Position(names + [n], m) == Position(names, m) {
      PositionIn(names, [n], m);
    }
  }

  // What the loop has computed from the tokens it has passed.
  ghost predicate Computed(
    done: seq<Token>, out: string, names: seq<string>, indexes: map<string, nat>, positionMap: seq<nat>)
  {
    && names == Names(done) && Indexed(names, indexes)
    && out == Join(Numbered(done, names)) && positionMap == Positions(done, names)
  }

  lemma NamesSnoc(done: seq<Token>, k: Token)
    ensures Names(done + [k]) == if k.Named? && k.name !in Names(done) then Names(done) + [k.name] else Names(done)
    ensures MaxPositional(done + [k])
         == if k.Positional? && NumberOf(k.digits) > MaxPositional(done) then NumberOf(k.digits) else MaxPositional(done)
    ensures HasPositional(done + [k]) <==> HasPositional(done) || k.Positional?
  {
    assert (done + [k])[..|done|] == done;
    assert k in done + [k] && forall j <- done :: j in done + [k];
  }

  // One more token, with the names as they are after it.
  lemma ComputedNext(
    done: seq<Token>, k: Token, out: string, names: seq<string>, indexes: map<string, nat>, positionMap: seq<nat>,
    names': seq<string>, indexes': map<string, nat>)
    requires Computed(done, out, names, indexes, positionMap)
    requires names' == Names(done + [k]) && Indexed(names', indexes')
    ensures var text := TextOf(NumberedToken(k, names'));
            Computed(done + [k], out + text, names', indexes', positionMap + Run(|Join(done)|, |text|))
  {
    NamesSnoc(done, k);
    NamesCover(done);
    var more := if |names'| > |names| then [k.name] else [];
    assert names' == names + more;
    hide Names, Indexed, Join, Numbered, Positions, Covered;
    NumberedStable(done, names, more);
    PositionsStable(done, names, more);
    LastPoints(done, k, names');
  }

  lemma IndexedNames(
    done: seq<Token>, out: string, names: seq<string>, indexes: map<string, nat>, positionMap: seq<nat>)
    requires Computed(done, out, names, indexes, positionMap)
    ensures names == Names(done) && Indexed(names, indexes)
  {
    hide Indexed, Names, Join, Numbered, Positions;
  }

  lemma ComputedResult(
    done: seq<Token>, out: string, names: seq<string>, indexes: map<string, nat>, positionMap: seq<nat>)
    requires Computed(done, out, names, indexes, positionMap)
    ensures out == Join(Numbered(done, names)) && positionMap == Positions(done, names)
  {
    hide Indexed, Names, Join, Numbered, Positions;
  }

  lemma KnownName(names: seq<string>, indexes: map<string, nat>, n: string)
    requires Indexed(names, indexes)
    ensures n in indexes <==> n in names
    ensures n in names ==> indexes[n] == Position(names, n) + 1
  {
  }

  lemma LoopStart(query: string)
    ensures Join([]) == query[..0] && Lex(FRESH, query) == [] + Lex(ContextOf(query[..0]), query[0..])
    ensures Computed([], "", [], map[], []) && !HasPositional([]) && MaxPositional([]) == 0
  {
    hide Lex;
    assert query[0..] == query;
  }

  lemma LoopTurn(query: string, i: nat, done: seq<Token>, k: Token, next: nat)
    requires i < |query| && Join(done) == query[..i] && next == i + |TextOf(k)|
    requires k == Read(ContextOf(query[..i]), query[i..])
    ensures i < next <= |query| && Join(done + [k]) == query[..next] && |Join(done)| == i
    ensures Lex(ContextOf(query[..i]), query[i..]) == [k] + Lex(ContextOf(query[..next]), query[next..])
  {
    hide Read, Join, TextOf, ContextOf, Extend;
    var t := query[i..];
    ReadIsPrefix(ContextOf(query[..i]), t);
    JoinSnoc(done, k);
    assert query[..next] == query[..i] + TextOf(k);
    ContextExtends(query[..i], TextOf(k));
    assert t[|TextOf(k)|..] == query[next..];
  }

  lemma LoopEnd(c: Context)
    ensures Lex(c, []) == []
  {
  }

  // The token at a position, as the branches of the loop find it.
  method ReadToken(query: string, i: nat) returns (k: Token, next: nat)
    requires i < |query|
    ensures k == Read(ContextOf(query[..i]), query[i..]) && next == i + |TextOf(k)|
  {
    hide QuoteLen, LineLen, BlockLen, DollarLen, DigitLen, NameLen;
    ghost var t := query[i..];
    var ch := query[i];
    assert t[1..] == query[i + 1..] && (|t| > 1 ==> t[2..] == query[i + 2..]);
    next := i + 1;
    if ch == '-' && i + 1 < |query| && query[i + 1] == '-' {
      next := ReadLineComment(query, i);
    } else if ch == '/' && i + 1 < |query| && query[i + 1] == '*' {
      next := ReadBlockComment(query, i);
    } else if ch == '\'' {
      next := ReadSingleQuoted(query, i, EscapePrefix(query, i));
    } else if ch == '"' {
      next := ReadQuotedIdentifier(query, i);
    } else if ch == '$' && (i == 0 || !IsWord(query[i - 1])) {
      k, next := ReadDollar(query, i);
      return;
    }
    k := Copied(query[i..next]);
    assert query[i..next] == t[..next - i];
  }

  // A dollar sign that does not belong to a word.
  method ReadDollar(query: string, i: nat) returns (k: Token, next: nat)
    requires i < |query| && query[i] == '$' && (i == 0 || !IsWord(query[i - 1]))
    ensures k == Read(ContextOf(query[..i]), query[i..]) && next == i + |TextOf(k)|
  {
    hide QuoteLen, LineLen, BlockLen, DollarLen, DigitLen, NameLen;
    ghost var t := query[i..];
    assert t[1..] == query[i + 1..];
    next := i + 1;
    var end := ReadDollarQuoted(query, i);
    if end.Some? {
      next := end.value;
    } else if i + 1 < |query| && '1' <= query[i + 1] <= '9' {
      next := i + 1 + DigitLen(query[i + 1..]);
      k := Positional(query[i + 1..next]);
      assert query[i + 1..next] == t[1..][..DigitLen(t[1..])];
      return;
    } else if i + 1 < |query| && IsLetter(query[i + 1]) {
      next := i + 1 + NameLen(query[i + 1..]);
      k := Named(query[i + 1..next]);
      assert query[i + 1..next] == t[1..][..NameLen(t[1..])];
      return;
    }
    k := Copied(query[i..next]);
    assert query[i..next] == t[..next - i];
  }

  lemma InConcat(a: seq<Token>, k: Token, b: seq<Token>)
    ensures a + ([k] + b) == (a + [k]) + b && k in a + ([k] + b)
  {
    assert (a + ([k] + b))[|a|] == k;
  }

  lemma ReservedFails(query: string)
    requires RESERVED in Lex(FRESH, query)
    ensures Rewrite(query) == Err(ReservedName)
  {
    hide Lex, Names;
  }

  // The name gets the next number when it is new.
  method AddName(names: seq<string>, indexes: map<string, nat>, name: string)
    returns (more: seq<string>, numbered: map<string, nat>)
    requires Indexed(names, indexes)
    ensures more == (if name in names then names else names + [name]) && Indexed(more, numbered) && name in more
  {
    KnownName(names, indexes, name);
    more, numbered := names, indexes;
    if name !in indexes {
      IndexNew(names, indexes, name);
      more := names + [name];
      numbered := indexes[name := |more|];
    }
  }

  // What is written for a token: a name is added if it is new, and numbered.
  method Replacement(k: Token, names: seq<string>, indexes: map<string, nat>, ghost done: seq<Token>)
    returns (text: string, more: seq<string>, numbered: map<string, nat>)
    requires names == Names(done) && Indexed(names, indexes)
    ensures more == Names(done + [k]) && Indexed(more, numbered) && text == TextOf(NumberedToken(k, more))
  {
    hide Names, Indexed, Decimal, Position;
    NamesSnoc(done, k);
    more, numbered := names, indexes;
    text := TextOf(k);
    if k.Named? {
      more, numbered := AddName(names, indexes, k.name);
      KnownName(more, numbered, k.name);
      text := "$" + Decimal(numbered[k.name]);
    }
  }

  // rewriteNamedParameters.
  method RewriteNamedParameters(query: string) returns (r: Result<Rewritten, RewriteError>)
    ensures r == Rewrite(query)
  {
    hide Lex, Read, Join, Numbered, Names, Positions, MaxPositional, Computed, Indexed, HasPositional, Decimal, Position;
    hide ContextOf, NumberOf, Run, TextOf, NumberedToken;
    var out, i, positional, positionalCount := "", 0, false, 0;
    var names: seq<string>, indexes: map<string, nat>, positionMap: seq<nat> := [], map[], [];
    ghost var tokens := Lex(FRESH, query);
    ghost var done: seq<Token> := [];
    LoopStart(query);
    while i < |query|
      invariant i <= |query| && Join(done) == query[..i]
      invariant tokens == done + Lex(ContextOf(query[..i]), query[i..])
      invariant Computed(done, out, names, indexes, positionMap)
      invariant positional == HasPositional(done) && positionalCount == MaxPositional(done)
      invariant RESERVED !in done
    {
      var k, next := ReadToken(query, i);
      LoopTurn(query, i, done, k, next);
      InConcat(done, k, Lex(ContextOf(query[..next]), query[next..]));
      NamesSnoc(done, k);
      if k == RESERVED {
        ReservedFails(query);
        return Err(ReservedName);
      }
      IndexedNames(done, out, names, indexes, positionMap);
      if k.Positional? {
        positional := true;
        positionalCount := if NumberOf(k.digits) > positionalCount then NumberOf(k.digits) else positionalCount;
      }
      var text, more, numbered := Replacement(k, names, indexes, done);
      ComputedNext(done, k, out, names, indexes, positionMap, more, numbered);
      out, positionMap := out + text, positionMap + Run(i, |text|);
      names, indexes := more, numbered;
      done := done + [k];
      i := next;
    }
    LoopEnd(ContextOf(query[..i]));
    IndexedNames(done, out, names, indexes, positionMap);
    ComputedResult(done, out, names, indexes, positionMap);
    assert query[i..] == [] && tokens == done;
    if positional && |names| > 0 {
      return Err(MixedParameters);
    }
    return Ok(Rewritten(out, names, positionalCount, positionMap + [|query|]));
  }
}
