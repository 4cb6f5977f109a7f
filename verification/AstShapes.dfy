/**
 What the normal form of AstDigest does with the nodes of a parse tree, by their shape: which
 nodes are parameters and of which identity, what a constant shows, and which members it drops.
 */
module AstShapes {
  import opened Wrappers
  import opened JsonText
  import opened JsonSort
  import opened AlphaCanon
  import opened AstDigest
  import V = JsonValue

  // A node whose only key is the name.
  predicate IsNode(a: Ast, name: string) {
    a.Obj? && |a.members| == 1 && a.members[0].key == V.Ascii(name)
  }

  // A reference to a column by one name: {"ColumnRef": {"fields": [{"String": {"sval": name}}]}},
  // whatever else the objects in it hold.
  predicate NamesColumn(a: Ast, body: Members<Ast>, field: Members<Ast>, text: Members<Ast>, name: Text) {
    && IsNode(a, "ColumnRef") && a.members[0].value == Obj(body)
    && Member(V.Ascii("fields"), Arr([Obj(field)])) in body
    && Member(V.Ascii("String"), Obj(text)) in field
    && Member(V.Ascii("sval"), Leaf(Str(name))) in text
  }

  // The name is a parameter's, and so is its identity.
  predicate Bound(bindings: Bindings, name: Text, identity: Text) {
    name != [] && name in bindings.named && bindings.named[name] == identity && identity != []
  }

  ghost predicate IsNamed(a: Ast, bindings: Bindings, identity: Text) {
    exists body, field, text, name :: NamesColumn(a, body, field, text, name) && Bound(bindings, name, identity)
  }

  // ------------------------------------------------------------------- node types

  lemma ConstantName()
    ensures A_CONST == [0x41, 0x5F, 0x43, 0x6F, 0x6E, 0x73, 0x74]
  {
  }

  lemma ColumnName()
    ensures COLUMN_REF == [0x43, 0x6F, 0x6C, 0x75, 0x6D, 0x6E, 0x52, 0x65, 0x66]
  {
  }

  lemma ParameterName()
    ensures PARAM_REF == [0x50, 0x61, 0x72, 0x61, 0x6D, 0x52, 0x65, 0x66]
  {
  }

  predicate IsNodeName(name: Text) {
    name != [] && IsUpper(name[0]) && forall i :: 0 <= i < |name| ==> IsWordUnit(name[i])
  }

  lemma NodeNames()
    ensures IsNodeName(A_CONST) && IsNodeName(COLUMN_REF) && IsNodeName(PARAM_REF)
    ensures A_CONST != COLUMN_REF && A_CONST != PARAM_REF && COLUMN_REF != PARAM_REF
  {
    ConstantName();
    ColumnName();
    ParameterName();
    assert A_CONST[1] == 0x5F && COLUMN_REF[1] == 0x6F && PARAM_REF[1] == 0x61;
  }

  lemma NodeTypeIs(a: Ast)
    ensures IsConstant(a) <==> IsNode(a, "A_Const")
    ensures a.Obj? ==> (NodeType(a.members) == Some(COLUMN_REF) <==> IsNode(a, "ColumnRef"))
    ensures a.Obj? ==> (NodeType(a.members) == Some(PARAM_REF) <==> IsNode(a, "ParamRef"))
  {
    NodeNames();
    hide IsUpper, IsWordUnit;
  }

  // ------------------------------------------------------------------- parameters

  lemma LookupIs(ms: Members<Ast>, key: Text, v: Ast)
    requires DistinctKeys(ms)
    ensures Lookup(ms, key) == Some(v) <==> Member(key, v) in ms
  {
    if Member(key, v) in ms {
      LookupFinds(ms, Member(key, v));
    }
  }

  lemma PartsAreParsed(ms: Members<Ast>, m: Member<Ast>)
    requires Parsed(Obj(ms)) && m in ms
    ensures Parsed(m.value) && (m.value.Obj? ==> DistinctKeys(m.value.members))
  {
    var i :| 0 <= i < |ms| && ms[i] == m;
    assert ms[i].value < ms[i];
  }

  // The name that functionParameterIdentity looks up is the one the shape holds.
  lemma ColumnNameIs(field: Members<Ast>, name: Text) returns (text: Members<Ast>)
    requires Parsed(Obj(field))
    requires Get(Get(Some(Obj(field)), V.Ascii("String")), V.Ascii("sval")) == Some(Leaf(Str(name)))
    ensures Member(V.Ascii("String"), Obj(text)) in field && Member(V.Ascii("sval"), Leaf(Str(name))) in text
  {
    text := Lookup(field, V.Ascii("String")).value.members;
  }

  lemma ColumnNameReads(field: Members<Ast>, text: Members<Ast>, name: Text)
    requires Parsed(Obj(field))
    requires Member(V.Ascii("String"), Obj(text)) in field && Member(V.Ascii("sval"), Leaf(Str(name))) in text
    ensures Get(Get(Some(Obj(field)), V.Ascii("String")), V.Ascii("sval")) == Some(Leaf(Str(name)))
  {
    PartsAreParsed(field, Member(V.Ascii("String"), Obj(text)));
    LookupIs(field, V.Ascii("String"), Obj(text));
    LookupIs(text, V.Ascii("sval"), Leaf(Str(name)));
  }

  lemma ShapeIsRead(a: Ast, body: Members<Ast>, field: Members<Ast>, text: Members<Ast>, name: Text, bindings: Bindings)
    requires Parsed(a) && NamesColumn(a, body, field, text, name)
    ensures NamedIdentity(a, bindings) == if name != [] && name in bindings.named then Some(bindings.named[name]) else None
  {
    var fields := Arr([Obj(field)]);
    PartsAreParsed(a.members, a.members[0]);
    PartsAreParsed(body, Member(V.Ascii("fields"), fields));
    assert Parsed(fields.items[0]);
    LookupIs(body, V.Ascii("fields"), fields);
    ColumnNameReads(field, text, name);
    hide Parsed;
  }

  lemma ShapeIsFound(a: Ast, bindings: Bindings)
    returns (body: Members<Ast>, field: Members<Ast>, text: Members<Ast>, name: Text)
    requires Parsed(a) && IsNode(a, "ColumnRef") && NamedIdentity(a, bindings).Some?
    ensures NamesColumn(a, body, field, text, name)
    ensures name != [] && name in bindings.named && NamedIdentity(a, bindings) == Some(bindings.named[name])
  {
    body := a.members[0].value.members;
    var fields := Lookup(body, V.Ascii("fields")).value;
    PartsAreParsed(a.members, a.members[0]);
    PartsAreParsed(body, Member(V.Ascii("fields"), fields));
    assert Parsed(fields.items[0]);
    field := fields.items[0].members;
    name := Get(Get(Some(Obj(field)), V.Ascii("String")), V.Ascii("sval")).value.scalar.s;
    text := ColumnNameIs(field, name);
    assert fields == Arr([Obj(field)]);
  }

  // A column reference is a parameter of an identity exactly when it has the shape and its name
  // is bound to that identity.
  lemma NamedExactly(a: Ast, bindings: Bindings, identity: Text)
    requires Parsed(a) && IsNode(a, "ColumnRef")
    ensures Normalize(a, bindings) == Param(identity) <==> IsNamed(a, bindings, identity)
  {
    NodeTypeIs(a);
    NodeNames();
    hide Parsed, NodeType, NamedIdentity, NormalizeMembers;
    if NamedIdentity(a, bindings).Some? {
      var body, field, text, name := ShapeIsFound(a, bindings);
      assert Bound(bindings, name, identity) <==> Normalize(a, bindings) == Param(identity);
    }
    forall body, field, text, name | NamesColumn(a, body, field, text, name) && Bound(bindings, name, identity)
      ensures Normalize(a, bindings) == Param(identity)
    {
      ShapeIsRead(a, body, field, text, name, bindings);
    }
  }

  // A numbered parameter: {"ParamRef": {"number": n}}, whatever else the body holds.
  predicate Numbers(a: Ast, body: Members<Ast>, n: int) {
    IsNode(a, "ParamRef") && a.members[0].value == Obj(body) && Member(V.Ascii("number"), Leaf(Int(n))) in body
  }

  // It has the identity bound to its number, and one of its own otherwise.
  lemma NumberedExactly(a: Ast, body: Members<Ast>, n: int, bindings: Bindings)
    requires Parsed(a) && Numbers(a, body, n)
    ensures Normalize(a, bindings)
            == Param(if n in bindings.positional then bindings.positional[n] else V.Ascii("position:") + V.BigintText(n))
  {
    NodeTypeIs(a);
    NodeNames();
    PartsAreParsed(a.members, a.members[0]);
    LookupIs(body, V.Ascii("number"), Leaf(Int(n)));
    hide Parsed, NodeType, NormalizeMembers;
  }

  // Nothing else is a parameter.
  lemma ParametersExactly(a: Ast, bindings: Bindings)
    requires Parsed(a)
    ensures Normalize(a, bindings).Param? <==>
              IsNode(a, "ParamRef") || exists identity :: IsNamed(a, bindings, identity)
  {
    NodeTypeIs(a);
    NodeNames();
    hide Parsed, NodeType, NormalizeMembers, PositionalIdentity, NamedIdentity;
    if IsNode(a, "ColumnRef") && Normalize(a, bindings).Param? {
      NamedExactly(a, bindings, Normalize(a, bindings).identity);
    }
    forall identity | IsNamed(a, bindings, identity) ensures Normalize(a, bindings).Param? {
      NamedExactly(a, bindings, identity);
    }
  }

  // -------------------------------------------------------------------- members

  // Replacing one member of a node by another of the same key changes its normal form exactly
  // when the key is none of the three locations and the normal form of the member changes.
  lemma OneMemberExactly(ms: Members<Ast>, i: nat, v: Ast, u: Bindings)
    requires i < |ms| && DistinctKeys(ms)
    requires !IsConstant(Obj(ms)) && Parameter(Obj(ms), u).None?
    requires var other := Obj(ms[i := Member(ms[i].key, v)]); !IsConstant(other) && Parameter(other, u).None?
    ensures Normalize(Obj(ms), u) == Normalize(Obj(ms[i := Member(ms[i].key, v)]), u) <==>
              || ms[i].key in {V.Ascii("location"), V.Ascii("stmt_location"), V.Ascii("stmt_len")}
              || Normalize(ms[i].value, u) == Normalize(v, u)
  {
    var others := ms[i := Member(ms[i].key, v)];
    assert Normalize(Obj(ms), u) == Node([Label(ObjectTag(ms))] + Pairs(SortByKey(NormalizeMembers(ms, u))));
    assert Normalize(Obj(others), u) == Node([Label(ObjectTag(others))] + Pairs(SortByKey(NormalizeMembers(others, u))));
    NormalizedMembers(ms, u);
    NormalizedMembers(others, u);
    SameTag(ms, i, v);
    hide Normalize, NodeType, IsConstant, Parameter, ObjectTag;
    TreesAgree(Label(ObjectTag(ms)), NormalizeMembers(ms, u), NormalizeMembers(others, u));
    MembersAgree(ms, i, v, u);
  }

  lemma SameTag(ms: Members<Ast>, i: nat, v: Ast)
    requires i < |ms|
    ensures ObjectTag(ms[i := Member(ms[i].key, v)]) == ObjectTag(ms)
  {
  }

  lemma TreesAgree(tag: Tree, x: Members<Tree>, y: Members<Tree>)
    requires DistinctKeys(x) && DistinctKeys(y)
    ensures Node([tag] + Pairs(SortByKey(x))) == Node([tag] + Pairs(SortByKey(y))) <==> forall m :: m in x <==> m in y
  {
    SortsAgree(x, y);
    PairsInjective(SortByKey(x), SortByKey(y));
    assert ([tag] + Pairs(SortByKey(x)))[1..] == Pairs(SortByKey(x));
    assert ([tag] + Pairs(SortByKey(y)))[1..] == Pairs(SortByKey(y));
  }

  lemma MembersCarry(ms: Members<Ast>, others: Members<Ast>, u: Bindings, m: Member<Tree>)
    requires DistinctKeys(ms) && DistinctKeys(others) && |others| == |ms|
    requires forall k :: 0 <= k < |ms| ==>
               && others[k].key == ms[k].key
               && (IsLocation(ms[k].key) || Normalize(ms[k].value, u) == Normalize(others[k].value, u))
    requires m in NormalizeMembers(ms, u)
    ensures m in NormalizeMembers(others, u)
  {
    hide IsLocation, Normalize, NormalizeMembers;
    NormalizedMembers(ms, u);
    NormalizedMembers(others, u);
    var k :| 0 <= k < |ms| && !IsLocation(ms[k].key) && m == Member(ms[k].key, Normalize(ms[k].value, u));
    assert m == Member(others[k].key, Normalize(others[k].value, u));
  }

  lemma MembersAgree(ms: Members<Ast>, i: nat, v: Ast, u: Bindings)
    requires i < |ms| && DistinctKeys(ms)
    ensures var others := ms[i := Member(ms[i].key, v)];
            (forall m :: m in NormalizeMembers(ms, u) <==> m in NormalizeMembers(others, u)) <==>
              || ms[i].key in {V.Ascii("location"), V.Ascii("stmt_location"), V.Ascii("stmt_len")}
              || Normalize(ms[i].value, u) == Normalize(v, u)
  {
    var others := ms[i := Member(ms[i].key, v)];
    assert IsLocation(ms[i].key) <==> ms[i].key in {V.Ascii("location"), V.Ascii("stmt_location"), V.Ascii("stmt_len")};
    hide IsLocation, Normalize, NormalizeMembers;
    NormalizedMembers(ms, u);
    NormalizedMembers(others, u);
    assert forall k :: 0 <= k < |ms| && k != i ==> others[k] == ms[k];
    if !IsLocation(ms[i].key) && Normalize(ms[i].value, u) != Normalize(v, u) {
      var m := Member(ms[i].key, Normalize(ms[i].value, u));
      assert m in NormalizeMembers(ms, u);
      assert m !in NormalizeMembers(others, u);
    } else {
      forall m | m in NormalizeMembers(ms, u) ensures m in NormalizeMembers(others, u) {
        MembersCarry(ms, others, u, m);
      }
      forall m | m in NormalizeMembers(others, u) ensures m in NormalizeMembers(ms, u) {
        MembersCarry(others, ms, u, m);
      }
    }
  }

  // -------------------------------------------------------------------- constants

  // The keys of a constant's body that the parser makes: not empty, without a plus sign.
  predicate PlainKey(key: Text) {
    key != [] && 0x2B !in key && key != V.Ascii("unknown")
  }

  predicate PlainKeys(ms: Members<Ast>) {
    forall m <- ms :: PlainKey(m.key)
  }

  // The key is one that a constant shows.
  predicate Shows(ms: Members<Ast>, key: Text) {
    key != V.Ascii("location") && exists m <- ms :: m.key == key
  }

  predicate PlainParts(parts: seq<Text>) {
    forall part <- parts :: part != [] && 0x2B !in part
  }

  // Texts without a separator in them are recovered from the joined text.
  lemma {:induction false} JoinInjective(a: seq<Text>, b: seq<Text>)
    requires PlainParts(a) && PlainParts(b) && Join(a, [0x2B]) == Join(b, [0x2B])
    ensures a == b
  {
    if a == [] {
      JoinIsEmpty(b);
    } else if b == [] {
      JoinIsEmpty(a);
    } else {
      assert a[0] in a && b[0] in b;
      JoinStarts(a);
      JoinStarts(b);
      var x, y := JoinRest(a), JoinRest(b);
      assert a[0] + x == b[0] + y;
      FirstParts(a[0], x, b[0], y);
      JoinRests(a);
      JoinRests(b);
      assert forall part <- a[1..] :: part in a;
      assert forall part <- b[1..] :: part in b;
      hide Join;
      JoinInjective(a[1..], b[1..]);
      assert a == [a[0]] + a[1..] && b == [b[0]] + b[1..];
    }
  }

  lemma JoinIsEmpty(parts: seq<Text>)
    requires PlainParts(parts)
    ensures Join(parts, [0x2B]) == [] ==> parts == []
  {
    assert parts != [] ==> parts[0] in parts;
  }

  function JoinRest(parts: seq<Text>): Text
    requires parts != []
  {
    if |parts| == 1 then [] else [0x2B] + Join(parts[1..], [0x2B])
  }

  lemma JoinStarts(parts: seq<Text>)
    requires parts != []
    ensures Join(parts, [0x2B]) == parts[0] + JoinRest(parts)
  {
    if |parts| > 1 {
      assert parts[0] + [0x2B] + Join(parts[1..], [0x2B]) == parts[0] + ([0x2B] + Join(parts[1..], [0x2B]));
    }
  }

  lemma JoinRests(parts: seq<Text>)
    requires parts != [] && PlainParts(parts)
    ensures JoinRest(parts) == [] <==> parts[1..] == []
    ensures JoinRest(parts) != [] ==> JoinRest(parts)[1..] == Join(parts[1..], [0x2B])
  {
  }

  lemma NotShorter(a: Text, x: Text, b: Text, y: Text)
    requires 0x2B !in b && a + x == b + y && (x == [] || x[0] == 0x2B)
    ensures |a| >= |b|
  {
    assert forall k :: 0 <= k < |b| ==> b[k] in b && b[k] != 0x2B && (b + y)[k] == b[k];
    assert x != [] ==> (a + x)[|a|] == x[0];
    assert |a| + |x| == |a + x| == |b + y| == |b| + |y|;
  }

  // Two texts without the separator, each followed by nothing or by the separator.
  lemma FirstParts(a: Text, x: Text, b: Text, y: Text)
    requires 0x2B !in a && 0x2B !in b && a + x == b + y
    requires (x == [] || x[0] == 0x2B) && (y == [] || y[0] == 0x2B)
    ensures a == b && x == y
  {
    NotShorter(a, x, b, y);
    NotShorter(b, y, a, x);
    assert (a + x)[..|a|] == a && (b + y)[..|b|] == b && (a + x)[|a|..] == x && (b + y)[|b|..] == y;
  }

  // The keys that ConstantKind joins, in order.
  function ShownKeys(ms: Members<Ast>): Members<()> {
    SortByKey(Unlocated(KeysOf(Obj(ms))))
  }

  lemma {:induction false} UnlocatedMembers(ks: Members<()>)
    requires DistinctKeys(ks)
    ensures DistinctKeys(Unlocated(ks))
    ensures forall k :: k in Unlocated(ks) <==> k in ks && k.key != V.Ascii("location")
  {
    if ks != [] {
      UnlocatedMembers(ks[1..]);
      assert ks == [ks[0]] + ks[1..];
      assert forall k <- ks[1..] :: k.key != ks[0].key;
    }
  }

  lemma OnlyKey(k: Member<()>)
    ensures k == Member(k.key, ())
  {
    match k.value {
      case () =>
    }
  }

  lemma KeysAreShown(ms: Members<Ast>)
    requires DistinctKeys(ms)
    ensures DistinctKeys(Unlocated(KeysOf(Obj(ms))))
    ensures forall k :: k in Unlocated(KeysOf(Obj(ms))) <==> Shows(ms, k.key)
  {
    var ks := KeysOf(Obj(ms));
    assert forall i :: 0 <= i < |ms| ==> ks[i] == Member(ms[i].key, ());
    UnlocatedMembers(ks);
    forall k ensures k in ks <==> exists m <- ms :: m.key == k.key {
      if k in ks {
        var i :| 0 <= i < |ks| && ks[i] == k;
        assert ms[i] in ms;
      }
      if exists m <- ms :: m.key == k.key {
        var i :| 0 <= i < |ms| && ms[i].key == k.key;
        OnlyKey(k);
        assert ks[i] == k;
      }
    }
  }

  lemma TextsInjective(x: Members<()>, y: Members<()>)
    ensures KeyTexts(x) == KeyTexts(y) ==> x == y
  {
    if KeyTexts(x) == KeyTexts(y) {
      assert |KeyTexts(x)| == |x| && |KeyTexts(y)| == |y|;
      forall i | 0 <= i < |x| ensures x[i] == y[i] {
        assert KeyTexts(x)[i] == x[i].key && KeyTexts(y)[i] == y[i].key;
        OnlyKey(x[i]);
        OnlyKey(y[i]);
      }
    }
  }

  lemma ShownArePlain(ms: Members<Ast>)
    requires DistinctKeys(ms) && PlainKeys(ms)
    ensures forall part <- KeyTexts(ShownKeys(ms)) :: PlainKey(part)
  {
    KeysAreShown(ms);
    forall part | part in KeyTexts(ShownKeys(ms)) ensures PlainKey(part) {
      var i :| 0 <= i < |ShownKeys(ms)| && ShownKeys(ms)[i].key == part;
      SortedMember(ShownKeys(ms)[i], Unlocated(KeysOf(Obj(ms))));
      assert ShownKeys(ms)[i] in ShownKeys(ms) && Shows(ms, part);
      var m :| m in ms && m.key == part;
    }
  }

  // The keys joined are never the word for none of them.
  lemma JoinIsKnown(parts: seq<Text>)
    requires forall part <- parts :: PlainKey(part)
    ensures Join(parts, [0x2B]) == [] <==> parts == []
    ensures Join(parts, [0x2B]) != V.Ascii("unknown")
  {
    assert 0x2B !in V.Ascii("unknown") by {
      assert V.Ascii("unknown") == [0x75, 0x6E, 0x6B, 0x6E, 0x6F, 0x77, 0x6E];
    }
    if parts != [] {
      assert parts[0] in parts;
      JoinStarts(parts);
      if |parts| > 1 {
        var joined := Join(parts, [0x2B]);
        assert joined[|parts[0]|] == 0x2B;
        assert 0x2B in joined;
      }
    }
  }

  lemma KindIs(ms: Members<Ast>)
    requires DistinctKeys(ms) && PlainKeys(ms)
    ensures ConstantKind(Obj(ms)) == if ShownKeys(ms) == [] then V.Ascii("unknown") else Join(KeyTexts(ShownKeys(ms)), [0x2B])
  {
    ShownArePlain(ms);
    JoinIsKnown(KeyTexts(ShownKeys(ms)));
    assert V.Ascii("+") == [0x2B];
    hide Join, SortByKey, Unlocated, KeysOf, PlainKey;
    assert |KeyTexts(ShownKeys(ms))| == |ShownKeys(ms)|;
  }

  lemma KindsAgree(ms: Members<Ast>, others: Members<Ast>)
    requires DistinctKeys(ms) && PlainKeys(ms) && DistinctKeys(others) && PlainKeys(others)
    ensures ConstantKind(Obj(ms)) == ConstantKind(Obj(others)) <==> ShownKeys(ms) == ShownKeys(others)
  {
    KindIs(ms);
    KindIs(others);
    ShownArePlain(ms);
    ShownArePlain(others);
    var a, b := KeyTexts(ShownKeys(ms)), KeyTexts(ShownKeys(others));
    JoinIsKnown(a);
    JoinIsKnown(b);
    TextsInjective(ShownKeys(ms), ShownKeys(others));
    hide Join, ShownKeys, ConstantKind;
    if ConstantKind(Obj(ms)) == ConstantKind(Obj(others)) && a != [] && b != [] {
      JoinInjective(a, b);
    }
  }

  // Of a constant the normal form shows which keys its body has, locations aside, and nothing of
  // what they hold.
  lemma ConstantsExactly(a: Ast, ms: Members<Ast>, u: Bindings, b: Ast, others: Members<Ast>, w: Bindings)
    requires IsNode(a, "A_Const") && a.members[0].value == Obj(ms) && DistinctKeys(ms) && PlainKeys(ms)
    requires IsNode(b, "A_Const") && b.members[0].value == Obj(others) && DistinctKeys(others) && PlainKeys(others)
    ensures Normalize(a, u) == Normalize(b, w) <==> forall key :: Shows(ms, key) <==> Shows(others, key)
  {
    NodeTypeIs(a);
    NodeTypeIs(b);
    hide IsConstant, NodeType, ConstantKind, Shows, IsNode, PlainKeys;
    ConstantTrees(ConstantKind(Obj(ms)), ConstantKind(Obj(others)));
    KindsAgree(ms, others);
    KeysAreShown(ms);
    KeysAreShown(others);
    SortsAgree(Unlocated(KeysOf(Obj(ms))), Unlocated(KeysOf(Obj(others))));
    var x, y := Unlocated(KeysOf(Obj(ms))), Unlocated(KeysOf(Obj(others)));
    hide Unlocated, KeysOf, SortByKey;
    if forall k :: k in x <==> k in y {
      forall key ensures Shows(ms, key) <==> Shows(others, key) {
        assert Member(key, ()) in x <==> Shows(ms, key);
        assert Member(key, ()) in y <==> Shows(others, key);
      }
    }
  }

  lemma ConstantTrees(kind: Text, other: Text)
    ensures Node([Label(A_CONST), Label(kind)]) == Node([Label(A_CONST), Label(other)]) <==> kind == other
  {
    assert [Label(A_CONST), Label(kind)][1] == Label(kind) && [Label(A_CONST), Label(other)][1] == Label(other);
  }
}
