/**
 The normal form that digestAst of src/query-similarity.ts gives a parse tree before it
 is hashed, and what equal canonical forms say about two parse trees, possibly from
 functions with different parameters.
 */
module AstDigest {
  import opened Wrappers
  import opened JsonText
  import opened JsonSort
  import opened AlphaCanon
  import V = JsonValue

  // A parse tree, as JSON.
  datatype Ast = Leaf(scalar: Scalar) | Arr(items: seq<Ast>) | Obj(members: Members<Ast>)

  // The identities of one analysed unit's named and numbered parameters.
  datatype Bindings = Bindings(named: map<Text, Text>, positional: map<int, Text>)

  const NULL: Text := V.Ascii("null")
  const BOOLEAN: Text := V.Ascii("boolean")
  const NUMBER: Text := V.Ascii("number")
  const STRING: Text := V.Ascii("string")
  const ARRAY: Text := V.Ascii("array")
  const OBJECT: Text := V.Ascii("object")
  const A_CONST: Text := V.Ascii("A_Const")
  const COLUMN_REF: Text := V.Ascii("ColumnRef")

  // JavaScript objects have one value for each key, and an A_Const node has a body: the
  // parser makes no other.
  ghost predicate Parsed(a: Ast) {
    match a
    case Leaf(_) => true
    case Arr(items) => forall i :: 0 <= i < |items| ==> Parsed(items[i])
    case Obj(ms) =>
      && DistinctKeys(ms)
      && (NodeType(ms) == Some(A_CONST) ==> ms[0].value != Leaf(Null))
      && forall i :: 0 <= i < |ms| ==> assert ms[i].value < ms[i]; Parsed(ms[i].value)
  }

  // ----------------------------------------------------------------- reading nodes

  function Lookup(ms: Members<Ast>, key: Text): (r: Option<Ast>)
    ensures r.Some? ==> Member(key, r.value) in ms
    ensures r.None? ==> forall m <- ms :: m.key != key
  {
    if ms == [] then None
    else if ms[0].key == key then Some(ms[0].value)
    else Lookup(ms[1..], key)
  }

  // value?.key
  function Get(value: Option<Ast>, key: Text): Option<Ast> {
    if value.Some? && value.value.Obj? then Lookup(value.value.members, key) else None
  }

  predicate IsUpper(c: Unit) { 0x41 <= c <= 0x5A }

  predicate IsWordUnit(c: Unit) {
    IsUpper(c) || 0x61 <= c <= 0x7A || IsDigit(c) || c == 0x5F
  }

  // astNodeType: a single key that reads like a node name.
  function NodeType(ms: Members<Ast>): (r: Option<Text>)
    ensures r.Some? <==> |ms| == 1 && ms[0].key != [] && IsUpper(ms[0].key[0]) && forall c <- ms[0].key :: IsWordUnit(c)
    ensures r.Some? ==> r.value == ms[0].key
  {
    if |ms| == 1 && ms[0].key != [] && IsUpper(ms[0].key[0]) && forall c <- ms[0].key :: IsWordUnit(c)
    then Some(ms[0].key) else None
  }

  predicate IsLocation(key: Text) {
    key == V.Ascii("location") || key == V.Ascii("stmt_location") || key == V.Ascii("stmt_len")
  }

  function Join(parts: seq<Text>, separator: Text): Text {
    if parts == [] then [] else if |parts| == 1 then parts[0] else parts[0] + separator + Join(parts[1..], separator)
  }

  // Object.keys as members without values.
  function KeysOf(a: Ast): Members<()> {
    match a
    case Leaf(Str(s)) => seq(|s|, i requires 0 <= i < |s| => Member(V.NatText(i), ()))
    case Leaf(_) => []
    case Arr(items) => seq(|items|, i requires 0 <= i < |items| => Member(V.NatText(i), ()))
    case Obj(ms) => seq(|ms|, i requires 0 <= i < |ms| => Member(ms[i].key, ()))
  }

  function Unlocated(ms: Members<()>): Members<()> {
    if ms == [] then []
    else if ms[0].key == V.Ascii("location") then Unlocated(ms[1..])
    else [ms[0]] + Unlocated(ms[1..])
  }

  function KeyTexts(ms: Members<()>): seq<Text> {
    seq(|ms|, i requires 0 <= i < |ms| => ms[i].key)
  }

  // constantKind: which fields a constant has, not what they hold.
  function ConstantKind(a: Ast): Text {
    var joined := Join(KeyTexts(SortByKey(Unlocated(KeysOf(a)))), V.Ascii("+"));
    if joined == [] then V.Ascii("unknown") else joined
  }

  // String(value)
  function StringOf(value: Ast): Text {
    match value
    case Leaf(Null) => NULL
    case Leaf(Bool(b)) => if b then V.Ascii("true") else V.Ascii("false")
    case Leaf(Int(n)) => V.BigintText(n)
    case Leaf(Float(text)) => text
    case Leaf(Str(s)) => s
    case Arr(items) => StringOfItems(items)
    case Obj(_) => V.Ascii("[object Object]")
  }

  function StringOfItems(items: seq<Ast>): Text {
    if items == [] then []
    else
      var first := if items[0] == Leaf(Null) then [] else StringOf(items[0]);
      if |items| == 1 then first else first + V.Ascii(",") + StringOfItems(items[1..])
  }

  // functionParameterIdentity, for a value that is a ColumnRef node
  function NamedIdentity(a: Ast, bindings: Bindings): Option<Text> {
    var fields := Get(Get(Some(a), COLUMN_REF), V.Ascii("fields"));
    if fields.Some? && fields.value.Arr? && |fields.value.items| == 1 then
      var name := Get(Get(Some(fields.value.items[0]), V.Ascii("String")), V.Ascii("sval"));
      match name
      case Some(Leaf(Str(s))) => if s != [] && s in bindings.named then Some(bindings.named[s]) else None
      case _ => None
    else None
  }

  // positionalParameterIdentity
  function PositionalIdentity(a: Ast, bindings: Bindings): Text {
    var position := Get(Get(Some(a), PARAM_REF), V.Ascii("number"));
    var text := if position.Some? then StringOf(position.value) else V.Ascii("undefined");
    match position
    case Some(Leaf(Int(n))) => if n in bindings.positional then bindings.positional[n] else V.Ascii("position:") + text
    case _ => V.Ascii("position:") + text
  }

  predicate IsConstant(a: Ast) {
    a.Obj? && NodeType(a.members) == Some(A_CONST)
  }

  // The identity that a node stands for, if it is a parameter.
  function Parameter(a: Ast, bindings: Bindings): Option<Text> {
    if !a.Obj? then None
    else if NodeType(a.members) == Some(PARAM_REF) then Some(PositionalIdentity(a, bindings))
    else if NodeType(a.members) == Some(COLUMN_REF) then
      var identity := NamedIdentity(a, bindings);
      if identity == Some([]) then None else identity
    else None
  }

  // ------------------------------------------------------------------- normal form

  function Label(t: Text): Tree { Atom(Str(t)) }

  function LeafTree(s: Scalar): Tree {
    match s
    case Null => Node([Label(NULL)])
    case Bool(_) => Node([Label(BOOLEAN), Atom(s)])
    case Int(_) => Node([Label(NUMBER), Atom(s)])
    case Float(_) => Node([Label(NUMBER), Atom(s)])
    case Str(_) => Node([Label(STRING), Atom(s)])
  }

  function Pairs(ms: Members<Tree>): seq<Tree> {
    if ms == [] then [] else [Node([Label(ms[0].key), ms[0].value])] + Pairs(ms[1..])
  }

  function ObjectTag(ms: Members<Ast>): Text {
    if NodeType(ms).Some? then NodeType(ms).value else OBJECT
  }

  // The result digestAst calls normalized.
  function Normalize(a: Ast, bindings: Bindings): Tree
    decreases a
  {
    if IsConstant(a) then Node([Label(A_CONST), Label(ConstantKind(a.members[0].value))])
    else if Parameter(a, bindings).Some? then Param(Parameter(a, bindings).value)
    else match a
      case Leaf(s) => LeafTree(s)
      case Arr(items) => Node([Label(ARRAY)] + NormalizeItems(items, bindings))
      case Obj(ms) => Node([Label(ObjectTag(ms))] + Pairs(SortByKey(NormalizeMembers(ms, bindings))))
  }

  function NormalizeItems(items: seq<Ast>, bindings: Bindings): (r: seq<Tree>)
    ensures |r| == |items|
    decreases items
  {
    if items == [] then [] else [Normalize(items[0], bindings)] + NormalizeItems(items[1..], bindings)
  }

  function NormalizeMembers(ms: Members<Ast>, bindings: Bindings): Members<Tree>
    decreases ms
  {
    if ms == [] then []
    else
      var rest := NormalizeMembers(ms[1..], bindings);
      assert ms[0].value < ms[0];
      if IsLocation(ms[0].key) then rest else [Member(ms[0].key, Normalize(ms[0].value, bindings))] + rest
  }

  // ------------------------------------- no normal form reads like a parameter's number

  lemma {:induction false} NormalFormHasNoRefs(a: Ast, bindings: Bindings)
    ensures NoRefs(Normalize(a, bindings)) && !Normalize(a, bindings).Atom?
    decreases a
  {
    if IsConstant(a) || Parameter(a, bindings).Some? {
    } else {
      match a
      case Leaf(s) =>
        assert |PARAM_REF| == 8 && |NUMBER| == 6;
      case Arr(items) =>
        ItemsHaveNoRefs(items, bindings);
        NodeHasNoRefs(ARRAY, NormalizeItems(items, bindings));
      case Obj(ms) =>
        MembersHaveNoRefs(ms, bindings);
        var sorted := SortByKey(NormalizeMembers(ms, bindings));
        forall m | m in sorted ensures NoRefs(m.value) && !m.value.Atom? {
          SortedMember(m, NormalizeMembers(ms, bindings));
        }
        PairsHaveNoRefs(sorted);
        NodeHasNoRefs(ObjectTag(ms), Pairs(sorted));
    }
  }

  lemma NodeHasNoRefs(tag: Text, items: seq<Tree>)
    requires forall i :: 0 <= i < |items| ==> NoRefs(items[i]) && !items[i].Atom?
    ensures NoRefs(Node([Label(tag)] + items))
  {
    var whole := [Label(tag)] + items;
    forall i | 0 <= i < |whole| ensures NoRefs(whole[i]) {
      assert i > 0 ==> whole[i] == items[i - 1];
    }
    assert |whole| == 2 ==> whole[1] == items[0];
  }

  lemma {:induction false} ItemsHaveNoRefs(items: seq<Ast>, bindings: Bindings)
    ensures forall i :: 0 <= i < |items| ==>
              NoRefs(NormalizeItems(items, bindings)[i]) && !NormalizeItems(items, bindings)[i].Atom?
    decreases items
  {
    if items == [] {
    } else {
      hide Normalize, NoRefs;
      NormalFormHasNoRefs(items[0], bindings);
      ItemsHaveNoRefs(items[1..], bindings);
    }
  }

  lemma {:induction false} MembersHaveNoRefs(ms: Members<Ast>, bindings: Bindings)
    ensures forall m <- NormalizeMembers(ms, bindings) :: NoRefs(m.value) && !m.value.Atom?
    decreases ms
  {
    if ms == [] {
    } else {
      hide Normalize, NoRefs;
      assert ms[0].value < ms[0];
      NormalFormHasNoRefs(ms[0].value, bindings);
      MembersHaveNoRefs(ms[1..], bindings);
    }
  }

  lemma {:induction false} PairsHaveNoRefs(ms: Members<Tree>)
    requires forall m <- ms :: NoRefs(m.value) && !m.value.Atom?
    ensures |Pairs(ms)| == |ms| && forall i :: 0 <= i < |ms| ==> NoRefs(Pairs(ms)[i]) && Pairs(ms)[i].Node?
  {
    if ms == [] {
    } else {
      PairsHaveNoRefs(ms[1..]);
      NodeHasNoRefs(ms[0].key, [ms[0].value]);
    }
  }

  // ------------------------------------------------------- parse trees that look alike

  // a of one bindings and b of another differ in locations, in the order of keys, in the
  // values of constants and in the parameters, which f renames; in nothing else.
  ghost predicate Alike(a: Ast, u: Bindings, b: Ast, w: Bindings, f: map<Text, Text>)
    decreases a
  {
    if IsConstant(a) then IsConstant(b) && ConstantKind(a.members[0].value) == ConstantKind(b.members[0].value)
    else if Parameter(a, u).Some? then
      Parameter(b, w) == Some(Image(f, Parameter(a, u).value))
    else if IsConstant(b) || Parameter(b, w).Some? then false
    else match a
      case Leaf(_) => b == a
      case Arr(items) =>
        && b.Arr? && |b.items| == |items|
        && forall i :: 0 <= i < |items| ==> Alike(items[i], u, b.items[i], w, f)
      case Obj(ms) =>
        && b.Obj? && NodeType(b.members) == NodeType(ms)
        && (forall m <- b.members :: !IsLocation(m.key) ==> Lookup(ms, m.key).Some?)
        && forall i :: 0 <= i < |ms| && !IsLocation(ms[i].key) ==>
             assert ms[i].value < ms[i];
             (var other := Lookup(b.members, ms[i].key);
              other.Some? && Alike(ms[i].value, u, other.value, w, f))
  }

  // What the first item of a normal form that is not a parameter says.
  function Tag(a: Ast): Text {
    if IsConstant(a) then A_CONST
    else match a
      case Leaf(Null) => NULL
      case Leaf(Bool(_)) => BOOLEAN
      case Leaf(Int(_)) => NUMBER
      case Leaf(Float(_)) => NUMBER
      case Leaf(Str(_)) => STRING
      case Arr(_) => ARRAY
      case Obj(ms) => ObjectTag(ms)
  }

  lemma NormalTag(a: Ast, bindings: Bindings)
    requires IsConstant(a) || Parameter(a, bindings).None?
    ensures var t := Normalize(a, bindings); t.Node? && t.items != [] && t.items[0] == Label(Tag(a))
  {
  }

  lemma RenamedTag(t: Tree, f: map<Text, Text>)
    requires t.Node? && t.items != [] && t.items[0].Atom?
    ensures var r := Rename(t, f); r.Node? && |r.items| == |t.items| && r.items[0] == t.items[0]
    ensures Rename(t, f).items[1..] == RenameItems(t.items[1..], f)
  {
    assert RenameItems(t.items, f)[0] == Rename(t.items[0], f);
  }

  lemma TagsSeparate(a: Ast, b: Ast)
    requires Tag(a) == Tag(b)
    ensures IsConstant(a) == IsConstant(b)
    ensures !IsConstant(a) ==> a.Leaf? == b.Leaf? && a.Arr? == b.Arr?
    ensures !IsConstant(a) && a.Obj? && b.Obj? ==> NodeType(a.members) == NodeType(b.members)
  {
    assert NULL[0] == 0x6E && BOOLEAN[0] == 0x62 && NUMBER[0] == 0x6E && STRING[0] == 0x73;
    assert ARRAY[0] == 0x61 && OBJECT[0] == 0x6F && A_CONST[0] == 0x41;
    assert |NULL| == 4 && |NUMBER| == 6;
  }

  lemma LeavesSeparate(s: Scalar, t: Scalar, f: map<Text, Text>)
    ensures Rename(LeafTree(s), f) == LeafTree(t) <==> s == t
  {
    RenamedTag(LeafTree(s), f);
    var rest := LeafTree(s).items[1..];
    assert RenameItems(rest, f) == rest by {
      if rest != [] {
        assert rest[1..] == [];
      }
    }
    assert Rename(LeafTree(s), f) == LeafTree(s);
    if LeafTree(s) == LeafTree(t) && !s.Null? {
      assert LeafTree(s).items[1] == LeafTree(t).items[1];
    }
  }

  // -------------------------------------------------------------- members and items

  lemma {:induction false} ItemsAlike(items: seq<Ast>, u: Bindings, others: seq<Ast>, w: Bindings, f: map<Text, Text>)
    requires |items| == |others|
    requires forall i :: 0 <= i < |items| ==>
               (Rename(Normalize(items[i], u), f) == Normalize(others[i], w) <==> Alike(items[i], u, others[i], w, f))
    ensures RenameItems(NormalizeItems(items, u), f) == NormalizeItems(others, w)
       <==> forall i :: 0 <= i < |items| ==> Alike(items[i], u, others[i], w, f)
  {
    hide Rename, Normalize, Alike;
    if items != [] {
      var a, b := items[1..], others[1..];
      ItemsAlike(a, u, b, w, f);
      var x, y := RenameItems(NormalizeItems(items, u), f), NormalizeItems(others, w);
      assert x == [Rename(Normalize(items[0], u), f)] + RenameItems(NormalizeItems(a, u), f);
      assert y == [Normalize(others[0], w)] + NormalizeItems(b, w);
      assert x == y <==> x[0] == y[0] && x[1..] == y[1..] by {
        assert x == [x[0]] + x[1..] && y == [y[0]] + y[1..];
      }
      assert forall i :: 0 < i < |items| ==> items[i] == a[i - 1] && others[i] == b[i - 1];
    }
  }

  lemma {:induction false} PairsInjective(x: Members<Tree>, y: Members<Tree>)
    ensures Pairs(x) == Pairs(y) ==> x == y
    ensures |Pairs(x)| == |x|
  {
    if x != [] && y != [] {
      PairsInjective(x[1..], y[1..]);
      if Pairs(x) == Pairs(y) {
        assert Pairs(x)[0] == Pairs(y)[0] && Pairs(x)[1..] == Pairs(y)[1..];
        assert Pairs(x)[0].items[0] == Pairs(y)[0].items[0] && Pairs(x)[0].items[1] == Pairs(y)[0].items[1];
        assert x == [x[0]] + x[1..] && y == [y[0]] + y[1..];
      }
    } else if x != [] {
      PairsInjective(x[1..], []);
    } else if y != [] {
      assert |Pairs(y)| > 0;
    }
  }

  function RenamedValues(ms: Members<Tree>, f: map<Text, Text>): Members<Tree> {
    MapMembers(ms, t => Rename(t, f))
  }

  lemma {:induction false} RenamedPairs(ms: Members<Tree>, f: map<Text, Text>)
    ensures RenameItems(Pairs(ms), f) == Pairs(RenamedValues(ms, f))
  {
    if ms == [] {
    } else {
      RenamedPairs(ms[1..], f);
      var pair := [Label(ms[0].key), ms[0].value];
      assert RenameItems(pair, f) == [Label(ms[0].key), Rename(ms[0].value, f)] by {
        assert pair[1..] == [ms[0].value] && pair[1..][1..] == [];
      }
      assert Pairs(ms)[1..] == Pairs(ms[1..]);
    }
  }

  lemma TailMembers<T>(x: Members<T>)
    requires Ordered(x) && x != []
    ensures forall m :: m in x[1..] <==> m in x && m != x[0]
  {
    forall m | m in x[1..] ensures m != x[0] {
      var i :| 0 <= i < |x[1..]| && x[1..][i] == m;
      assert Less(x[0].key, x[i + 1].key);
      LessTotal(m.key, m.key);
    }
  }

  // Ordered arrangements of the same members are the same.
  lemma {:induction false} OrderedUnique<T>(x: Members<T>, y: Members<T>)
    requires Ordered(x) && Ordered(y) && forall m :: m in x <==> m in y
    ensures x == y
  {
    var some := if y == [] then [] else [y[0]];
    assert forall m :: m in some ==> m in x;
    if x == [] {
      assert |some| == 0 by {
        assert forall m :: m !in some;
      }
    } else {
      assert x[0] in y;
      var i :| 0 <= i < |y| && y[i] == x[0];
      assert y[0] in x;
      var j :| 0 <= j < |x| && x[j] == y[0];
      LessTotal(x[0].key, y[0].key);
      assert x[0] == y[0];
      LessTotal(x[0].key, x[0].key);
      TailMembers(x);
      TailMembers(y);
      OrderedUnique(x[1..], y[1..]);
      assert x == [x[0]] + x[1..] && y == [y[0]] + y[1..];
    }
  }

  lemma SortsAgree<T>(x: Members<T>, y: Members<T>)
    requires DistinctKeys(x) && DistinctKeys(y)
    ensures SortByKey(x) == SortByKey(y) <==> forall m :: m in x <==> m in y
  {
    forall m ensures (m in SortByKey(x) <==> m in x) && (m in SortByKey(y) <==> m in y) {
      SortedMember(m, x);
      SortedMember(m, y);
    }
    if forall m :: m in x <==> m in y {
      SortOrdered(x);
      SortOrdered(y);
      OrderedUnique(SortByKey(x), SortByKey(y));
    }
  }

  lemma LookupFinds(ms: Members<Ast>, m: Member<Ast>)
    requires DistinctKeys(ms) && m in ms
    ensures Lookup(ms, m.key) == Some(m.value)
  {
    var i :| 0 <= i < |ms| && ms[i] == m;
    var r := Lookup(ms, m.key);
    assert r.Some?;
    var found := Member(m.key, r.value);
    var j :| 0 <= j < |ms| && ms[j] == found;
    assert i == j;
  }

  // The normalised members: one for each key that is not a location.
  lemma {:induction false} NormalizedMembers(ms: Members<Ast>, bindings: Bindings)
    requires DistinctKeys(ms)
    ensures DistinctKeys(NormalizeMembers(ms, bindings))
    ensures forall x :: x in NormalizeMembers(ms, bindings) <==>
              exists i :: 0 <= i < |ms| && !IsLocation(ms[i].key)
                          && x == Member(ms[i].key, Normalize(ms[i].value, bindings))
  {
    hide Normalize, IsLocation;
    if ms != [] {
      var rest := ms[1..];
      NormalizedMembers(rest, bindings);
      assert forall i :: 0 < i < |ms| ==> ms[i] == rest[i - 1];
      forall x | x in NormalizeMembers(rest, bindings) ensures x.key != ms[0].key {
        var i :| 0 <= i < |rest| && x == Member(rest[i].key, Normalize(rest[i].value, bindings));
        assert rest[i] == ms[i + 1];
      }
    }
  }

  // ------------------------------------------------------------- the main theorem

  lemma RenamedObject(ms: Members<Ast>, u: Bindings, f: map<Text, Text>)
    ensures Rename(Node([Label(ObjectTag(ms))] + Pairs(SortByKey(NormalizeMembers(ms, u)))), f)
         == Node([Label(ObjectTag(ms))] + Pairs(SortByKey(RenamedValues(NormalizeMembers(ms, u), f))))
  {
    var normal := NormalizeMembers(ms, u);
    RenamedPairs(SortByKey(normal), f);
    SortMap(normal, t => Rename(t, f));
    var items := [Label(ObjectTag(ms))] + Pairs(SortByKey(normal));
    assert items[1..] == Pairs(SortByKey(normal));
    RenamedTag(Node(items), f);
    assert Rename(Node(items), f).items == [items[0]] + RenameItems(items[1..], f);
  }

  lemma ObjectsAgree(ms: Members<Ast>, u: Bindings, others: Members<Ast>, w: Bindings, f: map<Text, Text>)
    requires DistinctKeys(ms) && DistinctKeys(others) && NodeType(ms) == NodeType(others)
    ensures Rename(Node([Label(ObjectTag(ms))] + Pairs(SortByKey(NormalizeMembers(ms, u)))), f)
         == Node([Label(ObjectTag(others))] + Pairs(SortByKey(NormalizeMembers(others, w))))
       <==> forall x :: x in RenamedValues(NormalizeMembers(ms, u), f) <==> x in NormalizeMembers(others, w)
  {
    hide Normalize, Rename, NodeType;
    var x, y := RenamedValues(NormalizeMembers(ms, u), f), NormalizeMembers(others, w);
    RenamedObject(ms, u, f);
    NormalizedMembers(ms, u);
    NormalizedMembers(others, w);
    MapMembersAt(NormalizeMembers(ms, u), t => Rename(t, f));
    SortsAgree(x, y);
    PairsInjective(SortByKey(x), SortByKey(y));
    var head := [Label(ObjectTag(ms))];
    assert (head + Pairs(SortByKey(x)))[1..] == Pairs(SortByKey(x));
    assert (head + Pairs(SortByKey(y)))[1..] == Pairs(SortByKey(y));
  }

  // Members by key: renamed on one side, as they are on the other.
  ghost predicate MembersAlike(ms: Members<Ast>, u: Bindings, others: Members<Ast>, w: Bindings, f: map<Text, Text>) {
    && (forall m <- others :: !IsLocation(m.key) ==> Lookup(ms, m.key).Some?)
    && forall i :: 0 <= i < |ms| && !IsLocation(ms[i].key) ==>
         var other := Lookup(others, ms[i].key);
         other.Some? && Rename(Normalize(ms[i].value, u), f) == Normalize(other.value, w)
  }

  lemma RenamedMembers(ms: Members<Ast>, u: Bindings, f: map<Text, Text>)
    requires DistinctKeys(ms)
    ensures forall x :: x in RenamedValues(NormalizeMembers(ms, u), f) <==>
              exists i :: 0 <= i < |ms| && !IsLocation(ms[i].key)
                          && x == Member(ms[i].key, Rename(Normalize(ms[i].value, u), f))
  {
    hide Normalize, Rename, IsLocation;
    NormalizedMembers(ms, u);
    var normal := NormalizeMembers(ms, u);
    var renamed := RenamedValues(normal, f);
    MapMembersAt(normal, t => Rename(t, f));
    forall x | x in renamed
      ensures exists i :: 0 <= i < |ms| && !IsLocation(ms[i].key)
                          && x == Member(ms[i].key, Rename(Normalize(ms[i].value, u), f))
    {
      var k :| 0 <= k < |renamed| && renamed[k] == x;
      assert normal[k] in normal;
    }
    forall i | 0 <= i < |ms| && !IsLocation(ms[i].key)
      ensures Member(ms[i].key, Rename(Normalize(ms[i].value, u), f)) in renamed
    {
      var m := Member(ms[i].key, Normalize(ms[i].value, u));
      assert m in normal;
      var k :| 0 <= k < |normal| && normal[k] == m;
      assert renamed[k] in renamed;
    }
  }

  lemma ElementsAlike(ms: Members<Ast>, u: Bindings, others: Members<Ast>, w: Bindings, f: map<Text, Text>)
    requires DistinctKeys(ms) && DistinctKeys(others)
    ensures (forall x :: x in RenamedValues(NormalizeMembers(ms, u), f) <==> x in NormalizeMembers(others, w))
       <==> MembersAlike(ms, u, others, w, f)
  {
    hide Normalize, Rename, IsLocation, RenamedValues, NormalizeMembers, MembersAlike;
    if forall x :: x in RenamedValues(NormalizeMembers(ms, u), f) <==> x in NormalizeMembers(others, w) {
      ElementsGiveAlike(ms, u, others, w, f);
    }
    if MembersAlike(ms, u, others, w, f) {
      AlikeGivesElements(ms, u, others, w, f);
    }
  }

  lemma ElementsGiveAlike(ms: Members<Ast>, u: Bindings, others: Members<Ast>, w: Bindings, f: map<Text, Text>)
    requires DistinctKeys(ms) && DistinctKeys(others)
    requires forall x :: x in RenamedValues(NormalizeMembers(ms, u), f) <==> x in NormalizeMembers(others, w)
    ensures MembersAlike(ms, u, others, w, f)
  {
    hide Normalize, Rename, IsLocation, RenamedValues, NormalizeMembers, Lookup;
    RenamedMembers(ms, u, f);
    NormalizedMembers(others, w);
    forall m <- others | !IsLocation(m.key) ensures Lookup(ms, m.key).Some? {
      var x := Member(m.key, Normalize(m.value, w));
      assert x in NormalizeMembers(others, w) by {
        var j :| 0 <= j < |others| && others[j] == m;
      }
      var i :| 0 <= i < |ms| && !IsLocation(ms[i].key) && x == Member(ms[i].key, Rename(Normalize(ms[i].value, u), f));
      LookupFinds(ms, ms[i]);
    }
    forall i | 0 <= i < |ms| && !IsLocation(ms[i].key)
      ensures var other := Lookup(others, ms[i].key);
              other.Some? && Rename(Normalize(ms[i].value, u), f) == Normalize(other.value, w)
    {
      var x := Member(ms[i].key, Rename(Normalize(ms[i].value, u), f));
      assert x in NormalizeMembers(others, w);
      var j :| 0 <= j < |others| && !IsLocation(others[j].key) && x == Member(others[j].key, Normalize(others[j].value, w));
      LookupFinds(others, others[j]);
    }
  }

  lemma AlikeGivesElements(ms: Members<Ast>, u: Bindings, others: Members<Ast>, w: Bindings, f: map<Text, Text>)
    requires DistinctKeys(ms) && DistinctKeys(others) && MembersAlike(ms, u, others, w, f)
    ensures forall x :: x in RenamedValues(NormalizeMembers(ms, u), f) <==> x in NormalizeMembers(others, w)
  {
    hide Normalize, Rename, IsLocation, RenamedValues, NormalizeMembers, Lookup;
    RenamedMembers(ms, u, f);
    NormalizedMembers(others, w);
    forall x | x in RenamedValues(NormalizeMembers(ms, u), f) ensures x in NormalizeMembers(others, w) {
      var i :| 0 <= i < |ms| && !IsLocation(ms[i].key) && x == Member(ms[i].key, Rename(Normalize(ms[i].value, u), f));
      var m := Member(ms[i].key, Lookup(others, ms[i].key).value);
      assert m in others;
      var j :| 0 <= j < |others| && others[j] == m;
      assert x == Member(others[j].key, Normalize(others[j].value, w));
    }
    forall x | x in NormalizeMembers(others, w) ensures x in RenamedValues(NormalizeMembers(ms, u), f) {
      var j :| 0 <= j < |others| && !IsLocation(others[j].key) && x == Member(others[j].key, Normalize(others[j].value, w));
      LookupFinds(others, others[j]);
      var m := Member(others[j].key, Lookup(ms, others[j].key).value);
      assert m in ms;
      var i :| 0 <= i < |ms| && ms[i] == m;
      assert x == Member(ms[i].key, Rename(Normalize(ms[i].value, u), f));
    }
  }

  lemma {:induction false} RenamedIffAlike(a: Ast, u: Bindings, b: Ast, w: Bindings, f: map<Text, Text>)
    requires Parsed(a) && Parsed(b)
    ensures Rename(Normalize(a, u), f) == Normalize(b, w) <==> Alike(a, u, b, w, f)
    decreases a, 2
  {
    if Parameter(a, u).Some? && !IsConstant(a) {
      if IsConstant(b) || Parameter(b, w).None? {
        NormalTag(b, w);
      }
    } else if Parameter(b, w).Some? && !IsConstant(b) {
      NormalTag(a, u);
      RenamedTag(Normalize(a, u), f);
    } else {
      ComposedIffAlike(a, u, b, w, f);
    }
  }

  predicate Composed(a: Ast, u: Bindings) {
    IsConstant(a) || Parameter(a, u).None?
  }

  lemma {:induction false} ComposedIffAlike(a: Ast, u: Bindings, b: Ast, w: Bindings, f: map<Text, Text>)
    requires Parsed(a) && Parsed(b) && Composed(a, u) && Composed(b, w)
    ensures Rename(Normalize(a, u), f) == Normalize(b, w) <==> Alike(a, u, b, w, f)
    decreases a, 1
  {
    NormalTag(a, u);
    NormalTag(b, w);
    RenamedTag(Normalize(a, u), f);
    if Tag(a) == Tag(b) {
      TagsSeparate(a, b);
      if IsConstant(a) {
        ConstantsAlike(a, u, b, w, f);
      } else {
        match a
        case Leaf(s) => LeavesSeparate(s, b.scalar, f);
        case Arr(items) => ArraysAlike(a, u, b, w, f);
        case Obj(ms) => ObjectsAlike(a, u, b, w, f);
      }
    } else {
      TagsAlike(a, u, b, w, f);
    }
  }

  lemma TagsAlike(a: Ast, u: Bindings, b: Ast, w: Bindings, f: map<Text, Text>)
    requires Composed(a, u) && Composed(b, w)
    ensures Alike(a, u, b, w, f) ==> Tag(a) == Tag(b)
  {
  }

  lemma ConstantsAlike(a: Ast, u: Bindings, b: Ast, w: Bindings, f: map<Text, Text>)
    requires IsConstant(a) && IsConstant(b)
    ensures Rename(Normalize(a, u), f) == Normalize(b, w)
       <==> ConstantKind(a.members[0].value) == ConstantKind(b.members[0].value)
  {
    hide ConstantKind;
    var tag, kind := Label(A_CONST), Label(ConstantKind(a.members[0].value));
    var items := [tag, kind];
    assert items[1..] == [kind] && items[1..][1..] == [];
    assert RenameItems([kind], f) == [kind];
    assert RenameItems(items, f) == [tag] + RenameItems(items[1..], f) == items;
    assert Normalize(a, u).items[1] == Label(ConstantKind(a.members[0].value));
    assert Normalize(b, w).items[1] == Label(ConstantKind(b.members[0].value));
  }

  lemma {:induction false} ArraysAlike(a: Ast, u: Bindings, b: Ast, w: Bindings, f: map<Text, Text>)
    requires Parsed(a) && Parsed(b) && a.Arr? && b.Arr?
    ensures Rename(Normalize(a, u), f) == Normalize(b, w) <==> Alike(a, u, b, w, f)
    decreases a, 0
  {
    var x, y := NormalizeItems(a.items, u), NormalizeItems(b.items, w);
    if |a.items| == |b.items| {
      forall i | 0 <= i < |a.items|
        ensures Rename(Normalize(a.items[i], u), f) == Normalize(b.items[i], w)
           <==> Alike(a.items[i], u, b.items[i], w, f)
      {
        RenamedIffAlike(a.items[i], u, b.items[i], w, f);
      }
      ItemsAlike(a.items, u, b.items, w, f);
    }
    ArrayTrees(x, y, f);
  }

  lemma ArrayTrees(x: seq<Tree>, y: seq<Tree>, f: map<Text, Text>)
    ensures Rename(Node([Label(ARRAY)] + x), f) == Node([Label(ARRAY)] + y) <==> RenameItems(x, f) == y
  {
    var items := [Label(ARRAY)] + x;
    assert items[1..] == x && ([Label(ARRAY)] + y)[1..] == y;
    RenamedTag(Node(items), f);
    assert RenameItems(items, f) == [Label(ARRAY)] + RenameItems(x, f);
    assert (RenameItems(items, f))[1..] == RenameItems(x, f);
  }

  lemma {:induction false} ObjectsAlike(a: Ast, u: Bindings, b: Ast, w: Bindings, f: map<Text, Text>)
    requires Parsed(a) && Parsed(b) && Composed(a, u) && Composed(b, w)
    requires a.Obj? && b.Obj? && !IsConstant(a) && !IsConstant(b) && NodeType(a.members) == NodeType(b.members)
    ensures Rename(Normalize(a, u), f) == Normalize(b, w) <==> Alike(a, u, b, w, f)
    decreases a, 0
  {
    var ms, others := a.members, b.members;
    forall i | 0 <= i < |ms| && Lookup(others, ms[i].key).Some?
      ensures Rename(Normalize(ms[i].value, u), f) == Normalize(Lookup(others, ms[i].key).value, w)
         <==> Alike(ms[i].value, u, Lookup(others, ms[i].key).value, w, f)
    {
      var other := Lookup(others, ms[i].key).value;
      assert ms[i].value < ms[i];
      assert Parsed(other) by {
        var j :| 0 <= j < |others| && others[j] == Member(ms[i].key, other);
      }
      RenamedIffAlike(ms[i].value, u, other, w, f);
    }
    assert MembersAlike(ms, u, others, w, f) <==> Alike(a, u, b, w, f) by {
      hide Normalize, Rename, NodeType, Lookup, Parsed, IsLocation;
    }
    ObjectTrees(ms, u, others, w, f);
  }

  lemma ObjectTrees(ms: Members<Ast>, u: Bindings, others: Members<Ast>, w: Bindings, f: map<Text, Text>)
    requires DistinctKeys(ms) && DistinctKeys(others)
    requires Composed(Obj(ms), u) && Composed(Obj(others), w)
    requires !IsConstant(Obj(ms)) && !IsConstant(Obj(others)) && NodeType(ms) == NodeType(others)
    ensures Rename(Normalize(Obj(ms), u), f) == Normalize(Obj(others), w) <==> MembersAlike(ms, u, others, w, f)
  {
    ObjectsAgree(ms, u, others, w, f);
    ElementsAlike(ms, u, others, w, f);
    ObjectForm(ms, u);
    ObjectForm(others, w);
    hide Normalize, Rename, NodeType, MembersAlike, Parameter, Pairs;
  }

  lemma ObjectForm(ms: Members<Ast>, u: Bindings)
    requires Composed(Obj(ms), u) && !IsConstant(Obj(ms))
    ensures Normalize(Obj(ms), u) == Node([Label(ObjectTag(ms))] + Pairs(SortByKey(NormalizeMembers(ms, u))))
  {
  }

  // Two parse trees have the same canonical form, and so the same digest, exactly when
  // they are alike under a one to one renaming of the parameters.
  lemma FragmentsAgree(a: Ast, u: Bindings, b: Ast, w: Bindings)
    requires Parsed(a) && Parsed(b)
    ensures Canonical(Normalize(a, u)) == Canonical(Normalize(b, w))
       <==> exists f :: Renaming(Normalize(a, u), f) && Alike(a, u, b, w, f)
  {
    hide Normalize, Canonical, Renaming, Alike, Parsed;
    var s, t := Normalize(a, u), Normalize(b, w);
    NormalFormHasNoRefs(a, u);
    NormalFormHasNoRefs(b, w);
    AlphaEquivalence(s, t);
    forall f ensures Rename(s, f) == t <==> Alike(a, u, b, w, f) {
      RenamedIffAlike(a, u, b, w, f);
    }
  }
}
