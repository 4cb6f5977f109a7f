/**
 Parameter canonicalisation of query similarity: canonicalDigest in
 src/query-similarity.ts numbers the parameters of a normalised tree in order of first
 appearance, and two trees get the same numbering exactly when renaming the parameters
 of one, one to one, gives the other.
 */
module AlphaCanon {
  import opened JsonText
  import V = JsonValue

  datatype Scalar = Null | Bool(b: bool) | Int(value: int) | Float(text: Text) | Str(s: Text)

  // Arrays, scalars and parameter tokens: all that normalised trees are made of.
  datatype Tree = Param(identity: Text) | Atom(scalar: Scalar) | Node(items: seq<Tree>)

  const PARAM_REF: Text := V.Ascii("ParamRef")

  function Ref(position: nat): Tree {
    Node([Atom(Str(PARAM_REF)), Atom(Int(position))])
  }

  // ---------------------------------------------------------------- canonical form

  function IndexOf(order: seq<Text>, identity: Text): (i: nat)
    requires identity in order
    ensures i < |order| && order[i] == identity
  {
    if order[0] == identity then 0 else 1 + IndexOf(order[1..], identity)
  }

  // The canonical tree, and the identities in order of first appearance: those in order
  // were seen before.
  function Canon(t: Tree, order: seq<Text>): (r: (Tree, seq<Text>))
    ensures order <= r.1
    decreases t
  {
    match t
    case Param(identity) =>
      if identity in order then (Ref(IndexOf(order, identity) + 1), order)
      else (Ref(|order| + 1), order + [identity])
    case Atom(_) => (t, order)
    case Node(items) => var mapped := CanonItems(items, order); (Node(mapped.0), mapped.1)
  }

  function CanonItems(items: seq<Tree>, order: seq<Text>): (r: (seq<Tree>, seq<Text>))
    ensures order <= r.1 && |r.0| == |items|
    decreases items
  {
    if items == [] then ([], order)
    else
      var first := Canon(items[0], order);
      var rest := CanonItems(items[1..], first.1);
      ([first.0] + rest.0, rest.1)
  }

  function Canonical(t: Tree): Tree {
    Canon(t, []).0
  }

  // ---------------------------------------------------------------------- renaming

  function Identities(t: Tree): set<Text> {
    match t
    case Param(identity) => {identity}
    case Atom(_) => {}
    case Node(items) => ItemIdentities(items)
  }

  function ItemIdentities(items: seq<Tree>): set<Text> {
    if items == [] then {} else Identities(items[0]) + ItemIdentities(items[1..])
  }

  function Image(f: map<Text, Text>, identity: Text): Text {
    if identity in f then f[identity] else identity
  }

  function Rename(t: Tree, f: map<Text, Text>): Tree {
    match t
    case Param(identity) => Param(Image(f, identity))
    case Atom(_) => t
    case Node(items) => Node(RenameItems(items, f))
  }

  function RenameItems(items: seq<Tree>, f: map<Text, Text>): (r: seq<Tree>)
    ensures |r| == |items|
  {
    if items == [] then [] else [Rename(items[0], f)] + RenameItems(items[1..], f)
  }

  ghost predicate Injective(f: map<Text, Text>) {
    forall x, y :: x in f && y in f && f[x] == f[y] ==> x == y
  }

  ghost predicate Distinct(order: seq<Text>) {
    forall i, j :: 0 <= i < j < |order| ==> order[i] != order[j]
  }

  // A one to one renaming of the identities of a tree.
  ghost predicate Renaming(t: Tree, f: map<Text, Text>) {
    f.Keys == Identities(t) && Injective(f)
  }

  predicate IsRef(t: Tree) {
    t.Node? && |t.items| == 2 && t.items[0] == Atom(Str(PARAM_REF)) && t.items[1].Atom? && t.items[1].scalar.Int?
  }

  // No part of the tree reads like a numbered parameter already.
  ghost predicate NoRefs(t: Tree) {
    !IsRef(t) && (t.Node? ==> forall i :: 0 <= i < |t.items| ==> NoRefs(t.items[i]))
  }

  // ----------------------------------------------- renamed trees have the same form

  function Images(order: seq<Text>, f: map<Text, Text>): (r: seq<Text>)
    ensures |r| == |order|
  {
    seq(|order|, i requires 0 <= i < |order| => Image(f, order[i]))
  }

  ghost predicate Covered(order: seq<Text>, f: map<Text, Text>) {
    forall x :: x in order ==> x in f
  }

  lemma IndexIsUnique(order: seq<Text>, i: nat)
    requires Distinct(order) && i < |order|
    ensures IndexOf(order, order[i]) == i
  {
    var j := IndexOf(order, order[i]);
    assert order[j] == order[i];
  }

  lemma ImagesContain(order: seq<Text>, identity: Text, f: map<Text, Text>)
    requires Covered(order, f) && Injective(f) && identity in f && Distinct(order)
    ensures Distinct(Images(order, f))
    ensures f[identity] in Images(order, f) <==> identity in order
    ensures identity in order ==> IndexOf(Images(order, f), f[identity]) == IndexOf(order, identity)
  {
    var images := Images(order, f);
    forall i | 0 <= i < |order| ensures images[i] == f[order[i]] {
      assert order[i] in order;
    }
    forall i, j | 0 <= i < j < |order| ensures images[i] != images[j] {
      assert images[i] == f[order[i]] && images[j] == f[order[j]];
    }
    if identity in order {
      var i := IndexOf(order, identity);
      assert images[i] == f[identity];
      IndexIsUnique(images, i);
    }
    if f[identity] in images {
      var i := IndexOf(images, f[identity]);
      assert f[order[i]] == f[identity];
      assert order[i] == identity;
    }
  }

  lemma {:induction false} RenamedCanon(t: Tree, order: seq<Text>, f: map<Text, Text>)
    requires Identities(t) <= f.Keys && Covered(order, f) && Injective(f) && Distinct(order)
    ensures var r := Canon(t, order);
            Canon(Rename(t, f), Images(order, f)) == (r.0, Images(r.1, f)) && Covered(r.1, f) && Distinct(r.1)
    decreases t
  {
    match t
    case Param(identity) =>
      ImagesContain(order, identity, f);
      if identity !in order {
        assert Images(order + [identity], f) == Images(order, f) + [f[identity]];
      }
    case Atom(_) =>
    case Node(items) => RenamedCanonItems(items, order, f);
  }

  lemma {:induction false} RenamedCanonItems(items: seq<Tree>, order: seq<Text>, f: map<Text, Text>)
    requires ItemIdentities(items) <= f.Keys && Covered(order, f) && Injective(f) && Distinct(order)
    ensures var r := CanonItems(items, order);
            && CanonItems(RenameItems(items, f), Images(order, f)) == (r.0, Images(r.1, f))
            && Covered(r.1, f) && Distinct(r.1)
    decreases items
  {
    if items == [] {
    } else {
      hide Canon, Rename, Images, Injective;
      var first := Canon(items[0], order);
      RenamedCanon(items[0], order, f);
      RenamedCanonItems(items[1..], first.1, f);
      assert RenameItems(items, f)[1..] == RenameItems(items[1..], f);
    }
  }

  // -------------------------------------------- trees with the same form are renamed

  // f sends each identity to the one that the other tree has at its position.
  ghost predicate Matches(f: map<Text, Text>, os: seq<Text>, ot: seq<Text>) {
    |os| == |ot| && forall i :: 0 <= i < |os| ==> os[i] in f && f[os[i]] == ot[i]
  }

  lemma MatchesPrefix(f: map<Text, Text>, os: seq<Text>, ot: seq<Text>, os': seq<Text>, ot': seq<Text>)
    requires Matches(f, os', ot') && os <= os' && ot <= ot' && |os| == |ot|
    ensures Matches(f, os, ot)
  {
    forall i | 0 <= i < |os| ensures os[i] in f && f[os[i]] == ot[i] {
      assert os'[i] in f;
    }
  }

  lemma CanonPair(items: seq<Tree>, order: seq<Text>)
    requires |items| == 2
    ensures var first := Canon(items[0], order);
            CanonItems(items, order).0 == [first.0, Canon(items[1], first.1).0]
  {
    hide Canon;
    assert items[1..][1..] == [];
  }

  // A canonical parameter comes from a parameter only.
  lemma CanonIsRef(t: Tree, order: seq<Text>)
    requires NoRefs(t)
    ensures IsRef(Canon(t, order).0) <==> t.Param?
  {
    if t.Node? && |t.items| == 2 {
      CanonPair(t.items, order);
    }
  }

  lemma {:induction false} SameFormSameCount(s: Tree, t: Tree, os: seq<Text>, ot: seq<Text>)
    requires NoRefs(s) && NoRefs(t) && |os| == |ot| && Canon(s, os).0 == Canon(t, ot).0
    ensures |Canon(s, os).1| == |Canon(t, ot).1|
    decreases s
  {
    CanonIsRef(s, os);
    CanonIsRef(t, ot);
    match s
    case Param(identity) =>
      assert t.Param?;
      assert Canon(s, os).0.items[1] == Canon(t, ot).0.items[1];
    case Atom(_) =>
    case Node(items) =>
      assert t.Node?;
      SameFormSameCounts(items, t.items, os, ot);
  }

  lemma {:induction false} SameFormSameCounts(ss: seq<Tree>, ts: seq<Tree>, os: seq<Text>, ot: seq<Text>)
    requires |os| == |ot| && CanonItems(ss, os).0 == CanonItems(ts, ot).0
    requires (forall i :: 0 <= i < |ss| ==> NoRefs(ss[i])) && (forall i :: 0 <= i < |ts| ==> NoRefs(ts[i]))
    ensures |CanonItems(ss, os).1| == |CanonItems(ts, ot).1|
    decreases ss
  {
    if ss == [] {
    } else {
      hide Canon, NoRefs;
      FormsSplit(ss, ts, os, ot);
      SameFormSameCount(ss[0], ts[0], os, ot);
      SameFormSameCounts(ss[1..], ts[1..], Canon(ss[0], os).1, Canon(ts[0], ot).1);
    }
  }

  lemma FormsSplit(ss: seq<Tree>, ts: seq<Tree>, os: seq<Text>, ot: seq<Text>)
    requires ss != [] && CanonItems(ss, os).0 == CanonItems(ts, ot).0
    ensures ts != [] && |ts| == |ss| && Canon(ss[0], os).0 == Canon(ts[0], ot).0
    ensures CanonItems(ss[1..], Canon(ss[0], os).1).0 == CanonItems(ts[1..], Canon(ts[0], ot).1).0
    ensures CanonItems(ss[1..], Canon(ss[0], os).1).1 == CanonItems(ss, os).1
    ensures CanonItems(ts[1..], Canon(ts[0], ot).1).1 == CanonItems(ts, ot).1
  {
    hide Canon;
    assert CanonItems(ss, os).0[1..] == CanonItems(ss[1..], Canon(ss[0], os).1).0;
    assert CanonItems(ts, ot).0[1..] == CanonItems(ts[1..], Canon(ts[0], ot).1).0;
    assert CanonItems(ss, os).0[0] == Canon(ss[0], os).0;
    assert CanonItems(ts, ot).0[0] == Canon(ts[0], ot).0;
  }

  lemma {:induction false} SameFormRenames(s: Tree, t: Tree, os: seq<Text>, ot: seq<Text>, f: map<Text, Text>)
    requires NoRefs(s) && NoRefs(t) && |os| == |ot| && Canon(s, os).0 == Canon(t, ot).0
    requires Matches(f, Canon(s, os).1, Canon(t, ot).1)
    ensures Rename(s, f) == t
    decreases s
  {
    CanonIsRef(s, os);
    CanonIsRef(t, ot);
    match s
    case Param(identity) =>
      assert t.Param?;
      assert Canon(s, os).0.items[1] == Canon(t, ot).0.items[1];
      var i := if identity in os then IndexOf(os, identity) else |os|;
      assert Canon(s, os).1[i] == identity && Canon(t, ot).1[i] == t.identity;
    case Atom(_) =>
    case Node(items) =>
      assert t.Node?;
      SameFormsRename(items, t.items, os, ot, f);
  }

  lemma {:induction false} SameFormsRename(ss: seq<Tree>, ts: seq<Tree>, os: seq<Text>, ot: seq<Text>,
                                           f: map<Text, Text>)
    requires |os| == |ot| && CanonItems(ss, os).0 == CanonItems(ts, ot).0
    requires (forall i :: 0 <= i < |ss| ==> NoRefs(ss[i])) && (forall i :: 0 <= i < |ts| ==> NoRefs(ts[i]))
    requires Matches(f, CanonItems(ss, os).1, CanonItems(ts, ot).1)
    ensures RenameItems(ss, f) == ts
    decreases ss
  {
    if ss == [] {
    } else {
      hide Canon, CanonItems, NoRefs, Matches, Rename;
      FormsSplit(ss, ts, os, ot);
      var os', ot' := Canon(ss[0], os).1, Canon(ts[0], ot).1;
      SameFormSameCount(ss[0], ts[0], os, ot);
      MatchesPrefix(f, os', ot', CanonItems(ss, os).1, CanonItems(ts, ot).1);
      SameFormRenames(ss[0], ts[0], os, ot, f);
      SameFormsRename(ss[1..], ts[1..], os', ot', f);
      assert ts == [ts[0]] + ts[1..];
    }
  }

  // The order lists the identities of the tree, each once.
  lemma {:induction false} CanonOrder(t: Tree, order: seq<Text>)
    requires Distinct(order)
    ensures Distinct(Canon(t, order).1)
    ensures forall x :: x in Canon(t, order).1 <==> x in order || x in Identities(t)
    decreases t
  {
    match t
    case Param(identity) =>
    case Atom(_) =>
    case Node(items) => CanonItemsOrder(items, order);
  }

  lemma {:induction false} CanonItemsOrder(items: seq<Tree>, order: seq<Text>)
    requires Distinct(order)
    ensures Distinct(CanonItems(items, order).1)
    ensures forall x :: x in CanonItems(items, order).1 <==> x in order || x in ItemIdentities(items)
    decreases items
  {
    if items == [] {
    } else {
      hide Canon, Identities, Distinct;
      CanonOrder(items[0], order);
      CanonItemsOrder(items[1..], Canon(items[0], order).1);
    }
  }

  lemma FormsGiveRenaming(s: Tree, t: Tree) returns (f: map<Text, Text>)
    requires NoRefs(s) && NoRefs(t) && Canonical(s) == Canonical(t)
    ensures Renaming(s, f) && Rename(s, f) == t
  {
    hide Canon, Rename, NoRefs, Identities;
    var os, ot := Canon(s, []).1, Canon(t, []).1;
    SameFormSameCount(s, t, [], []);
    CanonOrder(s, []);
    CanonOrder(t, []);
    f := map x | x in os :: ot[IndexOf(os, x)];
    forall i | 0 <= i < |os| ensures os[i] in f && f[os[i]] == ot[i] {
      IndexIsUnique(os, i);
    }
    forall x, y | x in f && y in f && f[x] == f[y] ensures x == y {
      var i, j := IndexOf(os, x), IndexOf(os, y);
      assert ot[i] == ot[j];
      assert i == j;
    }
    assert f.Keys == Identities(s);
    SameFormRenames(s, t, [], [], f);
  }

  // Canonical forms decide whether two trees differ in the names of their parameters only.
  lemma AlphaEquivalence(s: Tree, t: Tree)
    requires NoRefs(s) && NoRefs(t)
    ensures Canonical(s) == Canonical(t) <==> exists f :: Renaming(s, f) && Rename(s, f) == t
  {
    hide Canon, Rename, NoRefs, Identities;
    if Canonical(s) == Canonical(t) {
      var f := FormsGiveRenaming(s, t);
    }
    if f :| Renaming(s, f) && Rename(s, f) == t {
      RenamedCanon(s, [], f);
      assert Images([], f) == [];
    }
  }

  // ------------------------------------------------------------------- the program

  lemma CanonItemsStep(mapped: seq<Tree>, items: seq<Tree>, k: nat, order: seq<Text>)
    requires k < |items|
    ensures var first := Canon(items[k], order);
            && mapped + CanonItems(items[k..], order).0
               == (mapped + [first.0]) + CanonItems(items[k + 1..], first.1).0
            && CanonItems(items[k..], order).1 == CanonItems(items[k + 1..], first.1).1
  {
    hide Canon;
    assert items[k..][1..] == items[k + 1..];
  }

  lemma CanonItemsEnd(mapped: seq<Tree>, items: seq<Tree>, order: seq<Text>)
    ensures mapped + CanonItems(items[|items|..], order).0 == mapped
    ensures CanonItems(items[|items|..], order).1 == order
  {
  }

  // The closure canonicalize with the map it fills.
  class Canonicalizer {
    var parameters: map<Text, nat>
    ghost var order: seq<Text>

    ghost predicate Valid()
      reads this
    {
      && Distinct(order)
      && (forall x :: x in parameters <==> x in order)
      && (forall i :: 0 <= i < |order| ==> parameters[order[i]] == i + 1)
      && |parameters| == |order|
    }

    constructor ()
      ensures Valid() && order == []
    {
      parameters := map[];
      order := [];
    }

    // The position of an identity, which is the next free one if the identity is new.
    method PositionOf(identity: Text) returns (position: nat)
      requires Valid()
      modifies this
      ensures Valid()
      ensures identity in old(order) ==> order == old(order) && position == IndexOf(old(order), identity) + 1
      ensures identity !in old(order) ==> order == old(order) + [identity] && position == |old(order)| + 1
    {
      if identity in parameters {
        position := parameters[identity];
      } else {
        position := |parameters| + 1;
        assert parameters[identity := position].Keys == parameters.Keys + {identity};
        parameters := parameters[identity := position];
        order := order + [identity];
      }
    }

    method Canonicalize(item: Tree) returns (r: Tree)
      requires Valid()
      modifies this
      ensures Valid() && (r, order) == Canon(item, old(order))
      decreases item
    {
      hide Distinct, Valid, IndexOf, Identities;
      match item
      case Param(identity) =>
        var position := PositionOf(identity);
        r := Ref(position);
      case Atom(_) =>
        r := item;
      case Node(items) =>
        var mapped := CanonicalizeItems(items);
        r := Node(mapped);
    }

    // item.map(canonicalize)
    method CanonicalizeItems(items: seq<Tree>) returns (mapped: seq<Tree>)
      requires Valid()
      modifies this
      ensures Valid() && (mapped, order) == CanonItems(items, old(order))
      decreases items
    {
      hide Canon, CanonItems, Distinct, Valid;
      mapped := [];
      ghost var all := CanonItems(items, order);
      assert items[0..] == items;
      assert mapped + all.0 == all.0;
      for k := 0 to |items|
        invariant Valid()
        invariant all == (mapped + CanonItems(items[k..], order).0, CanonItems(items[k..], order).1)
      {
        CanonItemsStep(mapped, items, k, order);
        var child := Canonicalize(items[k]);
        mapped := mapped + [child];
      }
      CanonItemsEnd(mapped, items, order);
    }
  }

  // What canonicalDigest hashes.
  method CanonicalForm(value: Tree) returns (r: Tree)
    ensures r == Canonical(value)
  {
    var canonicalizer := new Canonicalizer();
    r := canonicalizer.Canonicalize(value);
  }
}
