/**
 What a document is after a trip through its text, and what the parser guarantees of
 every text it accepts.
 */
module JsonRoundTrip {
  import opened Wrappers
  import opened JsonText
  import opened JsonSort
  import opened JsonValue
  import opened JsonParse
  import opened JsonEncode
  import opened JsonDecode
  import N = JsonNumber

  // ---------------------------------------------------------------- documents

  // Equal values up to the order of object keys and the materialisation of numbers.
  ghost predicate SameDocument(v: Value, w: Value, env: Env)
    requires ValueOk(v)
  {
    match v
    case VNumber(text) => w == NumberValue(text, env)
    case VExact(text) => w == NumberValue(text, env)
    case VArray(items) =>
      && w.VArray? && |w.items| == |items|
      && forall i :: 0 <= i < |items| ==>
           (ItemValid(items, i); SameDocument(items[i], w.items[i], env))
    case VObject(ms) =>
      && w.VObject? && |w.members| == |ms| && DistinctKeys(w.members)
      && forall i :: 0 <= i < |ms| ==>
           assert ms[i].value < ms[i];
           (MemberValid(ms, i);
            exists j :: 0 <= j < |w.members| && w.members[j].key == ms[i].key
                        && SameDocument(ms[i].value, w.members[j].value, env))
    case _ => w == v
  }

  lemma {:induction false} SettleItemsAt(items: seq<Value>, env: Env)
    ensures |SettleItems(items, env)| == |items|
    ensures forall i :: 0 <= i < |items| ==> SettleItems(items, env)[i] == Settle(items[i], env)
  {
    if items == [] {
    } else {
      SettleItemsAt(items[1..], env);
      hide Settle;
    }
  }

  lemma {:induction false} SettleMembersAt(ms: Members<Value>, env: Env)
    ensures |SettleMembers(ms, env)| == |ms|
    ensures forall i :: 0 <= i < |ms| ==> SettleMembers(ms, env)[i] == Member(ms[i].key, Settle(ms[i].value, env))
  {
    if ms == [] {
    } else {
      SettleMembersAt(ms[1..], env);
      hide Settle;
    }
  }

  // The settled members of an object: all there, in key order.
  lemma SettledMembers(ms: Members<Value>, env: Env, i: nat) returns (j: nat)
    requires DistinctKeys(ms) && i < |ms|
    ensures var sorted := SortByKey(SettleMembers(ms, env));
            && DistinctKeys(sorted) && |sorted| == |ms| && j < |sorted|
            && sorted[j] == Member(ms[i].key, Settle(ms[i].value, env))
  {
    hide Settle, SettleMembers, SortByKey;
    var settled := SettleMembers(ms, env);
    SettleMembersAt(ms, env);
    SortOrdered(settled);
    SortPermutes(settled);
    SortedMember(settled[i], settled);
    j :| 0 <= j < |SortByKey(settled)| && SortByKey(settled)[j] == settled[i];
  }

  lemma SettleDistinct(ms: Members<Value>, env: Env)
    requires DistinctKeys(ms)
    ensures DistinctKeys(SortByKey(SettleMembers(ms, env))) && |SortByKey(SettleMembers(ms, env))| == |ms|
  {
    hide Settle, SettleMembers, SortByKey;
    SettleMembersAt(ms, env);
    SortOrdered(SettleMembers(ms, env));
    SortPermutes(SettleMembers(ms, env));
  }

  lemma {:induction false} SettleIsSame(v: Value, env: Env)
    requires ValueOk(v)
    ensures SameDocument(v, Settle(v, env), env)
  {
    match v
    case VArray(items) =>
      SettleItemsAt(items, env);
      forall i | 0 <= i < |items| ensures ValueOk(items[i]) && SameDocument(items[i], Settle(items[i], env), env) {
        ItemValid(items, i);
        SettleIsSame(items[i], env);
      }
    case VObject(ms) =>
      var w := Settle(v, env);
      SettleDistinct(ms, env);
      forall i | 0 <= i < |ms|
        ensures ValueOk(ms[i].value)
        ensures exists j :: 0 <= j < |w.members| && w.members[j].key == ms[i].key
                            && SameDocument(ms[i].value, w.members[j].value, env)
      {
        assert ms[i].value < ms[i];
        MemberValid(ms, i);
        SettleIsSame(ms[i].value, env);
        var j := SettledMembers(ms, env, i);
        assert w.members[j].key == ms[i].key;
      }
    case _ => hide N.Accepted;
  }

  // Main result: extended JSON round trip. Whatever the snapshot and the encoder accept is
  // parsed back to its raw tree and decoded to an equal document.
  lemma ExtendedJsonRoundTrip(v: Value, env: Env)
    requires Encodable(v) && Restores(v, env)
    ensures ParseDocument(Encode(v)) == Ok(RawOf(v))
    ensures DecodeRaw(RawOf(v), 0, env) == Ok(Settle(v, env))
    ensures SameDocument(v, Settle(v, env), env)
  {
    EncodedDocumentsParse(v);
    DecodeRoundTrip(v, 0, env);
    SettleIsSame(v, env);
  }

  // ----------------------------------------------------------------- numbers

  // What the language says of Number(): it does not tell a token from its canonical form, and
  // String() writes zero as 0.
  ghost predicate ReadsNumbers(env: Env) {
    && (forall t: Text :: N.Accepted(t) ==> env.number(N.Canonical(t)) == env.number(t))
    && (forall t: Text :: env.number(t).Finite? && env.number(t).zero ==> env.number(t).text == [ZERO])
  }

  // The text of a number that the snapshot accepts: Number() reads it back, and it is no
  // integer outside the safe range.
  predicate IsJsNumber(text: Text, env: Env) {
    env.number(text).Finite? && env.number(text).text == text && !env.number(text).unsafeInteger
  }

  // No JavaScript number stands for the canonical text.
  predicate OnlyExact(text: Text, env: Env) {
    env.number(text).Finite? ==> env.number(text).unsafeInteger || (env.number(text).zero && text != [ZERO])
  }

  // A JavaScript number comes back as itself.
  lemma NumberRoundTrip(text: Text, env: Env)
    requires ReadsNumbers(env) && N.Accepted(text) && IsJsNumber(text, env)
    ensures NumberValue(text, env) == VNumber(text)
  {
    hide N.Accepted;
    if env.number(text).zero {
      N.ZeroIsCanonical();
    }
    hide N.Canonical;
  }

  // An exact number comes back as itself if and only if no JavaScript number stands for it.
  lemma ExactRoundTrip(text: Text, env: Env)
    requires N.Accepted(text) && N.Canonical(text) == text
    ensures NumberValue(text, env) == VExact(text) <==> OnlyExact(text, env)
  {
    hide N.Accepted, N.Canonical;
  }

  predicate ItemNumbersStay(items: seq<Value>, env: Env) {
    items != [] ==> NumbersStay(items[0], env) && ItemNumbersStay(items[1..], env)
  }

  predicate MemberNumbersStay(ms: Members<Value>, env: Env) {
    ms != [] ==>
      assert ms[0].value < ms[0];
      NumbersStay(ms[0].value, env) && MemberNumbersStay(ms[1..], env)
  }

  predicate NumbersStay(v: Value, env: Env) {
    match v
    case VNumber(text) => IsJsNumber(text, env)
    case VExact(text) => OnlyExact(text, env)
    case VArray(items) => ItemNumbersStay(items, env)
    case VObject(ms) => MemberNumbersStay(ms, env)
    case _ => true
  }

  function SortedItems(items: seq<Value>): seq<Value> {
    if items == [] then [] else [Sorted(items[0])] + SortedItems(items[1..])
  }

  function SortedMembers(ms: Members<Value>): Members<Value> {
    if ms == [] then []
    else
      assert ms[0].value < ms[0];
      [Member(ms[0].key, Sorted(ms[0].value))] + SortedMembers(ms[1..])
  }

  // The document with the keys of its objects in order.
  function Sorted(v: Value): Value {
    match v
    case VArray(items) => VArray(SortedItems(items))
    case VObject(ms) => VObject(SortByKey(SortedMembers(ms)))
    case _ => v
  }

  lemma {:induction false} SettleIsSorted(v: Value, env: Env)
    requires ValueOk(v) && ReadsNumbers(env) && NumbersStay(v, env)
    ensures Settle(v, env) == Sorted(v)
    decreases v, 0
  {
    match v
    case VNumber(text) => NumberRoundTrip(text, env);
    case VExact(text) => ExactRoundTrip(text, env);
    case VArray(items) => SettleItemsSorted(items, env);
    case VObject(ms) => SettleMembersSorted(ms, env);
    case _ =>
  }

  lemma {:induction false} SettleItemsSorted(items: seq<Value>, env: Env)
    requires ItemsValid(items) && ReadsNumbers(env) && ItemNumbersStay(items, env)
    ensures SettleItems(items, env) == SortedItems(items)
    decreases items, 1
  {
    if items == [] {
    } else {
      SettleIsSorted(items[0], env);
      SettleItemsSorted(items[1..], env);
      hide Settle, Sorted;
    }
  }

  lemma {:induction false} SettleMembersSorted(ms: Members<Value>, env: Env)
    requires MembersValid(ms) && ReadsNumbers(env) && MemberNumbersStay(ms, env)
    ensures SettleMembers(ms, env) == SortedMembers(ms)
    decreases ms, 1
  {
    if ms == [] {
    } else {
      assert ms[0].value < ms[0];
      SettleIsSorted(ms[0].value, env);
      SettleMembersSorted(ms[1..], env);
      hide Settle, Sorted;
    }
  }

  // A document of JavaScript numbers, and of exact numbers that are none, comes back with its
  // keys in order and nothing else changed.
  lemma NumbersComeBack(v: Value, env: Env)
    requires Encodable(v) && Restores(v, env) && ReadsNumbers(env) && NumbersStay(v, env)
    ensures ParseDocument(Encode(v)).Ok? && DecodeRaw(ParseDocument(Encode(v)).value, 0, env) == Ok(Sorted(v))
  {
    assert ValueOk(v);
    hide *;
    ExtendedJsonRoundTrip(v, env);
    SettleIsSorted(v, env);
  }

  // Documents with the same text are the same document: no tag is mistaken for a user's
  // object, nor the other way round.
  lemma EncodingIsUnambiguous(v: Value, w: Value, env: Env)
    requires Encodable(v) && Restores(v, env) && Encodable(w) && Restores(w, env)
    requires Encode(v) == Encode(w)
    ensures RawOf(v) == RawOf(w) && Settle(v, env) == Settle(w, env)
  {
    hide *;
    ExtendedJsonRoundTrip(v, env);
    ExtendedJsonRoundTrip(w, env);
  }

  // --------------------------------------------------------------- any text

  // What an accepted value is, from the state it was read in.
  ghost predicate Sound(p: Parsed<Raw>, b: Budget, depth: nat) {
    RawOk(p.value) && Within(p.value, b, depth) && p.budget == After(p.value, b)
  }

  lemma NumberIsSound(t: Text, b: Budget, depth: nat)
    requires b.nodes <= NODES && b.bytes <= NUMBER_BYTES && depth <= DEPTH && b.nodes > 0
    requires ParseNumber(t, b).Ok?
    ensures Sound(ParseNumber(t, b).value, b.(nodes := b.nodes - 1), depth)
  {
    hide N.NumberLen, N.Analyze, N.CanonicalLength;
  }

  lemma ItemsAppend(items: seq<Raw>, r: Raw)
    ensures ItemNodes([r] + items) == RawNodes(r) + ItemNodes(items)
    ensures ItemHeight([r] + items) == Max(1 + RawHeight(r), ItemHeight(items))
    ensures ItemBytes([r] + items) == RawBytes(r) + ItemBytes(items)
    ensures ItemsOk([r] + items) <==> RawOk(r) && ItemsOk(items)
  {
    hide RawNodes, RawHeight, RawBytes, RawOk;
    assert ([r] + items)[1..] == items;
  }

  lemma MembersAppend(ms: Members<Raw>, m: Member<Raw>)
    ensures MemberNodes([m] + ms) == RawNodes(m.value) + MemberNodes(ms)
    ensures MemberHeight([m] + ms) == Max(1 + RawHeight(m.value), MemberHeight(ms))
    ensures MemberBytes([m] + ms) == RawBytes(m.value) + MemberBytes(ms)
    ensures MembersOk([m] + ms) <==> FitsString(m.key) && RawOk(m.value) && MembersOk(ms)
  {
    hide RawNodes, RawHeight, RawBytes, RawOk, FitsString;
    assert ([m] + ms)[1..] == ms;
  }

  lemma {:induction false} ItemsAreSound(t: Text, b: Budget, depth: nat, done: seq<Raw>) returns (items: seq<Raw>)
    requires b.nodes <= NODES && b.bytes <= NUMBER_BYTES && depth <= DEPTH
    requires ParseItems(t, b, depth, done).Ok?
    ensures var p := ParseItems(t, b, depth, done).value;
            && p.value == RArray(done + items) && p.budget == AfterItems(items, b)
            && ItemsOk(items) && ItemsWithin(items, b, depth)
    decreases |t|, 1
  {
    hide ParseValue, ParseMembers, RawOk, SkipSpace;
    var v := ParseValue(t, b, depth + 1).value;
    TextIsSound(t, b, depth + 1);
    var none: seq<Raw> := [];
    ItemsAppend(none, v.value);
    assert ItemsOk(none) && ItemNodes(none) == 0 && ItemHeight(none) == 0 && ItemBytes(none) == 0;
    var x := SkipSpace(v.rest);
    if StartsWith(x, RBRACKET) {
      items := [v.value];
      assert [v.value] + none == items;
    } else {
      var more := ItemsAreSound(SkipSpace(x[1..]), v.budget, depth, done + [v.value]);
      items := [v.value] + more;
      ItemsAppend(more, v.value);
      assert done + [v.value] + more == done + items;
    }
  }

  lemma FreshKeyDistinct(done: Members<Raw>, m: Member<Raw>)
    requires DistinctKeys(done) && !HasKey(done, m.key)
    ensures DistinctKeys(done + [m])
  {
  }

  lemma {:induction false} MembersAreSound(t: Text, b: Budget, depth: nat, done: Members<Raw>)
    returns (ms: Members<Raw>)
    requires b.nodes <= NODES && b.bytes <= NUMBER_BYTES && depth <= DEPTH && DistinctKeys(done)
    requires ParseMembers(t, b, depth, done).Ok?
    ensures var p := ParseMembers(t, b, depth, done).value;
            && p.value == RObject(done + ms) && p.budget == AfterMembers(ms, b)
            && DistinctKeys(done + ms) && MembersOk(ms) && MembersWithin(ms, b, depth)
    decreases |t|, 1
  {
    hide ParseValue, ParseItems, RawOk, SkipSpace, FitsString, DistinctKeys, HasKey, ParseString;
    StringFits(t);
    var key := ParseString(t).value;
    var u := SkipSpace(key.rest);
    var v := ParseValue(SkipSpace(u[1..]), b, depth + 1).value;
    TextIsSound(SkipSpace(u[1..]), b, depth + 1);
    var m := Member(key.value, v.value);
    FreshKeyDistinct(done, m);
    var none: Members<Raw> := [];
    MembersAppend(none, m);
    assert MembersOk(none) && MemberNodes(none) == 0 && MemberHeight(none) == 0 && MemberBytes(none) == 0;
    var x := SkipSpace(v.rest);
    if StartsWith(x, RBRACE) {
      ms := [m];
      assert [m] + none == ms;
    } else {
      var more := MembersAreSound(SkipSpace(x[1..]), v.budget, depth, done + [m]);
      ms := [m] + more;
      MembersAppend(more, m);
      assert done + [m] + more == done + ms;
    }
  }

  // Main result. Whatever text is parsed, its tree has accepted numbers, fitting strings and
  // distinct keys, stays within every limit, and is what the counters have counted.
  lemma {:induction false} TextIsSound(t: Text, b: Budget, depth: nat)
    requires b.nodes <= NODES && b.bytes <= NUMBER_BYTES
    requires ParseValue(t, b, depth).Ok?
    ensures Sound(ParseValue(t, b, depth).value, b, depth)
    decreases |t|, 0
  {
    hide ParseItems, ParseMembers, ParseNumber, ParseString, FitsString;
    var b' := b.(nodes := b.nodes + 1);
    if t[0] == LBRACE {
      var u := SkipSpace(t[1..]);
      if !StartsWith(u, RBRACE) {
        var ms := MembersAreSound(u, b', depth, []);
        assert [] + ms == ms;
      }
    } else if t[0] == LBRACKET {
      var u := SkipSpace(t[1..]);
      if !StartsWith(u, RBRACKET) {
        var items := ItemsAreSound(u, b', depth, []);
        assert [] + items == items;
      }
    } else if t[0] == QUOTE {
      StringFits(t);
    } else if t[0] == MINUS || IsDigit(t[0]) {
      NumberIsSound(t, b', depth);
    }
  }

  lemma StringFits(t: Text)
    requires StartsWith(t, QUOTE)
    ensures ParseString(t).Ok? ==> FitsString(ParseString(t).value.value)
  {
  }

  lemma DocumentIsSound(t: Text)
    requires ParseDocument(t).Ok?
    ensures RawOk(ParseDocument(t).value) && Within(ParseDocument(t).value, Budget(0, 0), 0)
  {
    hide ParseValue, RawOk, Utf8Len, SkipSpace, RawNodes, RawHeight, RawBytes;
    TextIsSound(SkipSpace(t), Budget(0, 0), 0);
  }

  // Printing what was parsed gives a text that parses to the same tree, when it fits.
  lemma PrintedFormIsStable(t: Text)
    requires ParseDocument(t).Ok? && Utf8Len(Print(ParseDocument(t).value)) <= INPUT_BYTES
    ensures ParseDocument(Print(ParseDocument(t).value)) == ParseDocument(t)
  {
    hide *;
    DocumentIsSound(t);
    DocumentRoundTrip(ParseDocument(t).value);
  }
}
