/**
 Object members ordered by key, as Object.keys(value).sort(compareKeys) orders them:
 by code units.
 */
module JsonSort {
  import opened JsonText

  datatype Member<+T> = Member(key: Text, value: T)

  type Members<+T> = seq<Member<T>>

  predicate Less(a: Text, b: Text) {
    if b == [] then false
    else if a == [] then true
    else if a[0] != b[0] then a[0] < b[0]
    else Less(a[1..], b[1..])
  }

  function Insert<T>(m: Member<T>, ms: Members<T>): Members<T> {
    if ms == [] || !Less(ms[0].key, m.key) then [m] + ms else [ms[0]] + Insert(m, ms[1..])
  }

  function SortByKey<T>(ms: Members<T>): Members<T> {
    if ms == [] then [] else Insert(ms[0], SortByKey(ms[1..]))
  }

  ghost predicate DistinctKeys<T>(ms: Members<T>) {
    forall i, j :: 0 <= i < j < |ms| ==> ms[i].key != ms[j].key
  }

  ghost predicate Ordered<T>(ms: Members<T>) {
    forall i, j :: 0 <= i < j < |ms| ==> Less(ms[i].key, ms[j].key)
  }

  function MapMembers<T, U>(ms: Members<T>, f: T -> U): Members<U> {
    if ms == [] then [] else [Member(ms[0].key, f(ms[0].value))] + MapMembers(ms[1..], f)
  }

  lemma {:induction false} LessTotal(a: Text, b: Text)
    ensures a != b ==> Less(a, b) || Less(b, a)
    ensures !(Less(a, b) && Less(b, a)) && !Less(a, a)
  {
    if a != [] && b != [] && a[0] == b[0] {
      LessTotal(a[1..], b[1..]);
      assert a == [a[0]] + a[1..] && b == [b[0]] + b[1..];
    }
    if a != [] {
      LessTotal(a[1..], a[1..]);
    }
  }

  lemma {:induction false} LessTransitive(a: Text, b: Text, c: Text)
    requires Less(a, b) && Less(b, c)
    ensures Less(a, c)
  {
    if a != [] && a[0] == b[0] && b[0] == c[0] {
      LessTransitive(a[1..], b[1..], c[1..]);
    }
  }

  lemma {:induction false} InsertPermutes<T>(m: Member<T>, ms: Members<T>)
    ensures multiset(Insert(m, ms)) == multiset(ms) + multiset{m}
    ensures |Insert(m, ms)| == |ms| + 1
  {
    if ms != [] && Less(ms[0].key, m.key) {
      InsertPermutes(m, ms[1..]);
      assert ms == [ms[0]] + ms[1..];
    }
  }

  lemma {:induction false} SortPermutes<T>(ms: Members<T>)
    ensures multiset(SortByKey(ms)) == multiset(ms) && |SortByKey(ms)| == |ms|
  {
    if ms == [] {
    } else {
      SortPermutes(ms[1..]);
      InsertPermutes(ms[0], SortByKey(ms[1..]));
      assert ms == [ms[0]] + ms[1..];
    }
  }

  lemma SortedMember<T>(x: Member<T>, ms: Members<T>)
    ensures x in SortByKey(ms) <==> x in ms
  {
    SortPermutes(ms);
    assert x in SortByKey(ms) <==> x in multiset(SortByKey(ms));
    assert x in ms <==> x in multiset(ms);
  }

  lemma {:induction false} InsertOrdered<T>(m: Member<T>, ms: Members<T>)
    requires Ordered(ms) && forall x <- ms :: x.key != m.key
    ensures Ordered(Insert(m, ms))
  {
    if ms == [] {
    } else if !Less(ms[0].key, m.key) {
      LessTotal(ms[0].key, m.key);
      forall i | 0 <= i < |ms| ensures Less(m.key, ms[i].key) {
        if i > 0 {
          LessTransitive(m.key, ms[0].key, ms[i].key);
        }
      }
    } else {
      InsertOrdered(m, ms[1..]);
      InsertPermutes(m, ms[1..]);
      forall x | x in Insert(m, ms[1..]) ensures Less(ms[0].key, x.key) {
        assert x in multiset(Insert(m, ms[1..]));
      }
    }
  }

  // Sorting gives the one ordered arrangement of the members.
  lemma {:induction false} SortOrdered<T>(ms: Members<T>)
    requires DistinctKeys(ms)
    ensures Ordered(SortByKey(ms)) && DistinctKeys(SortByKey(ms))
  {
    if ms == [] {
    } else {
      SortOrdered(ms[1..]);
      SortPermutes(ms[1..]);
      forall x | x in SortByKey(ms[1..]) ensures x.key != ms[0].key {
        SortedMember(x, ms[1..]);
        var i :| 0 <= i < |ms[1..]| && ms[1..][i] == x;
        assert ms[1 + i] == x;
      }
      InsertOrdered(ms[0], SortByKey(ms[1..]));
      var sorted := SortByKey(ms);
      forall i, j | 0 <= i < j < |sorted| ensures sorted[i].key != sorted[j].key {
        LessTotal(sorted[i].key, sorted[i].key);
      }
    }
  }

  lemma {:induction false} InsertMap<T, U>(m: Member<T>, ms: Members<T>, f: T -> U)
    ensures MapMembers(Insert(m, ms), f) == Insert(Member(m.key, f(m.value)), MapMembers(ms, f))
  {
    if ms != [] && Less(ms[0].key, m.key) {
      InsertMap(m, ms[1..], f);
      assert Insert(m, ms)[1..] == Insert(m, ms[1..]);
    } else {
      assert ([m] + ms)[1..] == ms;
    }
  }

  // Sorting commutes with changing the member values.
  lemma {:induction false} SortMap<T, U>(ms: Members<T>, f: T -> U)
    ensures MapMembers(SortByKey(ms), f) == SortByKey(MapMembers(ms, f))
  {
    if ms == [] {
    } else {
      SortMap(ms[1..], f);
      InsertMap(ms[0], SortByKey(ms[1..]), f);
    }
  }

  lemma {:induction false} MapMembersAt<T, U>(ms: Members<T>, f: T -> U)
    ensures |MapMembers(ms, f)| == |ms|
    ensures forall i :: 0 <= i < |ms| ==> MapMembers(ms, f)[i] == Member(ms[i].key, f(ms[i].value))
  {
    if ms == [] {
    } else {
      MapMembersAt(ms[1..], f);
    }
  }
}
