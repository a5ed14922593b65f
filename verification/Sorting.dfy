/** Go's library sorts, by their contract: an ordered permutation. */
module Sorting {
  import opened Strings

  type Order<!T> = (T, T) -> bool

  ghost predicate Total<T(!new)>(leq: Order<T>) {
    && (forall x, y :: leq(x, y) || leq(y, x))
    && (forall x, y, z :: leq(x, y) && leq(y, z) ==> leq(x, z))
  }

  ghost predicate Ordered<T>(s: seq<T>, leq: Order<T>) {
    forall i, j :: 0 <= i < j < |s| ==> leq(s[i], s[j])
  }

  function Insert<T>(x: T, s: seq<T>, leq: Order<T>): seq<T> {
    if s == [] then [x]
    else if leq(x, s[0]) then [x] + s
    else [s[0]] + Insert(x, s[1..], leq)
  }

  function Sort<T>(s: seq<T>, leq: Order<T>): (r: seq<T>) {
    if s == [] then [] else Insert(s[0], Sort(s[1..], leq), leq)
  }

  lemma {:induction false} InsertKeeps<T>(x: T, s: seq<T>, leq: Order<T>)
    ensures multiset(Insert(x, s, leq)) == multiset{x} + multiset(s)
  {
    if s != [] {
      assert s == [s[0]] + s[1..];
      if !leq(x, s[0]) {
        InsertKeeps(x, s[1..], leq);
      }
    }
  }

  lemma {:induction false} InsertOrders<T(!new)>(x: T, s: seq<T>, leq: Order<T>)
    requires Total(leq) && Ordered(s, leq)
    ensures Ordered(Insert(x, s, leq), leq)
  {
    if s != [] && !leq(x, s[0]) {
      var rest := Insert(x, s[1..], leq);
      InsertOrders(x, s[1..], leq);
      InsertKeeps(x, s[1..], leq);
      forall i | 0 <= i < |rest| ensures leq(s[0], rest[i]) {
        assert rest[i] in multiset(rest);
        assert rest[i] == x || rest[i] in s[1..];
      }
    }
  }

  lemma {:induction false} SortSorts<T(!new)>(s: seq<T>, leq: Order<T>)
    requires Total(leq)
    ensures Ordered(Sort(s, leq), leq) && multiset(Sort(s, leq)) == multiset(s) && |Sort(s, leq)| == |s|
    ensures forall x :: x in Sort(s, leq) <==> x in s
  {
    if s != [] {
      SortSorts(s[1..], leq);
      InsertOrders(s[0], Sort(s[1..], leq), leq);
      InsertKeeps(s[0], Sort(s[1..], leq), leq);
      assert s == [s[0]] + s[1..];
    }
    SameElements(Sort(s, leq), s);
  }

  lemma {:induction false} SameElements<T>(a: seq<T>, b: seq<T>)
    requires multiset(a) == multiset(b)
    ensures |a| == |b| && forall x :: x in a <==> x in b
  {
    assert |a| == |multiset(a)| && |b| == |multiset(b)|;
    forall x ensures x in a <==> x in b {
      assert x in a <==> x in multiset(a);
      assert x in b <==> x in multiset(b);
    }
  }

  /** No two different elements are tied. */
  ghost predicate Strict<T>(s: seq<T>, leq: Order<T>) {
    forall x <- s, y <- s :: leq(x, y) && leq(y, x) ==> x == y
  }

  lemma {:induction false} StrictTail<T(!new)>(s: seq<T>, leq: Order<T>)
    requires s != [] && Strict(s, leq)
    ensures Strict(s[1..], leq)
  {
    forall x | x in s[1..] ensures x in s {}
  }

  lemma {:induction false} TailIsOrdered<T>(s: seq<T>, leq: Order<T>)
    requires s != [] && Ordered(s, leq)
    ensures Ordered(s[1..], leq) && multiset(s[1..]) == multiset(s) - multiset{s[0]}
  {
    assert s == [s[0]] + s[1..];
  }

  lemma {:induction false} FirstsAreEqual<T(!new)>(a: seq<T>, b: seq<T>, leq: Order<T>)
    requires Total(leq) && Ordered(a, leq) && Ordered(b, leq) && multiset(a) == multiset(b) && Strict(a, leq) && a != []
    ensures b != [] && a[0] == b[0]
  {
    SameElements(a, b);
    assert a[0] in b && b[0] in a;
    var i :| 0 <= i < |b| && b[i] == a[0];
    var j :| 0 <= j < |a| && a[j] == b[0];
    assert leq(a[0], b[0]) && leq(b[0], a[0]);
  }

  lemma {:induction false} TailsAgree<T(!new)>(a: seq<T>, b: seq<T>, leq: Order<T>)
    requires Ordered(a, leq) && Ordered(b, leq) && Strict(a, leq) && multiset(a) == multiset(b)
    requires a != [] && b != [] && a[0] == b[0]
    ensures Ordered(a[1..], leq) && Ordered(b[1..], leq) && Strict(a[1..], leq)
    ensures multiset(a[1..]) == multiset(b[1..])
  {
    hide *;
    TailIsOrdered(a, leq);
    TailIsOrdered(b, leq);
    StrictTail(a, leq);
  }

  /** Without ties there is one ordered permutation only, whatever algorithm finds it. */
  lemma {:induction false} OrderedIsUnique<T(!new)>(a: seq<T>, b: seq<T>, leq: Order<T>)
    requires Total(leq) && Ordered(a, leq) && Ordered(b, leq) && multiset(a) == multiset(b) && Strict(a, leq)
    ensures a == b
  {
    hide *;
    SameElements(a, b);
    if a != [] {
      FirstsAreEqual(a, b, leq);
      TailsAgree(a, b, leq);
      OrderedIsUnique(a[1..], b[1..], leq);
      assert a == [a[0]] + a[1..] && b == [b[0]] + b[1..];
    }
  }

  lemma {:induction false} SortIgnoresOrder<T(!new)>(a: seq<T>, b: seq<T>, leq: Order<T>)
    requires Total(leq) && multiset(a) == multiset(b) && Strict(a, leq)
    ensures Sort(a, leq) == Sort(b, leq)
  {
    SortSorts(a, leq);
    SortSorts(b, leq);
    OrderedIsUnique(Sort(a, leq), Sort(b, leq), leq);
  }

  // ----- by string keys -----

  /** Go's order of strings. */
  function StringOrder(): Order<string> {
    (a: string, b: string) => !Less(b, a)
  }

  lemma {:induction false} StringOrderIsTotal()
    ensures Total(StringOrder()) && forall a, b :: StringOrder()(a, b) && StringOrder()(b, a) ==> a == b
  {
    forall a: string, b: string ensures StringOrder()(a, b) || StringOrder()(b, a)
      ensures StringOrder()(a, b) && StringOrder()(b, a) ==> a == b {
      LessIsStrictOrder(a, b);
    }
    forall a: string, b: string, c: string | StringOrder()(a, b) && StringOrder()(b, c) ensures StringOrder()(a, c) {
      LessIsStrictOrder(a, b);
      LessIsStrictOrder(b, c);
      LessIsStrictOrder(a, c);
      if Less(c, a) {
        if a != b {
          LessIsTransitive(c, a, b);
        }
        LessIsStrictOrder(c, b);
      }
    }
  }

  function ByKey<T>(key: T -> string): Order<T> {
    (a: T, b: T) => StringOrder()(key(a), key(b))
  }

  ghost predicate UniqueKeys<T>(s: seq<T>, key: T -> string) {
    forall i, j :: 0 <= i < j < |s| ==> key(s[i]) != key(s[j])
  }

  lemma {:induction false} ByKeyIsTotal<T(!new)>(key: T -> string)
    ensures Total(ByKey(key))
  {
    StringOrderIsTotal();
    var leq := ByKey(key);
    forall x: T, y: T ensures leq(x, y) || leq(y, x) {
      assert StringOrder()(key(x), key(y)) || StringOrder()(key(y), key(x));
    }
    forall x: T, y: T, z: T | leq(x, y) && leq(y, z) ensures leq(x, z) {
      assert StringOrder()(key(x), key(y)) && StringOrder()(key(y), key(z));
    }
  }

  lemma {:induction false} UniqueKeysAreStrict<T(!new)>(s: seq<T>, key: T -> string)
    requires UniqueKeys(s, key)
    ensures Strict(s, ByKey(key))
  {
    StringOrderIsTotal();
    forall x, y | x in s && y in s && ByKey(key)(x, y) && ByKey(key)(y, x) ensures x == y {
      assert key(x) == key(y);
    }
  }

  lemma {:induction false} UniqueTail<T>(x: T, s: seq<T>, key: T -> string)
    ensures UniqueKeys([x] + s, key) <==> UniqueKeys(s, key) && forall y <- s :: key(y) != key(x)
  {
    var all := [x] + s;
    assert all[1..] == s;
    if UniqueKeys(all, key) {
      forall i, j | 0 <= i < j < |s| ensures key(s[i]) != key(s[j]) {
        assert s[i] == all[i + 1] && s[j] == all[j + 1];
      }
      forall y | y in s ensures key(y) != key(x) {
        var i :| 0 <= i < |s| && s[i] == y;
        assert all[0] == x && all[i + 1] == y;
      }
    }
    if UniqueKeys(s, key) && forall y <- s :: key(y) != key(x) {
      forall i, j | 0 <= i < j < |all| ensures key(all[i]) != key(all[j]) {
        assert all[j] == s[j - 1] && s[j - 1] in s;
        assert i > 0 ==> all[i] == s[i - 1];
      }
    }
  }

  lemma {:induction false} InsertKeepsUniqueKeys<T>(x: T, s: seq<T>, leq: Order<T>, key: T -> string)
    requires UniqueKeys([x] + s, key)
    ensures UniqueKeys(Insert(x, s, leq), key)
  {
    if s != [] && !leq(x, s[0]) {
      UniqueTail(x, s, key);
      assert s == [s[0]] + s[1..];
      UniqueTail(s[0], s[1..], key);
      UniqueTail(x, s[1..], key);
      InsertKeepsUniqueKeys(x, s[1..], leq, key);
      InsertKeeps(x, s[1..], leq);
      var rest := Insert(x, s[1..], leq);
      forall y | y in rest ensures key(y) != key(s[0]) {
        assert y in multiset(rest);
        assert y == x || y in s[1..];
        assert s[0] in s;
      }
      UniqueTail(s[0], rest, key);
    }
  }

  lemma {:induction false} SortKeepsUniqueKeys<T(!new)>(s: seq<T>, leq: Order<T>, key: T -> string)
    requires UniqueKeys(s, key) && Total(leq)
    ensures UniqueKeys(Sort(s, leq), key)
  {
    if s != [] {
      assert s == [s[0]] + s[1..];
      UniqueTail(s[0], s[1..], key);
      SortKeepsUniqueKeys(s[1..], leq, key);
      SortSorts(s[1..], leq);
      UniqueTail(s[0], Sort(s[1..], leq), key);
      InsertKeepsUniqueKeys(s[0], Sort(s[1..], leq), leq, key);
    }
  }

  lemma {:induction false} CountOnce<T>(s: seq<T>, key: T -> string, x: T)
    requires UniqueKeys(s, key)
    ensures multiset(s)[x] == if x in s then 1 else 0
  {
    if s != [] {
      assert s == [s[0]] + s[1..];
      UniqueTail(s[0], s[1..], key);
      CountOnce(s[1..], key, x);
    }
  }

  /** With unique keys the sorted list depends on the set of elements only. */
  lemma {:induction false} SortIsOfTheSet<T(!new)>(a: seq<T>, b: seq<T>, key: T -> string)
    requires UniqueKeys(a, key) && UniqueKeys(b, key) && forall x :: x in a <==> x in b
    ensures Sort(a, ByKey(key)) == Sort(b, ByKey(key)) && |a| == |b|
  {
    forall x ensures multiset(a)[x] == multiset(b)[x] {
      CountOnce(a, key, x);
      CountOnce(b, key, x);
    }
    assert multiset(a) == multiset(b);
    SameElements(a, b);
    ByKeyIsTotal(key);
    UniqueKeysAreStrict(a, key);
    SortIgnoresOrder(a, b, ByKey(key));
  }
}
