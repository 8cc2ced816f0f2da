/** `sorted(...)`: the stable sort by any total order, and the order of strings by code points. */
module Ordering {
  import opened Common

  type Order<!T> = (T, T) -> bool

  ghost predicate Total<T(!new)>(leq: Order<T>) {
    && (forall a, b :: leq(a, b) || leq(b, a))
    && (forall a, b, c :: leq(a, b) && leq(b, c) ==> leq(a, c))
  }

  ghost predicate SortedBy<T>(xs: seq<T>, leq: Order<T>) {
    forall i, j :: 0 <= i < j < |xs| ==> leq(xs[i], xs[j])
  }

  // A new element goes after those that are not above it.
  function Insert<T>(xs: seq<T>, x: T, leq: Order<T>): seq<T> {
    if xs == [] || leq(xs[|xs| - 1], x) then xs + [x] else Insert(xs[..|xs| - 1], x, leq) + [xs[|xs| - 1]]
  }

  function Sorted<T>(xs: seq<T>, leq: Order<T>): seq<T> {
    if xs == [] then [] else Insert(Sorted(xs[..|xs| - 1], leq), xs[|xs| - 1], leq)
  }

  lemma {:induction false} InsertPermutes<T>(xs: seq<T>, x: T, leq: Order<T>)
    ensures |Insert(xs, x, leq)| == |xs| + 1 && multiset(Insert(xs, x, leq)) == multiset(xs) + multiset{x}
  {
    if xs != [] {
      assert xs == xs[..|xs| - 1] + [xs[|xs| - 1]];
      if !leq(xs[|xs| - 1], x) { InsertPermutes(xs[..|xs| - 1], x, leq); }
    }
  }

  lemma {:induction false} InsertSorts<T(!new)>(xs: seq<T>, x: T, leq: Order<T>)
    requires Total(leq) && SortedBy(xs, leq)
    ensures SortedBy(Insert(xs, x, leq), leq)
  {
    if xs != [] && !leq(xs[|xs| - 1], x) {
      var front, last := xs[..|xs| - 1], xs[|xs| - 1];
      InsertSorts(front, x, leq);
      InsertPermutes(front, x, leq);
      var r := Insert(front, x, leq);
      forall i | 0 <= i < |r| ensures leq(r[i], last) {
        assert r[i] in multiset(r);
        assert r[i] == x || r[i] in front;
      }
    }
  }

  /** A permutation in ascending order. */
  lemma {:induction false} SortedSorts<T(!new)>(xs: seq<T>, leq: Order<T>)
    requires Total(leq)
    ensures SortedBy(Sorted(xs, leq), leq)
    ensures |Sorted(xs, leq)| == |xs| && multiset(Sorted(xs, leq)) == multiset(xs)
  {
    if xs != [] {
      var front, last := xs[..|xs| - 1], xs[|xs| - 1];
      SortedSorts(front, leq);
      InsertSorts(Sorted(front, leq), last, leq);
      InsertPermutes(Sorted(front, leq), last, leq);
      assert xs == front + [last];
    }
  }

  lemma SortedKeeps<T(!new)>(xs: seq<T>, leq: Order<T>, x: T)
    requires Total(leq)
    ensures x in Sorted(xs, leq) <==> x in xs
  {
    SortedSorts(xs, leq);
    assert x in multiset(Sorted(xs, leq)) <==> x in multiset(xs);
  }

  // The elements that count the same as x, in their order.
  function Alike<T>(xs: seq<T>, leq: Order<T>, x: T): seq<T> {
    if xs == [] then []
    else
      var last := xs[|xs| - 1];
      Alike(xs[..|xs| - 1], leq, x) + if leq(x, last) && leq(last, x) then [last] else []
  }

  lemma {:induction false} InsertIsStable<T(!new)>(xs: seq<T>, y: T, leq: Order<T>, x: T)
    requires Total(leq)
    ensures Alike(Insert(xs, y, leq), leq, x) == Alike(xs + [y], leq, x)
  {
    assert (xs + [y])[..|xs|] == xs;
    if xs != [] && !leq(xs[|xs| - 1], y) {
      var front, last := xs[..|xs| - 1], xs[|xs| - 1];
      InsertIsStable(front, y, leq, x);
      assert (front + [y])[..|front|] == front;
      var r := Insert(front, y, leq) + [last];
      assert r[..|r| - 1] == Insert(front, y, leq);
    }
  }

  /** Elements that count the same keep their order. */
  lemma {:induction false} SortedIsStable<T(!new)>(xs: seq<T>, leq: Order<T>, x: T)
    requires Total(leq)
    ensures Alike(Sorted(xs, leq), leq, x) == Alike(xs, leq, x)
  {
    if xs != [] {
      var front, last := xs[..|xs| - 1], xs[|xs| - 1];
      SortedIsStable(front, leq, x);
      InsertIsStable(Sorted(front, leq), last, leq, x);
      assert (Sorted(front, leq) + [last])[..|Sorted(front, leq)|] == Sorted(front, leq);
    }
  }

  // ---------------------------------------------------------------------- strings

  predicate Leq(a: string, b: string) {
    a == [] || (b != [] && (a[0] < b[0] || (a[0] == b[0] && Leq(a[1..], b[1..]))))
  }

  // Up to i the two are the same, and there the first ends or has the lesser code point.
  predicate Precedes(a: string, b: string, i: nat) {
    i <= |a| && i <= |b| && a[..i] == b[..i] && (i == |a| || (i < |b| && a[i] < b[i]))
  }

  lemma {:induction false} LeqMeans(a: string, b: string)
    ensures Leq(a, b) <==> exists i: nat :: Precedes(a, b, i)
  {
    if a == [] {
      assert Precedes(a, b, 0);
    } else if b != [] {
      var a', b' := a[1..], b[1..];
      LeqMeans(a', b');
      if a[0] < b[0] {
        assert Precedes(a, b, 0);
      } else if Leq(a, b) {
        var i: nat :| Precedes(a', b', i);
        assert a[..i + 1] == [a[0]] + a'[..i] && b[..i + 1] == [b[0]] + b'[..i];
        assert Precedes(a, b, i + 1);
      }
      if i: nat :| Precedes(a, b, i) {
        if i > 0 {
          assert a[..i][0] == b[..i][0];
          assert a'[..i - 1] == a[..i][1..] && b'[..i - 1] == b[..i][1..];
          assert Precedes(a', b', i - 1);
        }
      }
    }
  }

  lemma {:induction false} LeqTotal(a: string, b: string)
    ensures Leq(a, b) || Leq(b, a)
  {
    if a != [] && b != [] { LeqTotal(a[1..], b[1..]); }
  }

  lemma {:induction false} LeqTransitive(a: string, b: string, c: string)
    requires Leq(a, b) && Leq(b, c)
    ensures Leq(a, c)
  {
    if a != [] && a[0] == b[0] && b[0] == c[0] { LeqTransitive(a[1..], b[1..], c[1..]); }
  }

  lemma {:induction false} LeqAntisymmetric(a: string, b: string)
    requires Leq(a, b) && Leq(b, a)
    ensures a == b
  {
    if a != [] {
      LeqAntisymmetric(a[1..], b[1..]);
      assert a == [a[0]] + a[1..] && b == [b[0]] + b[1..];
    }
  }

  // `sorted(..., key=...)` with a string as the key.
  function ByKey<T>(key: T -> string): Order<T> { (a: T, b: T) => Leq(key(a), key(b)) }

  lemma ByKeyIsTotal<T(!new)>(key: T -> string)
    ensures Total(ByKey(key))
  {
    var leq := ByKey(key);
    forall a, b ensures leq(a, b) || leq(b, a) { LeqTotal(key(a), key(b)); }
    forall a, b, c | leq(a, b) && leq(b, c) ensures leq(a, c) { LeqTransitive(key(a), key(b), key(c)); }
  }

  // ---------------------------------------------------------------------- sets of strings

  // What `sorted(s)` is for a set of strings: its members, each once, in ascending order.
  ghost predicate Listing(xs: seq<string>, s: set<string>) {
    Elems(xs) == s && NoDup(xs) && SortedBy(xs, Leq)
  }

  lemma LeqIsTotalOrder()
    ensures Total(Leq)
  {
    forall a, b ensures Leq(a, b) || Leq(b, a) { LeqTotal(a, b); }
    forall a, b, c | Leq(a, b) && Leq(b, c) ensures Leq(a, c) { LeqTransitive(a, b, c); }
  }

  lemma InsertLists(xs: seq<string>, s: set<string>, x: string)
    requires Listing(xs, s) && x !in s
    ensures Listing(Insert(xs, x, Leq), s + {x})
  {
    LeqIsTotalOrder();
    InsertSorts(xs, x, Leq);
    InsertPermutes(xs, x, Leq);
    var r := Insert(xs, x, Leq);
    forall y ensures y in r <==> y in xs || y == x { assert y in multiset(r) <==> y in multiset(xs) + multiset{x}; }
    forall y ensures multiset(r)[y] <= 1 { NoDupCount(xs, y); }
    OnceEach(r);
  }

  lemma OnceEach<T(!new)>(xs: seq<T>)
    requires forall x :: multiset(xs)[x] <= 1
    ensures NoDup(xs)
  {
    forall i, j | 0 <= i < j < |xs| ensures xs[i] != xs[j] {
      if xs[i] == xs[j] { RepeatedTwice(xs, i, j); }
    }
  }

  lemma RepeatedTwice<T>(xs: seq<T>, i: nat, j: nat)
    requires i < j < |xs| && xs[i] == xs[j]
    ensures multiset(xs)[xs[i]] >= 2
  {
    assert xs == xs[..j] + xs[j..];
    assert xs[..j][i] in multiset(xs[..j]) && xs[j..][0] in multiset(xs[j..]);
  }

  lemma {:induction false} ListingIsUnique(xs: seq<string>, ys: seq<string>, s: set<string>)
    requires Listing(xs, s) && Listing(ys, s)
    ensures xs == ys
    decreases |xs|
  {
    NoDupSize(xs);
    NoDupSize(ys);
    if xs != [] {
      var n := |xs| - 1;
      assert xs[n] in Elems(ys) && ys[n] in Elems(xs);
      LastIsLast(xs, s, ys[n]);
      LastIsLast(ys, s, xs[n]);
      LeqAntisymmetric(xs[n], ys[n]);
      FrontLists(xs, s);
      FrontLists(ys, s);
      ListingIsUnique(xs[..n], ys[..n], s - {xs[n]});
      assert xs == xs[..n] + [xs[n]] && ys == ys[..n] + [ys[n]];
    }
  }

  lemma LastIsLast(xs: seq<string>, s: set<string>, y: string)
    requires Listing(xs, s) && xs != [] && y in s
    ensures Leq(y, xs[|xs| - 1])
  {
    assert y in Elems(xs);
    var i :| 0 <= i < |xs| && xs[i] == y;
    LeqTotal(y, y);
  }

  lemma FrontLists(xs: seq<string>, s: set<string>)
    requires Listing(xs, s) && xs != []
    ensures Listing(xs[..|xs| - 1], s - {xs[|xs| - 1]})
  {
    var front, last := xs[..|xs| - 1], xs[|xs| - 1];
    assert xs == front + [last];
    forall y ensures y in front <==> y in s && y != last {
      assert y in Elems(xs) <==> y in s;
    }
  }

  lemma {:induction false} SomeListing(s: set<string>) returns (xs: seq<string>)
    ensures Listing(xs, s)
  {
    if x :| x in s {
      xs := SomeListing(s - {x});
      InsertLists(xs, s - {x}, x);
      xs := Insert(xs, x, Leq);
      assert s == s - {x} + {x};
    } else {
      xs := [];
    }
  }

  ghost function Listed(s: set<string>): (xs: seq<string>)
    ensures Listing(xs, s)
  {
    HasListing(s);
    var xs :| Listing(xs, s);
    xs
  }

  lemma HasListing(s: set<string>)
    ensures exists xs :: Listing(xs, s)
  {
    var xs := SomeListing(s);
  }

  /** `sorted` over a set: whatever the order in which its members are met, the result is the one list. */
  method SortSet(s: set<string>) returns (xs: seq<string>)
    ensures xs == Listed(s)
  {
    xs := [];
    var todo := s;
    while todo != {}
      invariant todo <= s && Listing(xs, s - todo)
      decreases todo
    {
      var x :| x in todo;
      InsertLists(xs, s - todo, x);
      xs := Insert(xs, x, Leq);
      assert s - (todo - {x}) == s - todo + {x};
      todo := todo - {x};
    }
    assert s - todo == s;
    ListingIsUnique(xs, Listed(s), s);
  }
}
