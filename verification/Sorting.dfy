/** Stable sorting by a comparison function, and uniqueness of sorted sequences. */
module Sorting {

  ghost predicate TotalPreorder<T(!new)>(leq: (T, T) -> bool) {
    && (forall x, y :: leq(x, y) || leq(y, x))
    && (forall x, y, z :: leq(x, y) && leq(y, z) ==> leq(x, z))
  }

  /** A total order that separates distinct values. */
  ghost predicate TotalOrder<T(!new)>(leq: (T, T) -> bool) {
    TotalPreorder(leq) && (forall x, y :: leq(x, y) && leq(y, x) ==> x == y)
  }

  ghost predicate Sorted<T>(s: seq<T>, leq: (T, T) -> bool) {
    forall i, j :: 0 <= i < j < |s| ==> leq(s[i], s[j])
  }

  /** Puts x before the first element it may precede. */
  function Insert<T>(x: T, s: seq<T>, leq: (T, T) -> bool): seq<T> {
    if s == [] then [x]
    else if leq(x, s[0]) then [x] + s
    else [s[0]] + Insert(x, s[1..], leq)
  }

  function Sort<T>(s: seq<T>, leq: (T, T) -> bool): seq<T> {
    if s == [] then [] else Insert(s[0], Sort(s[1..], leq), leq)
  }

  lemma SortSingle<T>(x: T, leq: (T, T) -> bool)
    ensures Sort([x], leq) == [x]
  {
    assert [x][1..] == [];
  }

  lemma {:induction false} InsertKeeps<T>(x: T, s: seq<T>, leq: (T, T) -> bool)
    ensures multiset(Insert(x, s, leq)) == multiset{x} + multiset(s)
    ensures |Insert(x, s, leq)| == |s| + 1
  {
    if s != [] && !leq(x, s[0]) {
      InsertKeeps(x, s[1..], leq);
      assert s == [s[0]] + s[1..];
    }
  }

  lemma {:induction false} InsertSorts<T(!new)>(x: T, s: seq<T>, leq: (T, T) -> bool)
    requires TotalPreorder(leq) && Sorted(s, leq)
    ensures Sorted(Insert(x, s, leq), leq)
  {
    if s != [] {
      if leq(x, s[0]) {
        assert forall i :: 0 <= i < |s| ==> leq(x, s[i]);
      } else {
        InsertSorts(x, s[1..], leq);
        var rest := Insert(x, s[1..], leq);
        InsertKeeps(x, s[1..], leq);
        forall i | 0 <= i < |rest|
          ensures leq(s[0], rest[i])
        {
          assert rest[i] in multiset(rest);
          assert rest[i] == x || rest[i] in s[1..];
        }
      }
    }
  }

  lemma {:induction false} SortKeeps<T>(s: seq<T>, leq: (T, T) -> bool)
    ensures multiset(Sort(s, leq)) == multiset(s)
    ensures |Sort(s, leq)| == |s|
  {
    if s != [] {
      SortKeeps(s[1..], leq);
      InsertKeeps(s[0], Sort(s[1..], leq), leq);
      assert s == [s[0]] + s[1..];
    }
  }

  lemma {:induction false} SortSorts<T(!new)>(s: seq<T>, leq: (T, T) -> bool)
    requires TotalPreorder(leq)
    ensures Sorted(Sort(s, leq), leq)
  {
    if s != [] {
      SortSorts(s[1..], leq);
      InsertSorts(s[0], Sort(s[1..], leq), leq);
    }
  }

  lemma SortedMinimum<T(!new)>(a: seq<T>, b: seq<T>, leq: (T, T) -> bool)
    requires TotalOrder(leq) && Sorted(a, leq) && multiset(a) == multiset(b)
    requires a != [] && b != []
    ensures leq(a[0], b[0])
  {
    assert b[0] in multiset(b);
    assert b[0] in multiset(a);
    assert b[0] in a;
  }

  lemma SortedHeads<T(!new)>(a: seq<T>, b: seq<T>, leq: (T, T) -> bool)
    requires TotalOrder(leq) && Sorted(a, leq) && Sorted(b, leq) && multiset(a) == multiset(b)
    requires a != [] && b != []
    ensures a[0] == b[0]
  {
    SortedMinimum(a, b, leq);
    SortedMinimum(b, a, leq);
  }

  lemma SortedTail<T>(a: seq<T>, leq: (T, T) -> bool)
    requires Sorted(a, leq) && a != []
    ensures Sorted(a[1..], leq) && multiset(a[1..]) == multiset(a) - multiset{a[0]}
  {
    assert a == [a[0]] + a[1..];
  }

  lemma SameBagSameSize<T>(a: seq<T>, b: seq<T>)
    requires multiset(a) == multiset(b)
    ensures |a| == |b|
  {
    assert |a| == |multiset(a)| && |b| == |multiset(b)|;
  }

  /** A bag has one sorted sequence. */
  lemma {:induction false} SortedUnique<T(!new)>(a: seq<T>, b: seq<T>, leq: (T, T) -> bool)
    requires TotalOrder(leq) && Sorted(a, leq) && Sorted(b, leq)
    requires multiset(a) == multiset(b)
    ensures a == b
    decreases |a|
  {
    hide TotalOrder, Sorted;
    SameBagSameSize(a, b);
    if a != [] {
      SortedHeads(a, b, leq);
      SortedTail(a, leq);
      SortedTail(b, leq);
      SortedUnique(a[1..], b[1..], leq);
      assert a == [a[0]] + a[1..] && b == [b[0]] + b[1..];
    }
  }

  /** Sorting forgets the order of its input and nothing else. */
  lemma SortCanonical<T(!new)>(a: seq<T>, b: seq<T>, leq: (T, T) -> bool)
    requires TotalOrder(leq)
    ensures Sort(a, leq) == Sort(b, leq) <==> multiset(a) == multiset(b)
  {
    SortKeeps(a, leq);
    SortKeeps(b, leq);
    if multiset(a) == multiset(b) {
      SortSorts(a, leq);
      SortSorts(b, leq);
      SortedUnique(Sort(a, leq), Sort(b, leq), leq);
    }
  }

  // ---- Two orders that agree ----

  ghost predicate Agree<T(!new)>(s: seq<T>, f: (T, T) -> bool, g: (T, T) -> bool) {
    forall x, y :: x in s && y in s ==> f(x, y) == g(x, y)
  }

  lemma {:induction false} InsertAgrees<T>(x: T, s: seq<T>, f: (T, T) -> bool, g: (T, T) -> bool)
    requires forall y :: y in s ==> f(x, y) == g(x, y)
    ensures Insert(x, s, f) == Insert(x, s, g)
  {
    if s != [] {
      assert s[0] in s;
      InsertAgrees(x, s[1..], f, g);
    }
  }

  /** Orders that agree on the elements sort alike. */
  lemma {:induction false} SortAgrees<T(!new)>(s: seq<T>, f: (T, T) -> bool, g: (T, T) -> bool)
    requires Agree(s, f, g)
    ensures Sort(s, f) == Sort(s, g)
  {
    if s != [] {
      SortAgrees(s[1..], f, g);
      SortKeeps(s[1..], f);
      forall y | y in Sort(s[1..], f)
        ensures f(s[0], y) == g(s[0], y)
      {
        assert y in multiset(s[1..]);
        assert y in s[1..];
      }
      InsertAgrees(s[0], Sort(s[1..], f), f, g);
    }
  }

  // ---- Stability ----

  predicate Tie<T>(x: T, y: T, leq: (T, T) -> bool) {
    leq(x, y) && leq(y, x)
  }

  /** The elements that tie with x, in order. */
  function Ties<T>(s: seq<T>, x: T, leq: (T, T) -> bool): seq<T> {
    if s == [] then [] else (if Tie(s[0], x, leq) then [s[0]] else []) + Ties(s[1..], x, leq)
  }

  lemma ApartTieApart<T(!new)>(e: T, y: T, x: T, leq: (T, T) -> bool)
    requires TotalPreorder(leq) && !leq(e, y)
    ensures !(Tie(e, x, leq) && Tie(y, x, leq))
  {
  }

  lemma {:induction false} InsertKeepsTies<T(!new)>(e: T, s: seq<T>, x: T, leq: (T, T) -> bool)
    requires TotalPreorder(leq)
    ensures Ties(Insert(e, s, leq), x, leq) == (if Tie(e, x, leq) then [e] else []) + Ties(s, x, leq)
  {
    hide TotalPreorder, Tie;
    if s == [] || leq(e, s[0]) {
      assert ([e] + s)[1..] == s;
    } else {
      var rest := Insert(e, s[1..], leq);
      InsertKeepsTies(e, s[1..], x, leq);
      assert ([s[0]] + rest)[1..] == rest;
      ApartTieApart(e, s[0], x, leq);
    }
  }

  /** Sorting keeps tied elements in their order. */
  lemma {:induction false} SortKeepsTies<T(!new)>(s: seq<T>, x: T, leq: (T, T) -> bool)
    requires TotalPreorder(leq)
    ensures Ties(Sort(s, leq), x, leq) == Ties(s, x, leq)
  {
    if s != [] {
      SortKeepsTies(s[1..], x, leq);
      InsertKeepsTies(s[0], Sort(s[1..], leq), x, leq);
    }
  }

  // ---- Duplicates ----

  lemma BagKeepsDistinct<T>(a: seq<T>, b: seq<T>)
    requires multiset(a) == multiset(b)
    requires forall i, j :: 0 <= i < j < |a| ==> a[i] != a[j]
    ensures forall i, j :: 0 <= i < j < |b| ==> b[i] != b[j]
  {
    forall i, j | 0 <= i < j < |b|
      ensures b[i] != b[j]
    {
      if b[i] == b[j] {
        TwiceInBag(b, i, j);
        OnceInBag(a, b[i]);
      }
    }
  }

  lemma TwiceInBag<T>(s: seq<T>, i: nat, j: nat)
    requires i < j < |s| && s[i] == s[j]
    ensures multiset(s)[s[i]] >= 2
  {
    assert s == s[..j] + ([s[j]] + s[j + 1..]);
    assert s[i] == s[..j][i];
    assert s[i] in multiset(s[..j]);
  }

  lemma {:induction false} OnceInBag<T>(s: seq<T>, x: T)
    requires forall i, j :: 0 <= i < j < |s| ==> s[i] != s[j]
    ensures multiset(s)[x] <= 1
    ensures x !in s ==> multiset(s)[x] == 0
  {
    if s != [] {
      var t, y := s[..|s| - 1], s[|s| - 1];
      OnceInBag(t, x);
      assert s == t + [y];
      assert y !in t;
    }
  }

  // ---- Mapping ----

  function Map<A, B>(f: A -> B, s: seq<A>): (r: seq<B>)
    ensures |r| == |s|
    ensures forall i :: 0 <= i < |s| ==> r[i] == f(s[i])
  {
    if s == [] then [] else [f(s[0])] + Map(f, s[1..])
  }

  function RemoveAt<A>(s: seq<A>, i: nat): (r: seq<A>)
    requires i < |s|
    ensures |r| == |s| - 1
    ensures forall k :: 0 <= k < i ==> r[k] == s[k]
    ensures forall k :: i <= k < |r| ==> r[k] == s[k + 1]
  {
    s[..i] + s[i + 1..]
  }

  lemma RemoveBag<A>(s: seq<A>, i: nat)
    requires i < |s|
    ensures multiset(s) == multiset{s[i]} + multiset(RemoveAt(s, i))
  {
    assert s == s[..i] + ([s[i]] + s[i + 1..]);
  }

  lemma MapRemove<A, B>(f: A -> B, s: seq<A>, i: nat)
    requires i < |s|
    ensures multiset(Map(f, s)) == multiset{f(s[i])} + multiset(Map(f, RemoveAt(s, i)))
  {
    hide Map, RemoveAt;
    RemoveBag(Map(f, s), i);
    assert Map(f, RemoveAt(s, i)) == RemoveAt(Map(f, s), i);
  }

  lemma MatchFirst<A>(a: seq<A>, b: seq<A>) returns (i: nat)
    requires a != [] && multiset(a) == multiset(b)
    ensures i < |b| && b[i] == a[0]
    ensures multiset(RemoveAt(a, 0)) == multiset(RemoveAt(b, i))
  {
    hide RemoveAt;
    assert a[0] in multiset(b);
    i :| 0 <= i < |b| && b[i] == a[0];
    RemoveBag(a, 0);
    RemoveBag(b, i);
    assert multiset(RemoveAt(a, 0)) == multiset(a) - multiset{a[0]};
    assert multiset(RemoveAt(b, i)) == multiset(b) - multiset{a[0]};
  }

  /** Mapping respects equality of bags. */
  lemma {:induction false} MapBag<A, B>(f: A -> B, a: seq<A>, b: seq<A>)
    requires multiset(a) == multiset(b)
    ensures multiset(Map(f, a)) == multiset(Map(f, b))
    decreases |a|
  {
    hide Map, RemoveAt;
    if a == [] {
      assert |b| == |multiset(b)|;
    } else {
      var i := MatchFirst(a, b);
      MapBag(f, RemoveAt(a, 0), RemoveAt(b, i));
      MapRemove(f, a, 0);
      MapRemove(f, b, i);
    }
  }

  /** The order that compares images under f. */
  function By<A, B>(f: A -> B, leq: (B, B) -> bool): (A, A) -> bool {
    (x, y) => leq(f(x), f(y))
  }

  lemma {:induction false} MapInsert<A, B>(f: A -> B, x: A, s: seq<A>, leq: (B, B) -> bool)
    ensures Map(f, Insert(x, s, By(f, leq))) == Insert(f(x), Map(f, s), leq)
  {
    if s != [] && !leq(f(x), f(s[0])) {
      MapInsert(f, x, s[1..], leq);
      var rest := Insert(x, s[1..], By(f, leq));
      assert ([s[0]] + rest)[1..] == rest;
    } else {
      assert ([x] + s)[1..] == s;
    }
  }

  /** Sorting by images and then mapping is mapping and then sorting. */
  lemma {:induction false} MapSort<A, B>(f: A -> B, s: seq<A>, leq: (B, B) -> bool)
    ensures Map(f, Sort(s, By(f, leq))) == Sort(Map(f, s), leq)
  {
    if s != [] {
      MapSort(f, s[1..], leq);
      MapInsert(f, s[0], Sort(s[1..], By(f, leq)), leq);
    }
  }
}
