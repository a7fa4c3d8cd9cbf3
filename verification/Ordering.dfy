/** Text order and the stable sort the reference engines rely on. A stable sort is pinned down by
    two facts: its result is sorted, and it keeps every class of equal elements in arrival order. */
module Ordering {

  // ----- Preorders -----

  ghost predicate TotalPreorder<T(!new)>(leq: (T, T) -> bool) {
    && (forall x, y :: leq(x, y) || leq(y, x))
    && (forall x, y, z :: leq(x, y) && leq(y, z) ==> leq(x, z))
  }

  ghost predicate SortedBy<T>(xs: seq<T>, leq: (T, T) -> bool) {
    forall i, j :: 0 <= i < j < |xs| ==> leq(xs[i], xs[j])
  }

  /** Lexical order of strings by code point. */
  predicate TextLeq(a: string, b: string) {
    a == "" || (b != "" && (a[0] < b[0] || (a[0] == b[0] && TextLeq(a[1..], b[1..]))))
  }

  lemma {:induction false} TextLeqTotal(a: string, b: string)
    ensures TextLeq(a, b) || TextLeq(b, a)
    ensures TextLeq(a, b) && TextLeq(b, a) ==> a == b
  {
    if a != "" && b != "" {
      TextLeqTotal(a[1..], b[1..]);
      assert a == [a[0]] + a[1..] && b == [b[0]] + b[1..];
    }
  }

  lemma {:induction false} TextLeqTransitive(a: string, b: string, c: string)
    requires TextLeq(a, b) && TextLeq(b, c)
    ensures TextLeq(a, c)
  {
    if a != "" && a[0] == b[0] == c[0] {
      TextLeqTransitive(a[1..], b[1..], c[1..]);
    }
  }

  lemma TextLeqPreorder()
    ensures TotalPreorder(TextLeq)
  {
    forall x, y ensures TextLeq(x, y) || TextLeq(y, x) {
      TextLeqTotal(x, y);
    }
    forall x, y, z | TextLeq(x, y) && TextLeq(y, z) ensures TextLeq(x, z) {
      TextLeqTransitive(x, y, z);
    }
  }

  // ----- Stable insertion sort -----

  function Insert<T>(x: T, ys: seq<T>, leq: (T, T) -> bool): seq<T> {
    if ys == [] || leq(x, ys[0]) then [x] + ys else [ys[0]] + Insert(x, ys[1..], leq)
  }

  /** Earlier elements are inserted before later ones they equal, so arrival order breaks ties. */
  function Sort<T>(xs: seq<T>, leq: (T, T) -> bool): seq<T> {
    if xs == [] then [] else Insert(xs[0], Sort(xs[1..], leq), leq)
  }

  lemma {:induction false} InsertContents<T>(x: T, ys: seq<T>, leq: (T, T) -> bool)
    ensures multiset(Insert(x, ys, leq)) == multiset{x} + multiset(ys)
  {
    if ys == [] || leq(x, ys[0]) {
    } else {
      InsertContents(x, ys[1..], leq);
      assert ys == [ys[0]] + ys[1..];
    }
  }

  lemma {:induction false} SortContents<T>(xs: seq<T>, leq: (T, T) -> bool)
    ensures multiset(Sort(xs, leq)) == multiset(xs)
  {
    if xs != [] {
      SortContents(xs[1..], leq);
      InsertContents(xs[0], Sort(xs[1..], leq), leq);
      assert xs == [xs[0]] + xs[1..];
    }
  }

  lemma SortLength<T>(xs: seq<T>, leq: (T, T) -> bool)
    ensures |Sort(xs, leq)| == |xs|
  {
    SortContents(xs, leq);
    assert |multiset(Sort(xs, leq))| == |multiset(xs)|;
  }

  /** Ordered by `leq`, ties broken by `tie`. */
  predicate Then<T>(leq: (T, T) -> bool, tie: (T, T) -> bool, x: T, y: T) {
    leq(x, y) && (leq(y, x) ==> tie(x, y))
  }

  ghost predicate SortedThen<T>(xs: seq<T>, leq: (T, T) -> bool, tie: (T, T) -> bool) {
    forall i, j :: 0 <= i < j < |xs| ==> Then(leq, tie, xs[i], xs[j])
  }

  lemma {:induction false} InsertSortedThen<T(!new)>(x: T, ys: seq<T>, leq: (T, T) -> bool, tie: (T, T) -> bool)
    requires TotalPreorder(leq) && SortedThen(ys, leq, tie)
    requires forall y :: y in ys ==> tie(x, y)
    ensures SortedThen(Insert(x, ys, leq), leq, tie)
  {
    if ys == [] {
    } else if leq(x, ys[0]) {
      assert forall j :: 0 < j < |ys| ==> Then(leq, tie, ys[0], ys[j]);
      assert forall j :: 0 <= j < |ys| ==> leq(x, ys[j]) && ys[j] in ys;
    } else {
      var rest := Insert(x, ys[1..], leq);
      InsertSortedThen(x, ys[1..], leq, tie);
      InsertContents(x, ys[1..], leq);
      forall j | 0 <= j < |rest| ensures Then(leq, tie, ys[0], rest[j]) {
        assert rest[j] in multiset(rest);
      }
    }
  }

  /** Stability: a list in `tie` order comes out in `leq` order with ties still in `tie` order. */
  lemma {:induction false} SortIsStable<T(!new)>(xs: seq<T>, leq: (T, T) -> bool, tie: (T, T) -> bool)
    requires TotalPreorder(leq) && SortedBy(xs, tie)
    ensures SortedThen(Sort(xs, leq), leq, tie)
  {
    if xs != [] {
      var rest := Sort(xs[1..], leq);
      SortIsStable(xs[1..], leq, tie);
      SortContents(xs[1..], leq);
      forall y | y in rest ensures tie(xs[0], y) {
        assert y in multiset(rest);
      }
      InsertSortedThen(xs[0], rest, leq, tie);
    }
  }

  lemma SortSorts<T(!new)>(xs: seq<T>, leq: (T, T) -> bool)
    requires TotalPreorder(leq)
    ensures SortedBy(Sort(xs, leq), leq)
  {
    SortIsStable(xs, leq, (x, y) => true);
    assert forall i, j :: 0 <= i < j < |Sort(xs, leq)| ==>
      Then(leq, (x, y) => true, Sort(xs, leq)[i], Sort(xs, leq)[j]);
  }

  // ----- Classes of equal elements, and uniqueness -----

  predicate Equal<T>(leq: (T, T) -> bool, x: T, y: T) {
    leq(x, y) && leq(y, x)
  }

  /** The elements equal to `x`, in order. */
  ghost function Class<T>(xs: seq<T>, leq: (T, T) -> bool, x: T): seq<T> {
    if xs == [] then []
    else if Equal(leq, x, xs[0]) then [xs[0]] + Class(xs[1..], leq, x)
    else Class(xs[1..], leq, x)
  }

  lemma {:induction false} InsertKeepsClass<T(!new)>(y: T, ys: seq<T>, order: (T, T) -> bool, leq: (T, T) -> bool, x: T)
    requires forall a, b :: Equal(leq, x, a) && Equal(leq, x, b) ==> order(a, b)
    ensures Class(Insert(y, ys, order), leq, x) == Class([y] + ys, leq, x)
  {
    assert ([y] + ys)[1..] == ys;
    if ys != [] && !order(y, ys[0]) {
      InsertKeepsClass(y, ys[1..], order, leq, x);
      var inserted := Insert(y, ys, order);
      assert inserted[1..] == Insert(y, ys[1..], order);
      assert ([y] + ys[1..])[1..] == ys[1..];
    }
  }

  /** Sorting by an order that does not separate a class keeps that class in arrival order. */
  lemma {:induction false} SortKeepsClass<T(!new)>(xs: seq<T>, order: (T, T) -> bool, leq: (T, T) -> bool, x: T)
    requires forall a, b :: Equal(leq, x, a) && Equal(leq, x, b) ==> order(a, b)
    ensures Class(Sort(xs, order), leq, x) == Class(xs, leq, x)
  {
    if xs != [] {
      SortKeepsClass(xs[1..], order, leq, x);
      InsertKeepsClass(xs[0], Sort(xs[1..], order), order, leq, x);
      assert ([xs[0]] + Sort(xs[1..], order))[1..] == Sort(xs[1..], order);
    }
  }

  lemma {:induction false} ClassMember<T>(xs: seq<T>, leq: (T, T) -> bool, x: T, k: nat)
    requires k < |xs| && Equal(leq, x, xs[k])
    ensures Class(xs, leq, x) != []
  {
    if k > 0 {
      ClassMember(xs[1..], leq, x, k - 1);
    }
  }

  lemma {:induction false} ClassMembers<T>(xs: seq<T>, leq: (T, T) -> bool, x: T)
    ensures forall y :: y in Class(xs, leq, x) ==> y in xs && Equal(leq, x, y)
  {
    if xs != [] {
      ClassMembers(xs[1..], leq, x);
    }
  }

  ghost predicate SameClasses<T(!new)>(xs: seq<T>, ys: seq<T>, leq: (T, T) -> bool) {
    forall x :: Class(xs, leq, x) == Class(ys, leq, x)
  }

  lemma SortedHead<T(!new)>(xs: seq<T>, ys: seq<T>, leq: (T, T) -> bool)
    requires TotalPreorder(leq) && SortedBy(xs, leq) && SortedBy(ys, leq) && SameClasses(xs, ys, leq)
    requires xs != []
    ensures ys != [] && xs[0] == ys[0]
  {
    var x := xs[0];
    ClassMember(xs, leq, x, 0);
    ClassMembers(ys, leq, x);
    assert Class(ys, leq, x)[0] in ys;
    var y := ys[0];
    ClassMember(ys, leq, y, 0);
    ClassMembers(xs, leq, y);
    assert Class(xs, leq, y)[0] in xs;
    assert Equal(leq, x, y);
    assert Class(xs, leq, x)[0] == x && Class(ys, leq, x)[0] == y;
  }

  /** Sorted lists with the same classes are the same list. */
  lemma {:induction false} StableSortUnique<T(!new)>(xs: seq<T>, ys: seq<T>, leq: (T, T) -> bool)
    requires TotalPreorder(leq) && SortedBy(xs, leq) && SortedBy(ys, leq) && SameClasses(xs, ys, leq)
    ensures xs == ys
    decreases |xs|
  {
    if xs == [] {
      assert ys != [] ==> Class(xs, leq, ys[0]) == [] != Class(ys, leq, ys[0]);
    } else {
      SortedHead(xs, ys, leq);
      forall x ensures Class(xs[1..], leq, x) == Class(ys[1..], leq, x) {
        assert Class(xs, leq, x) == Class(ys, leq, x);
        if Equal(leq, x, xs[0]) {
          assert Class(xs[1..], leq, x) == Class(xs, leq, x)[1..];
          assert Class(ys[1..], leq, x) == Class(ys, leq, x)[1..];
        }
      }
      StableSortUnique(xs[1..], ys[1..], leq);
      assert xs == [xs[0]] + xs[1..] && ys == [ys[0]] + ys[1..];
    }
  }

  // ----- Several keys -----

  /** Lexicographic order over a list of orders, first one most significant. */
  predicate LexLeq<T>(orders: seq<(T, T) -> bool>, x: T, y: T) {
    if orders == [] then true
    else Then(orders[0], (a, b) => LexLeq(orders[1..], a, b), x, y)
  }

  function Lex<T>(orders: seq<(T, T) -> bool>): (T, T) -> bool {
    (x: T, y: T) => LexLeq(orders, x, y)
  }

  ghost predicate AllPreorders<T(!new)>(orders: seq<(T, T) -> bool>) {
    forall i :: 0 <= i < |orders| ==> TotalPreorder(orders[i])
  }

  lemma {:induction false} LexPreorder<T(!new)>(orders: seq<(T, T) -> bool>)
    requires AllPreorders(orders)
    ensures TotalPreorder(Lex(orders))
  {
    if orders != [] {
      var first, rest := orders[0], Lex(orders[1..]);
      LexPreorder(orders[1..]);
      assert TotalPreorder(first);
      forall x, y ensures Lex(orders)(x, y) || Lex(orders)(y, x) {
        assert first(x, y) || first(y, x);
        assert rest(x, y) || rest(y, x);
      }
      forall x, y, z | Lex(orders)(x, y) && Lex(orders)(y, z) ensures Lex(orders)(x, z) {
        assert first(x, y) && first(y, z);
        assert first(x, z);
        if first(z, x) {
          assert first(y, x) && first(z, y);
          assert rest(x, y) && rest(y, z);
          assert rest(x, z);
        }
      }
    }
  }

  /** One stable pass per order, the last order first. */
  function Passes<T>(xs: seq<T>, orders: seq<(T, T) -> bool>): seq<T> {
    if orders == [] then xs else Sort(Passes(xs, orders[1..]), orders[0])
  }

  lemma {:induction false} PassesSorted<T(!new)>(xs: seq<T>, orders: seq<(T, T) -> bool>)
    requires AllPreorders(orders)
    ensures SortedBy(Passes(xs, orders), Lex(orders))
  {
    if orders != [] {
      var inner, rest := Passes(xs, orders[1..]), Lex(orders[1..]);
      PassesSorted(xs, orders[1..]);
      SortIsStable(inner, orders[0], rest);
      var out := Sort(inner, orders[0]);
      forall i, j | 0 <= i < j < |out| ensures Lex(orders)(out[i], out[j]) {
        assert Then(orders[0], rest, out[i], out[j]);
      }
    }
  }

  lemma {:induction false} PassesKeepClass<T(!new)>(xs: seq<T>, orders: seq<(T, T) -> bool>, leq: (T, T) -> bool, x: T)
    requires forall a, b :: Equal(leq, x, a) && Equal(leq, x, b) ==> LexLeq(orders, a, b)
    ensures Class(Passes(xs, orders), leq, x) == Class(xs, leq, x)
  {
    if orders != [] {
      forall a, b | Equal(leq, x, a) && Equal(leq, x, b)
        ensures orders[0](a, b) && LexLeq(orders[1..], a, b)
      {
        assert LexLeq(orders, a, b) && LexLeq(orders, b, a);
      }
      PassesKeepClass(xs, orders[1..], leq, x);
      SortKeepsClass(Passes(xs, orders[1..]), orders[0], leq, x);
    }
  }

  lemma ClassIsLexClass<T(!new)>(leq: (T, T) -> bool, x: T)
    requires TotalPreorder(leq)
    ensures forall a, b :: Equal(leq, x, a) && Equal(leq, x, b) ==> leq(a, b)
  {
  }

  /** Sorting pass by pass, last key first, is one stable sort by all keys at once. */
  lemma PassesAreOneSort<T(!new)>(xs: seq<T>, orders: seq<(T, T) -> bool>)
    requires AllPreorders(orders)
    ensures Passes(xs, orders) == Sort(xs, Lex(orders))
  {
    var leq := Lex(orders);
    LexPreorder(orders);
    PassesSorted(xs, orders);
    SortSorts(xs, leq);
    forall x ensures Class(Passes(xs, orders), leq, x) == Class(Sort(xs, leq), leq, x) {
      ClassIsLexClass(leq, x);
      PassesKeepClass(xs, orders, leq, x);
      SortKeepsClass(xs, leq, leq, x);
    }
    StableSortUnique(Passes(xs, orders), Sort(xs, leq), leq);
  }

  // ----- Sorting through a projection -----

  ghost function Map<S, T>(f: S -> T, xs: seq<S>): seq<T> {
    if xs == [] then [] else [f(xs[0])] + Map(f, xs[1..])
  }

  lemma {:induction false} MapAt<S, T>(f: S -> T, xs: seq<S>)
    ensures |Map(f, xs)| == |xs| && forall i :: 0 <= i < |xs| ==> Map(f, xs)[i] == f(xs[i])
  {
    if xs != [] {
      MapAt(f, xs[1..]);
    }
  }

  lemma {:induction false} InsertMap<S, T>(f: S -> T, x: S, ys: seq<S>, order: (S, S) -> bool, leq: (T, T) -> bool)
    requires forall a, b :: a == x && b in ys ==> order(a, b) == leq(f(a), f(b))
    ensures Insert(f(x), Map(f, ys), leq) == Map(f, Insert(x, ys, order))
  {
    var inserted := Insert(x, ys, order);
    if ys == [] || order(x, ys[0]) {
      assert inserted[1..] == ys;
    } else {
      assert Map(f, ys)[1..] == Map(f, ys[1..]);
      assert inserted[1..] == Insert(x, ys[1..], order);
      InsertMap(f, x, ys[1..], order, leq);
    }
  }

  /** Sorting values is sorting what they were projected from. */
  lemma {:induction false} SortMap<S, T>(f: S -> T, xs: seq<S>, order: (S, S) -> bool, leq: (T, T) -> bool)
    requires forall a, b :: a in xs && b in xs ==> order(a, b) == leq(f(a), f(b))
    ensures Sort(Map(f, xs), leq) == Map(f, Sort(xs, order))
  {
    if xs != [] {
      assert Map(f, xs)[1..] == Map(f, xs[1..]);
      SortMap(f, xs[1..], order, leq);
      SortContents(xs[1..], order);
      assert forall b :: b in Sort(xs[1..], order) ==> b in multiset(xs[1..]);
      InsertMap(f, xs[0], Sort(xs[1..], order), order, leq);
    }
  }

  // ----- Lists without repetition -----

  ghost predicate Distinct<T>(xs: seq<T>) {
    forall i, j :: 0 <= i < j < |xs| ==> xs[i] != xs[j]
  }

  lemma DistinctPermutation<T>(xs: seq<T>, ys: seq<T>)
    requires multiset(xs) == multiset(ys)
    requires Distinct(xs)
    ensures Distinct(ys)
    ensures forall x :: x in ys <==> x in xs
  {
    forall x ensures x in ys <==> x in xs {
      assert x in ys <==> x in multiset(ys);
      assert x in xs <==> x in multiset(xs);
    }
    forall i, j | 0 <= i < j < |ys| ensures ys[i] != ys[j] {
      AtMostOnce(xs, ys[i]);
      CountsTwice(ys, i, j);
    }
  }

  lemma CountsTwice<T>(xs: seq<T>, i: nat, j: nat)
    requires i < j < |xs|
    ensures xs[i] == xs[j] ==> multiset(xs)[xs[i]] >= 2
  {
    assert xs == xs[..i] + [xs[i]] + xs[i + 1..j] + [xs[j]] + xs[j + 1..];
  }

  lemma {:induction false} AtMostOnce<T>(xs: seq<T>, x: T)
    requires Distinct(xs)
    ensures multiset(xs)[x] <= 1
  {
    if xs != [] {
      AtMostOnce(xs[1..], x);
      assert xs == [xs[0]] + xs[1..];
      if xs[0] == x {
        assert x !in xs[1..];
        assert x !in multiset(xs[1..]);
      }
    }
  }

  /** Lists without repetition that hold the same elements are permutations of each other. */
  lemma SameMembersPermute<T>(xs: seq<T>, ys: seq<T>)
    requires Distinct(xs) && Distinct(ys)
    requires forall x :: x in xs <==> x in ys
    ensures multiset(xs) == multiset(ys)
  {
    forall x ensures multiset(xs)[x] == multiset(ys)[x] {
      AtMostOnce(xs, x);
      AtMostOnce(ys, x);
      assert x in xs <==> x in multiset(xs);
      assert x in ys <==> x in multiset(ys);
    }
  }

  lemma SortedHeads<T>(xs: seq<T>, ys: seq<T>, leq: (T, T) -> bool)
    requires SortedBy(xs, leq) && SortedBy(ys, leq) && multiset(xs) == multiset(ys) && xs != []
    requires forall a, b :: a in xs && b in xs && leq(a, b) && leq(b, a) ==> a == b
    ensures ys != [] && xs[0] == ys[0]
  {
    assert xs[0] in multiset(ys);
    var k :| 0 <= k < |ys| && ys[k] == xs[0];
    assert ys[0] in multiset(xs);
    var l :| 0 <= l < |xs| && xs[l] == ys[0];
  }

  lemma RemoveAt<T>(xs: seq<T>, k: nat)
    requires k < |xs|
    ensures multiset(xs[..k] + xs[k + 1..]) == multiset(xs) - multiset{xs[k]}
  {
    assert xs == xs[..k] + [xs[k]] + xs[k + 1..];
  }

  /** An element before the last, taken out: the last one stays the last. */
  lemma RemoveThenLast<T>(xs: seq<T>, k: nat)
    requires k < |xs| - 1
    ensures
      var n, rest := |xs| - 1, xs[..k] + xs[k + 1..];
      rest[..|rest| - 1] == xs[..n][..k] + xs[..n][k + 1..] && rest[|rest| - 1] == xs[n]
  {
  }

  /** A permutation holds the last element too, and stays one without it. */
  lemma PartnerOfLast<T>(xs: seq<T>, ys: seq<T>) returns (k: nat)
    requires multiset(xs) == multiset(ys) && xs != []
    ensures k < |ys| && ys[k] == xs[|xs| - 1]
    ensures multiset(xs[..|xs| - 1]) == multiset(ys[..k] + ys[k + 1..])
  {
    var n := |xs| - 1;
    assert xs[n] in multiset(ys);
    k :| 0 <= k < |ys| && ys[k] == xs[n];
    RemoveAt(xs, n);
    RemoveAt(ys, k);
    assert xs[..n] + xs[n + 1..] == xs[..n];
  }

  lemma MultisetTail<T>(xs: seq<T>)
    requires xs != []
    ensures multiset(xs[1..]) == multiset(xs) - multiset{xs[0]}
  {
    assert xs == [xs[0]] + xs[1..];
  }

  /** Sorted permutations agree when the order separates the elements. */
  lemma {:induction false} SortedPermutationUnique<T>(xs: seq<T>, ys: seq<T>, leq: (T, T) -> bool)
    requires SortedBy(xs, leq) && SortedBy(ys, leq) && multiset(xs) == multiset(ys)
    requires forall a, b :: a in xs && b in xs && leq(a, b) && leq(b, a) ==> a == b
    ensures xs == ys
    decreases |xs|
  {
    if xs == [] {
      assert |multiset(ys)| == 0;
    } else {
      SortedHeads(xs, ys, leq);
      MultisetTail(xs);
      MultisetTail(ys);
      SortedPermutationUnique(xs[1..], ys[1..], leq);
      assert xs == [xs[0]] + xs[1..] && ys == [ys[0]] + ys[1..];
    }
  }
}
