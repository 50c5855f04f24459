/** Sequence vocabulary shared by the other modules: filtering, distinctness, and the stable
    sort that stands for ORDER BY. */
module Prelude {

  datatype Option<+T> = None | Some(value: T)

  function Filter<T>(keep: T -> bool, xs: seq<T>): (ys: seq<T>)
    ensures |ys| <= |xs|
  {
    if xs == [] then []
    else if keep(xs[0]) then [xs[0]] + Filter(keep, xs[1..])
    else Filter(keep, xs[1..])
  }

  lemma {:induction false} FilterMembers<T>(keep: T -> bool, xs: seq<T>)
    ensures forall y | y in Filter(keep, xs) :: y in xs && keep(y)
    ensures forall x | x in xs && keep(x) :: x in Filter(keep, xs)
  {
    if xs != [] {
      FilterMembers(keep, xs[1..]);
      forall y | y in Filter(keep, xs) ensures y in xs && keep(y) {
        assert y == xs[0] || y in Filter(keep, xs[1..]);
      }
      forall x | x in xs && keep(x) ensures x in Filter(keep, xs) {
        assert x == xs[0] || x in xs[1..];
      }
    }
  }

  function Map<A, B>(f: A -> B, xs: seq<A>): (ys: seq<B>)
    ensures |ys| == |xs|
    ensures forall i :: 0 <= i < |xs| ==> ys[i] == f(xs[i])
  {
    seq(|xs|, i requires 0 <= i < |xs| => f(xs[i]))
  }

  ghost predicate Distinct<T>(xs: seq<T>) {
    forall i, j :: 0 <= i < j < |xs| ==> xs[i] != xs[j]
  }

  lemma {:induction false} FilterAppend<T>(keep: T -> bool, xs: seq<T>, ys: seq<T>)
    ensures Filter(keep, xs + ys) == Filter(keep, xs) + Filter(keep, ys)
  {
    if xs == [] {
      assert xs + ys == ys;
    } else {
      assert (xs + ys)[1..] == xs[1..] + ys;
      FilterAppend(keep, xs[1..], ys);
    }
  }

  lemma {:induction false} FilterStep<T>(keep: T -> bool, xs: seq<T>, i: nat)
    requires i < |xs|
    ensures Filter(keep, xs[..i + 1]) == Filter(keep, xs[..i]) + if keep(xs[i]) then [xs[i]] else []
  {
    assert xs[..i + 1] == xs[..i] + [xs[i]];
    FilterAppend(keep, xs[..i], [xs[i]]);
    assert [xs[i]][1..] == [];
  }

  lemma {:induction false} FilterCongruent<T>(f: T -> bool, g: T -> bool, xs: seq<T>)
    requires forall x :: x in xs ==> f(x) == g(x)
    ensures Filter(f, xs) == Filter(g, xs)
  {
    if xs != [] {
      FilterCongruent(f, g, xs[1..]);
    }
  }

  lemma {:induction false} FilterNone<T>(keep: T -> bool, xs: seq<T>)
    requires forall x | x in xs :: !keep(x)
    ensures Filter(keep, xs) == []
  {
    if xs != [] {
      FilterNone(keep, xs[1..]);
    }
  }

  lemma {:induction false} FilterUnique<T>(keep: T -> bool, xs: seq<T>, k: nat)
    requires k < |xs| && keep(xs[k])
    requires forall j :: 0 <= j < |xs| && j != k ==> !keep(xs[j])
    ensures Filter(keep, xs) == [xs[k]]
  {
    if k == 0 {
      FilterNone(keep, xs[1..]);
    } else {
      FilterUnique(keep, xs[1..], k - 1);
    }
  }

  lemma {:induction false} FilterTwice<T>(f: T -> bool, g: T -> bool, both: T -> bool, xs: seq<T>)
    requires forall x :: x in xs ==> both(x) == (g(x) && f(x))
    ensures Filter(f, Filter(g, xs)) == Filter(both, xs)
  {
    if xs != [] {
      FilterTwice(f, g, both, xs[1..]);
      var rest := Filter(g, xs[1..]);
      if g(xs[0]) {
        assert ([xs[0]] + rest)[1..] == rest;
      }
    }
  }

  lemma {:induction false} FilterDistinct<T>(keep: T -> bool, xs: seq<T>)
    requires Distinct(xs)
    ensures Distinct(Filter(keep, xs))
  {
    if xs != [] {
      FilterDistinct(keep, xs[1..]);
      FilterMembers(keep, xs[1..]);
      var rest := Filter(keep, xs[1..]);
      if keep(xs[0]) {
        assert xs[0] !in xs[1..];
        assert xs[0] !in rest;
      }
    }
  }

  /** The positions a filter keeps, as a function of the answers alone. */
  function Picks(mask: seq<bool>): (ps: seq<nat>)
    ensures forall j :: 0 <= j < |ps| ==> ps[j] < |mask|
  {
    if mask == [] then []
    else
      var rest := Picks(mask[1..]);
      var shifted := seq(|rest|, j requires 0 <= j < |rest| => rest[j] + 1);
      if mask[0] then [0] + shifted else shifted
  }

  lemma {:induction false} FilterPicks<T>(keep: T -> bool, xs: seq<T>)
    ensures var ps := Picks(Map(keep, xs));
            |Filter(keep, xs)| == |ps| && forall j :: 0 <= j < |ps| ==> Filter(keep, xs)[j] == xs[ps[j]]
  {
    if xs != [] {
      FilterPicks(keep, xs[1..]);
      assert Map(keep, xs)[1..] == Map(keep, xs[1..]);
      var rest, ps := Picks(Map(keep, xs[1..])), Picks(Map(keep, xs));
      forall j | 0 <= j < |ps| ensures Filter(keep, xs)[j] == xs[ps[j]] {
        var k := if keep(xs[0]) then j - 1 else j;
        if k >= 0 { assert ps[j] == rest[k] + 1; }
      }
    }
  }

  /** Two lists filtered by the same answers stay in step. */
  lemma FilterTogether<A, B>(f: A -> bool, xs: seq<A>, g: B -> bool, ys: seq<B>)
    requires |xs| == |ys| && forall k :: 0 <= k < |xs| ==> f(xs[k]) == g(ys[k])
    ensures |Filter(f, xs)| == |Filter(g, ys)|
    ensures forall j :: 0 <= j < |Filter(f, xs)| ==>
              exists k :: 0 <= k < |xs| && Filter(f, xs)[j] == xs[k] && Filter(g, ys)[j] == ys[k]
  {
    FilterPicks(f, xs);
    FilterPicks(g, ys);
    assert Map(f, xs) == Map(g, ys);
    var ps := Picks(Map(f, xs));
    forall j | 0 <= j < |Filter(f, xs)|
      ensures exists k :: 0 <= k < |xs| && Filter(f, xs)[j] == xs[k] && Filter(g, ys)[j] == ys[k]
    {
      assert Filter(f, xs)[j] == xs[ps[j]] && Filter(g, ys)[j] == ys[ps[j]];
    }
  }

  lemma {:induction false} DistinctCardinality<T>(xs: seq<T>)
    requires Distinct(xs)
    ensures |set x | x in xs| == |xs|
  {
    if xs != [] {
      DistinctCardinality(xs[1..]);
      assert (set x | x in xs) == {xs[0]} + set x | x in xs[1..];
    }
  }

  lemma SameMembersSameLength<T>(xs: seq<T>, ys: seq<T>)
    requires Distinct(xs) && Distinct(ys)
    requires (forall x | x in xs :: x in ys) && (forall y | y in ys :: y in xs)
    ensures |xs| == |ys|
  {
    DistinctCardinality(xs);
    DistinctCardinality(ys);
    assert (set x | x in xs) == set y | y in ys;
  }

  /** Equally long duplicate-free lists, one inside the other, have the same members. */
  lemma Pigeonhole<T>(xs: seq<T>, ys: seq<T>)
    requires Distinct(xs) && Distinct(ys) && |xs| == |ys| && forall x | x in xs :: x in ys
    ensures forall y | y in ys :: y in xs
  {
    DistinctCardinality(xs);
    DistinctCardinality(ys);
    var a, b := (set x | x in xs), (set y | y in ys);
    assert b == a + (b - a);
    assert forall y | y in ys :: y in b;
  }

  // ---------- ORDER BY ----------

  /** Lexicographic comparison of two key vectors. */
  predicate LexLeq(a: seq<int>, b: seq<int>) {
    a == [] || (b != [] && (a[0] < b[0] || (a[0] == b[0] && LexLeq(a[1..], b[1..]))))
  }

  lemma {:induction false} LexTotal(a: seq<int>, b: seq<int>)
    ensures LexLeq(a, b) || LexLeq(b, a)
  {
    if a != [] && b != [] && a[0] == b[0] {
      LexTotal(a[1..], b[1..]);
    }
  }

  lemma {:induction false} LexTransitive(a: seq<int>, b: seq<int>, c: seq<int>)
    requires LexLeq(a, b) && LexLeq(b, c)
    ensures LexLeq(a, c)
  {
    if a != [] && a[0] == b[0] && b[0] == c[0] {
      LexTransitive(a[1..], b[1..], c[1..]);
    }
  }

  lemma {:induction false} LexAntisymmetric(a: seq<int>, b: seq<int>)
    requires LexLeq(a, b) && LexLeq(b, a)
    ensures a == b
  {
    if a != [] {
      LexAntisymmetric(a[1..], b[1..]);
      assert a == [a[0]] + a[1..] && b == [b[0]] + b[1..];
    }
  }

  ghost predicate Sorted<T(!new)>(key: T -> seq<int>, xs: seq<T>) {
    forall i, j :: 0 <= i < j < |xs| ==> LexLeq(key(xs[i]), key(xs[j]))
  }

  /** Puts x in front of the first element that is not smaller. */
  function Insert<T>(key: T -> seq<int>, x: T, xs: seq<T>): (ys: seq<T>)
    ensures |ys| == |xs| + 1
  {
    if xs == [] then [x]
    else if LexLeq(key(x), key(xs[0])) then [x] + xs
    else [xs[0]] + Insert(key, x, xs[1..])
  }

  /** Stable sort by key: rows that compare equal keep their order. */
  function Sort<T>(key: T -> seq<int>, xs: seq<T>): (ys: seq<T>)
    ensures |ys| == |xs|
  {
    if xs == [] then []
    else Insert(key, xs[0], Sort(key, xs[1..]))
  }

  lemma {:induction false} SortCongruent<T>(f: T -> seq<int>, g: T -> seq<int>, xs: seq<T>)
    requires forall x :: f(x) == g(x)
    ensures Sort(f, xs) == Sort(g, xs)
  {
    if xs != [] {
      SortCongruent(f, g, xs[1..]);
      InsertCongruent(f, g, xs[0], Sort(f, xs[1..]));
    }
  }

  lemma {:induction false} InsertCongruent<T>(f: T -> seq<int>, g: T -> seq<int>, x: T, xs: seq<T>)
    requires forall x :: f(x) == g(x)
    ensures Insert(f, x, xs) == Insert(g, x, xs)
  {
    if xs != [] { InsertCongruent(f, g, x, xs[1..]); }
  }

  lemma {:induction false} InsertMultiset<T>(key: T -> seq<int>, x: T, xs: seq<T>)
    ensures multiset(Insert(key, x, xs)) == multiset(xs) + multiset{x}
  {
    if xs != [] {
      assert xs == [xs[0]] + xs[1..];
      InsertMultiset(key, x, xs[1..]);
    }
  }

  lemma {:induction false} SortMultiset<T>(key: T -> seq<int>, xs: seq<T>)
    ensures multiset(Sort(key, xs)) == multiset(xs)
  {
    if xs != [] {
      assert xs == [xs[0]] + xs[1..];
      SortMultiset(key, xs[1..]);
      InsertMultiset(key, xs[0], Sort(key, xs[1..]));
    }
  }

  lemma {:induction false} InsertSorted<T(!new)>(key: T -> seq<int>, x: T, xs: seq<T>)
    requires Sorted(key, xs)
    ensures Sorted(key, Insert(key, x, xs))
  {
    if xs != [] {
      if LexLeq(key(x), key(xs[0])) {
        forall j | 0 <= j < |xs| ensures LexLeq(key(x), key(xs[j])) {
          if j > 0 { LexTransitive(key(x), key(xs[0]), key(xs[j])); }
        }
      } else {
        LexTotal(key(x), key(xs[0]));
        var tail := Insert(key, x, xs[1..]);
        InsertSorted(key, x, xs[1..]);
        InsertMultiset(key, x, xs[1..]);
        forall j | 0 <= j < |tail| ensures LexLeq(key(xs[0]), key(tail[j])) {
          assert tail[j] in multiset(tail);
          assert tail[j] == x || tail[j] in xs[1..];
        }
      }
    }
  }

  lemma {:induction false} SortSorted<T(!new)>(key: T -> seq<int>, xs: seq<T>)
    ensures Sorted(key, Sort(key, xs))
  {
    if xs != [] {
      SortSorted(key, xs[1..]);
      InsertSorted(key, xs[0], Sort(key, xs[1..]));
    }
  }

  lemma SortMembers<T>(key: T -> seq<int>, xs: seq<T>)
    ensures forall x | x in Sort(key, xs) :: x in xs
    ensures forall x | x in xs :: x in Sort(key, xs)
  {
    SortMultiset(key, xs);
    forall x | x in Sort(key, xs) ensures x in xs { assert x in multiset(Sort(key, xs)); }
    forall x | x in xs ensures x in Sort(key, xs) { assert x in multiset(xs); }
  }

  lemma {:induction false} InsertDistinct<T>(key: T -> seq<int>, x: T, xs: seq<T>)
    requires Distinct(xs) && x !in xs
    ensures Distinct(Insert(key, x, xs))
  {
    if xs != [] && !LexLeq(key(x), key(xs[0])) {
      InsertDistinct(key, x, xs[1..]);
      InsertMultiset(key, x, xs[1..]);
      var tail := Insert(key, x, xs[1..]);
      assert xs[0] !in tail by {
        assert xs[0] !in xs[1..];
        assert xs[0] in multiset(tail) <==> xs[0] in tail;
      }
    }
  }

  lemma {:induction false} SortDistinct<T>(key: T -> seq<int>, xs: seq<T>)
    requires Distinct(xs)
    ensures Distinct(Sort(key, xs))
  {
    if xs != [] {
      SortDistinct(key, xs[1..]);
      SortMembers(key, xs[1..]);
      InsertDistinct(key, xs[0], Sort(key, xs[1..]));
    }
  }

  lemma FilterCons<T>(keep: T -> bool, x: T, xs: seq<T>)
    ensures Filter(keep, [x] + xs) == if keep(x) then [x] + Filter(keep, xs) else Filter(keep, xs)
  {
    assert ([x] + xs)[1..] == xs;
  }

  lemma InsertFirst<T>(key: T -> seq<int>, x: T, xs: seq<T>)
    requires forall y | y in xs :: LexLeq(key(x), key(y))
    ensures Insert(key, x, xs) == [x] + xs
  {
    if xs != [] { assert xs[0] in xs; }
  }

  lemma InsertCons<T>(key: T -> seq<int>, x: T, y: T, ys: seq<T>)
    requires !LexLeq(key(x), key(y))
    ensures Insert(key, x, [y] + ys) == [y] + Insert(key, x, ys)
  {
    assert ([y] + ys)[1..] == ys;
  }

  lemma HeadIsLeast<T(!new)>(key: T -> seq<int>, x: T, xs: seq<T>)
    requires xs != [] && Sorted(key, xs) && LexLeq(key(x), key(xs[0]))
    ensures forall y | y in xs :: LexLeq(key(x), key(y))
  {
    forall j | 0 <= j < |xs| ensures LexLeq(key(x), key(xs[j])) {
      if j > 0 { LexTransitive(key(x), key(xs[0]), key(xs[j])); }
    }
  }

  lemma {:induction false} FilterInsert<T(!new)>(keep: T -> bool, key: T -> seq<int>, x: T, xs: seq<T>)
    requires Sorted(key, xs)
    ensures Filter(keep, Insert(key, x, xs)) ==
            if keep(x) then Insert(key, x, Filter(keep, xs)) else Filter(keep, xs)
  {
    if xs == [] {
      FilterCons(keep, x, xs);
    } else if LexLeq(key(x), key(xs[0])) {
      HeadIsLeast(key, x, xs);
      FilterMembers(keep, xs);
      FilterCons(keep, x, xs);
      InsertFirst(key, x, Filter(keep, xs));
    } else {
      FilterInsert(keep, key, x, xs[1..]);
      FilterCons(keep, xs[0], Insert(key, x, xs[1..]));
      if keep(x) && keep(xs[0]) {
        InsertCons(key, x, xs[0], Filter(keep, xs[1..]));
      }
    }
  }

  /** Filtering a stably sorted list is the stable sort of the filtered list. */
  lemma {:induction false} FilterSort<T(!new)>(keep: T -> bool, key: T -> seq<int>, xs: seq<T>)
    ensures Filter(keep, Sort(key, xs)) == Sort(key, Filter(keep, xs))
  {
    if xs != [] {
      FilterSort(keep, key, xs[1..]);
      SortSorted(key, xs[1..]);
      FilterInsert(keep, key, xs[0], Sort(key, xs[1..]));
      if keep(xs[0]) {
        var rest := Filter(keep, xs[1..]);
        assert ([xs[0]] + rest)[1..] == rest;
      }
    }
  }

  /** No two elements share a sort key. */
  ghost predicate StrictKeys<T(!new)>(key: T -> seq<int>, xs: seq<T>) {
    forall x, y :: x in xs && y in xs && key(x) == key(y) ==> x == y
  }

  lemma SortedTail<T(!new)>(key: T -> seq<int>, xs: seq<T>)
    requires xs != [] && Sorted(key, xs) && Distinct(xs)
    ensures Sorted(key, xs[1..]) && Distinct(xs[1..]) && xs[0] !in xs[1..]
    ensures forall y :: y in xs ==> LexLeq(key(xs[0]), key(y))
  {
    LexTotal(key(xs[0]), key(xs[0]));
    HeadIsLeast(key, xs[0], xs);
  }

  /** With strict keys there is only one sorted arrangement. */
  lemma {:induction false} SortedUnique<T(!new)>(key: T -> seq<int>, xs: seq<T>, ys: seq<T>)
    requires Sorted(key, xs) && Sorted(key, ys) && Distinct(xs) && Distinct(ys) && StrictKeys(key, xs)
    requires forall x :: x in xs <==> x in ys
    ensures xs == ys
  {
    SameMembersSameLength(xs, ys);
    if xs != [] {
      assert xs[0] in xs && ys[0] in ys;
      SortedTail(key, xs);
      SortedTail(key, ys);
      LexAntisymmetric(key(xs[0]), key(ys[0]));
      assert xs == [xs[0]] + xs[1..] && ys == [ys[0]] + ys[1..];
      forall x ensures x in xs[1..] <==> x in ys[1..] {
        assert x in xs <==> x == xs[0] || x in xs[1..];
        assert x in ys <==> x == ys[0] || x in ys[1..];
      }
      SortedUnique(key, xs[1..], ys[1..]);
    }
  }

  lemma {:induction false} FilterSorted<T(!new)>(keep: T -> bool, key: T -> seq<int>, xs: seq<T>)
    requires Sorted(key, xs)
    ensures Sorted(key, Filter(keep, xs))
  {
    if xs != [] {
      FilterSorted(keep, key, xs[1..]);
      if keep(xs[0]) {
        FilterMembers(keep, xs[1..]);
        var rest := Filter(keep, xs[1..]);
        forall j | 0 <= j < |rest| ensures LexLeq(key(xs[0]), key(rest[j])) {
          assert rest[j] in rest && rest[j] in xs[1..];
        }
      }
    }
  }
}
