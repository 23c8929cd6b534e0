/** Shared value types, and the stable sort every ordered listing of the system relies on. */
module Common {
  datatype Option<+T> = None | Some(value: T)

  datatype Result<+T, +E> = Ok(value: T) | Err(error: E)

  /** Rounds half up, as Math.round does. */
  function Round(x: real): int {
    (x + 0.5).Floor
  }

  lemma RoundMonotone(x: real, y: real)
    requires x <= y
    ensures Round(x) <= Round(y)
  {
  }

  lemma Stretch(x: real, y: real, t: real)
    requires x > y && t > 0.0
    ensures x * t > y * t
  {
  }

  /** Scaling by a positive unit keeps a number between its bounds, and only those. */
  lemma ScaleBetween(a: real, x: real, b: real, unit: real, scaled: real)
    requires unit > 0.0 && scaled == x * unit
    ensures a <= x < b <==> a * unit <= scaled < b * unit
  {
    if x < a { Stretch(a, x, unit); } else if x > a { Stretch(x, a, unit); }
    if x < b { Stretch(b, x, unit); } else if x > b { Stretch(x, b, unit); }
  }

  lemma RoundBetween(x: real, n: int)
    ensures Round(x) == n <==> n as real - 0.5 <= x < n as real + 0.5
  {
  }

  ghost predicate NoRepeat<T>(xs: seq<T>) {
    forall i, j :: 0 <= i < j < |xs| ==> xs[i] != xs[j]
  }

  /** Reordering a list neither creates nor removes a repetition. */
  lemma {:induction false} NoRepeatPermutes<T>(xs: seq<T>, ys: seq<T>)
    requires multiset(xs) == multiset(ys) && NoRepeat(xs)
    ensures NoRepeat(ys)
  {
    forall i, j | 0 <= i < j < |ys|
      ensures ys[i] != ys[j]
    {
      if ys[i] == ys[j] {
        CountTwice(ys, i, j);
        CountAtMostOnce(xs, ys[i]);
      }
    }
  }

  lemma {:induction false} CountTwice<T>(ys: seq<T>, i: nat, j: nat)
    requires i < j < |ys| && ys[i] == ys[j]
    ensures multiset(ys)[ys[i]] >= 2
  {
    assert ys == ys[..j] + [ys[j]] + ys[j + 1..];
    assert ys[..j][i] == ys[i];
    assert ys[i] in multiset(ys[..j]);
  }

  lemma {:induction false} CountAtMostOnce<T>(xs: seq<T>, x: T)
    requires NoRepeat(xs)
    ensures multiset(xs)[x] <= 1
  {
    if xs != [] {
      var last := |xs| - 1;
      assert xs == xs[..last] + [xs[last]];
      CountAtMostOnce(xs[..last], x);
      if x == xs[last] {
        assert x !in multiset(xs[..last]);
      }
    }
  }
}

/** The library sort the program calls: stable, for any comparator that is a total preorder. */
module Sorting {
  ghost predicate TotalPreorder<T(!new)>(leq: (T, T) -> bool) {
    && (forall x, y :: leq(x, y) || leq(y, x))
    && (forall x, y, z :: leq(x, y) && leq(y, z) ==> leq(x, z))
  }

  ghost predicate SortedBy<T>(leq: (T, T) -> bool, xs: seq<T>) {
    forall i, j :: 0 <= i < j < |xs| ==> leq(xs[i], xs[j])
  }

  /** The elements of xs that tie with v, in the order of xs. */
  ghost function Ties<T>(leq: (T, T) -> bool, v: T, xs: seq<T>): seq<T> {
    if xs == [] then []
    else (if leq(v, xs[0]) && leq(xs[0], v) then [xs[0]] else []) + Ties(leq, v, xs[1..])
  }

  function Insert<T>(leq: (T, T) -> bool, x: T, xs: seq<T>): seq<T> {
    if xs == [] || leq(x, xs[0]) then [x] + xs else [xs[0]] + Insert(leq, x, xs[1..])
  }

  function Sort<T>(leq: (T, T) -> bool, xs: seq<T>): seq<T> {
    if xs == [] then [] else Insert(leq, xs[0], Sort(leq, xs[1..]))
  }

  lemma {:induction false} InsertPermutes<T>(leq: (T, T) -> bool, x: T, xs: seq<T>)
    ensures multiset(Insert(leq, x, xs)) == multiset([x] + xs)
  {
    if xs != [] && !leq(x, xs[0]) {
      InsertPermutes(leq, x, xs[1..]);
      assert xs == [xs[0]] + xs[1..];
    }
  }

  lemma {:induction false} InsertSorted<T(!new)>(leq: (T, T) -> bool, x: T, xs: seq<T>)
    requires TotalPreorder(leq) && SortedBy(leq, xs)
    ensures SortedBy(leq, Insert(leq, x, xs))
  {
    if xs == [] {
    } else if leq(x, xs[0]) {
      forall k | 0 <= k < |xs|
        ensures leq(x, xs[k])
      {
        assert k == 0 || leq(xs[0], xs[k]);
      }
    } else {
      var rest := Insert(leq, x, xs[1..]);
      InsertSorted(leq, x, xs[1..]);
      InsertPermutes(leq, x, xs[1..]);
      forall k | 0 <= k < |rest|
        ensures leq(xs[0], rest[k])
      {
        assert rest[k] in multiset([x] + xs[1..]);
        if rest[k] != x {
          var j :| 0 <= j < |xs[1..]| && xs[1..][j] == rest[k];
          assert leq(xs[0], xs[j + 1]);
        }
      }
      SortedCons(leq, xs[0], rest);
    }
  }

  lemma SortedCons<T>(leq: (T, T) -> bool, x: T, xs: seq<T>)
    requires SortedBy(leq, xs) && forall k :: 0 <= k < |xs| ==> leq(x, xs[k])
    ensures SortedBy(leq, [x] + xs)
  {
  }

  lemma {:induction false} InsertStable<T(!new)>(leq: (T, T) -> bool, x: T, xs: seq<T>, v: T)
    requires TotalPreorder(leq)
    ensures Ties(leq, v, Insert(leq, x, xs)) == Ties(leq, v, [x] + xs)
  {
    assert ([x] + xs)[1..] == xs;
    if xs != [] && !leq(x, xs[0]) {
      InsertStable(leq, x, xs[1..], v);
      var rest := Insert(leq, x, xs[1..]);
      assert ([xs[0]] + rest)[1..] == rest;
      assert ([x] + xs[1..])[1..] == xs[1..];
    }
  }

  /** Sorted, a permutation, and stable: elements that tie keep their order. */
  lemma {:induction false} SortCorrect<T(!new)>(leq: (T, T) -> bool, xs: seq<T>)
    requires TotalPreorder(leq)
    ensures SortedBy(leq, Sort(leq, xs))
    ensures multiset(Sort(leq, xs)) == multiset(xs)
    ensures forall v :: Ties(leq, v, Sort(leq, xs)) == Ties(leq, v, xs)
  {
    if xs != [] {
      SortCorrect(leq, xs[1..]);
      var rest := Sort(leq, xs[1..]);
      InsertSorted(leq, xs[0], rest);
      InsertPermutes(leq, xs[0], rest);
      assert xs == [xs[0]] + xs[1..];
      forall v
        ensures Ties(leq, v, Sort(leq, xs)) == Ties(leq, v, xs)
      {
        InsertStable(leq, xs[0], rest, v);
        assert ([xs[0]] + rest)[1..] == rest;
      }
    }
  }

  lemma {:induction false} SameElements<T>(xs: seq<T>, ys: seq<T>)
    requires multiset(xs) == multiset(ys)
    ensures |xs| == |ys|
    ensures forall x :: x in xs <==> x in ys
  {
    assert |xs| == |multiset(xs)| == |multiset(ys)| == |ys|;
    forall x
      ensures x in xs <==> x in ys
    {
      assert x in xs <==> x in multiset(xs);
      assert x in ys <==> x in multiset(ys);
    }
  }

  /** The head of a sorted list is one of its elements, and none comes before it. */
  lemma HeadIsFirst<T(!new)>(leq: (T, T) -> bool, xs: seq<T>)
    requires TotalPreorder(leq) && xs != []
    ensures Sort(leq, xs) != [] && Sort(leq, xs)[0] in xs
    ensures forall x :: x in xs ==> leq(Sort(leq, xs)[0], x)
  {
    hide Sort, Ties;
    var sorted := Sort(leq, xs);
    SortCorrect(leq, xs);
    SameElements(sorted, xs);
    assert xs[0] in sorted && sorted[0] in xs;
    forall x | x in xs
      ensures leq(sorted[0], x)
    {
      var k :| 0 <= k < |sorted| && sorted[k] == x;
      assert k == 0 || leq(sorted[0], sorted[k]);
    }
  }
}
