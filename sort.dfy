/**
 * `Array.prototype.sort` with the two comparators of `fallbackSummarize`. The sort is stable, and both
 * comparators are differences of integer keys, so it is insertion sort on those keys.
 */
module StableSort {
  import opened Strings

  /** `{ i, s, score }`: a sentence with its position in the document and its score. */
  datatype Scored = Scored(index: nat, sentence: string, score: nat)

  /** `(a, b) => b.score - a.score` and `(a, b) => a.i - b.i`. */
  datatype Order = ByScoreDescending | ByIndex

  /** The comparator is `Key(o, a) - Key(o, b)`. */
  function Key(o: Order, x: Scored): int {
    match o
    case ByScoreDescending => 0 - x.score as int
    case ByIndex => x.index
  }

  /** x placed before the first element that the comparator puts after it. */
  function Insert(o: Order, xs: seq<Scored>, x: Scored): (r: seq<Scored>)
    ensures |r| == |xs| + 1
  {
    if xs == [] then [x]
    else if Key(o, x) < Key(o, xs[0]) then [x] + xs
    else [xs[0]] + Insert(o, xs[1..], x)
  }

  /** The stable sort: each element in turn inserted after everything that does not compare above it. */
  function Sort(o: Order, xs: seq<Scored>): (r: seq<Scored>)
    ensures |r| == |xs|
  {
    if xs == [] then [] else Insert(o, Sort(o, xs[..|xs| - 1]), xs[|xs| - 1])
  }

  predicate Sorted(o: Order, xs: seq<Scored>) {
    forall a, b :: 0 <= a < b < |xs| ==> Key(o, xs[a]) <= Key(o, xs[b])
  }

  /** x goes before y: a smaller key, or the same key and an earlier position in the document. */
  predicate Before(o: Order, x: Scored, y: Scored) {
    Key(o, x) < Key(o, y) || (Key(o, x) == Key(o, y) && x.index < y.index)
  }

  /** Sorted by key, ties in document order. */
  predicate StablySorted(o: Order, xs: seq<Scored>) {
    forall a, b :: 0 <= a < b < |xs| ==> Before(o, xs[a], xs[b])
  }

  /** Document positions strictly increase along the sequence. */
  predicate IndexIncreasing(xs: seq<Scored>) {
    forall a, b :: 0 <= a < b < |xs| ==> xs[a].index < xs[b].index
  }

  /** No two elements share a document position. */
  predicate DistinctIndices(xs: seq<Scored>) {
    forall a, b :: 0 <= a < |xs| && 0 <= b < |xs| && a != b ==> xs[a].index != xs[b].index
  }

  lemma {:induction false} InsertPermutes(o: Order, xs: seq<Scored>, x: Scored)
    ensures multiset(Insert(o, xs, x)) == multiset(xs) + multiset{x}
  {
    if xs != [] && Key(o, x) >= Key(o, xs[0]) {
      InsertPermutes(o, xs[1..], x);
      HeadTail(xs);
    }
  }

  /** The sort returns a permutation of its input. */
  lemma {:induction false} SortPermutes(o: Order, xs: seq<Scored>)
    ensures multiset(Sort(o, xs)) == multiset(xs)
  {
    if xs != [] {
      var init := xs[..|xs| - 1];
      SortPermutes(o, init);
      InsertPermutes(o, Sort(o, init), xs[|xs| - 1]);
      InitLast(xs);
    }
  }

  /** An element no greater than any of a sorted sequence can go in front of it. */
  lemma ConsSorted(o: Order, y: Scored, r: seq<Scored>)
    requires Sorted(o, r) && forall b :: 0 <= b < |r| ==> Key(o, y) <= Key(o, r[b])
    ensures Sorted(o, [y] + r)
  {
    var ys := [y] + r;
    forall a, b | 0 <= a < b < |ys| ensures Key(o, ys[a]) <= Key(o, ys[b]) {
      assert ys[b] == r[b - 1];
      if a > 0 { assert ys[a] == r[a - 1]; }
    }
  }

  lemma SortedTail(o: Order, xs: seq<Scored>)
    requires xs != [] && Sorted(o, xs)
    ensures Sorted(o, xs[1..]) && forall b :: 0 <= b < |xs[1..]| ==> Key(o, xs[0]) <= Key(o, xs[1..][b])
  {
    forall a, b | 0 <= a < b < |xs[1..]| ensures Key(o, xs[1..][a]) <= Key(o, xs[1..][b]) {
      assert xs[1..][a] == xs[a + 1] && xs[1..][b] == xs[b + 1];
    }
  }

  lemma {:induction false} InsertSorted(o: Order, xs: seq<Scored>, x: Scored)
    requires Sorted(o, xs)
    ensures Sorted(o, Insert(o, xs, x))
  {
    if xs == [] {
    } else if Key(o, x) < Key(o, xs[0]) {
      ConsSorted(o, x, xs);
    } else {
      SortedTail(o, xs);
      InsertSorted(o, xs[1..], x);
      InsertPermutes(o, xs[1..], x);
      var r := Insert(o, xs[1..], x);
      forall b | 0 <= b < |r| ensures Key(o, xs[0]) <= Key(o, r[b]) {
        assert r[b] in multiset(xs[1..]) + multiset{x};
      }
      ConsSorted(o, xs[0], r);
    }
  }

  /** The sort returns its input ordered by the comparator's key. */
  lemma {:induction false} SortSorted(o: Order, xs: seq<Scored>)
    ensures Sorted(o, Sort(o, xs))
  {
    if xs != [] {
      SortSorted(o, xs[..|xs| - 1]);
      InsertSorted(o, Sort(o, xs[..|xs| - 1]), xs[|xs| - 1]);
    }
  }

  /** An element before every one of a stably sorted sequence can go in front of it. */
  lemma ConsStable(o: Order, y: Scored, r: seq<Scored>)
    requires StablySorted(o, r) && forall b :: 0 <= b < |r| ==> Before(o, y, r[b])
    ensures StablySorted(o, [y] + r)
  {
    var ys := [y] + r;
    forall a, b | 0 <= a < b < |ys| ensures Before(o, ys[a], ys[b]) {
      assert ys[b] == r[b - 1];
      if a > 0 { assert ys[a] == r[a - 1]; }
    }
  }

  lemma StableTail(o: Order, xs: seq<Scored>)
    requires xs != [] && StablySorted(o, xs)
    ensures StablySorted(o, xs[1..]) && forall b :: 0 <= b < |xs[1..]| ==> Before(o, xs[0], xs[1..][b])
  {
    forall a, b | 0 <= a < b < |xs[1..]| ensures Before(o, xs[1..][a], xs[1..][b]) {
      assert xs[1..][a] == xs[a + 1] && xs[1..][b] == xs[b + 1];
    }
  }

  lemma {:induction false} InsertStable(o: Order, xs: seq<Scored>, x: Scored)
    requires StablySorted(o, xs)
    requires forall k :: 0 <= k < |xs| ==> xs[k].index < x.index
    ensures StablySorted(o, Insert(o, xs, x))
  {
    if xs == [] {
    } else if Key(o, x) < Key(o, xs[0]) {
      forall b | 0 <= b < |xs| ensures Before(o, x, xs[b]) {
        if b > 0 { assert Before(o, xs[0], xs[b]); }
      }
      ConsStable(o, x, xs);
    } else {
      StableTail(o, xs);
      assert forall k :: 0 <= k < |xs[1..]| ==> xs[1..][k].index < x.index by {
        forall k | 0 <= k < |xs[1..]| ensures xs[1..][k].index < x.index {
          assert xs[1..][k] == xs[k + 1];
        }
      }
      InsertStable(o, xs[1..], x);
      InsertPermutes(o, xs[1..], x);
      var r := Insert(o, xs[1..], x);
      forall b | 0 <= b < |r| ensures Before(o, xs[0], r[b]) {
        assert r[b] in multiset(xs[1..]) + multiset{x};
      }
      ConsStable(o, xs[0], r);
    }
  }

  /** Stability: on input in document order, the result is ordered by key and, within a key, by position. */
  lemma {:induction false} SortStable(o: Order, xs: seq<Scored>)
    requires IndexIncreasing(xs)
    ensures StablySorted(o, Sort(o, xs))
  {
    if xs != [] {
      var init := xs[..|xs| - 1];
      var x := xs[|xs| - 1];
      SortStable(o, init);
      SortPermutes(o, init);
      forall k | 0 <= k < |Sort(o, init)| ensures Sort(o, init)[k].index < x.index {
        assert Sort(o, init)[k] in multiset(init);
      }
      InsertStable(o, Sort(o, init), x);
    }
  }

  /** An element with a position below the first of an increasing sequence can go in front of it. */
  lemma ConsIncreasing(y: Scored, r: seq<Scored>)
    requires IndexIncreasing(r) && (r != [] ==> y.index < r[0].index)
    ensures IndexIncreasing([y] + r)
  {
    var ys := [y] + r;
    forall a, b | 0 <= a < b < |ys| ensures ys[a].index < ys[b].index {
      assert ys[b] == r[b - 1];
      if a > 0 { assert ys[a] == r[a - 1]; }
    }
  }

  lemma IncreasingTail(xs: seq<Scored>)
    requires xs != [] && IndexIncreasing(xs)
    ensures IndexIncreasing(xs[1..])
  {
    forall a, b | 0 <= a < b < |xs[1..]| ensures xs[1..][a].index < xs[1..][b].index {
      assert xs[1..][a] == xs[a + 1] && xs[1..][b] == xs[b + 1];
    }
  }

  lemma {:induction false} InsertIncreasing(xs: seq<Scored>, x: Scored)
    requires IndexIncreasing(xs)
    requires forall k :: 0 <= k < |xs| ==> xs[k].index != x.index
    ensures IndexIncreasing(Insert(ByIndex, xs, x))
  {
    if xs == [] {
    } else if x.index < xs[0].index {
      ConsIncreasing(x, xs);
    } else {
      IncreasingTail(xs);
      assert forall k :: 0 <= k < |xs[1..]| ==> xs[1..][k].index != x.index by {
        forall k | 0 <= k < |xs[1..]| ensures xs[1..][k].index != x.index {
          assert xs[1..][k] == xs[k + 1];
        }
      }
      InsertIncreasing(xs[1..], x);
      InsertPermutes(ByIndex, xs[1..], x);
      var r := Insert(ByIndex, xs[1..], x);
      forall b | 0 <= b < |r| ensures xs[0].index < r[b].index {
        assert r[b] in multiset(xs[1..]) + multiset{x};
      }
      ConsIncreasing(xs[0], r);
    }
  }

  /** Sorting by position elements with distinct positions puts them in strictly increasing document order. */
  lemma {:induction false} SortByIndexIncreasing(xs: seq<Scored>)
    requires DistinctIndices(xs)
    ensures IndexIncreasing(Sort(ByIndex, xs))
  {
    if xs != [] {
      var init := xs[..|xs| - 1];
      var x := xs[|xs| - 1];
      SortByIndexIncreasing(init);
      SortPermutes(ByIndex, init);
      forall k | 0 <= k < |Sort(ByIndex, init)| ensures Sort(ByIndex, init)[k].index != x.index {
        assert Sort(ByIndex, init)[k] in multiset(init);
      }
      InsertIncreasing(Sort(ByIndex, init), x);
    }
  }
}
