/** Filters over sequences, as values and as lists of indices. */
module Sequences {

  /** A list comprehension with a filter. */
  function Filter<T>(xs: seq<T>, keep: T -> bool): seq<T> {
    if xs == [] then []
    else
      var n := |xs| - 1;
      Filter(xs[..n], keep) + (if keep(xs[n]) then [xs[n]] else [])
  }

  function Not<T>(p: T -> bool): T -> bool {
    x => !p(x)
  }

  lemma ConcatAssociates<T>(now: seq<T>, a: seq<T>, b: seq<T>, c: seq<T>, bc: seq<T>)
    requires now == (a + b) + c && bc == b + c
    ensures now == a + bc
  {
  }

  function SumOf(values: seq<int>): int {
    if values == [] then 0 else SumOf(values[..|values| - 1]) + values[|values| - 1]
  }

  lemma {:induction false} SumOfConcat(a: seq<int>, b: seq<int>)
    ensures SumOf(a + b) == SumOf(a) + SumOf(b)
  {
    if b == [] {
      assert a + b == a;
    } else {
      var n := |b| - 1;
      assert (a + b)[..|a + b| - 1] == a + b[..n];
      SumOfConcat(a, b[..n]);
    }
  }

  /** The elements at the given indices. */
  function At<T>(xs: seq<T>, order: seq<nat>): seq<T>
    requires forall a :: 0 <= a < |order| ==> order[a] < |xs|
  {
    seq(|order|, a requires 0 <= a < |order| => xs[order[a]])
  }

  lemma AtExtends<T>(xs: seq<T>, ix: seq<nat>, i: nat)
    requires (forall a :: 0 <= a < |ix| ==> ix[a] < |xs|) && i < |xs|
    ensures At(xs, ix + [i]) == At(xs, ix) + [xs[i]]
  {
  }

  /** The indices of the elements a filter keeps, in order. */
  function Chosen<T>(xs: seq<T>, keep: T -> bool): (ix: seq<nat>)
    ensures forall a :: 0 <= a < |ix| ==> ix[a] < |xs|
  {
    if xs == [] then []
    else
      var n := |xs| - 1;
      Chosen(xs[..n], keep) + (if keep(xs[n]) then [n] else [])
  }

  lemma {:induction false} ChosenExactly<T>(xs: seq<T>, keep: T -> bool)
    ensures var ix := Chosen(xs, keep);
      && |ix| <= |xs|
      && (forall a, b :: 0 <= a < b < |ix| ==> ix[a] < ix[b])
      && (forall i :: 0 <= i < |xs| ==> (i in ix <==> keep(xs[i])))
      && (forall a :: 0 <= a < |ix| ==> keep(xs[ix[a]]))
  {
    if xs != [] {
      var n := |xs| - 1;
      var init, before := xs[..n], Chosen(xs[..n], keep);
      ChosenExactly(init, keep);
      assert forall i :: 0 <= i < n ==> init[i] == xs[i];
      if keep(xs[n]) {
        assert forall i :: i in before + [n] <==> i in before || i == n;
        assert forall a :: 0 <= a < |before| ==> (before + [n])[a] == before[a];
      } else {
        assert before + [] == before;
      }
    }
  }

  lemma ChosenExtends<T>(xs: seq<T>, keep: T -> bool, i: nat)
    requires i < |xs|
    ensures Chosen(xs[..i + 1], keep) == Chosen(xs[..i], keep) + (if keep(xs[i]) then [i] else [])
  {
    assert xs[..i + 1][..i] == xs[..i];
  }

  lemma {:induction false} FilterIsAt<T>(xs: seq<T>, keep: T -> bool)
    ensures Filter(xs, keep) == At(xs, Chosen(xs, keep))
  {
    if xs != [] {
      FilterIsAt(xs[..|xs| - 1], keep);
    }
  }

  lemma {:induction false} FilterSatisfies<T>(xs: seq<T>, keep: T -> bool)
    ensures forall a :: 0 <= a < |Filter(xs, keep)| ==> Filter(xs, keep)[a] in xs && keep(Filter(xs, keep)[a])
  {
    if xs != [] {
      FilterSatisfies(xs[..|xs| - 1], keep);
    }
  }

  lemma {:induction false} FilterMember<T>(xs: seq<T>, keep: T -> bool, x: T)
    ensures x in Filter(xs, keep) <==> x in xs && keep(x)
  {
    if xs != [] {
      var n := |xs| - 1;
      FilterMember(xs[..n], keep, x);
      assert xs == xs[..n] + [xs[n]];
    }
  }

  lemma FilterExtends<T>(xs: seq<T>, keep: T -> bool, i: nat)
    requires i < |xs|
    ensures Filter(xs[..i + 1], keep) == Filter(xs[..i], keep) + (if keep(xs[i]) then [xs[i]] else [])
  {
    assert xs[..i + 1][..i] == xs[..i];
  }

  lemma {:induction false} FilterConcat<T>(xs: seq<T>, ys: seq<T>, keep: T -> bool)
    ensures Filter(xs + ys, keep) == Filter(xs, keep) + Filter(ys, keep)
  {
    if ys == [] {
      assert xs + ys == xs;
    } else {
      var n := |ys| - 1;
      assert (xs + ys)[..|xs + ys| - 1] == xs + ys[..n];
      FilterConcat(xs, ys[..n], keep);
    }
  }

  lemma {:induction false} FilterAll<T>(xs: seq<T>, keep: T -> bool)
    requires forall i :: 0 <= i < |xs| ==> keep(xs[i])
    ensures Filter(xs, keep) == xs
  {
    if xs != [] {
      FilterAll(xs[..|xs| - 1], keep);
    }
  }

  lemma {:induction false} FilterSame<T>(xs: seq<T>, p: T -> bool, q: T -> bool)
    requires forall i :: 0 <= i < |xs| ==> p(xs[i]) == q(xs[i])
    ensures Filter(xs, p) == Filter(xs, q)
  {
    if xs != [] {
      FilterSame(xs[..|xs| - 1], p, q);
    }
  }

  /** Filtering twice is filtering by the conjunction. */
  lemma {:induction false} FilterTwice<T>(xs: seq<T>, p: T -> bool, q: T -> bool, both: T -> bool)
    requires forall i :: 0 <= i < |xs| ==> both(xs[i]) == (p(xs[i]) && q(xs[i]))
    ensures Filter(Filter(xs, p), q) == Filter(xs, both)
  {
    if xs != [] {
      var n := |xs| - 1;
      FilterTwice(xs[..n], p, q, both);
      FilterConcat(Filter(xs[..n], p), if p(xs[n]) then [xs[n]] else [], q);
      assert [xs[n]][..0] == [];
    }
  }

  /** Index `i` holds the only element that satisfies `p`. */
  ghost predicate OnlyAt<T>(xs: seq<T>, p: T -> bool, i: int) {
    0 <= i < |xs| && p(xs[i]) && forall k :: 0 <= k < |xs| && k != i ==> !p(xs[k])
  }

  lemma {:induction false} FilterCounts<T>(xs: seq<T>, p: T -> bool)
    ensures |Filter(xs, p)| == 0 <==> forall k :: 0 <= k < |xs| ==> !p(xs[k])
    ensures |Filter(xs, p)| == 1 <==> exists i :: OnlyAt(xs, p, i)
    ensures forall i :: OnlyAt(xs, p, i) ==> Filter(xs, p) == [xs[i]]
  {
    if xs != [] {
      var n := |xs| - 1;
      var init := xs[..n];
      FilterCounts(init, p);
      assert forall k :: 0 <= k < n ==> xs[k] == init[k];
      if p(xs[n]) {
        if |Filter(init, p)| == 0 {
          assert OnlyAt(xs, p, n);
        }
      } else {
        forall i ensures OnlyAt(xs, p, i) <==> OnlyAt(init, p, i) {
          assert OnlyAt(init, p, i) ==> xs[i] == init[i];
        }
      }
    }
  }
}
