/**
 * Stable sorting, described by the order of indices it produces. The laws proved here determine the
 * result completely, so they hold of any stable sort.
 */
module StableOrder {
  import opened Sequences

  /** A two-part sort key, compared lexicographically. */
  datatype Key = Key(major: int, minor: int)

  predicate KeyLess(a: Key, b: Key) {
    a.major < b.major || (a.major == b.major && a.minor < b.minor)
  }

  /** Index `i` goes before index `j`: by key, and by position among equal keys. */
  predicate Before(keys: seq<Key>, i: int, j: int)
    requires 0 <= i < |keys| && 0 <= j < |keys|
  {
    KeyLess(keys[i], keys[j]) || (keys[i] == keys[j] && i < j)
  }

  /** `order` lists indices of `keys` in strictly increasing sort order. */
  ghost predicate InOrder(keys: seq<Key>, order: seq<nat>) {
    && (forall a :: 0 <= a < |order| ==> order[a] < |keys|)
    && (forall a, b :: 0 <= a < b < |order| ==> Before(keys, order[a], order[b]))
  }

  /** Where a last element with key `k` belongs: behind everything that is not greater. */
  function Slot(keys: seq<Key>, order: seq<nat>, k: Key): (p: nat)
    requires forall a :: 0 <= a < |order| ==> order[a] < |keys|
    ensures p <= |order|
    ensures p < |order| ==> KeyLess(k, keys[order[p]])
    ensures p > 0 ==> !KeyLess(k, keys[order[p - 1]])
  {
    if order == [] then 0
    else
      var n := |order| - 1;
      if KeyLess(k, keys[order[n]]) then Slot(keys, order[..n], k) else |order|
  }

  /** The order of a stable sort: each element is inserted behind the earlier ones it does not precede. */
  function SortOrder(keys: seq<Key>): (order: seq<nat>)
    ensures forall a :: 0 <= a < |order| ==> order[a] < |keys|
  {
    if keys == [] then []
    else
      var n := |keys| - 1;
      var order := SortOrder(keys[..n]);
      var p := Slot(keys[..n], order, keys[n]);
      order[..p] + [n] + order[p..]
  }

  lemma InsertMembers(order: seq<nat>, p: nat, n: nat)
    requires p <= |order|
    ensures forall i :: i in order[..p] + [n] + order[p..] <==> i in order || i == n
  {
    assert order == order[..p] + order[p..];
  }

  lemma {:induction false} SortOrderInOrder(keys: seq<Key>)
    ensures InOrder(keys, SortOrder(keys)) && |SortOrder(keys)| == |keys|
    ensures forall i :: 0 <= i < |keys| ==> i in SortOrder(keys)
  {
    if keys != [] {
      var n := |keys| - 1;
      var init := keys[..n];
      SortOrderInOrder(init);
      var order := SortOrder(init);
      var p := Slot(init, order, keys[n]);
      assert p < |order| ==> init[order[p]] == keys[order[p]];
      assert p > 0 ==> init[order[p - 1]] == keys[order[p - 1]];
      InsertKeepsOrder(keys, order, p);
      InsertMembers(order, p, n);
    }
  }

  lemma InsertKeepsOrder(keys: seq<Key>, order: seq<nat>, p: nat)
    requires keys != [] && InOrder(keys[..|keys| - 1], order) && p <= |order|
    requires p < |order| ==> KeyLess(keys[|keys| - 1], keys[order[p]])
    requires p > 0 ==> !KeyLess(keys[|keys| - 1], keys[order[p - 1]])
    ensures InOrder(keys, order[..p] + [|keys| - 1] + order[p..])
  {
    var n := |keys| - 1;
    var init := keys[..n];
    var front, back := order[..p], order[p..];
    forall a, b | 0 <= a < b < |order| ensures Before(keys, order[a], order[b]) {
      assert Before(init, order[a], order[b]);
    }
    forall a | 0 <= a < p ensures Before(keys, front[a], n) {
      assert a == p - 1 || Before(keys, order[a], order[p - 1]);
    }
    forall b | 0 <= b < |back| ensures Before(keys, n, back[b]) {
      assert b == 0 || Before(keys, order[p], order[p + b]);
    }
    ConcatInOrder(keys, front, [n]);
    ConcatInOrder(keys, front + [n], back);
  }

  lemma ConcatInOrder(keys: seq<Key>, u: seq<nat>, v: seq<nat>)
    requires InOrder(keys, u) && InOrder(keys, v)
    requires forall a, b :: 0 <= a < |u| && 0 <= b < |v| ==> Before(keys, u[a], v[b])
    ensures InOrder(keys, u + v)
  {
  }

  /** An order is determined by the indices it lists. */
  lemma {:induction false} OrderUnique(keys: seq<Key>, one: seq<nat>, two: seq<nat>)
    requires InOrder(keys, one) && InOrder(keys, two)
    requires forall i :: i in one <==> i in two
    ensures one == two
  {
    HeadMember(one);
    HeadMember(two);
    if one != [] && two != [] {
      HeadFirst(keys, one, two[0]);
      HeadFirst(keys, two, one[0]);
      var one', two' := one[1..], two[1..];
      forall i ensures i in one' <==> i in two' {
        TailMembers(keys, one, i);
        TailMembers(keys, two, i);
      }
      TailInOrder(keys, one);
      TailInOrder(keys, two);
      OrderUnique(keys, one', two');
    }
  }

  lemma HeadMember(s: seq<nat>)
    ensures s == [] || s[0] in s
  {
  }

  lemma HeadFirst(keys: seq<Key>, order: seq<nat>, i: nat)
    requires InOrder(keys, order) && i in order
    ensures i < |keys| && order[0] < |keys| && (i == order[0] || Before(keys, order[0], i))
  {
    var a :| 0 <= a < |order| && order[a] == i;
  }

  lemma TailInOrder(keys: seq<Key>, order: seq<nat>)
    requires order != [] && InOrder(keys, order)
    ensures InOrder(keys, order[1..])
  {
    var tail := order[1..];
    assert forall a :: 0 <= a < |tail| ==> tail[a] == order[a + 1];
  }

  lemma TailMembers(keys: seq<Key>, order: seq<nat>, i: nat)
    requires order != [] && InOrder(keys, order)
    ensures i in order[1..] <==> i in order && i != order[0]
  {
    if i in order && i != order[0] {
      var a :| 0 <= a < |order| && order[a] == i;
      assert order[1..][a - 1] == i;
    }
    if i in order[1..] {
      var a :| 0 <= a < |order[1..]| && order[1..][a] == i;
      assert Before(keys, order[0], order[a + 1]);
    }
  }

  function Keys<T>(xs: seq<T>, key: T -> Key): seq<Key> {
    seq(|xs|, i requires 0 <= i < |xs| => key(xs[i]))
  }

  /** `xs.sort(key=...)` */
  function StableSort<T>(xs: seq<T>, key: T -> Key): seq<T> {
    At(xs, SortOrder(Keys(xs, key)))
  }

  /** Sorting what a filter kept: the surviving indices, in sort order of their keys. */
  lemma FilterThenSort<T>(xs: seq<T>, keep: T -> bool, key: T -> Key) returns (order: seq<nat>)
    ensures InOrder(Keys(xs, key), order)
    ensures forall i :: 0 <= i < |xs| ==> (i in order <==> keep(xs[i]))
    ensures StableSort(Filter(xs, keep), key) == At(xs, order)
  {
    var ix, small := Chosen(xs, keep), Filter(xs, keep);
    var inner := SortOrder(Keys(small, key));
    FilterIsAt(xs, keep);
    SortOrderInOrder(Keys(small, key));
    ChosenExactly(xs, keep);
    order := At(ix, inner);
    ComposeInOrder(xs, key, ix, inner);
    ComposeMembers(ix, inner);
    ComposeAt(xs, small, ix, inner);
  }

  lemma ComposeAt<T>(xs: seq<T>, small: seq<T>, ix: seq<nat>, inner: seq<nat>)
    requires (forall a :: 0 <= a < |ix| ==> ix[a] < |xs|) && small == At(xs, ix)
    requires forall a :: 0 <= a < |inner| ==> inner[a] < |ix|
    ensures At(small, inner) == At(xs, At(ix, inner))
  {
  }

  lemma ComposeInOrder<T>(xs: seq<T>, key: T -> Key, ix: seq<nat>, inner: seq<nat>)
    requires (forall a :: 0 <= a < |ix| ==> ix[a] < |xs|) && (forall a, b :: 0 <= a < b < |ix| ==> ix[a] < ix[b])
    requires InOrder(Keys(At(xs, ix), key), inner)
    ensures InOrder(Keys(xs, key), At(ix, inner))
  {
    var keys, small := Keys(xs, key), Keys(At(xs, ix), key);
    var order := At(ix, inner);
    forall a, b | 0 <= a < b < |order| ensures Before(keys, order[a], order[b]) {
      assert Before(small, inner[a], inner[b]);
      assert keys[order[a]] == small[inner[a]] && keys[order[b]] == small[inner[b]];
    }
  }

  lemma ComposeMembers(ix: seq<nat>, inner: seq<nat>)
    requires (forall a :: 0 <= a < |inner| ==> inner[a] < |ix|) && (forall a :: 0 <= a < |ix| ==> a in inner)
    ensures forall i :: i in At(ix, inner) <==> i in ix
  {
    var order := At(ix, inner);
    forall i | i in ix ensures i in order {
      var a :| 0 <= a < |ix| && ix[a] == i;
      assert a in inner;
      var b :| 0 <= b < |inner| && inner[b] == a;
      assert order[b] == i;
    }
    forall i | i in order ensures i in ix {
      var b :| 0 <= b < |order| && order[b] == i;
      assert ix[inner[b]] == i;
    }
  }

  /** A stable sort by a two-valued key puts the first group before the second and keeps both in order. */
  lemma SortByFlag<T>(xs: seq<T>, first: T -> bool, key: T -> Key)
    requires forall i :: 0 <= i < |xs| ==> key(xs[i]) == Key(if first(xs[i]) then 0 else 1, 0)
    ensures StableSort(xs, key) == Filter(xs, first) + Filter(xs, Not(first))
  {
    var keys := Keys(xs, key);
    var one, two := Chosen(xs, first), Chosen(xs, Not(first));
    FlagGroups(xs, first, key);
    SortOrderInOrder(keys);
    AllIndices(keys);
    OrderUnique(keys, one + two, SortOrder(keys));
    AtConcat(xs, one, two);
    FilterIsAt(xs, first);
    FilterIsAt(xs, Not(first));
  }

  lemma AtConcat<T>(xs: seq<T>, one: seq<nat>, two: seq<nat>)
    requires (forall a :: 0 <= a < |one| ==> one[a] < |xs|) && (forall a :: 0 <= a < |two| ==> two[a] < |xs|)
    ensures At(xs, one + two) == At(xs, one) + At(xs, two)
  {
  }

  lemma AllIndices(keys: seq<Key>)
    ensures forall i :: i in SortOrder(keys) <==> 0 <= i < |keys|
  {
    SortOrderInOrder(keys);
  }

  lemma FlagGroups<T>(xs: seq<T>, first: T -> bool, key: T -> Key)
    requires forall i :: 0 <= i < |xs| ==> key(xs[i]) == Key(if first(xs[i]) then 0 else 1, 0)
    ensures var order := Chosen(xs, first) + Chosen(xs, Not(first));
      InOrder(Keys(xs, key), order) && forall i :: i in order <==> 0 <= i < |xs|
  {
    var one, two := Chosen(xs, first), Chosen(xs, Not(first));
    ChosenExactly(xs, first);
    ChosenExactly(xs, Not(first));
    FlagKeys(xs, first, key, one, true);
    FlagKeys(xs, first, key, two, false);
    GroupsInOrder(Keys(xs, key), one, two);
    GroupsCover(xs, first, one, two);
  }

  lemma FlagKeys<T>(xs: seq<T>, first: T -> bool, key: T -> Key, ix: seq<nat>, flag: bool)
    requires forall i :: 0 <= i < |xs| ==> key(xs[i]) == Key(if first(xs[i]) then 0 else 1, 0)
    requires forall a :: 0 <= a < |ix| ==> ix[a] < |xs| && first(xs[ix[a]]) == flag
    ensures forall a :: 0 <= a < |ix| ==> Keys(xs, key)[ix[a]] == Key(if flag then 0 else 1, 0)
  {
  }

  lemma GroupsCover<T>(xs: seq<T>, first: T -> bool, one: seq<nat>, two: seq<nat>)
    requires (forall a :: 0 <= a < |one| ==> one[a] < |xs|) && (forall a :: 0 <= a < |two| ==> two[a] < |xs|)
    requires forall i :: 0 <= i < |xs| ==> (i in one <==> first(xs[i])) && (i in two <==> !first(xs[i]))
    ensures forall i :: i in one + two <==> 0 <= i < |xs|
  {
  }

  lemma GroupsInOrder(keys: seq<Key>, one: seq<nat>, two: seq<nat>)
    requires forall a :: 0 <= a < |one| ==> one[a] < |keys| && keys[one[a]] == Key(0, 0)
    requires forall a :: 0 <= a < |two| ==> two[a] < |keys| && keys[two[a]] == Key(1, 0)
    requires forall a, b :: 0 <= a < b < |one| ==> one[a] < one[b]
    requires forall a, b :: 0 <= a < b < |two| ==> two[a] < two[b]
    ensures InOrder(keys, one + two)
  {
  }
}
