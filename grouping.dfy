/**
 * Grouping of a sequence by a key, as lodash's `_.groupBy` followed by a
 * `for ... in` walk over the resulting object: one group per distinct key, the
 * groups in the order in which their keys first occur, and the members of each
 * group in their original order. (A `for ... in` walk visits string keys in
 * insertion order; the batch keys of the scheduler are never integer-like, so
 * no reordering applies.)
 */
module Grouping {

  /** The elements of `xs` whose key is `k`, in their original order. */
  function Select<T(==), K(==)>(xs: seq<T>, key: T -> K, k: K): (g: seq<T>)
    ensures forall y :: y in g ==> y in xs && key(y) == k
    decreases |xs|
  {
    if xs == [] then []
    else
      var init, last := xs[..|xs| - 1], xs[|xs| - 1];
      assert xs == init + [last];
      Select(init, key, k) + if key(last) == k then [last] else []
  }

  /** An element carrying the key `k` is selected as often as it occurs; any other, never. */
  lemma {:induction false} SelectCount<T, K>(xs: seq<T>, key: T -> K, k: K, x: T)
    ensures multiset(Select(xs, key, k))[x] == if key(x) == k then multiset(xs)[x] else 0
    decreases |xs|
  {
    if xs != [] {
      var init, last := xs[..|xs| - 1], xs[|xs| - 1];
      assert xs == init + [last];
      SelectCount(init, key, k, x);
    }
  }

  /** The distinct keys of `xs`, in order of first occurrence. */
  function Keys<T(==), K(==)>(xs: seq<T>, key: T -> K): (ks: seq<K>)
    ensures forall x :: x in xs ==> key(x) in ks
    decreases |xs|
  {
    if xs == [] then []
    else
      var init, last := xs[..|xs| - 1], xs[|xs| - 1];
      assert xs == init + [last];
      var ks := Keys(init, key);
      if key(last) in ks then ks else ks + [key(last)]
  }

  /** No key is listed twice. */
  lemma {:induction false} KeysDistinct<T, K>(xs: seq<T>, key: T -> K, i: nat, j: nat)
    requires i < j < |Keys(xs, key)|
    ensures Keys(xs, key)[i] != Keys(xs, key)[j]
    decreases |xs|
  {
    var init, last := xs[..|xs| - 1], xs[|xs| - 1];
    var ks := Keys(init, key);
    if j < |ks| {
      KeysDistinct(init, key, i, j);
    } else {
      assert ks[i] in ks;
    }
  }

  /** Every listed key belongs to some element. */
  lemma {:induction false} KeyWitness<T, K>(xs: seq<T>, key: T -> K, k: K) returns (x: T)
    requires k in Keys(xs, key)
    ensures x in xs && key(x) == k
    decreases |xs|
  {
    var init, last := xs[..|xs| - 1], xs[|xs| - 1];
    assert xs == init + [last];
    if k in Keys(init, key) {
      x := KeyWitness(init, key, k);
    } else {
      x := last;
    }
  }

  /** One group per distinct key, in order of first occurrence. */
  function GroupBy<T(==), K(==)>(xs: seq<T>, key: T -> K): (gs: seq<seq<T>>)
    ensures |gs| == |Keys(xs, key)|
  {
    GroupsOf(xs, key, Keys(xs, key))
  }

  /** The groups of the keys `ks`, in that order. */
  function GroupsOf<T(==), K(==)>(xs: seq<T>, key: T -> K, ks: seq<K>): (gs: seq<seq<T>>)
    ensures |gs| == |ks|
    decreases |ks|
  {
    if ks == [] then []
    else GroupsOf(xs, key, ks[..|ks| - 1]) + [Select(xs, key, ks[|ks| - 1])]
  }

  lemma {:induction false} GroupsOfAt<T, K>(xs: seq<T>, key: T -> K, ks: seq<K>, i: nat)
    requires i < |ks|
    ensures GroupsOf(xs, key, ks)[i] == Select(xs, key, ks[i])
    decreases |ks|
  {
    if i < |ks| - 1 {
      GroupsOfAt(xs, key, ks[..|ks| - 1], i);
    }
  }

  /** The i-th group collects exactly the elements carrying the i-th key. */
  lemma GroupAt<T, K>(xs: seq<T>, key: T -> K, i: nat)
    requires i < |Keys(xs, key)|
    ensures |GroupBy(xs, key)| == |Keys(xs, key)|
    ensures GroupBy(xs, key)[i] == Select(xs, key, Keys(xs, key)[i])
  {
    GroupsOfAt(xs, key, Keys(xs, key), i);
  }

  /** The i-th group is non-empty and headed by an element carrying its key. */
  lemma GroupHead<T, K>(xs: seq<T>, key: T -> K, i: nat)
    requires i < |Keys(xs, key)|
    ensures |GroupBy(xs, key)| == |Keys(xs, key)|
    ensures GroupBy(xs, key)[i] != [] && key(GroupBy(xs, key)[i][0]) == Keys(xs, key)[i]
  {
    var ks := Keys(xs, key);
    GroupAt(xs, key, i);
    var x := KeyWitness(xs, key, ks[i]);
    SelectCount(xs, key, ks[i], x);
    var g := GroupBy(xs, key)[i];
    assert multiset(g)[x] > 0;
    assert g[0] in g;
  }

  /** One element makes one group. */
  lemma GroupByOne<T, K>(x: T, key: T -> K)
    ensures Keys([x], key) == [key(x)] && Select([x], key, key(x)) == [x]
    ensures GroupBy([x], key) == [[x]]
  {
    assert [x][..0] == [];
  }

  /** Two elements make one group when their keys agree and two otherwise. */
  lemma KeysOfTwo<T, K>(x: T, y: T, key: T -> K)
    ensures Keys([x, y], key) == if key(x) == key(y) then [key(x)] else [key(x), key(y)]
  {
    assert [x, y][..1] == [x];
    GroupByOne(x, key);
  }

  /** Two elements sharing a key are both selected by it, in order. */
  lemma SelectTwo<T, K>(x: T, y: T, key: T -> K)
    requires key(x) == key(y)
    ensures Select([x, y], key, key(x)) == [x, y]
  {
    assert [x, y][..1] == [x];
    GroupByOne(x, key);
  }

  /** No elements, no groups. */
  lemma GroupByEmpty<T, K>(key: T -> K)
    ensures GroupBy([], key) == []
  {
  }

  /** `rank` strictly increases along `xs`. */
  predicate Ascending<T>(xs: seq<T>, rank: T -> int)
    decreases |xs|
  {
    |xs| <= 1 || (rank(xs[|xs| - 2]) < rank(xs[|xs| - 1]) && Ascending(xs[..|xs| - 1], rank))
  }

  /** Along an ascending sequence, an earlier element ranks below a later one. */
  lemma {:induction false} AscendingAt<T>(xs: seq<T>, rank: T -> int, a: nat, b: nat)
    requires Ascending(xs, rank) && a < b < |xs|
    ensures rank(xs[a]) < rank(xs[b])
    decreases |xs|
  {
    var n := |xs| - 1;
    var init := xs[..n];
    if b < n {
      AscendingAt(init, rank, a, b);
    } else if a < n - 1 {
      AscendingAt(init, rank, a, n - 1);
    }
  }

  /** An element ranking above the last keeps a sequence ascending. */
  lemma AscendingSnoc<T>(xs: seq<T>, x: T, rank: T -> int)
    requires Ascending(xs, rank) && (xs != [] ==> rank(xs[|xs| - 1]) < rank(x))
    ensures Ascending(xs + [x], rank)
  {
    assert (xs + [x])[..|xs|] == xs;
  }

  /** Selection keeps the original order: an ascending sequence has ascending groups. */
  lemma {:induction false} SelectKeepsOrder<T, K>(xs: seq<T>, key: T -> K, k: K, rank: T -> int)
    requires Ascending(xs, rank)
    ensures Ascending(Select(xs, key, k), rank)
    decreases |xs|
  {
    if xs != [] {
      var n := |xs| - 1;
      var init := xs[..n];
      SelectKeepsOrder(init, key, k, rank);
      var s := Select(init, key, k);
      if key(xs[n]) == k && s != [] {
        var y := s[|s| - 1];
        assert y in s;
        var m :| 0 <= m < n && init[m] == y;
        AscendingAt(xs, rank, m, n);
        var t := s + [xs[n]];
        assert Select(xs, key, k) == t;
        assert t[..|t| - 1] == s && t[|t| - 2] == y;
      } else if key(xs[n]) == k {
        assert Select(xs, key, k) == [xs[n]];
      } else {
        assert Select(xs, key, k) == s;
      }
    }
  }
}
