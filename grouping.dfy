/** LINQ's `GroupBy` over a sequence: groups in the order their keys first
    appear, each holding its members in their original order. */
module Grouping {
  import opened Common

  datatype Group<K, T> = Group(key: K, members: seq<T>)

  /** The elements of `xs` whose key is `k`, in order. */
  function MembersWithKey<T, K(==)>(xs: seq<T>, key: T -> K, k: K): seq<T>
    decreases |xs|
  {
    if xs == [] then []
    else MembersWithKey(xs[..|xs| - 1], key, k) + (if key(xs[|xs| - 1]) == k then [xs[|xs| - 1]] else [])
  }

  ghost predicate DistinctKeys<K, T>(gs: seq<Group<K, T>>) {
    forall i, j :: 0 <= i < j < |gs| ==> gs[i].key != gs[j].key
  }

  /** The position of the group with key `k`, or -1 when there is none. */
  function IndexOfKey<K(==), T>(gs: seq<Group<K, T>>, k: K): (i: int)
    ensures -1 <= i < |gs|
    ensures 0 <= i ==> gs[i].key == k
    ensures i < 0 ==> forall j :: 0 <= j < |gs| ==> gs[j].key != k
    decreases |gs|
  {
    if gs == [] then -1
    else if gs[0].key == k then 0
    else
      var j := IndexOfKey(gs[1..], k);
      if j < 0 then -1 else j + 1
  }

  /** Files `x` under key `k`: appended to the group with that key, or a new
      group at the end. */
  function AddTo<K(==), T>(gs: seq<Group<K, T>>, k: K, x: T): (r: seq<Group<K, T>>)
    requires DistinctKeys(gs)
    ensures DistinctKeys(r)
    ensures (exists i :: 0 <= i < |gs| && gs[i].key == k) ==> |r| == |gs|
    ensures (forall i :: 0 <= i < |gs| ==> gs[i].key != k) ==> r == gs + [Group(k, [x])]
    ensures |gs| <= |r|
    ensures forall i :: 0 <= i < |gs| ==>
      r[i].key == gs[i].key && r[i].members == gs[i].members + (if gs[i].key == k then [x] else [])
  {
    var i := IndexOfKey(gs, k);
    if i < 0 then gs + [Group(k, [x])]
    else
      assert forall j :: 0 <= j < |gs| && j != i ==> gs[j].key != k;
      gs[i := gs[i].(members := gs[i].members + [x])]
  }

  /** An element whose key no earlier element has opens a new group at the
      end. */
  lemma GroupByNewKey<T, K>(xs: seq<T>, key: T -> K, x: T)
    requires forall j :: 0 <= j < |xs| ==> key(xs[j]) != key(x)
    ensures GroupBy(xs + [x], key) == GroupBy(xs, key) + [Group(key(x), [x])]
  {
    var ys := xs + [x];
    assert ys[..|ys| - 1] == xs;
    var gs := GroupBy(xs, key);
    NoMembersWithKey(xs, key, key(x));
    forall i | 0 <= i < |gs|
      ensures gs[i].key != key(x)
    {
      assert |gs[i].members| > 0;
    }
  }

  /** One element makes one singleton group. */
  lemma GroupByOne<T, K>(x: T, key: T -> K)
    ensures GroupBy([x], key) == [Group(key(x), [x])]
  {
    var none: seq<T> := [];
    GroupByNewKey(none, key, x);
    assert none + [x] == [x];
  }

  /** Two elements with different keys make two singleton groups, in order. */
  lemma GroupByTwoKeys<T, K>(x: T, y: T, key: T -> K)
    requires key(x) != key(y)
    ensures GroupBy([x, y], key) == [Group(key(x), [x]), Group(key(y), [y])]
  {
    var xs := [x, y];
    assert xs[..1] == [x];
    GroupByOne(x, key);
    var first := [Group(key(x), [x])];
    assert IndexOfKey(first, key(y)) == -1;
    assert GroupBy(xs, key) == AddTo(first, key(y), y);
  }

  /** Every group holds exactly the elements of `xs` with its key. */
  ghost predicate Exact<T, K>(gs: seq<Group<K, T>>, xs: seq<T>, key: T -> K) {
    forall i :: 0 <= i < |gs| ==> gs[i].members == MembersWithKey(xs, key, gs[i].key)
  }

  ghost predicate NonEmpty<K, T>(gs: seq<Group<K, T>>) {
    forall i :: 0 <= i < |gs| ==> |gs[i].members| > 0
  }

  /** Every element's key has a group. */
  ghost predicate Covers<T, K>(gs: seq<Group<K, T>>, xs: seq<T>, key: T -> K) {
    forall j :: 0 <= j < |xs| ==> KeyPresent(gs, key(xs[j]))
  }

  /** Grouping `xs` by `key`: every group is non-empty and holds exactly the
      elements with its key, no key is used twice, and every element's key
      has a group. */
  function GroupBy<T, K(==)>(xs: seq<T>, key: T -> K): (gs: seq<Group<K, T>>)
    ensures DistinctKeys(gs) && Exact(gs, xs, key) && NonEmpty(gs) && Covers(gs, xs, key)
    ensures |gs| <= |xs|
    decreases |xs|
  {
    if xs == [] then []
    else
      var n := |xs| - 1;
      var gs := GroupBy(xs[..n], key);
      GroupByStep(xs, key, gs);
      AddTo(gs, key(xs[n]), xs[n])
  }

  lemma GroupByStep<T, K>(xs: seq<T>, key: T -> K, gs: seq<Group<K, T>>)
    requires |xs| > 0
    requires DistinctKeys(gs) && Exact(gs, xs[..|xs| - 1], key) && NonEmpty(gs) && Covers(gs, xs[..|xs| - 1], key)
    requires |gs| <= |xs| - 1
    ensures var r := AddTo(gs, key(xs[|xs| - 1]), xs[|xs| - 1]);
      Exact(r, xs, key) && NonEmpty(r) && Covers(r, xs, key) && |r| <= |xs|
  {
    var n := |xs| - 1;
    var k, x := key(xs[n]), xs[n];
    var r := AddTo(gs, k, x);
    var found := exists i :: 0 <= i < |gs| && gs[i].key == k;
    if !found {
      AbsentKeyHasNoMembers(xs[..n], key, k, gs);
      assert r[|gs|].members == MembersWithKey(xs, key, k) by {
        assert xs[..n] == xs[..|xs| - 1];
      }
    }
    assert |r| > |gs| ==> r[|gs|].key == k && |r[|gs|].members| > 0;
    ExactStep(xs, key, gs, r);
    assert KeyPresent(r, k) by {
      if i :| 0 <= i < |gs| && gs[i].key == k {
        assert r[i].key == k;
      } else {
        assert r[|gs|].key == k;
      }
    }
    CoversStep(xs, key, gs, r);
  }

  lemma AbsentKeyHasNoMembers<T, K>(xs: seq<T>, key: T -> K, k: K, gs: seq<Group<K, T>>)
    requires Covers(gs, xs, key)
    requires forall i :: 0 <= i < |gs| ==> gs[i].key != k
    ensures MembersWithKey(xs, key, k) == []
  {
    forall j | 0 <= j < |xs|
      ensures key(xs[j]) != k
    {
      var i :| 0 <= i < |gs| && gs[i].key == key(xs[j]);
    }
    NoMembersWithKey(xs, key, k);
  }

  lemma ExactStep<T, K>(xs: seq<T>, key: T -> K, gs: seq<Group<K, T>>, r: seq<Group<K, T>>)
    requires |xs| > 0
    requires Exact(gs, xs[..|xs| - 1], key) && NonEmpty(gs)
    requires |gs| <= |r| <= |gs| + 1
    requires forall i :: 0 <= i < |gs| ==>
      r[i].key == gs[i].key && r[i].members == gs[i].members + (if gs[i].key == key(xs[|xs| - 1]) then [xs[|xs| - 1]] else [])
    requires |r| > |gs| ==>
      r[|gs|].key == key(xs[|xs| - 1]) && r[|gs|].members == MembersWithKey(xs, key, key(xs[|xs| - 1])) && |r[|gs|].members| > 0
    ensures Exact(r, xs, key) && NonEmpty(r)
  {
    var n := |xs| - 1;
    forall i | 0 <= i < |r|
      ensures r[i].members == MembersWithKey(xs, key, r[i].key) && |r[i].members| > 0
    {
      if i < |gs| {
        assert gs[i].members == MembersWithKey(xs[..|xs| - 1], key, gs[i].key);
        assert |gs[i].members| > 0;
        assert r[i].key == gs[i].key;
        assert r[i].members == gs[i].members + (if gs[i].key == key(xs[|xs| - 1]) then [xs[|xs| - 1]] else []);
        ExactAt(xs, key, gs[i], r[i]);
        assert r[i].members == MembersWithKey(xs, key, r[i].key);
      } else {
        assert i == |gs|;
      }
    }
  }

  /** One old group after the last element is filed. */
  lemma ExactAt<T, K>(xs: seq<T>, key: T -> K, g: Group<K, T>, g': Group<K, T>)
    requires |xs| > 0
    requires g.members == MembersWithKey(xs[..|xs| - 1], key, g.key) && |g.members| > 0
    requires g'.key == g.key && g'.members == g.members + (if g.key == key(xs[|xs| - 1]) then [xs[|xs| - 1]] else [])
    ensures g'.members == MembersWithKey(xs, key, g'.key) && |g'.members| > 0
  {
    MembersWithKeyLast(xs, key, g.key);
  }

  lemma MembersWithKeyLast<T, K>(xs: seq<T>, key: T -> K, k: K)
    requires |xs| > 0
    ensures MembersWithKey(xs, key, k)
         == MembersWithKey(xs[..|xs| - 1], key, k) + (if key(xs[|xs| - 1]) == k then [xs[|xs| - 1]] else [])
  {
  }

  lemma CoversStep<T, K>(xs: seq<T>, key: T -> K, gs: seq<Group<K, T>>, r: seq<Group<K, T>>)
    requires |xs| > 0
    requires Covers(gs, xs[..|xs| - 1], key)
    requires |gs| <= |r| && forall i :: 0 <= i < |gs| ==> r[i].key == gs[i].key
    requires KeyPresent(r, key(xs[|xs| - 1]))
    ensures Covers(r, xs, key)
  {
    var n := |xs| - 1;
    forall j | 0 <= j < n
      ensures KeyPresent(gs, key(xs[j]))
    {
      assert xs[..n][j] == xs[j];
    }
    KeysKept(gs, r);
  }

  /** Every key of `gs` is still a key of `r`, which extends it. */
  lemma KeysKept<K, T>(gs: seq<Group<K, T>>, r: seq<Group<K, T>>)
    requires |gs| <= |r|
    requires forall i :: 0 <= i < |gs| ==> r[i].key == gs[i].key
    ensures forall k :: KeyPresent(gs, k) ==> KeyPresent(r, k)
  {
    forall k | KeyPresent(gs, k)
      ensures KeyPresent(r, k)
    {
      var i :| 0 <= i < |gs| && gs[i].key == k;
      assert r[i].key == k;
    }
  }

  ghost predicate KeyPresent<K, T>(gs: seq<Group<K, T>>, k: K) {
    exists i :: 0 <= i < |gs| && gs[i].key == k
  }

  /** No element has key `k`, so its group would be empty. */
  lemma {:induction false} NoMembersWithKey<T, K>(xs: seq<T>, key: T -> K, k: K)
    requires forall j :: 0 <= j < |xs| ==> key(xs[j]) != k
    ensures MembersWithKey(xs, key, k) == []
    decreases |xs|
  {
    if xs != [] {
      var n := |xs| - 1;
      forall j | 0 <= j < n
        ensures key(xs[..n][j]) != k
      {
        assert xs[..n][j] == xs[j];
      }
      NoMembersWithKey(xs[..n], key, k);
    }
  }

  /** Every member of a key's group carries that key and comes from `xs`. */
  lemma {:induction false} MembersHaveKey<T, K>(xs: seq<T>, key: T -> K, k: K)
    ensures forall y :: y in MembersWithKey(xs, key, k) ==> y in xs && key(y) == k
    decreases |xs|
  {
    if xs != [] {
      var n := |xs| - 1;
      var front := MembersWithKey(xs[..n], key, k);
      var last: seq<T> := if key(xs[n]) == k then [xs[n]] else [];
      assert MembersWithKey(xs, key, k) == front + last;
      MembersHaveKey(xs[..n], key, k);
      forall y | y in front + last
        ensures y in xs && key(y) == k
      {
        if y in front {
          assert y in xs[..n];
        }
      }
    }
  }

  /** Every element's key is the key of one of the groups. */
  lemma GroupOfElement<T, K>(xs: seq<T>, key: T -> K, x: T)
    requires x in xs
    ensures exists i :: 0 <= i < |GroupBy(xs, key)| && GroupBy(xs, key)[i].key == key(x)
  {
    var j :| 0 <= j < |xs| && xs[j] == x;
    assert KeyPresent(GroupBy(xs, key), key(xs[j]));
  }

  /** The distinct keys of the elements. */
  ghost function KeySet<T, K>(xs: seq<T>, key: T -> K): set<K> {
    set x | x in xs :: key(x)
  }

  /** There is one group per distinct key of the elements, no more and no
      fewer. */
  lemma GroupCount<T, K>(xs: seq<T>, key: T -> K)
    ensures |GroupBy(xs, key)| == |KeySet(xs, key)|
  {
    var gs := GroupBy(xs, key);
    KeySetsAgree(xs, key, gs);
    DistinctKeysCount(gs);
  }

  lemma KeySetsAgree<T, K>(xs: seq<T>, key: T -> K, gs: seq<Group<K, T>>)
    requires Exact(gs, xs, key) && NonEmpty(gs) && Covers(gs, xs, key)
    ensures (set g | g in gs :: g.key) == (set x | x in xs :: key(x))
  {
    forall g | g in gs
      ensures g.key in (set x | x in xs :: key(x))
    {
      var i :| 0 <= i < |gs| && gs[i] == g;
      MembersHaveKey(xs, key, g.key);
      assert g.members[0] in MembersWithKey(xs, key, g.key);
    }
    forall x | x in xs
      ensures key(x) in (set g | g in gs :: g.key)
    {
      var j :| 0 <= j < |xs| && xs[j] == x;
      assert KeyPresent(gs, key(xs[j]));
      var i :| 0 <= i < |gs| && gs[i].key == key(x);
      assert gs[i] in gs;
    }
  }

  lemma {:induction false} DistinctKeysCount<K, T>(gs: seq<Group<K, T>>)
    requires DistinctKeys(gs)
    ensures |set g | g in gs :: g.key| == |gs|
    decreases |gs|
  {
    if gs != [] {
      var n := |gs| - 1;
      var front := gs[..n];
      assert DistinctKeys(front);
      DistinctKeysCount(front);
      assert gs == front + [gs[n]];
      KeySetSnoc(front, gs[n]);
      LastKeyIsNew(gs);
    }
  }

  lemma KeySetSnoc<K, T>(front: seq<Group<K, T>>, g: Group<K, T>)
    ensures (set h | h in front + [g] :: h.key) == (set h | h in front :: h.key) + {g.key}
  {
    var all := set h | h in front + [g] :: h.key;
    forall c | c in all
      ensures c in (set h | h in front :: h.key) + {g.key}
    {
      var h :| h in front + [g] && h.key == c;
    }
  }

  lemma LastKeyIsNew<K, T>(gs: seq<Group<K, T>>)
    requires |gs| > 0 && DistinctKeys(gs)
    ensures gs[|gs| - 1].key !in (set h | h in gs[..|gs| - 1] :: h.key)
  {
    var n := |gs| - 1;
    forall h | h in gs[..n]
      ensures h.key != gs[n].key
    {
      var i :| 0 <= i < n && gs[..n][i] == h;
      assert gs[i].key != gs[n].key;
    }
  }

  /** Sum of `f` over every member of every group. */
  function SumGroups<K, T>(gs: seq<Group<K, T>>, f: T -> int): int
    decreases |gs|
  {
    if gs == [] then 0 else SumBy(gs[0].members, f) + SumGroups(gs[1..], f)
  }

  lemma AddToSum<K, T>(gs: seq<Group<K, T>>, k: K, x: T, f: T -> int)
    requires DistinctKeys(gs)
    ensures SumGroups(AddTo(gs, k, x), f) == SumGroups(gs, f) + f(x)
  {
    var i := IndexOfKey(gs, k);
    assert SumBy([x], f) == f(x) + SumBy([x][1..], f);
    if i < 0 {
      SumGroupsAppend(gs, Group(k, [x]), f);
    } else {
      SumByAppend(gs[i].members, [x], f);
      SumGroupsUpdate(gs, i, gs[i].(members := gs[i].members + [x]), f);
    }
  }

  lemma {:induction false} SumGroupsAppend<K, T>(gs: seq<Group<K, T>>, g: Group<K, T>, f: T -> int)
    ensures SumGroups(gs + [g], f) == SumGroups(gs, f) + SumBy(g.members, f)
    decreases |gs|
  {
    if gs == [] {
      assert [g][1..] == [];
    } else {
      assert (gs + [g])[1..] == gs[1..] + [g];
      SumGroupsAppend(gs[1..], g, f);
    }
  }

  lemma {:induction false} SumGroupsUpdate<K, T>(gs: seq<Group<K, T>>, i: int, g: Group<K, T>, f: T -> int)
    requires 0 <= i < |gs|
    ensures SumGroups(gs[i := g], f) == SumGroups(gs, f) - SumBy(gs[i].members, f) + SumBy(g.members, f)
    decreases |gs|
  {
    if i == 0 {
      assert gs[i := g][1..] == gs[1..];
    } else {
      assert gs[i := g][1..] == gs[1..][i - 1 := g];
      SumGroupsUpdate(gs[1..], i - 1, g, f);
    }
  }

  /** Grouping neither loses nor duplicates anything: the group sums add up
      to the sum over all elements. */
  lemma {:induction false} GroupByConserves<T, K>(xs: seq<T>, key: T -> K, f: T -> int)
    ensures SumGroups(GroupBy(xs, key), f) == SumBy(xs, f)
    decreases |xs|
  {
    if xs != [] {
      var n := |xs| - 1;
      var gs := GroupBy(xs[..n], key);
      assert GroupBy(xs, key) == AddTo(gs, key(xs[n]), xs[n]);
      GroupByConserves(xs[..n], key, f);
      AddToSum(gs, key(xs[n]), xs[n], f);
      SumByLast(xs, f);
    }
  }

  lemma SumByLast<T>(xs: seq<T>, f: T -> int)
    requires |xs| > 0
    ensures SumBy(xs, f) == SumBy(xs[..|xs| - 1], f) + f(xs[|xs| - 1])
  {
    var n := |xs| - 1;
    assert xs == xs[..n] + [xs[n]];
    SumByAppend(xs[..n], [xs[n]], f);
    assert SumBy([xs[n]], f) == f(xs[n]) + SumBy([xs[n]][1..], f);
  }

  /** When each row carries the sum of `f` over its group, the rows' total
      is the total over all the groups' members. */
  lemma {:induction false} SumOfRows<K, T, R>(gs: seq<Group<K, T>>, rows: seq<R>, measure: R -> int, f: T -> int)
    requires |rows| == |gs|
    requires forall i :: 0 <= i < |gs| ==> measure(rows[i]) == SumBy(gs[i].members, f)
    ensures SumBy(rows, measure) == SumGroups(gs, f)
    decreases |gs|
  {
    if gs != [] {
      SumOfRows(gs[1..], rows[1..], measure, f);
    }
  }
}
