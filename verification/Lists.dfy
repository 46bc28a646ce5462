/** Lists without repetitions, and the loops that filter, collect and record their items. */
module Lists {
  import opened Common

  predicate Distinct<T(==)>(xs: seq<T>) {
    forall i, j :: 0 <= i < j < |xs| ==> xs[i] != xs[j]
  }

  function Elements<T(==)>(xs: seq<T>): set<T> {
    set x | x in xs
  }

  lemma {:induction false} DistinctCount<T>(xs: seq<T>)
    requires Distinct(xs)
    ensures |Elements(xs)| == |xs|
    decreases |xs|
  {
    if xs != [] {
      var front := xs[..|xs| - 1];
      DistinctCount(front);
      assert Elements(xs) == Elements(front) + {xs[|xs| - 1]};
    }
  }

  // ---------- loops that remember what they saw ----------

  /** The first `n` elements, as a loop that remembers them in a set. */
  function Seen<T(==)>(xs: seq<T>, n: nat): set<T>
    requires n <= |xs|
  {
    if n == 0 then {} else Seen(xs, n - 1) + {xs[n - 1]}
  }

  /** None of the first `n` elements was seen before its turn. */
  predicate NoneSeenTwice<T(==)>(xs: seq<T>, n: nat)
    requires n <= |xs|
  {
    n == 0 || (NoneSeenTwice(xs, n - 1) && xs[n - 1] !in Seen(xs, n - 1))
  }

  lemma {:induction false} SeenMeans<T>(xs: seq<T>, n: nat, x: T)
    requires n <= |xs|
    ensures x in Seen(xs, n) <==> exists k :: 0 <= k < n && xs[k] == x
  {
    if n > 0 {
      SeenMeans(xs, n - 1, x);
    }
  }

  lemma {:induction false} NoneSeenTwiceMeans<T>(xs: seq<T>, n: nat)
    requires n <= |xs|
    ensures NoneSeenTwice(xs, n) <==> forall i, j :: 0 <= i < j < n ==> xs[i] != xs[j]
  {
    if n > 0 {
      NoneSeenTwiceMeans(xs, n - 1);
      SeenMeans(xs, n - 1, xs[n - 1]);
    }
  }

  /** An element seen twice rules distinctness out; none seen twice in the whole list proves it. */
  lemma SeenTwice<T>(xs: seq<T>, n: nat)
    requires n <= |xs|
    ensures Distinct(xs) ==> NoneSeenTwice(xs, n)
    ensures n == |xs| && NoneSeenTwice(xs, n) ==> Distinct(xs)
  {
    NoneSeenTwiceMeans(xs, n);
  }

  /** `dict.fromkeys`: the first `n` elements without repetitions, in order of first occurrence. */
  function UniqueUpTo<T(==)>(xs: seq<T>, n: nat): seq<T>
    requires n <= |xs|
  {
    if n == 0 then []
    else
      var front := UniqueUpTo(xs, n - 1);
      if xs[n - 1] in front then front else front + [xs[n - 1]]
  }

  function Unique<T(==)>(xs: seq<T>): seq<T> {
    UniqueUpTo(xs, |xs|)
  }

  lemma {:induction false} UniqueUpToMeans<T>(xs: seq<T>, n: nat)
    requires n <= |xs|
    ensures Distinct(UniqueUpTo(xs, n)) && forall x :: x in UniqueUpTo(xs, n) <==> x in xs[..n]
  {
    if n > 0 {
      UniqueUpToMeans(xs, n - 1);
      assert xs[..n] == xs[..n - 1] + [xs[n - 1]];
    }
  }

  lemma UniqueMeans<T>(xs: seq<T>)
    ensures Distinct(Unique(xs)) && forall x :: x in Unique(xs) <==> x in xs
  {
    UniqueUpToMeans(xs, |xs|);
    assert xs[..|xs|] == xs;
  }

  method Deduplicate<T(==)>(xs: seq<T>) returns (ys: seq<T>)
    ensures ys == Unique(xs)
  {
    ys := [];
    for i := 0 to |xs|
      invariant ys == UniqueUpTo(xs, i)
    {
      if xs[i] !in ys {
        ys := ys + [xs[i]];
      }
    }
  }

  // ---------- loops that skip ----------

  /** The values among the first `n` entries, in order. */
  function CollectUpTo<T>(xs: seq<Option<T>>, n: nat): seq<T>
    requires n <= |xs|
  {
    if n == 0 then []
    else CollectUpTo(xs, n - 1) + (if xs[n - 1].Some? then [xs[n - 1].value] else [])
  }

  function Collect<T>(xs: seq<Option<T>>): seq<T> {
    CollectUpTo(xs, |xs|)
  }

  lemma {:induction false} CollectUpToKeepsAll<T>(xs: seq<Option<T>>, values: seq<T>, n: nat)
    requires n <= |xs| == |values| && forall i :: 0 <= i < n ==> xs[i] == Some(values[i])
    ensures CollectUpTo(xs, n) == values[..n]
  {
    if n > 0 {
      CollectUpToKeepsAll(xs, values, n - 1);
    }
  }

  /** Nothing is dropped or moved when every value is there. */
  lemma CollectKeepsAll<T>(xs: seq<Option<T>>, values: seq<T>)
    requires |xs| == |values| && forall i :: 0 <= i < |xs| ==> xs[i] == Some(values[i])
    ensures Collect(xs) == values
  {
    CollectUpToKeepsAll(xs, values, |xs|);
    assert values[..|xs|] == values;
  }

  predicate Increasing(at: seq<nat>) {
    forall k, l :: 0 <= k < l < |at| ==> at[k] < at[l]
  }

  /** The values are those of all entries that have one, in order. */
  lemma {:induction false} CollectInOrder<T>(xs: seq<Option<T>>, n: nat) returns (at: seq<nat>)
    requires n <= |xs|
    ensures Increasing(at) && forall k :: 0 <= k < |at| ==> at[k] < n
    ensures forall i :: 0 <= i < n ==> (i in at <==> xs[i].Some?)
    ensures |CollectUpTo(xs, n)| == |at| && forall k :: 0 <= k < |at| ==> xs[at[k]] == Some(CollectUpTo(xs, n)[k])
  {
    if n == 0 {
      at := [];
    } else {
      at := CollectInOrder(xs, n - 1);
      if xs[n - 1].Some? {
        ghost var before := at;
        at := before + [n - 1];
        assert forall i :: i in at <==> i in before || i == n - 1;
      }
    }
  }

  // ---------- loops that record ----------

  /** The map left by assigning the first `n` values to their keys, one after the other. */
  function RecordUpTo<K, V>(keys: seq<K>, values: seq<V>, n: nat): map<K, V>
    requires n <= |keys| == |values|
  {
    if n == 0 then map[] else RecordUpTo(keys, values, n - 1)[keys[n - 1] := values[n - 1]]
  }

  lemma {:induction false} RecordKeys<K, V>(keys: seq<K>, values: seq<V>, n: nat)
    requires n <= |keys| == |values|
    ensures RecordUpTo(keys, values, n).Keys == Seen(keys, n)
  {
    if n > 0 {
      RecordKeys(keys, values, n - 1);
    }
  }

  /** With distinct keys every value can be looked up. */
  lemma {:induction false} RecordLooksUp<K, V>(keys: seq<K>, values: seq<V>, n: nat, i: nat)
    requires i < n <= |keys| == |values| && Distinct(keys)
    ensures keys[i] in RecordUpTo(keys, values, n) && RecordUpTo(keys, values, n)[keys[i]] == values[i]
  {
    if i < n - 1 {
      RecordLooksUp(keys, values, n - 1, i);
    }
  }
}
