/**
 * Tallies built in a JavaScript `Map` by one pass over a list: the keys in the order the
 * `Map` first meets them, and the elements that fall under each key.
 */
module Grouping {
  import opened Seqs

  function KeyIs<T, K(==)>(key: T -> K, k: K): T -> bool {
    x => key(x) == k
  }

  function KeyIn<T, K(==)>(key: T -> K, ks: seq<K>): T -> bool {
    x => key(x) in ks
  }

  /** The elements of `s` whose key is `k`, in their order in `s`. */
  function Bucket<T, K(==)>(s: seq<T>, key: T -> K, k: K): (r: seq<T>)
    ensures |r| <= |s|
    ensures forall i :: 0 <= i < |r| ==> key(r[i]) == k
  {
    Filter(s, KeyIs(key, k))
  }

  /** An element lies in the bucket of its own key and in no other. */
  lemma BucketMembers<T, K>(s: seq<T>, key: T -> K, k: K, x: T)
    ensures x in Bucket(s, key, k) <==> x in s && key(x) == k
  {
    FilterMembers(s, KeyIs(key, k), x);
  }

  /** One more element joins the end of its own bucket and leaves the others as they were. */
  lemma BucketSnoc<T, K>(s: seq<T>, x: T, key: T -> K, k: K)
    ensures Bucket(s + [x], key, k) == Bucket(s, key, k) + (if key(x) == k then [x] else [])
  {
    FilterAppend(s, [x], KeyIs(key, k));
    assert [x][1..] == [];
  }

  ghost predicate Distinct<K>(ks: seq<K>) {
    forall i, j :: 0 <= i < j < |ks| ==> ks[i] != ks[j]
  }

  /** The keys of the elements of `s`, each once, in the order of their first occurrence. */
  function Keys<T, K(==)>(s: seq<T>, key: T -> K): seq<K>
    decreases |s|
  {
    if s == [] then []
    else
      var r := Keys(s[..|s| - 1], key);
      var k := key(s[|s| - 1]);
      if k in r then r else r + [k]
  }

  /** The keys are distinct, and they are exactly the keys of the elements. */
  lemma {:induction false} KeysSpec<T, K>(s: seq<T>, key: T -> K)
    ensures Distinct(Keys(s, key))
    ensures forall i :: 0 <= i < |s| ==> key(s[i]) in Keys(s, key)
    ensures forall k :: k in Keys(s, key) ==> Bucket(s, key, k) != []
    decreases |s|
  {
    if s != [] {
      var init, x := s[..|s| - 1], s[|s| - 1];
      KeysSpec(init, key);
      assert s == init + [x];
      forall k | k in Keys(s, key)
        ensures Bucket(s, key, k) != []
      {
        BucketSnoc(init, x, key, k);
      }
      forall i | 0 <= i < |s|
        ensures key(s[i]) in Keys(s, key)
      {
        if i < |s| - 1 {
          assert s[i] == init[i];
        }
      }
    }
  }

  /** `Keys` of a list one element longer. */
  lemma KeysSnoc<T, K>(s: seq<T>, x: T, key: T -> K)
    ensures Keys(s + [x], key) == if key(x) in Keys(s, key) then Keys(s, key) else Keys(s, key) + [key(x)]
  {
    assert (s + [x])[..|s|] == s;
  }

  /** `counts.get(k) ?? 0`. */
  function CountIn<K>(counts: map<K, nat>, k: K): nat {
    if k in counts then counts[k] else 0
  }

  /** A `Map` of counts built from `s`: its keys in insertion order, each counting its elements. */
  ghost predicate Tallied<T, K(!new)>(s: seq<T>, key: T -> K, keys: seq<K>, counts: map<K, nat>) {
    && keys == Keys(s, key)
    && (forall k :: k in counts <==> k in keys)
    && (forall k :: CountIn(counts, k) == |Bucket(s, key, k)|)
  }

  /**
   * `counts.set(k, (counts.get(k) ?? 0) + 1)` for the key `k` of the next element keeps the
   * tally: a tally of `s[..i]` becomes one of `s[..i + 1]`.
   */
  lemma TallyStep<T, K(!new)>(s: seq<T>, i: nat, key: T -> K, keys: seq<K>, counts: map<K, nat>)
    requires i < |s| && Tallied(s[..i], key, keys, counts)
    ensures Tallied(s[..i + 1], key,
      if key(s[i]) in counts then keys else keys + [key(s[i])],
      counts[key(s[i]) := CountIn(counts, key(s[i])) + 1])
  {
    var x := s[i];
    assert s[..i + 1] == s[..i] + [x];
    KeysSnoc(s[..i], x, key);
    var counts' := counts[key(x) := CountIn(counts, key(x)) + 1];
    forall k
      ensures CountIn(counts', k) == |Bucket(s[..i + 1], key, k)|
    {
      BucketSnoc(s[..i], x, key, k);
    }
  }

  /** `counts.set(k, (counts.get(k) ?? 0) + 1)` with `k` the key of `s[i]`, the tally of `s[..i]` in hand. */
  method Increment<T, K(==, !new)>(s: seq<T>, i: nat, key: T -> K, keys: seq<K>, counts: map<K, nat>)
    returns (keys': seq<K>, counts': map<K, nat>)
    requires i < |s| && Tallied(s[..i], key, keys, counts)
    ensures Tallied(s[..i + 1], key, keys', counts')
  {
    var k := key(s[i]);
    keys' := if k in counts then keys else keys + [k];
    counts' := counts[k := CountIn(counts, k) + 1];
    TallyStep(s, i, key, keys, counts);
  }

  /** The total size of the buckets of the keys `ks`. */
  function SizesSum<T, K(==)>(s: seq<T>, key: T -> K, ks: seq<K>): nat
    decreases |ks|
  {
    if ks == [] then 0 else |Bucket(s, key, ks[0])| + SizesSum(s, key, ks[1..])
  }

  /** Over distinct keys the buckets count each element whose key is among them exactly once. */
  lemma {:induction false} SizesSumCount<T, K>(s: seq<T>, key: T -> K, ks: seq<K>)
    requires Distinct(ks)
    ensures SizesSum(s, key, ks) == |Filter(s, KeyIn(key, ks))|
    decreases |ks|
  {
    if ks == [] {
      FilterNoneHolds(s, KeyIn(key, ks));
    } else {
      var rest := ks[1..];
      assert Distinct(rest);
      SizesSumCount(s, key, rest);
      forall i | 0 <= i < |s|
        ensures key(s[i]) in ks <==> key(s[i]) == ks[0] || key(s[i]) in rest
        ensures !(key(s[i]) == ks[0] && key(s[i]) in rest)
      {
        assert ks == [ks[0]] + rest;
      }
      FilterDisjoint(s, KeyIs(key, ks[0]), KeyIn(key, rest), KeyIn(key, ks));
    }
  }

  lemma {:induction false} FilterNoneHolds<T>(s: seq<T>, p: T -> bool)
    requires forall i :: 0 <= i < |s| ==> !p(s[i])
    ensures Filter(s, p) == []
    decreases |s|
  {
    if s != [] {
      FilterNoneHolds(s[1..], p);
    }
  }

  /** The buckets of all the keys together hold every element once: their sizes add up to `|s|`. */
  lemma SizesSumAll<T, K>(s: seq<T>, key: T -> K)
    ensures SizesSum(s, key, Keys(s, key)) == |s|
  {
    KeysSpec(s, key);
    SizesSumCount(s, key, Keys(s, key));
    FilterKeepsAll(s, KeyIn(key, Keys(s, key)));
  }
}
