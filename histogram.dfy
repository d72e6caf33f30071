/**
 * Counting entries per bucket key, as /api/logs/stats does: a dictionary from key to count,
 * filled in one pass, whose keys are then sorted and paired with their counts.
 */
module Histogram {

  import opened Seqs
  import opened StringOrder

  /** One row of the statistics: a bucket key and how many entries fell into it. */
  datatype Bucket = Bucket(key: string, count: nat)

  /** The distinct keys in the order they were first met: Object.keys of a dictionary filled from ks. */
  function FirstOccurrences(ks: seq<string>): (r: seq<string>)
    ensures |r| <= |ks|
    ensures Unique(r)
    ensures forall k :: k in r <==> k in ks
  {
    if ks == [] then []
    else
      var prefix := ks[..|ks| - 1];
      var last := ks[|ks| - 1];
      assert ks == prefix + [last];
      var d := FirstOccurrences(prefix);
      if last in d then d
      else
        UniqueAppend(d, last);
        d + [last]
  }

  /** Each key paired with the number of times it occurs in ks. */
  function BucketsFor(keys: seq<string>, ks: seq<string>): seq<Bucket>
  {
    seq(|keys|, i requires 0 <= i < |keys| => Bucket(keys[i], multiset(ks)[keys[i]]))
  }

  /** The statistics for one key per entry: one bucket per distinct key, keys in ascending order. */
  function HistogramOf(ks: seq<string>): (r: seq<Bucket>)
    ensures |r| <= |ks|
    ensures r == [] <==> ks == []
  {
    BucketsFor(Sort(FirstOccurrences(ks)), ks)
  }

  /** The sum of the counts of a list of buckets. */
  function Total(bs: seq<Bucket>): nat
  {
    if bs == [] then 0 else bs[0].count + Total(bs[1..])
  }

  /** bs is a correct histogram of ks: strictly ascending keys, exact counts, and no key missing. */
  ghost predicate IsHistogram(ks: seq<string>, bs: seq<Bucket>)
  {
    && (forall i, j :: 0 <= i < j < |bs| ==> Less(bs[i].key, bs[j].key))
    && (forall i :: 0 <= i < |bs| ==> bs[i].key in ks && bs[i].count == multiset(ks)[bs[i].key])
    && (forall k :: k in ks ==> exists i :: 0 <= i < |bs| && bs[i].key == k)
  }

  /** The histogram is correct, every bucket holds at least one entry, and the counts add up to |ks|. */
  lemma HistogramOfCorrect(ks: seq<string>)
    ensures IsHistogram(ks, HistogramOf(ks))
    ensures forall i :: 0 <= i < |HistogramOf(ks)| ==> HistogramOf(ks)[i].count >= 1
    ensures Total(HistogramOf(ks)) == |ks|
  {
    HistogramCounts(ks);
    HistogramComplete(ks);
    HistogramTotal(ks);
  }

  /** Every bucket's key occurs in ks, and its count is the key's number of occurrences, at least one. */
  lemma HistogramCounts(ks: seq<string>)
    ensures forall i :: 0 <= i < |HistogramOf(ks)| ==>
      HistogramOf(ks)[i].key in ks && HistogramOf(ks)[i].count == multiset(ks)[HistogramOf(ks)[i].key]
      && HistogramOf(ks)[i].count >= 1
  {
    var s := Sort(FirstOccurrences(ks));
    forall i | 0 <= i < |s|
      ensures s[i] in ks
    {
      assert s[i] in multiset(s);
    }
  }

  /** Every key of ks has a bucket. */
  lemma HistogramComplete(ks: seq<string>)
    ensures forall k :: k in ks ==> exists i :: 0 <= i < |HistogramOf(ks)| && HistogramOf(ks)[i].key == k
  {
    var d := FirstOccurrences(ks);
    var s := Sort(d);
    var bs := HistogramOf(ks);
    forall k | k in ks
      ensures exists i :: 0 <= i < |bs| && bs[i].key == k
    {
      assert k in multiset(d);
      var i :| 0 <= i < |s| && s[i] == k;
      assert bs[i].key == k;
    }
  }

  /** The counts add up to the number of entries. */
  lemma HistogramTotal(ks: seq<string>)
    ensures Total(HistogramOf(ks)) == |ks|
  {
    var d := FirstOccurrences(ks);
    TotalIsCountSum(Sort(d), ks);
    CountSumSort(d, ks);
    CountSumFirstOccurrences(ks);
  }

  /** Sum over keys of their number of occurrences in ks. */
  ghost function CountSum(keys: seq<string>, ks: seq<string>): nat
  {
    if keys == [] then 0 else multiset(ks)[keys[0]] + CountSum(keys[1..], ks)
  }

  lemma {:induction false} TotalIsCountSum(keys: seq<string>, ks: seq<string>)
    ensures Total(BucketsFor(keys, ks)) == CountSum(keys, ks)
  {
    if keys != [] {
      assert BucketsFor(keys, ks)[1..] == BucketsFor(keys[1..], ks);
      TotalIsCountSum(keys[1..], ks);
    }
  }

  lemma {:induction false} CountSumInsert(x: string, s: seq<string>, ks: seq<string>)
    ensures CountSum(Insert(x, s), ks) == multiset(ks)[x] + CountSum(s, ks)
  {
    if s != [] && !LessOrEqual(x, s[0]) {
      CountSumInsert(x, s[1..], ks);
      assert ([s[0]] + Insert(x, s[1..]))[1..] == Insert(x, s[1..]);
    }
  }

  /** Sorting the keys does not change the sum of their counts. */
  lemma {:induction false} CountSumSort(s: seq<string>, ks: seq<string>)
    ensures CountSum(Sort(s), ks) == CountSum(s, ks)
  {
    if s != [] {
      CountSumSort(s[1..], ks);
      CountSumInsert(s[0], Sort(s[1..]), ks);
    }
  }

  lemma {:induction false} CountSumAppendKey(keys: seq<string>, k: string, ks: seq<string>)
    ensures CountSum(keys + [k], ks) == CountSum(keys, ks) + multiset(ks)[k]
  {
    if keys != [] {
      assert (keys + [k])[1..] == keys[1..] + [k];
      CountSumAppendKey(keys[1..], k, ks);
    }
  }

  /** One more entry with key x adds one for every time x is among the keys. */
  lemma {:induction false} CountSumAppendEntry(keys: seq<string>, ks: seq<string>, x: string)
    ensures CountSum(keys, ks + [x]) == CountSum(keys, ks) + multiset(keys)[x]
  {
    if keys != [] {
      assert keys == [keys[0]] + keys[1..];
      CountSumAppendEntry(keys[1..], ks, x);
    }
  }

  /** Counting each distinct key once accounts for every entry exactly once. */
  lemma {:induction false} CountSumFirstOccurrences(ks: seq<string>)
    ensures CountSum(FirstOccurrences(ks), ks) == |ks|
  {
    if ks != [] {
      var prefix := ks[..|ks| - 1];
      var x := ks[|ks| - 1];
      assert ks == prefix + [x];
      var d := FirstOccurrences(prefix);
      CountSumFirstOccurrences(prefix);
      CountSumAppendEntry(d, prefix, x);
      if x in d {
        assert multiset(d)[x] == 1;
      } else {
        CountSumAppendKey(d, x, ks);
        assert multiset(d)[x] == 0;
        assert multiset(prefix)[x] == 0;
      }
    }
  }

  /**
   * The state of a dictionary filled from the keys ks, one `counts[k] = (counts[k] || 0) + 1` per key:
   * its property order and its counts.
   */
  ghost predicate Tallied(ks: seq<string>, counts: map<string, nat>, order: seq<string>)
  {
    && order == FirstOccurrences(ks)
    && (forall k :: k in counts <==> k in ks)
    && (forall k :: k in counts ==> counts[k] == multiset(ks)[k])
  }

  /** Counting one more key: a new key becomes the last property with count 1, a known one goes up by one. */
  lemma TallyStep(ks: seq<string>, counts: map<string, nat>, order: seq<string>, k: string)
    requires Tallied(ks, counts, order)
    ensures k in counts ==> Tallied(ks + [k], counts[k := counts[k] + 1], order)
    ensures k !in counts ==> Tallied(ks + [k], counts[k := 1], order + [k])
  {
    var ks' := ks + [k];
    assert ks'[..|ks'| - 1] == ks;
    assert multiset(ks') == multiset(ks) + multiset{k};
    if k in counts {
      TallyKnown(ks, counts, order, k);
    } else {
      TallyNew(ks, counts, order, k);
    }
  }

  lemma TallyKnown(ks: seq<string>, counts: map<string, nat>, order: seq<string>, k: string)
    requires Tallied(ks, counts, order) && k in counts
    requires FirstOccurrences(ks + [k]) == order
    requires multiset(ks + [k]) == multiset(ks) + multiset{k}
    ensures Tallied(ks + [k], counts[k := counts[k] + 1], order)
  {
  }

  lemma TallyNew(ks: seq<string>, counts: map<string, nat>, order: seq<string>, k: string)
    requires Tallied(ks, counts, order) && k !in counts
    requires FirstOccurrences(ks + [k]) == order + [k]
    requires multiset(ks + [k]) == multiset(ks) + multiset{k}
    ensures Tallied(ks + [k], counts[k := 1], order + [k])
  {
  }

  /**
   * `counts[key] = (counts[key] || 0) + 1` on a dictionary filled from ks; order is the dictionary's
   * property order, to which a key is added when it is first assigned.
   */
  method Increment(ghost ks: seq<string>, counts: map<string, nat>, order: seq<string>, key: string)
    returns (counts': map<string, nat>, order': seq<string>)
    requires Tallied(ks, counts, order)
    ensures Tallied(ks + [key], counts', order')
  {
    TallyStep(ks, counts, order, key);
    var current := if key in counts then counts[key] else 0;
    order' := if key in counts then order else order + [key];
    counts' := counts[key := current + 1];
  }

  /** The pairs of key and count, for keys the dictionary holds (Object.keys(...).map(key => ...)). */
  function BucketsFrom(keys: seq<string>, counts: map<string, nat>): seq<Bucket>
    requires forall k :: k in keys ==> k in counts
  {
    seq(|keys|, i requires 0 <= i < |keys| => Bucket(keys[i], counts[keys[i]]))
  }

  /** Sorting the filled dictionary's keys and pairing them with their counts yields exactly the histogram. */
  lemma TalliedHistogram(ks: seq<string>, counts: map<string, nat>, order: seq<string>)
    requires Tallied(ks, counts, order)
    ensures forall k :: k in Sort(order) ==> k in counts
    ensures BucketsFrom(Sort(order), counts) == HistogramOf(ks)
  {
    var keys := Sort(order);
    forall k | k in keys
      ensures k in counts
    {
      assert k in multiset(keys);
    }
    assert order == FirstOccurrences(ks);
    var got := BucketsFrom(keys, counts);
    var want := HistogramOf(ks);
    assert |got| == |keys| == |want|;
    forall i | 0 <= i < |keys|
      ensures got[i] == want[i]
    {
      assert keys[i] in counts;
    }
  }

  /** Object.keys(counts).sort().map(key => ({key, count: counts[key]})) on a dictionary filled from ks. */
  method SortedBuckets(ghost ks: seq<string>, counts: map<string, nat>, order: seq<string>) returns (bs: seq<Bucket>)
    requires Tallied(ks, counts, order)
    ensures bs == HistogramOf(ks)
  {
    TalliedHistogram(ks, counts, order);
    bs := BucketsFrom(Sort(order), counts);
  }
}
