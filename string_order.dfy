/** The order Array.prototype.sort uses when it is given no comparator, as on Object.keys(...).sort(). */
module StringOrder {

  import opened Seqs

  /** a sorts strictly before b: at the first difference a has the smaller character, or a is a proper prefix of b. */
  predicate Less(a: string, b: string)
  {
    if |a| == 0 then |b| > 0
    else if |b| == 0 then false
    else a[0] < b[0] || (a[0] == b[0] && Less(a[1..], b[1..]))
  }

  predicate LessOrEqual(a: string, b: string)
  {
    a == b || Less(a, b)
  }

  lemma {:induction false} LessIrreflexive(a: string)
    ensures !Less(a, a)
  {
    if |a| > 0 {
      LessIrreflexive(a[1..]);
    }
  }

  lemma {:induction false} LessAsymmetric(a: string, b: string)
    requires Less(a, b)
    ensures !Less(b, a)
  {
    if |a| > 0 && a[0] == b[0] {
      LessAsymmetric(a[1..], b[1..]);
    }
  }

  lemma {:induction false} LessTransitive(a: string, b: string, c: string)
    requires Less(a, b) && Less(b, c)
    ensures Less(a, c)
  {
    if |a| > 0 && a[0] == b[0] && b[0] == c[0] {
      LessTransitive(a[1..], b[1..], c[1..]);
    }
  }

  /** Any two different strings are ordered one way or the other. */
  lemma {:induction false} LessTotal(a: string, b: string)
    requires a != b
    ensures Less(a, b) || Less(b, a)
  {
    if |a| > 0 && |b| > 0 && a[0] == b[0] {
      assert a == [a[0]] + a[1..] && b == [b[0]] + b[1..];
      LessTotal(a[1..], b[1..]);
    }
  }

  lemma LessOrEqualTransitive(a: string, b: string, c: string)
    requires LessOrEqual(a, b) && LessOrEqual(b, c)
    ensures LessOrEqual(a, c)
  {
    if a != b && b != c {
      LessTransitive(a, b, c);
    }
  }

  ghost predicate Sorted(s: seq<string>)
  {
    forall i, j :: 0 <= i < j < |s| ==> LessOrEqual(s[i], s[j])
  }

  ghost predicate StrictlyAscending(s: seq<string>)
  {
    forall i, j :: 0 <= i < j < |s| ==> Less(s[i], s[j])
  }

  /** Places x before the first element it does not sort after. */
  function Insert(x: string, s: seq<string>): (r: seq<string>)
    ensures multiset(r) == multiset(s) + multiset{x}
    ensures Sorted(s) ==> Sorted(r)
    ensures StrictlyAscending(s) && x !in s ==> StrictlyAscending(r)
  {
    if s == [] || LessOrEqual(x, s[0]) then
      InsertFrontOrdered(x, s);
      [x] + s
    else
      var t := Insert(x, s[1..]);
      assert s == [s[0]] + s[1..];
      LessTotal(x, s[0]);
      InsertBehindOrdered(x, s, t);
      [s[0]] + t
  }

  /** x in front of s keeps s ordered when x goes no later than s's head. */
  lemma InsertFrontOrdered(x: string, s: seq<string>)
    requires s == [] || LessOrEqual(x, s[0])
    ensures Sorted(s) ==> Sorted([x] + s)
    ensures StrictlyAscending(s) && x !in s ==> StrictlyAscending([x] + s)
  {
    var r := [x] + s;
    if Sorted(s) {
      forall j | 0 < j < |r|
        ensures LessOrEqual(x, r[j])
      {
        LessOrEqualTransitive(x, s[0], r[j]);
      }
    }
    if StrictlyAscending(s) && x !in s {
      forall j | 0 < j < |r|
        ensures Less(x, r[j])
      {
        if j > 1 {
          LessTransitive(x, s[0], r[j]);
        }
      }
    }
  }

  /** s's head in front of t keeps the order when it sorts before x and before the rest of s. */
  lemma InsertBehindOrdered(x: string, s: seq<string>, t: seq<string>)
    requires s != [] && Less(s[0], x)
    requires multiset(t) == multiset(s[1..]) + multiset{x}
    requires Sorted(s[1..]) ==> Sorted(t)
    requires StrictlyAscending(s[1..]) && x !in s[1..] ==> StrictlyAscending(t)
    ensures Sorted(s) ==> Sorted([s[0]] + t)
    ensures StrictlyAscending(s) && x !in s ==> StrictlyAscending([s[0]] + t)
  {
    var r := [s[0]] + t;
    forall j | 0 <= j < |t|
      ensures t[j] == x || t[j] in s[1..]
    {
      assert t[j] in multiset(t);
    }
    if Sorted(s) {
      forall i, j | 0 <= i < j < |r|
        ensures LessOrEqual(r[i], r[j])
      {
        if i == 0 && r[j] in s[1..] {
          var k :| 0 <= k < |s[1..]| && s[1..][k] == r[j];
          assert s[k + 1] == r[j];
        }
      }
    }
    if StrictlyAscending(s) && x !in s {
      forall i, j | 0 <= i < j < |r|
        ensures Less(r[i], r[j])
      {
        if i == 0 && r[j] in s[1..] {
          var k :| 0 <= k < |s[1..]| && s[1..][k] == r[j];
          assert s[k + 1] == r[j];
        }
      }
    }
  }

  /** Array.prototype.sort with the default comparator, as an insertion sort. */
  function Sort(s: seq<string>): (r: seq<string>)
    ensures multiset(r) == multiset(s)
    ensures Sorted(r)
    ensures Unique(s) ==> StrictlyAscending(r)
  {
    if s == [] then []
    else
      assert s == [s[0]] + s[1..];
      var t := Sort(s[1..]);
      UniqueTail(s);
      assert s[0] in t <==> s[0] in multiset(s[1..]);
      Insert(s[0], t)
  }

  lemma UniqueTail(s: seq<string>)
    requires s != []
    ensures Unique(s) ==> Unique(s[1..]) && s[0] !in s[1..]
  {
    assert s == [s[0]] + s[1..];
    assert multiset(s) == multiset{s[0]} + multiset(s[1..]);
    if Unique(s) {
      assert multiset(s)[s[0]] == 1;
      assert multiset(s[1..])[s[0]] == 0;
      forall x | x in s[1..]
        ensures multiset(s[1..])[x] == 1
      {
        assert x in s;
      }
    }
  }
}
