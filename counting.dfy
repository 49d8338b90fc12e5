/**
 * collections.Counter over a sequence, as analyze_url uses it: the counter
 * as an insertion-ordered list of (key, count) entries, max() over its keys
 * by count, and most_common(n).
 */
module Counting {
  import opened Base

  /** One (key, count) pair of a Counter, as most_common returns it. */
  datatype Entry<T> = Entry(key: T, count: nat)

  /** The number of times x occurs in xs. */
  function Occurrences<T(==)>(xs: seq<T>, x: T): nat {
    multiset(xs)[x]
  }

  /** The index of the first occurrence of x in xs, or |xs| when x is absent. */
  function FirstIndex<T(==)>(xs: seq<T>, x: T): (r: nat)
    ensures r <= |xs|
    ensures r < |xs| <==> x in xs
    ensures r < |xs| ==> xs[r] == x
    ensures forall j :: 0 <= j < r ==> xs[j] != x
  {
    if xs == [] then 0
    else if xs[0] == x then 0
    else 1 + FirstIndex(xs[1..], x)
  }

  /** Appending never moves a first occurrence; a new value's first
      occurrence is the appended position. */
  lemma FirstIndexAppend<T>(xs: seq<T>, y: T, x: T)
    ensures x in xs ==> FirstIndex(xs + [y], x) == FirstIndex(xs, x)
    ensures x !in xs && x == y ==> FirstIndex(xs + [y], x) == |xs|
  {
    var ys := xs + [y];
    if x in xs {
      var k := FirstIndex(xs, x);
      FirstIndexUnique(ys, x, k);
    } else if x == y {
      FirstIndexUnique(ys, x, |xs|);
    }
  }

  lemma FirstIndexUnique<T>(xs: seq<T>, x: T, k: nat)
    requires k < |xs| && xs[k] == x
    requires forall j :: 0 <= j < k ==> xs[j] != x
    ensures FirstIndex(xs, x) == k
  {
  }

  function Keys<T>(c: seq<Entry<T>>): (ks: seq<T>)
    ensures |ks| == |c|
    ensures forall i :: 0 <= i < |c| ==> ks[i] == c[i].key
  {
    seq(|c|, i requires 0 <= i < |c| => c[i].key)
  }

  function Sum<T>(c: seq<Entry<T>>): nat {
    if c == [] then 0 else c[0].count + Sum(c[1..])
  }

  /** c is Counter(xs) as a dict: one entry per distinct element of xs, in the
      order of first occurrence, each carrying its number of occurrences. */
  ghost predicate IsCounterOf<T>(c: seq<Entry<T>>, xs: seq<T>) {
    && (forall i :: 0 <= i < |c| ==> c[i].count == Occurrences(xs, c[i].key))
    && (forall i :: 0 <= i < |xs| ==> xs[i] in Keys(c))
    && (forall i :: 0 <= i < |c| ==> c[i].key in xs)
    && (forall i, j :: 0 <= i < j < |c| ==> FirstIndex(xs, c[i].key) < FirstIndex(xs, c[j].key))
  }

  /** Counting one more element: a present key's count goes up in place (a
      dict keeps its insertion position on update), a new key goes at the end. */
  function Add<T(==)>(c: seq<Entry<T>>, x: T): (r: seq<Entry<T>>)
    ensures x in Keys(c) ==> |r| == |c|
    ensures x !in Keys(c) ==> r == c + [Entry(x, 1)]
  {
    var k := FirstIndex(Keys(c), x);
    if k < |c| then c[k := Entry(x, c[k].count + 1)] else c + [Entry(x, 1)]
  }

  /** Counter(xs): the elements are counted one by one, left to right. */
  function Tally<T(==)>(xs: seq<T>): seq<Entry<T>> {
    if xs == [] then [] else Add(Tally(xs[..|xs| - 1]), xs[|xs| - 1])
  }

  /** Counting preserves IsCounterOf. */
  lemma AddCounts<T>(c: seq<Entry<T>>, xs: seq<T>, x: T)
    requires IsCounterOf(c, xs)
    ensures IsCounterOf(Add(c, x), xs + [x])
  {
    var ys := xs + [x];
    var r := Add(c, x);
    assert multiset(ys) == multiset(xs) + multiset{x};
    forall y | y in xs
      ensures FirstIndex(ys, y) == FirstIndex(xs, y)
    {
      FirstIndexAppend(xs, x, y);
    }
    if x in Keys(c) {
      var k := FirstIndex(Keys(c), x);
      assert Keys(r) == Keys(c);
      forall i | 0 <= i < |r|
        ensures r[i].count == Occurrences(ys, r[i].key)
      {
        if i != k {
          assert r[i] == c[i];
        }
      }
      assert forall i :: 0 <= i < |ys| ==> ys[i] in Keys(r) by {
        forall i | 0 <= i < |ys| ensures ys[i] in Keys(r) {
          if i < |xs| { assert ys[i] == xs[i]; }
        }
      }
    } else {
      assert x !in xs;
      FirstIndexAppend(xs, x, x);
      assert Keys(r) == Keys(c) + [x];
      forall i | 0 <= i < |r|
        ensures r[i].count == Occurrences(ys, r[i].key)
      {
        if i < |c| {
          assert r[i] == c[i];
          assert c[i].key != x;
        }
      }
      forall i, j | 0 <= i < j < |r|
        ensures FirstIndex(ys, r[i].key) < FirstIndex(ys, r[j].key)
      {
        assert r[i] == c[i];
        assert c[i].key in Keys(c);
        if j == |c| {
          assert FirstIndex(ys, r[j].key) == |xs|;
          assert FirstIndex(xs, c[i].key) < |xs|;
        } else {
          assert r[j] == c[j] && c[j].key in Keys(c);
        }
      }
      assert forall i :: 0 <= i < |ys| ==> ys[i] in Keys(r) by {
        forall i | 0 <= i < |ys| ensures ys[i] in Keys(r) {
          if i < |xs| { assert ys[i] == xs[i]; }
        }
      }
    }
  }

  /** Tally(xs) is Counter(xs). */
  lemma {:induction false} TallyCounts<T>(xs: seq<T>)
    ensures IsCounterOf(Tally(xs), xs)
  {
    if xs != [] {
      var init := xs[..|xs| - 1];
      TallyCounts(init);
      AddCounts(Tally(init), init, xs[|xs| - 1]);
      assert init + [xs[|xs| - 1]] == xs;
    }
  }

  lemma {:induction false} SumAppend<T>(c: seq<Entry<T>>, e: Entry<T>)
    ensures Sum(c + [e]) == Sum(c) + e.count
  {
    if c == [] {
      assert c + [e] == [e];
    } else {
      assert (c + [e])[1..] == c[1..] + [e];
      SumAppend(c[1..], e);
    }
  }

  lemma {:induction false} SumUpdate<T>(c: seq<Entry<T>>, k: nat, e: Entry<T>)
    requires k < |c|
    ensures Sum(c[k := e]) == Sum(c) - c[k].count + e.count
  {
    if k > 0 {
      assert c[k := e][1..] == c[1..][k - 1 := e];
      SumUpdate(c[1..], k - 1, e);
    }
  }

  /** The counts of Counter(xs) add up to |xs|. */
  lemma {:induction false} TallySum<T>(xs: seq<T>)
    ensures Sum(Tally(xs)) == |xs|
  {
    if xs != [] {
      var init, x := xs[..|xs| - 1], xs[|xs| - 1];
      TallySum(init);
      var c := Tally(init);
      var k := FirstIndex(Keys(c), x);
      if k < |c| {
        SumUpdate(c, k, Entry(x, c[k].count + 1));
      } else {
        SumAppend(c, Entry(x, 1));
      }
    }
  }

  /** The index of the key with the largest count, as Python's max picks it
      over a counter: it scans the keys in insertion order and replaces its
      candidate only by a strictly larger count, so the result has the largest count and every earlier entry a
      strictly smaller one. */
  function ArgMaxIndex<T>(c: seq<Entry<T>>): (k: nat)
    requires |c| > 0
    ensures k < |c|
    ensures forall j :: 0 <= j < |c| ==> c[j].count <= c[k].count
    ensures forall j :: 0 <= j < k ==> c[j].count < c[k].count
  {
    if |c| == 1 then 0
    else
      var k := ArgMaxIndex(c[..|c| - 1]);
      if c[|c| - 1].count > c[k].count then |c| - 1 else k
  }

  /** The key with the largest count, the first one on a tie; Python's max
      raises ValueError on an empty counter, which is None here. */
  function MaxKey<T>(c: seq<Entry<T>>): (r: Option<T>)
    ensures r.None? <==> c == []
  {
    if c == [] then None else Some(c[ArgMaxIndex(c)].key)
  }

  /** The key Python's max picks from Counter(xs) by count is a most
      frequent element of xs, and among the most frequent ones the one that
      occurs first; it is absent only for empty xs. */
  lemma MajorityVote<T>(xs: seq<T>)
    ensures MaxKey(Tally(xs)).None? <==> xs == []
    ensures MaxKey(Tally(xs)).Some? ==>
      var w := MaxKey(Tally(xs)).value;
      && w in xs
      && (forall y :: Occurrences(xs, y) <= Occurrences(xs, w))
      && (forall y :: Occurrences(xs, y) == Occurrences(xs, w) ==> FirstIndex(xs, w) <= FirstIndex(xs, y))
  {
    var c := Tally(xs);
    TallyCounts(xs);
    if xs != [] {
      assert xs[0] in Keys(c);
      var k := ArgMaxIndex(c);
      var w := c[k].key;
      assert w in xs;
      forall y ensures Occurrences(xs, y) <= Occurrences(xs, w)
        && (Occurrences(xs, y) == Occurrences(xs, w) ==> FirstIndex(xs, w) <= FirstIndex(xs, y))
      {
        if y in xs {
          var j := FirstIndex(Keys(c), y);
          assert c[j].key == y;
          if j < k {
            assert c[j].count < c[k].count;
          } else if j > k {
            assert FirstIndex(xs, c[k].key) < FirstIndex(xs, c[j].key);
          }
        }
      }
    }
  }

  /** Inserting e into a list ranked by descending count: e goes before the
      first entry whose count it reaches, so it precedes every entry of equal
      count already present. */
  function Insert<T>(e: Entry<T>, s: seq<Entry<T>>): (r: seq<Entry<T>>)
    ensures multiset(r) == multiset(s) + multiset{e}
  {
    if s == [] || e.count >= s[0].count then [e] + s
    else
      assert s == [s[0]] + s[1..];
      [s[0]] + Insert(e, s[1..])
  }

  /** sorted(entries, key=count, reverse=True), a stable sort: by insertion,
      from the back of the list to the front. */
  function SortByCount<T>(c: seq<Entry<T>>): (r: seq<Entry<T>>)
    ensures multiset(r) == multiset(c)
  {
    if c == [] then []
    else
      assert c == [c[0]] + c[1..];
      Insert(c[0], SortByCount(c[1..]))
  }

  /** Counter.most_common(n): the n entries with the largest counts, ties in
      insertion order. */
  function MostCommon<T>(c: seq<Entry<T>>, n: nat): (r: seq<Entry<T>>)
    ensures |r| == Min(n, |c|)
  {
    var s := SortByCount(c);
    assert |s| == |multiset(s)| == |c|;
    s[..Min(n, |s|)]
  }

  /** The ranking order over entries of Counter(xs): larger count first, and
      for equal counts the key that occurs first in xs. */
  predicate Precedes<T(==)>(xs: seq<T>, a: Entry<T>, b: Entry<T>) {
    a.count > b.count || (a.count == b.count && FirstIndex(xs, a.key) < FirstIndex(xs, b.key))
  }

  predicate RankedBy<T(==)>(xs: seq<T>, s: seq<Entry<T>>) {
    forall i, j :: 0 <= i < j < |s| ==> Precedes(xs, s[i], s[j])
  }

  lemma {:induction false} InsertRanked<T>(xs: seq<T>, e: Entry<T>, s: seq<Entry<T>>)
    requires RankedBy(xs, s)
    requires forall i :: 0 <= i < |s| ==> FirstIndex(xs, e.key) < FirstIndex(xs, s[i].key)
    ensures RankedBy(xs, Insert(e, s))
  {
    if s == [] || e.count >= s[0].count {
      forall j | 0 <= j < |s| ensures Precedes(xs, e, s[j]) {
        if j > 0 { assert Precedes(xs, s[0], s[j]); }
      }
      var r := [e] + s;
      forall i, j | 0 <= i < j < |r| ensures Precedes(xs, r[i], r[j]) {
        if i > 0 { assert r[i] == s[i - 1] && r[j] == s[j - 1]; }
      }
    } else {
      var t := Insert(e, s[1..]);
      InsertRanked(xs, e, s[1..]);
      forall y | y in t ensures Precedes(xs, s[0], y) {
        assert y in multiset(t);
        if y != e {
          assert y in multiset(s[1..]);
          var j :| 0 <= j < |s[1..]| && s[1..][j] == y;
          assert s[j + 1] == y;
        }
      }
      var r := [s[0]] + t;
      forall i, j | 0 <= i < j < |r| ensures Precedes(xs, r[i], r[j]) {
        if i == 0 { assert r[j] == t[j - 1] && r[j] in t; }
        else { assert r[i] == t[i - 1] && r[j] == t[j - 1]; }
      }
    }
  }

  /** Sorting entries whose keys are in first-occurrence order ranks them. */
  lemma {:induction false} SortRanked<T>(xs: seq<T>, c: seq<Entry<T>>)
    requires forall i, j :: 0 <= i < j < |c| ==> FirstIndex(xs, c[i].key) < FirstIndex(xs, c[j].key)
    ensures RankedBy(xs, SortByCount(c))
  {
    if c != [] {
      var s := SortByCount(c[1..]);
      SortRanked(xs, c[1..]);
      forall i | 0 <= i < |s| ensures FirstIndex(xs, c[0].key) < FirstIndex(xs, s[i].key) {
        assert s[i] in multiset(c[1..]);
        var j :| 0 <= j < |c[1..]| && c[1..][j] == s[i];
        assert c[j + 1] == s[i];
      }
      InsertRanked(xs, c[0], s);
    }
  }

  /** The number of distinct elements of xs. */
  function DistinctCount<T(==)>(xs: seq<T>): nat {
    |set x | x in xs|
  }

  lemma {:induction false} DistinctLength<T>(ks: seq<T>)
    requires forall i, j :: 0 <= i < j < |ks| ==> ks[i] != ks[j]
    ensures DistinctCount(ks) == |ks|
  {
    if ks != [] {
      var init := ks[..|ks| - 1];
      DistinctLength(init);
      assert (set x | x in ks) == (set x | x in init) + {ks[|ks| - 1]};
    }
  }

  /** Counter(xs) has one entry per distinct element of xs. */
  lemma TallyLength<T>(xs: seq<T>)
    ensures |Tally(xs)| == DistinctCount(xs)
  {
    var c := Tally(xs);
    TallyCounts(xs);
    var ks := Keys(c);
    forall i, j | 0 <= i < j < |ks| ensures ks[i] != ks[j] {
      assert FirstIndex(xs, c[i].key) < FirstIndex(xs, c[j].key);
    }
    DistinctLength(ks);
    assert (set x | x in ks) == (set x | x in xs);
  }

  /** Counter(xs).most_common(n): min(n, distinct elements) entries, each key
      an element of xs with its exact number of occurrences; ranked by
      descending count with ties in first-occurrence order; and an element
      left out only when n entries are listed, none ranked after it. */
  lemma MostCommonOfTally<T>(xs: seq<T>, n: nat)
    ensures var r := MostCommon(Tally(xs), n);
      && |r| == Min(n, DistinctCount(xs))
      && (forall i :: 0 <= i < |r| ==> r[i].key in xs && r[i].count == Occurrences(xs, r[i].key))
      && RankedBy(xs, r)
      && (forall y :: y in xs && y !in Keys(r) ==>
            |r| == n && (n > 0 ==> Precedes(xs, r[n - 1], Entry(y, Occurrences(xs, y)))))
  {
    var c := Tally(xs);
    TallyCounts(xs);
    TallyLength(xs);
    SortRanked(xs, c);
    MostCommonEntries(xs, c, n);
    MostCommonOmitted(xs, c, n);
  }

  lemma MostCommonEntries<T>(xs: seq<T>, c: seq<Entry<T>>, n: nat)
    requires IsCounterOf(c, xs)
    ensures var r := MostCommon(c, n);
      forall i :: 0 <= i < |r| ==> r[i].key in xs && r[i].count == Occurrences(xs, r[i].key)
  {
    var s := SortByCount(c);
    var r := MostCommon(c, n);
    forall i | 0 <= i < |r| ensures r[i].key in xs && r[i].count == Occurrences(xs, r[i].key) {
      assert r[i] == s[i] && s[i] in multiset(c);
      var j :| 0 <= j < |c| && c[j] == r[i];
    }
  }

  lemma MostCommonOmitted<T>(xs: seq<T>, c: seq<Entry<T>>, n: nat)
    requires IsCounterOf(c, xs)
    requires RankedBy(xs, SortByCount(c))
    ensures var r := MostCommon(c, n);
      && RankedBy(xs, r)
      && (forall y :: y in xs && y !in Keys(r) ==>
            |r| == n && (n > 0 ==> Precedes(xs, r[n - 1], Entry(y, Occurrences(xs, y)))))
  {
    var s := SortByCount(c);
    var r := MostCommon(c, n);
    assert |s| == |multiset(s)| == |c|;
    assert r == s[..|r|];
    forall y | y in xs && y !in Keys(r)
      ensures |r| == n && (n > 0 ==> Precedes(xs, r[n - 1], Entry(y, Occurrences(xs, y))))
    {
      var j := FirstIndex(Keys(c), y);
      assert c[j] in multiset(s);
      var p :| 0 <= p < |s| && s[p] == c[j];
      forall q | 0 <= q < |r| ensures s[q].key != y {
        assert Keys(r)[q] == s[q].key;
      }
      assert s[p].key == y;
      assert p >= |r|;
    }
  }
}
