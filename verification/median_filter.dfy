/**
 * Sliding-window median filter over a 1-D signal.
 *
 * The result starts as a copy of the signal x; every position i in [s, e) is
 * then overwritten with the median of the window x[i - halfWidth .. i +
 * halfWidth], read from the original signal, never from the partly filtered
 * result. The window has 2*halfWidth + 1 samples, an odd count, so its median
 * is its middle sample once sorted: one of the window's own samples.
 * Samples are unbounded integers here. numpy's median of an odd-length
 * window is that middle sample, returned as a float64, so storing it back
 * into an integer array is exact only while samples stay below 2^53 in
 * magnitude; that rounding is not modelled.
 */
module MedianFiltering {

  ghost predicate Sorted(s: seq<int>) {
    forall i, j :: 0 <= i < j < |s| ==> s[i] <= s[j]
  }

  /** Places x in front of the first element of s that is not smaller. */
  function Insert(x: int, s: seq<int>): (r: seq<int>)
    ensures |r| == |s| + 1
    ensures r[0] == x || (s != [] && r[0] == s[0])
  {
    if s == [] || x <= s[0] then [x] + s else [s[0]] + Insert(x, s[1..])
  }

  lemma {:induction false} InsertPermutes(x: int, s: seq<int>)
    ensures multiset(Insert(x, s)) == multiset(s) + multiset{x}
  {
    if s != [] && x > s[0] {
      InsertPermutes(x, s[1..]);
      assert s == [s[0]] + s[1..];
    }
  }

  lemma {:induction false} InsertSorted(x: int, s: seq<int>)
    requires Sorted(s)
    ensures Sorted(Insert(x, s))
  {
    if s != [] && x > s[0] {
      var rest := Insert(x, s[1..]);
      InsertSorted(x, s[1..]);
      assert s[0] <= rest[0];
      var r := [s[0]] + rest;
      forall i, j | 0 <= i < j < |r| ensures r[i] <= r[j] {
        if i == 0 {
          assert rest[0] <= rest[j - 1];
        } else {
          assert r[i] == rest[i - 1] && r[j] == rest[j - 1];
        }
      }
    }
  }

  /** Insertion sort: s in ascending order (SortSorted), and a permutation of
      s (SortPermutes). */
  function Sort(s: seq<int>): (r: seq<int>)
    ensures |r| == |s|
  {
    if s == [] then [] else Insert(s[0], Sort(s[1..]))
  }

  lemma {:induction false} SortSorted(s: seq<int>)
    ensures Sorted(Sort(s))
  {
    if s != [] {
      SortSorted(s[1..]);
      InsertSorted(s[0], Sort(s[1..]));
    }
  }

  lemma {:induction false} SortPermutes(s: seq<int>)
    ensures multiset(Sort(s)) == multiset(s)
  {
    if s != [] {
      SortPermutes(s[1..]);
      InsertPermutes(s[0], Sort(s[1..]));
      assert s == [s[0]] + s[1..];
    }
  }

  /** The median of an odd-length window: its middle sample once sorted. */
  function Median(w: seq<int>): int
    requires |w| % 2 == 1
  {
    Sort(w)[|w| / 2]
  }

  /** The median is one of the window's own samples. */
  lemma MedianInWindow(w: seq<int>)
    requires |w| % 2 == 1
    ensures Median(w) in w
  {
    SortPermutes(w);
    assert Median(w) in multiset(Sort(w));
  }

  /** The number of samples of s that satisfy p. */
  function Count(s: seq<int>, p: int -> bool): (n: nat)
    ensures n <= |s|
  {
    if s == [] then 0 else (if p(s[0]) then 1 else 0) + Count(s[1..], p)
  }

  function AtMost(v: int): int -> bool {
    x => x <= v
  }

  function AtLeast(v: int): int -> bool {
    x => x >= v
  }

  lemma {:induction false} CountAppend(a: seq<int>, b: seq<int>, p: int -> bool)
    ensures Count(a + b, p) == Count(a, p) + Count(b, p)
  {
    if a == [] {
      assert a + b == b;
    } else {
      assert (a + b)[1..] == a[1..] + b;
      CountAppend(a[1..], b, p);
    }
  }

  lemma {:induction false} CountAll(s: seq<int>, p: int -> bool)
    requires forall k :: 0 <= k < |s| ==> p(s[k])
    ensures Count(s, p) == |s|
  {
    if s != [] {
      CountAll(s[1..], p);
    }
  }

  lemma {:induction false} CountNone(s: seq<int>, p: int -> bool)
    requires forall k :: 0 <= k < |s| ==> !p(s[k])
    ensures Count(s, p) == 0
  {
    if s != [] {
      CountNone(s[1..], p);
    }
  }

  lemma {:induction false} CountInsert(x: int, s: seq<int>, p: int -> bool)
    ensures Count(Insert(x, s), p) == Count([x] + s, p)
  {
    if s != [] && x > s[0] {
      CountInsert(x, s[1..], p);
      assert ([x] + s)[1..] == s;
      assert ([x] + s[1..])[1..] == s[1..];
      assert ([s[0]] + Insert(x, s[1..]))[1..] == Insert(x, s[1..]);
    }
  }

  /** Sorting does not change how many samples satisfy a predicate. */
  lemma {:induction false} CountSort(s: seq<int>, p: int -> bool)
    ensures Count(Sort(s), p) == Count(s, p)
  {
    if s != [] {
      CountSort(s[1..], p);
      CountInsert(s[0], Sort(s[1..]), p);
      assert ([s[0]] + Sort(s[1..]))[1..] == Sort(s[1..]);
    }
  }

  /** In a sorted sequence, the samples up to position k are at most t[k]. */
  lemma SortedRankBelow(t: seq<int>, k: nat)
    requires Sorted(t) && k < |t|
    ensures Count(t, AtMost(t[k])) >= k + 1
  {
    var below := t[..k + 1];
    assert t == below + t[k + 1..];
    CountAppend(below, t[k + 1..], AtMost(t[k]));
    forall j | 0 <= j < |below| ensures AtMost(t[k])(below[j]) {
      assert below[j] == t[j] <= t[k];
    }
    CountAll(below, AtMost(t[k]));
  }

  /** In a sorted sequence, the samples from position k on are at least t[k]. */
  lemma SortedRankAbove(t: seq<int>, k: nat)
    requires Sorted(t) && k < |t|
    ensures Count(t, AtLeast(t[k])) >= |t| - k
  {
    var above := t[k..];
    assert t == t[..k] + above;
    CountAppend(t[..k], above, AtLeast(t[k]));
    forall j | 0 <= j < |above| ensures AtLeast(t[k])(above[j]) {
      assert above[j] == t[k + j] >= t[k];
    }
    CountAll(above, AtLeast(t[k]));
  }

  /** In a sorted sequence, a value below t[k] is at least only samples
      before k. */
  lemma SortedRankBelowStrict(t: seq<int>, k: nat, v: int)
    requires Sorted(t) && k < |t| && v < t[k]
    ensures Count(t, AtMost(v)) <= k
  {
    var above := t[k..];
    assert t == t[..k] + above;
    CountAppend(t[..k], above, AtMost(v));
    forall j | 0 <= j < |above| ensures !AtMost(v)(above[j]) {
      assert above[j] == t[k + j] >= t[k];
    }
    CountNone(above, AtMost(v));
  }

  /** In a sorted sequence, a value above t[k] is at most only samples after k. */
  lemma SortedRankAboveStrict(t: seq<int>, k: nat, v: int)
    requires Sorted(t) && k < |t| && v > t[k]
    ensures Count(t, AtLeast(v)) <= |t| - k - 1
  {
    var below := t[..k + 1];
    assert t == below + t[k + 1..];
    CountAppend(below, t[k + 1..], AtLeast(v));
    forall j | 0 <= j < |below| ensures !AtLeast(v)(below[j]) {
      assert below[j] == t[j] <= t[k];
    }
    CountNone(below, AtLeast(v));
  }

  /** The median is an order statistic of its window: with |w| == 2*h + 1, at
      least h + 1 samples (the median among them) are at most the median, and
      at least h + 1 are at least the median. */
  lemma MedianRank(w: seq<int>)
    requires |w| % 2 == 1
    ensures Count(w, AtMost(Median(w))) >= |w| / 2 + 1
    ensures Count(w, AtLeast(Median(w))) >= |w| / 2 + 1
  {
    var t, k := Sort(w), |w| / 2;
    SortSorted(w);
    SortedRankBelow(t, k);
    SortedRankAbove(t, k);
    CountSort(w, AtMost(t[k]));
    CountSort(w, AtLeast(t[k]));
  }

  /** The rank condition determines the median: a value has more than h
      samples of the window at most it and more than h at least it exactly
      when it is the median. */
  lemma MedianIsOnlyValueOfThatRank(w: seq<int>, v: int)
    requires |w| % 2 == 1
    ensures v == Median(w) <==> Count(w, AtMost(v)) > |w| / 2 && Count(w, AtLeast(v)) > |w| / 2
  {
    MedianRank(w);
    var t, k := Sort(w), |w| / 2;
    SortSorted(w);
    if v < t[k] {
      SortedRankBelowStrict(t, k, v);
    } else if v > t[k] {
      SortedRankAboveStrict(t, k, v);
    }
    CountSort(w, AtMost(v));
    CountSort(w, AtLeast(v));
  }

  /** The filter: a fresh copy of x in which each position i of [s, e) holds
      the median of the 2*halfWidth + 1 samples of x centred at i, and every
      other position keeps x's sample. Windows are read from x, which the
      method does not modify, so the filter is not recursive. An empty range
      (s >= e) returns the plain copy, whatever s, e and halfWidth are. */
  method MedianFilter(x: array<int>, s: int, e: int, halfWidth: nat) returns (result: array<int>)
    requires s < e ==> halfWidth <= s && e + halfWidth <= x.Length
    ensures fresh(result)
    ensures result.Length == x.Length
    ensures forall i :: 0 <= i < x.Length && !(s <= i < e) ==> result[i] == x[i]
    ensures forall i :: s <= i < e ==> result[i] == Median(x[i - halfWidth..i + halfWidth + 1])
  {
    result := new int[x.Length];
    forall k | 0 <= k < x.Length {
      result[k] := x[k];
    }
    var i := s;
    while i < e
      invariant s <= i
      invariant i <= e || i == s
      invariant forall k :: 0 <= k < x.Length && !(s <= k < i) ==> result[k] == x[k]
      invariant forall k :: s <= k < i ==> result[k] == Median(x[k - halfWidth..k + halfWidth + 1])
    {
      var neighbourhood := x[i - halfWidth..i + halfWidth + 1];
      result[i] := Median(neighbourhood);
      i := i + 1;
    }
  }
}
