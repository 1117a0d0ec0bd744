/** The `sorted` eager transducer: at completion the buffer is sorted in
    place under the natural element order and replayed downstream.

    `Sort` is the algorithm as a function on the buffer; `SortInPlace` sorts
    the buffer's storage in place and is proved to produce exactly `Sort` of
    it. Since the order is total, the sorted arrangement of a buffer is
    unique, so no stability is claimed or needed.
 */
module EagerSorted {
  import opened Bundle
  import opened StateWrapper
  import opened Reducing
  import opened EagerBuilder

  /** Inserts `x` into `s` before the first element it sorts no later than. */
  function Insert(x: Value, s: seq<Value>): seq<Value> {
    if s == [] then [x]
    else if Leq(x, s[0]) then [x] + s
    else [s[0]] + Insert(x, s[1..])
  }

  /** The algorithm `sorted` hands to the eager builder. */
  function Sort(s: seq<Value>): seq<Value> {
    if s == [] then [] else Insert(s[0], Sort(s[1..]))
  }

  /** The `sorted` transducer. */
  function Sorted<A>(): ((A, seq<Value>) -> A) -> ((EagerState<A>, seq<Value>) -> EagerState<A>) {
    Eager(Sort)
  }

  /** A lower bound of `x` and of every element of `rest` bounds every
      element of a rearrangement of them. */
  lemma {:induction false} LowerBound(y: Value, x: Value, rest: seq<Value>, t: seq<Value>)
    requires Leq(y, x)
    requires forall k :: 0 <= k < |rest| ==> Leq(y, rest[k])
    requires multiset(t) == multiset(rest) + multiset{x}
    ensures forall j :: 0 <= j < |t| ==> Leq(y, t[j])
  {
    forall j | 0 <= j < |t| ensures Leq(y, t[j]) {
      assert t[j] in multiset(t);
      if t[j] != x {
        assert t[j] in multiset(rest);
        var k :| 0 <= k < |rest| && rest[k] == t[j];
      }
    }
  }

  /** Putting a lower bound of a sorted sequence in front keeps it sorted. */
  lemma {:induction false} ConsSorted(y: Value, t: seq<Value>)
    requires SortedSeq(t)
    requires forall j :: 0 <= j < |t| ==> Leq(y, t[j])
    ensures SortedSeq([y] + t)
  {
    var u := [y] + t;
    forall i, j | 0 <= i < j < |u| ensures Leq(u[i], u[j]) {
      if i > 0 {
        assert u[i] == t[i - 1] && u[j] == t[j - 1];
      }
    }
  }

  lemma {:induction false} InsertSorted(x: Value, s: seq<Value>)
    requires SortedSeq(s)
    ensures SortedSeq(Insert(x, s))
    ensures multiset(Insert(x, s)) == multiset(s) + multiset{x}
    decreases |s|
  {
    if s == [] {
      assert Insert(x, s) == [x];
    } else if Leq(x, s[0]) {
      forall j | 0 <= j < |s| ensures Leq(x, s[j]) {
        if j > 0 {
          LeqTransitive(x, s[0], s[j]);
        }
      }
      ConsSorted(x, s);
      assert Insert(x, s) == [x] + s;
    } else {
      LeqTotal(x, s[0]);
      var rest := s[1..];
      InsertSorted(x, rest);
      var t := Insert(x, rest);
      LowerBound(s[0], x, rest, t);
      ConsSorted(s[0], t);
      assert Insert(x, s) == [s[0]] + t;
      assert multiset(s) == multiset{s[0]} + multiset(rest) by {
        assert s == [s[0]] + rest;
      }
    }
  }

  /** `Sort` yields a non-decreasing permutation of the buffer. */
  lemma {:induction false} SortSortsPermutation(s: seq<Value>)
    ensures SortedSeq(Sort(s))
    ensures multiset(Sort(s)) == multiset(s)
    decreases |s|
  {
    if s != [] {
      SortSortsPermutation(s[1..]);
      InsertSorted(s[0], Sort(s[1..]));
      assert s == [s[0]] + s[1..];
    }
  }

  /** The first element of a non-decreasing sequence sorts no later than any
      of its elements. */
  lemma {:induction false} SortedHeadLeast(x: seq<Value>, v: Value)
    requires SortedSeq(x) && v in multiset(x)
    ensures Leq(x[0], v)
  {
    var k :| 0 <= k < |x| && x[k] == v;
    if k == 0 {
      LeqReflexive(v);
    }
  }

  /** Dropping the first element keeps a sequence sorted and removes one
      occurrence of that element. */
  lemma {:induction false} SortedTail(x: seq<Value>)
    requires SortedSeq(x) && x != []
    ensures SortedSeq(x[1..])
    ensures multiset(x[1..]) == multiset(x) - multiset{x[0]}
  {
    assert x == [x[0]] + x[1..];
  }

  /** Two non-decreasing arrangements of the same elements are the same
      sequence. */
  lemma {:induction false} SortedUnique(x: seq<Value>, y: seq<Value>)
    requires SortedSeq(x) && SortedSeq(y)
    requires multiset(x) == multiset(y)
    ensures x == y
    decreases |x|
  {
    assert |x| == |multiset(x)| == |multiset(y)| == |y|;
    if x != [] {
      assert x[0] in multiset(x) && y[0] in multiset(y);
      SortedHeadLeast(x, y[0]);
      SortedHeadLeast(y, x[0]);
      LeqAntisymmetric(x[0], y[0]);
      SortedTail(x);
      SortedTail(y);
      SortedUnique(x[1..], y[1..]);
      assert x == [x[0]] + x[1..] && y == [y[0]] + y[1..];
    }
  }

  /** `s[..i+1]` is sorted except that `s[j]` may be out of place, and
      everything after `s[j]` up to `s[i]` sorts no earlier than it. */
  ghost predicate Sinking(s: seq<Value>, i: nat, j: nat) {
    && j <= i < |s|
    && (forall p, q :: 0 <= p < q <= i && p != j && q != j ==> Leq(s[p], s[q]))
    && (forall q :: j < q <= i ==> Leq(s[j], s[q]))
    && (0 < j < i ==> Leq(s[j - 1], s[j + 1]))
  }

  /** Swapping an out-of-place `s[j]` with a larger left neighbour moves it
      one place left and keeps the rest in order. */
  lemma {:induction false} SinkOne(s: seq<Value>, i: nat, j: nat)
    requires Sinking(s, i, j) && 0 < j && !Leq(s[j - 1], s[j])
    ensures Sinking(s[j - 1 := s[j]][j := s[j - 1]], i, j - 1)
  {
    LeqTotal(s[j - 1], s[j]);
  }

  /** Once `s[j]` is no smaller than its left neighbour, `s[..i+1]` is sorted. */
  lemma {:induction false} SinkDone(s: seq<Value>, i: nat, j: nat)
    requires Sinking(s, i, j) && (j == 0 || Leq(s[j - 1], s[j]))
    ensures SortedSeq(s[..i + 1])
  {
    forall p | 0 <= p < j ensures Leq(s[p], s[j]) {
      if p < j - 1 {
        LeqTransitive(s[p], s[j - 1], s[j]);
      }
    }
  }

  /** Exchanges two neighbouring elements of the buffer. */
  method SwapAdjacent(a: array<Value>, j: nat)
    requires 0 < j < a.Length
    modifies a
    ensures a[..] == old(a[..])[j - 1 := old(a[j])][j := old(a[j - 1])]
    ensures multiset(a[..]) == old(multiset(a[..]))
  {
    a[j - 1], a[j] := a[j], a[j - 1];
  }

  /** Moves `a[i]` left past every larger element of the sorted prefix
      `a[..i]`, leaving `a[..i+1]` sorted. */
  method InsertLast(a: array<Value>, i: nat)
    requires i < a.Length
    requires SortedSeq(a[..i])
    modifies a
    ensures SortedSeq(a[..i + 1])
    ensures multiset(a[..]) == old(multiset(a[..]))
    ensures a[i + 1..] == old(a[i + 1..])
  {
    var j: nat := i;
    while j > 0 && !Leq(a[j - 1], a[j])
      invariant Sinking(a[..], i, j)
      invariant multiset(a[..]) == old(multiset(a[..]))
      invariant a[i + 1..] == old(a[i + 1..])
    {
      SinkOne(a[..], i, j);
      SwapAdjacent(a, j);
      j := j - 1;
    }
    SinkDone(a[..], i, j);
  }

  /** Sorts the buffer's storage in place, as `std::sort` does; the result is
      exactly `Sort` of the original contents. */
  method SortInPlace(a: array<Value>)
    modifies a
    ensures a[..] == Sort(old(a[..]))
  {
    var i := 0;
    while i < a.Length
      invariant 0 <= i <= a.Length
      invariant SortedSeq(a[..i])
      invariant multiset(a[..]) == old(multiset(a[..]))
    {
      InsertLast(a, i);
      i := i + 1;
    }
    assert a[..a.Length] == a[..];
    SortSortsPermutation(old(a[..]));
    SortedUnique(a[..], Sort(old(a[..])));
  }

  /** What a run of `sorted` emits to a recording downstream step: the
      bundled inputs, non-decreasing, each exactly as often as it arrived,
      after what the trace already held; nothing when there was no input. */
  lemma {:induction false} SortedEmits(trace: seq<Value>, calls: seq<seq<Value>>)
    ensures var out := Complete(Reduce(Sorted()(Record), Plain(trace), calls), t => t);
      && |out| == |trace| + |calls|
      && out[..|trace|] == trace
      && SortedSeq(out[|trace|..])
      && multiset(out[|trace|..]) == multiset(TuplifyAll(calls))
  {
    EagerEmits(Sort, trace, calls);
    SortSortsPermutation(TuplifyAll(calls));
    var out := Complete(Reduce(Sorted()(Record), Plain(trace), calls), t => t);
    var sorted := Sort(TuplifyAll(calls));
    assert |sorted| == |multiset(sorted)| == |TuplifyAll(calls)|;
    if calls == [] {
      assert out == trace;
    } else {
      assert out == trace + sorted;
      assert out[|trace|..] == sorted;
    }
  }
}
