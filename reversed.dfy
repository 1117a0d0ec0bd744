/** The `reversed` eager transducer: at completion the buffer is replayed
    downstream in reverse arrival order, through a reverse view of it.
 */
module EagerReversed {
  import opened Bundle
  import opened StateWrapper
  import opened Reducing
  import opened EagerBuilder

  /** The algorithm `reversed` hands to the eager builder: the buffer read
      from its last element to its first. */
  function Reverse(s: seq<Value>): seq<Value> {
    if s == [] then [] else Reverse(s[1..]) + [s[0]]
  }

  /** The `reversed` transducer. */
  function Reversed<A>(): ((A, seq<Value>) -> A) -> ((EagerState<A>, seq<Value>) -> EagerState<A>) {
    Eager(Reverse)
  }

  /** The reverse view has the buffer's length and position `k` holds the
      element that arrived `k`-th from the end. */
  lemma {:induction false} ReverseIndexLaw(s: seq<Value>)
    ensures |Reverse(s)| == |s|
    ensures forall k :: 0 <= k < |s| ==> Reverse(s)[k] == s[|s| - 1 - k]
    decreases |s|
  {
    if s != [] {
      ReverseIndexLaw(s[1..]);
    }
  }

  /** Reversing twice restores the arrival order. */
  lemma {:induction false} ReverseTwice(s: seq<Value>)
    ensures Reverse(Reverse(s)) == s
  {
    ReverseIndexLaw(s);
    ReverseIndexLaw(Reverse(s));
  }

  /** The reverse view holds the same elements, each as often. */
  lemma {:induction false} ReverseSameElements(s: seq<Value>)
    ensures multiset(Reverse(s)) == multiset(s)
    decreases |s|
  {
    if s != [] {
      ReverseSameElements(s[1..]);
      assert s == [s[0]] + s[1..];
    }
  }

  /** What a run of `reversed` emits to a recording downstream step: after
      what the trace held, one unit per input call, the last call's first;
      nothing when there was no input. */
  lemma {:induction false} ReversedEmits(trace: seq<Value>, calls: seq<seq<Value>>)
    ensures var out := Complete(Reduce(Reversed()(Record), Plain(trace), calls), t => t);
      && |out| == |trace| + |calls|
      && out[..|trace|] == trace
      && forall i :: |trace| <= i < |out| ==> out[i] == Tuplify(calls[|out| - 1 - i])
  {
    EagerEmits(Reverse, trace, calls);
    ReverseIndexLaw(TuplifyAll(calls));
  }
}
