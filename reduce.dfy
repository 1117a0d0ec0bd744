/** Stand-ins for the reduction drivers the eager transducer is used with.

    `Reduce` is the top-level driver: it feeds the arguments of each step
    call, in order, to a reducing function. `ReduceNested` is the replay used
    at completion: it feeds each element of a sequence, one per call, to a
    reducing function. Both are plain left folds; early termination is not
    modelled. `Record` is a downstream step that records every unit it
    receives, so that what a pipeline emits can be stated.
 */
module Reducing {
  import opened Bundle

  function Reduce<S>(step: (S, seq<Value>) -> S, s: S, calls: seq<seq<Value>>): S
    decreases |calls|
  {
    if calls == [] then s else Reduce(step, step(s, calls[0]), calls[1..])
  }

  function ReduceNested<S>(step: (S, seq<Value>) -> S, s: S, elems: seq<Value>): S
    decreases |elems|
  {
    if elems == [] then s else ReduceNested(step, step(s, [elems[0]]), elems[1..])
  }

  /** One single-argument call per element. */
  function Singletons(elems: seq<Value>): (calls: seq<seq<Value>>)
    ensures |calls| == |elems|
    ensures forall i :: 0 <= i < |elems| ==> calls[i] == [elems[i]]
  {
    seq(|elems|, i requires 0 <= i < |elems| => [elems[i]])
  }

  /** A downstream step that appends the unit it receives to a trace. */
  function Record(trace: seq<Value>, args: seq<Value>): seq<Value> {
    trace + [Tuplify(args)]
  }

  /** Replaying elements is the same as driving one single-argument call per
      element through the same reducing function. */
  lemma {:induction false} ReduceNestedIsReduce<S>(step: (S, seq<Value>) -> S, s: S, elems: seq<Value>)
    ensures ReduceNested(step, s, elems) == Reduce(step, s, Singletons(elems))
    decreases |elems|
  {
    if elems != [] {
      ReduceNestedIsReduce(step, step(s, [elems[0]]), elems[1..]);
      assert Singletons(elems)[1..] == Singletons(elems[1..]);
    }
  }

  /** Single-argument calls bundle to the elements themselves. */
  lemma TuplifySingletons(elems: seq<Value>)
    ensures TuplifyAll(Singletons(elems)) == elems
  {
  }

  /** The replay passes every element to the downstream step exactly once,
      in order, starting from the given accumulator. */
  lemma {:induction false} ReplayRecords(trace: seq<Value>, elems: seq<Value>)
    ensures ReduceNested(Record, trace, elems) == trace + elems
    decreases |elems|
  {
    if elems != [] {
      ReplayRecords(trace + [elems[0]], elems[1..]);
      assert trace + [elems[0]] + elems[1..] == trace + elems;
    }
  }
}
