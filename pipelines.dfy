/** Eager transducers composed with each other: `sorted` in front of
    `reversed`. The completion of `sorted` replays its sorted buffer into the
    step of `reversed`, and then completes `reversed`, which replays that in
    reverse order into the recording step.
 */
module Pipelines {
  import opened Bundle
  import opened StateWrapper
  import opened Reducing
  import opened EagerBuilder
  import opened EagerSorted
  import opened EagerReversed

  /** Completing `sorted` then `reversed` emits the inputs sorted and then
      reversed, whatever the inputs; with no input it emits nothing. */
  lemma {:induction false} SortedThenReversed(trace: seq<Value>, calls: seq<seq<Value>>)
    ensures Complete(Reduce(Sorted()(Reversed()(Record)), Plain(Plain(trace)), calls),
                     s => Complete(s, t => t))
         == trace + Reverse(Sort(TuplifyAll(calls)))
  {
    var inner := Reversed()(Record);
    var done := (s: EagerState<seq<Value>>) => Complete(s, t => t);
    CompleteAfterRun(inner, Sort, done, Plain(trace), calls);
    var sorted := Sort(TuplifyAll(calls));
    SortSortsPermutation(TuplifyAll(calls));
    assert |sorted| == |multiset(sorted)| == |calls|;
    if calls != [] {
      ReduceNestedIsReduce(inner, Plain(trace), sorted);
      EagerEmits(Reverse, trace, Singletons(sorted));
      TuplifySingletons(sorted);
    }
  }

  /** Sorting the units 3, 1, 2 gives 1, 2, 3. */
  lemma {:induction false} SortThreeOneTwo()
    ensures Sort([Int(3), Int(1), Int(2)]) == [Int(1), Int(2), Int(3)]
  {
    assert Sort([Int(2)]) == [Int(2)];
    assert Sort([Int(1), Int(2)]) == Insert(Int(1), [Int(2)]) == [Int(1), Int(2)];
    assert Insert(Int(3), [Int(2)]) == [Int(2), Int(3)];
    assert Insert(Int(3), [Int(1), Int(2)]) == [Int(1)] + Insert(Int(3), [Int(2)]);
  }

  /** The end-to-end scenario: inputs 3, 1, 2 come out as 3, 2, 1. */
  lemma {:induction false} SortedThenReversedExample()
    ensures Complete(Reduce(Sorted()(Reversed()(Record)), Plain(Plain([])), [[Int(3)], [Int(1)], [Int(2)]]),
                     s => Complete(s, t => t))
         == [Int(3), Int(2), Int(1)]
  {
    var calls := [[Int(3)], [Int(1)], [Int(2)]];
    SortedThenReversed([], calls);
    assert TuplifyAll(calls) == [Int(3), Int(1), Int(2)];
    SortThreeOneTwo();
    ReverseIndexLaw([Int(1), Int(2), Int(3)]);
  }
}
