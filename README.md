# Eager transducers of zug, modelled in Dafny

This project models the eager transducer of the zug C++ transducer library
(`zug/transducer/eager.hpp`) and its two instances, `sorted` and `reversed`.

`eager(algo)` builds a transducer that produces no output while the input
streams through. Each step call bundles its arguments into one unit (the
`tuplify` rule: one argument stays itself, several become a tuple). It appends
the unit to a buffer held in a private payload attached to the accumulator,
and returns the accumulator re-wrapped but otherwise unchanged. The payload
holds the buffer, the downstream step and the algorithm. It is created on the
first step call of a run, when the incoming accumulator is not wrapped yet.
When the reduction completes, the completion hook for the eager tag runs
`algo` on the buffer. It replays the result, one element per call, through
the downstream step, starting from the unwrapped accumulator. It then hands
the result to the downstream completion. `sorted` sorts the buffer in place;
`reversed` replays it through a reverse view.

Files and modules:

- `bundle.dfy` (`Bundle`): elements (`Value`: integers and tuples), the
  bundling rule `Tuplify`, and the natural order `Leq`. Integers compare
  numerically and tuples lexicographically, with earlier components taking
  priority. The file proves that `Leq` is a total order.
- `state_wrapper.dfy` (`StateWrapper`): a stand-in for the state-wrapper
  protocol. A value is `Plain(acc)` or `Wrapped(inner, data)`. The module
  gives `WrapState`, `Unwrap` (the identity on a plain value) and
  `StateData` (get-or-init of the payload).
- `reduce.dfy` (`Reducing`): stand-ins for the reduction drivers. `Reduce` is
  the top-level driver, a left fold over step calls. `ReduceNested` is the
  completion-time replay, a left fold with one single-argument call per
  element. `Record` is a downstream step that appends what it receives to a
  trace, so that what a pipeline emits can be stated.
- `eager.dfy` (`EagerBuilder`): the core.
  - `EagerStep`, the transducer `Eager(algo)` and the completion `Complete`.
  - The class `EagerStepper`, which performs the step closure's in-place
    buffer append.
  - The run lemmas.
- `sorted.dfy` (`EagerSorted`): `Sort`, the algorithm as a function, with its
  laws; `SortInPlace`, the in-place sort of the buffer's storage, proved to
  compute exactly `Sort`; and what `sorted` emits.
- `reversed.dfy` (`EagerReversed`): `Reverse`, the reverse view, with its
  index law, involution and element preservation; and what `reversed` emits.
- `pipelines.dfy` (`Pipelines`): `sorted` composed in front of `reversed`.

Completion is modelled as a function of the eager accumulator and of `done`.
Here `done` is the completion of the downstream accumulator: what
`state_complete` does to the result of the replay, and to a value the eager
stage never wrapped. For a plain accumulator it is the identity. For a
downstream eager stage it is that stage's own `Complete`; this is how
`Pipelines` chains completions.

With zero input elements the code never runs the step closure. No payload
exists, so at completion `algo` is never called: the accumulator goes straight
to the downstream completion unchanged. The model follows the code here.
Running `Sort` or `Reverse` on an empty buffer would give the same output,
since both return the empty sequence.

## Model

| member | source | states |
|---|---|---|
| `Bundle.TuplifyAll` | zug/transducer/eager.hpp:38-43 | one unit per step call: there are as many units as calls, and unit `i` is the bundling of call `i`'s arguments |
| `Bundle.LeqReflexive` | zug/transducer/eager.hpp:70-73 | every element sorts no later than itself under the order `sorted` uses |
| `Bundle.LeqTotal` | zug/transducer/eager.hpp:70-73 | any two elements are comparable, so sorting is well defined |
| `Bundle.LeqAntisymmetric` | zug/transducer/eager.hpp:70-73 | two elements that each sort no later than the other are equal, so the order is total and not only a preorder |
| `Bundle.LeqTransitive` | zug/transducer/eager.hpp:70-73 | the lexicographic element order is transitive, including through nested tuples |
| `Reducing.ReduceNestedIsReduce` | zug/transducer/eager.hpp:53-57 | the completion replay is the same as one single-argument step call per element, in order |
| `Reducing.ReplayRecords` | zug/transducer/eager.hpp:53-57 | the replay hands every element to the downstream step exactly once, in order, starting from the given accumulator |
| `EagerBuilder.StepAppendsOne` | zug/transducer/eager.hpp:37-46 | one step call wraps the result, keeps the unwrapped accumulator, appends exactly one unit at the end of the buffer, creates the payload from this stage's step and algorithm when the input is plain, and reuses the payload otherwise |
| `EagerBuilder.EagerStepper.constructor` | zug/transducer/eager.hpp:36-37 | a run of the step closure starts on a plain accumulator, with no payload |
| `EagerBuilder.EagerStepper.Step` | zug/transducer/eager.hpp:37-46 | the in-place step: the accumulator is unchanged, the buffer is the old buffer (or a fresh empty one) plus the new unit, and the new state is exactly `EagerStep` of the old one |
| `EagerBuilder.RunKeepsAccumulator` | zug/transducer/eager.hpp:30-31 | over any number of step calls the unwrapped accumulator never changes, so nothing is sent downstream before completion; the value is wrapped exactly when a call happened |
| `EagerBuilder.RunBuffers` | zug/transducer/eager.hpp:43 | after any calls the buffer is what it held before (nothing, for a plain value) followed by one unit per call, in arrival order, with earlier entries unchanged |
| `EagerBuilder.RunCreatesPayloadOnce` | zug/transducer/eager.hpp:40-42 | the payload of a run is created by its first step call and carries the downstream step and algorithm of that call; a wrapped value keeps its payload's step and algorithm |
| `EagerBuilder.CompleteAfterRun` | zug/transducer/eager.hpp:51-57 | completing a run from plain `a` gives the downstream completion of the replay of `algo(units)` through the downstream step from `a`; with no calls it gives the downstream completion of `a`, and `algo` is not used |
| `EagerBuilder.EagerEmits` | zug/transducer/eager.hpp:30-57 | a recording downstream sees exactly `algo` of the bundled inputs, each unit once and in that order, and sees nothing for an empty input |
| `EagerSorted.InsertSorted` | zug/transducer/eager.hpp:70-73 | inserting into a sorted sequence keeps it sorted and adds exactly that one element |
| `EagerSorted.SortSortsPermutation` | zug/transducer/eager.hpp:70-73 | the algorithm of `sorted` returns a non-decreasing permutation of the buffer |
| `EagerSorted.SortedUnique` | zug/transducer/eager.hpp:70-73 | two non-decreasing arrangements of the same elements are equal, so every correct sort gives the same output |
| `EagerSorted.SortInPlace` | zug/transducer/eager.hpp:71 | sorting the buffer's storage in place leaves exactly `Sort` of its original contents |
| `EagerSorted.SortedEmits` | zug/transducer/eager.hpp:70-73 | a run of `sorted` emits, after the existing trace, one unit per input; the units form a non-decreasing permutation of the bundled inputs |
| `EagerReversed.ReverseIndexLaw` | zug/transducer/eager.hpp:85-87 | the reverse view has the buffer's length, and position `k` holds the element at `n-1-k` |
| `EagerReversed.ReverseTwice` | zug/transducer/eager.hpp:85-87 | reversing twice restores the original order |
| `EagerReversed.ReverseSameElements` | zug/transducer/eager.hpp:85-87 | the reverse view holds the same elements as the buffer, each as often |
| `EagerReversed.ReversedEmits` | zug/transducer/eager.hpp:85-87 | a run of `reversed` emits, after the existing trace, one unit per input; output position `i` holds the unit of input call `n-1-i` |
| `Pipelines.SortedThenReversed` | zug/transducer/eager.hpp:51-57 | `sorted` in front of `reversed` emits the reverse of the sorted inputs, because completing `sorted` replays into `reversed` and then completes it |
| `Pipelines.SortedThenReversedExample` | zug/transducer/eager.hpp:51-57 | inputs 3, 1, 2 through `sorted` then `reversed` come out as 3, 2, 1 |

## Left out

- `comp`, `tuplify`, `reduce_nested`, `state_wrapper` and `detail::make_iterator_range` are not part of this model. Only the behaviour `eager.hpp` relies on is modelled, as the stand-ins above.
- `ReduceNested` is a plain fold. The early termination that `reduce_nested` may honour is not modelled; its contract is not available.
- `Reducing.ReduceNested`: a tuple element is replayed as one argument holding the tuple, so the next eager stage stores it unchanged. The exact unpacking `reduce_nested` applies is not available.
- `EagerSorted.SortInPlace` sorts by insertion, not by `std::sort`'s algorithm. The element order is total, so every correct sort yields the same sequence and no stability is claimed.
- The payload stores the addresses of the step and the algorithm; the model stores them as function values. Their aliasing and lifetime are not modelled.
- The template and forwarding machinery is not modelled: `ZUG_FWD`, `decltype(auto)`, `std::decay_t`, the variadic parameter pack and `identity_`. The variadic arguments of a step call are a sequence of values.
- Element types are integers and tuples of elements. C++ allows any type with `operator<`. The program never compares an integer with a tuple, nor tuples of different lengths (C++ compares only tuples of the same size); the model orders integers before tuples and a proper prefix before a longer tuple, so that the order is total.
- `Bundle.Tuplify`: a step call with no arguments bundles to the empty tuple. `tuplify` is not part of this model, so this case is an assumption.
- The buffer is a sequence. Vector growth, reallocation and the O(n) space bound are not modelled.
- The downstream completion is a parameter (`done`) rather than a dispatch on type-level tags.
- Completion is not modelled as a method of `EagerStepper`. The source's completion hook is a pure function of the wrapped value, and `Complete` models it as a function of `State()`.
