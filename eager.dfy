/** The eager transducer builder.

    `Eager(algo)` holds back every input. Each step call bundles its
    arguments and appends the unit to a buffer kept in a private payload
    attached to the accumulator; the accumulator itself passes through
    unchanged and nothing reaches the downstream step. The payload (empty
    buffer, downstream step, algorithm) is created on the first step call of
    a run, when the incoming value is not wrapped yet. At completion the
    algorithm runs on the buffer, its result is replayed through the
    downstream step, and the downstream completion runs on what comes out.
 */
module EagerBuilder {
  import opened Bundle
  import opened StateWrapper
  import opened Reducing

  /** The run-scoped state of an eager transducer: the buffered units, the
      downstream step and the whole-sequence algorithm. */
  datatype Payload<!A> = Payload(
    buffer: seq<Value>,
    step: (A, seq<Value>) -> A,
    algo: seq<Value> -> seq<Value>)

  /** The accumulator an eager transducer passes along, over a downstream
      accumulator of type `A`. */
  type EagerState<!A> = State<A, Payload<A>>

  /** One step call of `Eager(algo)` in front of the downstream step `step`. */
  function EagerStep<A>(step: (A, seq<Value>) -> A, algo: seq<Value> -> seq<Value>,
                        s: EagerState<A>, args: seq<Value>): EagerState<A>
  {
    var data := StateData(s, Payload([], step, algo));
    WrapState(Unwrap(s), data.(buffer := data.buffer + [Tuplify(args)]))
  }

  /** The transducer: turns a downstream reducing function into the eager
      one. */
  function Eager<A>(algo: seq<Value> -> seq<Value>)
    : ((A, seq<Value>) -> A) -> ((EagerState<A>, seq<Value>) -> EagerState<A>)
  {
    step => (s, args) => EagerStep(step, algo, s, args)
  }

  /** Completion of a value an eager transducer may have wrapped, where `done`
      is the completion of the downstream accumulator. A value that was never
      wrapped goes straight to the downstream completion. */
  function Complete<A, R>(s: EagerState<A>, done: A -> R): R {
    match s
    case Plain(a) => done(a)
    case Wrapped(a, p) => done(ReduceNested(p.step, a, p.algo(p.buffer)))
  }

  /** The units buffered so far; nothing before the first step call. */
  function BufferOf<A>(s: EagerState<A>): seq<Value> {
    if s.Wrapped? then s.data.buffer else []
  }

  /** A step call appends exactly one unit to the end of the buffer, keeps
      the accumulator it wraps unchanged, creates the payload only when the
      incoming value is not wrapped yet and otherwise reuses it. */
  lemma StepAppendsOne<A>(step: (A, seq<Value>) -> A, algo: seq<Value> -> seq<Value>,
                          s: EagerState<A>, args: seq<Value>)
    ensures var r := EagerStep(step, algo, s, args);
      && r.Wrapped?
      && Unwrap(r) == Unwrap(s)
      && BufferOf(r) == BufferOf(s) + [Tuplify(args)]
      && (s.Plain? ==> r.data.step == step && r.data.algo == algo)
      && (s.Wrapped? ==> r.data.step == s.data.step && r.data.algo == s.data.algo)
  {
  }

  /** Driving any number of step calls through `Eager(algo)(step)` leaves the
      wrapped accumulator untouched, so the downstream step is never applied,
      and wraps the value exactly when some call happened. */
  lemma {:induction false} RunKeepsAccumulator<A>(step: (A, seq<Value>) -> A, algo: seq<Value> -> seq<Value>,
                                                  s: EagerState<A>, calls: seq<seq<Value>>)
    ensures var r := Reduce(Eager(algo)(step), s, calls);
      && Unwrap(r) == Unwrap(s)
      && (r.Wrapped? <==> s.Wrapped? || calls != [])
    decreases |calls|
  {
    if calls != [] {
      var s' := EagerStep(step, algo, s, calls[0]);
      assert Reduce(Eager(algo)(step), s, calls) == Reduce(Eager(algo)(step), s', calls[1..]);
      RunKeepsAccumulator(step, algo, s', calls[1..]);
    }
  }

  /** Each step call of a run buffers one unit, in arrival order, after what
      was already buffered. */
  lemma {:induction false} RunBuffers<A>(step: (A, seq<Value>) -> A, algo: seq<Value> -> seq<Value>,
                                         s: EagerState<A>, calls: seq<seq<Value>>)
    ensures BufferOf(Reduce(Eager(algo)(step), s, calls)) == BufferOf(s) + TuplifyAll(calls)
    decreases |calls|
  {
    if calls != [] {
      var s' := EagerStep(step, algo, s, calls[0]);
      assert Reduce(Eager(algo)(step), s, calls) == Reduce(Eager(algo)(step), s', calls[1..]);
      assert BufferOf(s') == BufferOf(s) + [Tuplify(calls[0])];
      RunBuffers(step, algo, s', calls[1..]);
      assert BufferOf(s') + TuplifyAll(calls[1..]) == BufferOf(s) + TuplifyAll(calls);
    }
  }

  /** The payload of a run is created once, by its first step call, from the
      downstream step and algorithm of that call; later calls reuse it. */
  lemma {:induction false} RunCreatesPayloadOnce<A>(step: (A, seq<Value>) -> A, algo: seq<Value> -> seq<Value>,
                                                    s: EagerState<A>, calls: seq<seq<Value>>)
    ensures var r := Reduce(Eager(algo)(step), s, calls);
      && (s.Wrapped? ==> r.Wrapped? && r.data.step == s.data.step && r.data.algo == s.data.algo)
      && (s.Plain? && calls != [] ==> r.Wrapped? && r.data.step == step && r.data.algo == algo)
    decreases |calls|
  {
    if calls != [] {
      var s' := EagerStep(step, algo, s, calls[0]);
      assert Reduce(Eager(algo)(step), s, calls) == Reduce(Eager(algo)(step), s', calls[1..]);
      RunCreatesPayloadOnce(step, algo, s', calls[1..]);
    }
  }

  /** A run started on a plain accumulator `a`: with no step call nothing is
      wrapped and completion hands `a` to the downstream completion; otherwise
      completion replays `algo` of the run's own inputs, bundled, through the
      downstream step starting from `a`, then completes downstream. */
  lemma {:induction false} CompleteAfterRun<A, R>(step: (A, seq<Value>) -> A, algo: seq<Value> -> seq<Value>,
                               done: A -> R, a: A, calls: seq<seq<Value>>)
    ensures Complete(Reduce(Eager(algo)(step), Plain(a), calls), done)
         == if calls == [] then done(a)
            else done(ReduceNested(step, a, algo(TuplifyAll(calls))))
  {
    RunKeepsAccumulator(step, algo, Plain(a), calls);
    RunBuffers(step, algo, Plain(a), calls);
    RunCreatesPayloadOnce(step, algo, Plain(a), calls);
    var r := Reduce(Eager(algo)(step), Plain(a), calls);
    if calls != [] {
      assert [] + TuplifyAll(calls) == TuplifyAll(calls);
      assert r == Wrapped(a, Payload(TuplifyAll(calls), step, algo));
    }
  }

  /** Seen by a recording downstream step with no completion work, a run of
      `Eager(algo)` emits nothing but `algo` of the bundled inputs, each unit
      once and in that order, after what the trace held; with no input it
      emits nothing at all. */
  lemma {:induction false} EagerEmits(algo: seq<Value> -> seq<Value>, trace: seq<Value>, calls: seq<seq<Value>>)
    ensures Complete(Reduce(Eager(algo)(Record), Plain(trace), calls), t => t)
         == trace + if calls == [] then [] else algo(TuplifyAll(calls))
  {
    CompleteAfterRun(Record, algo, t => t, trace, calls);
    if calls != [] {
      ReplayRecords(trace, algo(TuplifyAll(calls)));
    }
  }

  /** The step closure of one run, holding the value it threads in place:
      the wrapped accumulator, whether the payload exists yet, and the
      payload's buffer, which each step call extends. */
  class EagerStepper<A> {
    const step: (A, seq<Value>) -> A
    const algo: seq<Value> -> seq<Value>
    var inner: A
    var wrapped: bool
    var buffer: seq<Value>

    /** The value this run currently holds. */
    function State(): EagerState<A>
      reads this
    {
      if wrapped then Wrapped(inner, Payload(buffer, step, algo)) else Plain(inner)
    }

    /** Starts a run on the plain accumulator `init`. */
    constructor (step: (A, seq<Value>) -> A, algo: seq<Value> -> seq<Value>, init: A)
      ensures this.step == step && this.algo == algo
      ensures State() == Plain(init)
    {
      this.step := step;
      this.algo := algo;
      inner := init;
      wrapped := false;
      buffer := [];
    }

    /** One step call: create the payload if there is none yet, then append
      the bundled arguments to its buffer. */
    method Step(args: seq<Value>)
      modifies this
      ensures wrapped && inner == old(inner)
      ensures buffer == (if old(wrapped) then old(buffer) else []) + [Tuplify(args)]
      ensures State() == EagerStep(step, algo, old(State()), args)
    {
      if !wrapped {
        buffer := [];
        wrapped := true;
      }
      buffer := buffer + [Tuplify(args)];
    }
  }
}
