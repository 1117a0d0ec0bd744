/** The stateful-wrapper protocol that eager transducers rely on.

    A reducing function may attach a private payload to the accumulator it
    passes along. A value is either a plain accumulator or a wrapper holding
    the accumulator it wraps and the payload. Unwrapping is the identity on
    a plain accumulator, so every transducer may unwrap defensively, and
    unwrapping a wrapped value gives back exactly the accumulator it wraps.
 */
module StateWrapper {

  datatype State<A, P> = Plain(acc: A) | Wrapped(inner: A, data: P)

  /** Attaches `payload` to the accumulator `a`. */
  function WrapState<A, P>(a: A, payload: P): State<A, P> {
    Wrapped(a, payload)
  }

  /** The accumulator a value stands for, with any wrapper removed. */
  function Unwrap<A, P>(s: State<A, P>): A {
    match s
    case Plain(a) => a
    case Wrapped(a, _) => a
  }

  /** The payload of a wrapped value; on a value that is not wrapped yet, the
      payload `init` builds, which is how a transducer creates its run-scoped
      state on its first step call. */
  function StateData<A, P>(s: State<A, P>, init: P): P {
    match s
    case Plain(_) => init
    case Wrapped(_, data) => data
  }
}
