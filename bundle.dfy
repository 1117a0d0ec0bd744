/** Elements of a reduction and the bundling of a step call's arguments.

    A step call receives one or more input values. Before it is stored, the
    call is bundled into one unit: a single argument stays the value itself,
    several arguments become a tuple of them (the `tuplify` rule). Because a
    tuple is itself a value, the output of one eager stage can be fed, one
    element per call, into another.

    Elements are ordered by their natural ordering: integers numerically,
    tuples lexicographically with earlier components taking priority.
 */
module Bundle {

  /** A storable element: a scalar, or a tuple bundling the arguments of one
      multi-argument step call. */
  datatype Value = Int(n: int) | Tuple(items: seq<Value>)

  /** Bundles the arguments of one step call into a single unit. */
  function Tuplify(args: seq<Value>): Value {
    if |args| == 1 then args[0] else Tuple(args)
  }

  /** The units stored for a sequence of step calls, one per call. */
  function TuplifyAll(calls: seq<seq<Value>>): (units: seq<Value>)
    ensures |units| == |calls|
    ensures forall i :: 0 <= i < |calls| ==> units[i] == Tuplify(calls[i])
    decreases |calls|
  {
    if calls == [] then [] else [Tuplify(calls[0])] + TuplifyAll(calls[1..])
  }

  /** The size of a value, used as the termination measure of the order. */
  function Size(v: Value): (s: nat)
    ensures s >= 1
  {
    match v
    case Int(_) => 1
    case Tuple(items) => 1 + SeqSize(items)
  }

  function SeqSize(vs: seq<Value>): nat {
    if vs == [] then 0 else Size(vs[0]) + SeqSize(vs[1..])
  }

  /** The natural order on elements: `a` sorts no later than `b`. Integers
      come before tuples (the two are never compared by the program: all
      elements of one run share a shape). */
  predicate Leq(a: Value, b: Value)
    decreases Size(a), 0
  {
    match (a, b)
    case (Int(x), Int(y)) => x <= y
    case (Int(_), Tuple(_)) => true
    case (Tuple(_), Int(_)) => false
    case (Tuple(xs), Tuple(ys)) => LexLeq(xs, ys)
  }

  /** Lexicographic order on sequences of elements: the first differing
      component decides; a proper prefix comes first. */
  predicate LexLeq(xs: seq<Value>, ys: seq<Value>)
    decreases SeqSize(xs), 1
  {
    if xs == [] then true
    else if ys == [] then false
    else if xs[0] != ys[0] then Leq(xs[0], ys[0])
    else LexLeq(xs[1..], ys[1..])
  }

  lemma {:induction false} LeqReflexive(a: Value)
    ensures Leq(a, a)
  {
    if a.Tuple? {
      LexLeqReflexive(a.items);
    }
  }

  lemma {:induction false} LexLeqReflexive(xs: seq<Value>)
    ensures LexLeq(xs, xs)
    decreases |xs|
  {
    if xs != [] {
      LexLeqReflexive(xs[1..]);
    }
  }

  /** Any two elements are comparable. */
  lemma {:induction false} LeqTotal(a: Value, b: Value)
    ensures Leq(a, b) || Leq(b, a)
    decreases Size(a), 0
  {
    if a.Tuple? && b.Tuple? {
      LexLeqTotal(a.items, b.items);
    }
  }

  lemma {:induction false} LexLeqTotal(xs: seq<Value>, ys: seq<Value>)
    ensures LexLeq(xs, ys) || LexLeq(ys, xs)
    decreases SeqSize(xs), 1
  {
    if xs != [] && ys != [] {
      if xs[0] != ys[0] {
        LeqTotal(xs[0], ys[0]);
      } else {
        LexLeqTotal(xs[1..], ys[1..]);
      }
    }
  }

  /** Two elements that each sort no later than the other are equal, so the
      natural order is a total order and a sorted arrangement is unique. */
  lemma {:induction false} LeqAntisymmetric(a: Value, b: Value)
    requires Leq(a, b) && Leq(b, a)
    ensures a == b
    decreases Size(a), 0
  {
    if a.Tuple? && b.Tuple? {
      LexLeqAntisymmetric(a.items, b.items);
    }
  }

  lemma {:induction false} LexLeqAntisymmetric(xs: seq<Value>, ys: seq<Value>)
    requires LexLeq(xs, ys) && LexLeq(ys, xs)
    ensures xs == ys
    decreases SeqSize(xs), 1
  {
    if xs != [] && ys != [] {
      if xs[0] != ys[0] {
        LeqAntisymmetric(xs[0], ys[0]);
      } else {
        LexLeqAntisymmetric(xs[1..], ys[1..]);
        assert xs == [xs[0]] + xs[1..] && ys == [ys[0]] + ys[1..];
      }
    }
  }

  lemma {:induction false} LeqTransitive(a: Value, b: Value, c: Value)
    requires Leq(a, b) && Leq(b, c)
    ensures Leq(a, c)
    decreases Size(a), 0
  {
    if a.Tuple? && b.Tuple? && c.Tuple? {
      LexLeqTransitive(a.items, b.items, c.items);
    }
  }

  lemma {:induction false} LexLeqTransitive(xs: seq<Value>, ys: seq<Value>, zs: seq<Value>)
    requires LexLeq(xs, ys) && LexLeq(ys, zs)
    ensures LexLeq(xs, zs)
    decreases SeqSize(xs), 1
  {
    if xs != [] && ys != [] && zs != [] {
      if xs[0] == ys[0] && ys[0] == zs[0] {
        LexLeqTransitive(xs[1..], ys[1..], zs[1..]);
      } else if xs[0] != ys[0] && ys[0] != zs[0] {
        LeqTransitive(xs[0], ys[0], zs[0]);
        if xs[0] == zs[0] {
          LeqAntisymmetric(xs[0], ys[0]);
        }
      }
    }
  }

  /** `s` is non-decreasing under the natural order. */
  predicate SortedSeq(s: seq<Value>) {
    forall i, j :: 0 <= i < j < |s| ==> Leq(s[i], s[j])
  }
}
