/** Small things that several components need. */
module Basics {

  datatype Option<+T> = None | Some(value: T)

  /** A value or the reason why there is none. */
  datatype Fallible<+T, +E> = Ok(value: T) | Err(error: E) {
    predicate IsFailure() {
      Err?
    }
    function PropagateFailure<U>(): Fallible<U, E>
      requires Err?
    {
      Err(error)
    }
    function Extract(): T
      requires Ok?
    {
      value
    }
  }

  function Fill<T>(n: nat, x: T): (r: seq<T>)
    ensures |r| == n
  {
    seq(n, _ => x)
  }

  lemma MulOrder(a: int, b: int, p: int)
    requires a <= b && p >= 0
    ensures a * p <= b * p
  {
  }

  lemma DivisionBlock(v: int, p: int)
    requires p >= 1
    ensures v / p * p <= v < v / p * p + p
  {
  }

  /** The quotient is determined by the block a number lies in. */
  lemma SameBlock(v: int, q: int, p: int)
    requires p >= 1 && q * p <= v < q * p + p
    ensures v / p == q
  {
    var d := v / p;
    DivisionBlock(v, p);
    if d < q {
      MulOrder(d + 1, q, p);
    } else if d > q {
      MulOrder(q + 1, d, p);
    }
  }

  lemma Without<T>(s: set<T>, x: T)
    ensures |s - {x}| == |s| - (if x in s then 1 else 0)
  {
    if x !in s {
      assert s - {x} == s;
    }
  }
}
