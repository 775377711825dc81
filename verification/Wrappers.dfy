/** The failure-compatible datatypes shared by the other modules. */
module Wrappers {

  datatype Option<+T> = None | Some(value: T)

  /** The outcome of an operation that returns a value or throws. */
  datatype Result<+T, +E> = Ok(value: T) | Err(error: E) {
    predicate IsFailure() {
      Err?
    }

    function PropagateFailure<U>(): Result<U, E>
      requires Err?
    {
      Err(error)
    }

    function Extract(): T
      requires Ok?
    {
      value
    }
  }
}

/** Sequence identities the solver finds costly inside larger proofs. */
module SeqFacts {

  lemma {:induction false} TakeNext<T>(a: seq<T>, b: seq<T>, k: nat)
    requires k < |b|
    ensures a + b[..k] + [b[k]] == a + b[..k + 1]
    ensures b[..k] + [b[k]] == b[..k + 1]
  {
  }

  lemma {:induction false} IsConcat<T>(whole: seq<T>, left: seq<T>, right: seq<T>)
    requires |whole| == |left| + |right|
    requires forall i :: 0 <= i < |left| ==> whole[i] == left[i]
    requires forall i {:trigger right[i]} :: 0 <= i < |right| ==> whole[|left| + i] == right[i]
    ensures whole == left + right
  {
  }

  lemma {:induction false} Assoc<T>(a: seq<T>, b: seq<T>, c: seq<T>)
    ensures a + b + c == a + (b + c)
  {
  }
}
