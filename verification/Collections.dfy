/** What several parts of the model share. */
module Collections {
  datatype Option<T> = None | Some(value: T)

  /** No element occurs twice. */
  ghost predicate NoDup<T>(xs: seq<T>) {
    forall i, j :: 0 <= i < j < |xs| ==> xs[i] != xs[j]
  }

  /** A queue over two stretches of a run: what came in and went out in the first, and then in the second. */
  lemma InThenOut<T>(start: seq<T>, in1: seq<T>, out1: seq<T>, middle: seq<T>, in2: seq<T>, out2: seq<T>, end: seq<T>)
    requires start + in1 == out1 + middle && middle + in2 == out2 + end
    ensures start + (in1 + in2) == (out1 + out2) + end
  {
    assert start + (in1 + in2) == (start + in1) + in2;
    assert (out1 + middle) + in2 == out1 + (middle + in2);
    assert (out1 + out2) + end == out1 + (out2 + end);
  }
}
