/** What the components share: optional values, results that may fail, ASCII texts and the size of subsets. */
module Wrappers {
  datatype Option<+T> = None | Some(value: T)

  datatype Result<+T, +E> = Ok(value: T) | Err(failure: E) {
    predicate IsFailure() {
      Err?
    }
    function PropagateFailure<U>(): Result<U, E>
      requires Err?
    {
      Err(failure)
    }
    function Extract(): T
      requires Ok?
    {
      value
    }
  }

  /** The codes of a text of ASCII characters. */
  function Ascii(text: string): (codes: seq<nat>)
    requires forall i :: 0 <= i < |text| ==> text[i] < 128 as char
    ensures |codes| == |text| && forall i :: 0 <= i < |codes| ==> codes[i] < 128 && codes[i] as char == text[i]
  {
    seq(|text|, i requires 0 <= i < |text| => text[i] as int)
  }

  lemma SubsetIsSmaller<T>(a: set<T>, b: set<T>)
    requires a <= b
    ensures |a| <= |b|
  {
    assert b == a + (b - a);
    assert a * (b - a) == {};
  }
}
