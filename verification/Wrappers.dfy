/** Failure-carrying results shared by the model. */
module Wrappers {

  datatype Option<+T> = None | Some(value: T)

  datatype Result<+T, +E> = Ok(value: T) | Err(error: E)

  /** Some number beyond all of these. */
  lemma Unused(numbers: set<nat>) returns (u: nat)
    ensures forall n :: n in numbers ==> n < u
  {
    if numbers == {} {
      u := 0;
    } else {
      var n :| n in numbers;
      var v := Unused(numbers - {n});
      u := if n < v then v else n + 1;
      assert forall x :: x in numbers ==> x == n || x in numbers - {n};
    }
  }
}
