/** Result types shared by the other modules. A thrown HTTP exception of the
    source is a `Failure`; a nullable value is an `Option`. An answer of the database in no
    particular order is a sequence with each of a set once. */
module Wrappers {

  datatype Option<+T> = None | Some(value: T)

  datatype Result<+T, +E> = Success(value: T) | Failure(error: E)

  /** There is such an answer, whatever the set. */
  lemma InSomeOrder<T>(s: set<T>) returns (order: seq<T>)
    ensures forall j, k :: 0 <= j < k < |order| ==> order[j] != order[k]
    ensures forall x :: x in order ==> x in s
    ensures forall x :: x in s ==> x in order
  {
    if s == {} {
      order := [];
    } else {
      var x :| x in s;
      var rest := InSomeOrder(s - {x});
      order := rest + [x];
    }
  }
}
