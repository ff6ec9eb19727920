/** The Option type used for values that may be missing. */
module Wrappers {

  datatype Option<+T> = None | Some(value: T)

  /** The zero- or one-element sequence an option stands for. */
  function ToSeq<T(!new)>(o: Option<T>): (s: seq<T>)
    ensures |s| <= 1
    ensures forall x :: x in s <==> o == Some(x)
  {
    match o
    case None => []
    case Some(x) => [x]
  }
}
