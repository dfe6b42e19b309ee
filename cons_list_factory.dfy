/** ConsListFactory: the empty list and variable-arity construction. */
module ConsListFactory {
  import opened Wrappers
  import CL = ConsList

  /** nil: the canonical empty list. */
  function Nil<T>(): (r: CL.List<T>)
    ensures CL.IsEmpty(r) && CL.Size(r) == 0 && CL.ToArray(r) == []
  {
    CL.Nil
  }

  /** asList(x1, ..., xn): the list holding the arguments in order, x1 at the head, built by prepending. */
  function AsList<T>(xs: seq<T>): (r: CL.List<T>)
    ensures CL.ToArray(r) == xs
    ensures CL.Size(r) == |xs|
    ensures |xs| > 0 ==> CL.Car(r) == Success(xs[0])
  {
    if |xs| == 0 then Nil() else CL.Prepend(xs[0], AsList(xs[1..]))
  }

  /** asList of a list's own elements gives back that list. */
  lemma {:induction false} AsListOfToArray<T>(l: CL.List<T>)
    ensures AsList(CL.ToArray(l)) == l
  {
    match l
    case Nil =>
    case Cons(h, t) =>
      assert CL.ToArray(l)[1..] == CL.ToArray(t);
      AsListOfToArray(t);
  }
}
