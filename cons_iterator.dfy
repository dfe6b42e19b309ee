/** The list's own iterator: a cursor holding the part of the list not yet visited. */
module ConsIterator {
  import opened Wrappers
  import opened ConsList

  /** The error next() signals once every element has been returned. */
  datatype IteratorError = NoSuchElement

  class Iterator<T> {
    /** The remaining list; the next element is its car. */
    var rest: List<T>
    /** The elements already returned, in order. */
    ghost var visited: seq<T>
    /** The list this iterator was obtained from. */
    ghost const source: List<T>

    /** Visited elements followed by the remaining ones are the source's elements. */
    ghost predicate Valid()
      reads this
    {
      visited + ToArray(rest) == ToArray(source)
    }

    /** iterator(): a fresh cursor at the head of l. */
    constructor (l: List<T>)
      ensures Valid() && source == l && rest == l && visited == []
    {
      rest := l;
      visited := [];
      source := l;
    }

    /** hasNext: some element of the source has not been returned yet. */
    function HasNext(): (b: bool)
      reads this
      ensures b <==> Size(rest) > 0
      ensures Valid() ==> (b <==> |visited| < Size(source))
    {
      !IsEmpty(rest)
    }

    /** next: the car of the remaining list, advancing to its cdr; NoSuchElement when exhausted. */
    method Next() returns (r: Result<T, IteratorError>)
      requires Valid()
      modifies this
      ensures Valid()
      ensures old(rest).Nil? ==> r == Failure(NoSuchElement) && rest == old(rest) && visited == old(visited)
      ensures old(rest).Cons? ==> r == Success(old(rest).head) && rest == old(rest).tail
      ensures old(rest).Cons? ==> visited == old(visited) + [old(rest).head]
    {
      match rest
      case Nil =>
        r := Failure(NoSuchElement);
      case Cons(h, t) =>
        r := Success(h);
        visited := visited + [h];
        rest := t;
    }

    /** Once hasNext is false, the iterator has returned every element of the source, head to tail. */
    lemma ExhaustedVisitedAll()
      requires Valid() && !HasNext()
      ensures visited == ToArray(source)
    {
      assert ToArray(rest) == [];
    }
  }
}
