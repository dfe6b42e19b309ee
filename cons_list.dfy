/**
  The immutable cons list: a chain of cons cells, each holding one element and
  the remainder of the list, ending in the empty list. Every operation returns a
  new value and leaves its argument untouched.
 */
module ConsList {
  import opened Wrappers

  /** Nil is the empty list; Cons is one cons cell, with its head element and its tail. */
  datatype List<T> = Nil | Cons(head: T, tail: List<T>)

  /** The one error a list signals: car or cdr of the empty list. */
  datatype ListError = EmptyListAccess

  /** toArray: the elements, head to tail. Every other operation is specified through it. */
  function ToArray<T>(l: List<T>): (s: seq<T>)
    ensures s == [] <==> l.Nil?
    ensures l.Cons? ==> s[0] == l.head
  {
    match l
    case Nil => []
    case Cons(h, t) => [h] + ToArray(t)
  }

  /** Two lists with the same elements in the same order are the same list. */
  lemma {:induction false} ToArrayInjective<T>(a: List<T>, b: List<T>)
    ensures ToArray(a) == ToArray(b) ==> a == b
  {
    match (a, b)
    case (Cons(h1, t1), Cons(h2, t2)) =>
      if ToArray(a) == ToArray(b) {
        assert h1 == ToArray(a)[0] && h2 == ToArray(b)[0];
        assert ToArray(t1) == ToArray(a)[1..] && ToArray(t2) == ToArray(b)[1..];
        ToArrayInjective(t1, t2);
      }
    case _ =>
  }

  /** size: the number of elements, counted by traversal. */
  function Size<T>(l: List<T>): (n: nat)
    ensures n == |ToArray(l)|
    ensures n == 0 <==> l.Nil?
  {
    match l
    case Nil => 0
    case Cons(_, t) => 1 + Size(t)
  }

  /** isEmpty: true exactly for the list of size 0. */
  function IsEmpty<T>(l: List<T>): (b: bool)
    ensures b <==> Size(l) == 0
  {
    l.Nil?
  }

  /** car: the first element, or EmptyListAccess on the empty list. */
  function Car<T>(l: List<T>): (r: Result<T, ListError>)
    ensures r.Failure? <==> IsEmpty(l)
    ensures r.Success? ==> r.value == ToArray(l)[0]
  {
    match l
    case Nil => Failure(EmptyListAccess)
    case Cons(h, _) => Success(h)
  }

  /** cdr: the list after the first element, or EmptyListAccess on the empty list. */
  function Cdr<T>(l: List<T>): (r: Result<List<T>, ListError>)
    ensures r.Failure? <==> IsEmpty(l)
    ensures r.Success? ==> ToArray(r.value) == ToArray(l)[1..] && Size(r.value) == Size(l) - 1
  {
    match l
    case Nil => Failure(EmptyListAccess)
    case Cons(_, t) => Success(t)
  }

  /**
    prepend: one new cons cell in front of l. Its cdr is l itself, so nothing of
    l is copied; its car is x.
   */
  function Prepend<T>(x: T, l: List<T>): (r: List<T>)
    ensures Cdr(r) == Success(l) && Car(r) == Success(x)
    ensures ToArray(r) == [x] + ToArray(l)
    ensures Size(r) == Size(l) + 1
  {
    Cons(x, l)
  }

  /**
    append: l's elements followed by x, built by rebuilding every cell of l in
    front of a new last cell.
   */
  function Append<T>(l: List<T>, x: T): (r: List<T>)
    ensures ToArray(r) == ToArray(l) + [x]
    ensures Size(r) == Size(l) + 1
    ensures !IsEmpty(l) ==> Car(r) == Car(l)
  {
    match l
    case Nil => Cons(x, Nil)
    case Cons(h, t) => Cons(h, Append(t, x))
  }

  /** equals: structural equality, element by element, heads compared with the elements' own equality. */
  function Equals<T(==)>(a: List<T>, b: List<T>): (r: bool)
    ensures r <==> ToArray(a) == ToArray(b)
  {
    match (a, b)
    case (Nil, Nil) => true
    case (Cons(h1, t1), Cons(h2, t2)) =>
      assert ToArray(a) == ToArray(b) ==> ToArray(a)[0] == ToArray(b)[0] && ToArray(a)[1..] == ToArray(b)[1..];
      h1 == h2 && Equals(t1, t2)
    case _ => false
  }

  /** equals coincides with value equality, so it is reflexive, symmetric and transitive. */
  lemma EqualsIsEquality<T>(a: List<T>, b: List<T>)
    ensures Equals(a, b) <==> a == b
  {
    ToArrayInjective(a, b);
  }

  /** String.valueOf on a nullable element: null is rendered as the text "null". */
  function ShowNullable<E>(show: E -> string, x: Option<E>): string
  {
    match x
    case None => "null"
    case Some(v) => show(v)
  }

  /** The rendered elements of l, separated by single spaces. */
  function Items<T>(l: List<T>, show: T -> string): string
  {
    match l
    case Nil => ""
    case Cons(h, Nil) => show(h)
    case Cons(h, t) => show(h) + " " + Items(t, show)
  }

  /** toString: the elements, each rendered by show, space-separated between parentheses. */
  function ToString<T>(l: List<T>, show: T -> string): (s: string)
    ensures |s| >= 2 && s[0] == '(' && s[|s| - 1] == ')'
    ensures IsEmpty(l) ==> s == "()"
  {
    "(" + Items(l, show) + ")"
  }

  /** Each element of s rendered by show. */
  function Shown<T>(s: seq<T>, show: T -> string): seq<string>
  {
    seq(|s|, i requires 0 <= i < |s| => show(s[i]))
  }

  /** Words joined with one space between neighbours, defined from the last word backward. */
  function JoinWords(ws: seq<string>): string
  {
    if |ws| == 0 then ""
    else if |ws| == 1 then ws[0]
    else JoinWords(ws[..|ws| - 1]) + " " + ws[|ws| - 1]
  }

  /** Joining a word in front of a non-empty list of words adds one separating space. */
  lemma {:induction false} JoinWordsCons(w: string, ws: seq<string>)
    requires |ws| > 0
    ensures JoinWords([w] + ws) == w + " " + JoinWords(ws)
  {
    var all := [w] + ws;
    if |ws| == 1 {
      assert all[..1] == [w];
    } else {
      var init := ws[..|ws| - 1];
      assert all[..|all| - 1] == [w] + init;
      JoinWordsCons(w, init);
    }
  }

  /** The rendering between the parentheses is the elements, head to tail, joined by spaces. */
  lemma {:induction false} ItemsAreJoinedElements<T>(l: List<T>, show: T -> string)
    ensures Items(l, show) == JoinWords(Shown(ToArray(l), show))
  {
    match l
    case Nil =>
    case Cons(h, t) =>
      assert Shown(ToArray(l), show) == [show(h)] + Shown(ToArray(t), show);
      if t.Nil? {
        assert Shown(ToArray(l), show) == [show(h)];
      } else {
        ItemsAreJoinedElements(t, show);
        JoinWordsCons(show(h), Shown(ToArray(t), show));
      }
  }

  /** toString is "(" + the rendered elements, head to tail, separated by spaces + ")". */
  lemma ToStringRendersElements<T>(l: List<T>, show: T -> string)
    ensures ToString(l, show) == "(" + JoinWords(Shown(ToArray(l), show)) + ")"
  {
    ItemsAreJoinedElements(l, show);
  }

  /**
    A list of nullable elements renders each null as the text "null", wherever
    it sits, and every other element by its own rendering.
   */
  lemma {:induction false} NullsRenderAsNull<E>(l: List<Option<E>>, show: E -> string)
    ensures ToString(l, x => ShowNullable(show, x))
      == "(" + JoinWords(seq(Size(l), i requires 0 <= i < Size(l) =>
                           if ToArray(l)[i].None? then "null" else show(ToArray(l)[i].value))) + ")"
  {
    ToStringRendersElements(l, x => ShowNullable(show, x));
    assert Shown(ToArray(l), x => ShowNullable(show, x))
      == seq(Size(l), i requires 0 <= i < Size(l) =>
               if ToArray(l)[i].None? then "null" else show(ToArray(l)[i].value));
  }

  /**
    reduce: left fold, combining the accumulator with each element from head to
    tail, so reduce(init, f) on (x1 ... xn) is f(...f(f(init, x1), x2)..., xn).
   */
  function Reduce<T, A>(l: List<T>, init: A, f: (A, T) -> A): (r: A)
    ensures r == FoldLeft(ToArray(l), init, f)
  {
    match l
    case Nil => init
    case Cons(h, t) =>
      FoldLeftCons(h, ToArray(t), init, f);
      Reduce(t, f(init, h), f)
  }

  /** The left fold of a sequence, defined by peeling off its last element. */
  function FoldLeft<T, A>(s: seq<T>, init: A, f: (A, T) -> A): A
  {
    if |s| == 0 then init else f(FoldLeft(s[..|s| - 1], init, f), s[|s| - 1])
  }

  /** Folding x in first is folding the rest from f(init, x). */
  lemma {:induction false} FoldLeftCons<T, A>(x: T, s: seq<T>, init: A, f: (A, T) -> A)
    ensures FoldLeft([x] + s, init, f) == FoldLeft(s, f(init, x), f)
  {
    if |s| > 0 {
      var all := [x] + s;
      assert all[..|all| - 1] == [x] + s[..|s| - 1];
      FoldLeftCons(x, s[..|s| - 1], init, f);
    } else {
      assert ([x] + s)[..0] == [];
    }
  }

  /** Reducing l.append(x) combines x last, after all of l. */
  lemma {:induction false} ReduceAppend<T, A>(l: List<T>, x: T, init: A, f: (A, T) -> A)
    ensures Reduce(Append(l, x), init, f) == f(Reduce(l, init, f), x)
  {
    match l
    case Nil =>
    case Cons(h, t) => ReduceAppend(t, x, f(init, h), f);
  }

  /** String::concat, the combiner of the string reduce. */
  function Concat(a: string, b: string): string
  {
    a + b
  }

  /** All words concatenated in order. */
  function Flatten(ws: seq<string>): string
  {
    if |ws| == 0 then "" else ws[0] + Flatten(ws[1..])
  }

  /** reduce with String::concat prepends the seed to the elements concatenated head to tail. */
  lemma {:induction false} ReduceConcatenates(l: List<string>, seed: string)
    ensures Reduce(l, seed, Concat) == seed + Flatten(ToArray(l))
  {
    match l
    case Nil =>
    case Cons(h, t) =>
      ReduceConcatenates(t, seed + h);
      assert ToArray(l)[1..] == ToArray(t);
  }
}
