/**
  The assertions of ConsListHiddenTest, each stated as a lemma about the model.
  A test's local `list` variable, rebound after each call, becomes a chain of
  nested calls.
 */
module ConsListHiddenTest {
  import opened Wrappers
  import opened ConsList
  import F = ConsListFactory

  /** Java's String.valueOf on a non-null String. */
  function Str(s: string): string
  {
    s
  }

  /** The list reached by prepending xs[0], then xs[1], and so on, onto l. */
  function PrependAll<T>(l: List<T>, xs: seq<T>): List<T>
    decreases |xs|
  {
    if |xs| == 0 then l else PrependAll(Prepend(xs[0], l), xs[1..])
  }

  /** Each prepend adds one element: after n prepends the size has grown by n. */
  lemma {:induction false} PrependAllSize<T>(l: List<T>, xs: seq<T>)
    ensures Size(PrependAll(l, xs)) == Size(l) + |xs|
    decreases |xs|
  {
    if |xs| > 0 {
      PrependAllSize(Prepend(xs[0], l), xs[1..]);
    }
  }

  /** testPrependHidden: sizes 0, 1, 2, 3, each new element becoming the car. */
  lemma PrependTest()
    ensures Size(F.Nil<string>()) == 0
    ensures var l1 := Prepend("1", F.Nil()); Size(l1) == 1 && Car(l1) == Success("1")
    ensures var l2 := Prepend("2", Prepend("1", F.Nil())); Size(l2) == 2 && Car(l2) == Success("2")
    ensures var l3 := Prepend("3", Prepend("2", Prepend("1", F.Nil()))); Size(l3) == 3 && Car(l3) == Success("3")
  {
  }

  /** testPrependSharesSublistHidden: the cdr of a prepended list is the list prepended to. */
  lemma PrependSharesTest()
    ensures var l2 := Prepend("2", F.Nil<string>()); Cdr(l2) == Success(F.Nil()) && Equals(Cdr(l2).value, F.Nil())
    ensures var l2 := Prepend("2", F.Nil<string>()); var l3 := Prepend("1", l2); Cdr(l3) == Success(l2) && Equals(Cdr(l3).value, l2)
  {
  }

  /** testAppendHidden: appended elements read back in order through car, cdr.car, cdr.cdr.car. */
  lemma AppendTest()
    ensures Size(F.Nil<string>()) == 0
    ensures var l1 := Append(F.Nil<string>(), "1"); Size(l1) == 1 && Car(l1) == Success("1")
    ensures var l2 := Append(Append(F.Nil<string>(), "1"), "2");
      Size(l2) == 2 && Car(l2) == Success("1") && Car(Cdr(l2).value) == Success("2")
    ensures var l3 := Append(Append(Append(F.Nil<string>(), "1"), "2"), "3");
      && Size(l3) == 3 && Car(l3) == Success("1") && Car(Cdr(l3).value) == Success("2")
      && Car(Cdr(Cdr(l3).value).value) == Success("3")
  {
  }

  /**
    testAppendDoesNoShareSublistHidden. The lists compared by the identity
    assertion, ("1") and ("2"), also differ as values.
   */
  lemma AppendDoesNotShareTest()
    ensures var l2 := Append(F.Nil<string>(), "1"); Cdr(l2).Success? && Equals(Cdr(l2).value, F.Nil())
    ensures var l2 := Append(F.Nil<string>(), "1"); Car(Append(l2, "2")) == Car(l2)
    ensures var l2 := Append(F.Nil<string>(), "1"); !Equals(Cdr(Append(l2, "2")).value, l2)
  {
  }

  /** The three toString tests: "()", "(1)" and "(1 2)". */
  lemma ToStringTest()
    ensures ToString(F.Nil<string>(), Str) == "()"
    ensures ToString(Prepend("1", F.Nil()), Str) == "(1)"
    ensures ToString(Prepend("1", Prepend("2", F.Nil())), Str) == "(1 2)"
  {
  }

  /** testEqualsToArrayHidden: toArray()[0] of the list holding "1" is "1". */
  lemma ToArrayTest()
    ensures var a := ToArray(Append(F.Nil<string>(), "1")); |a| > 0 && a[0] == "1"
  {
  }

  /** testEqualsReduceHidden: reduce("", String::concat) after appending "1".."4" is "1234". */
  lemma ReduceTest()
    ensures Reduce(Append(Append(Append(Append(F.Nil<string>(), "1"), "2"), "3"), "4"), "", Concat) == "1234"
  {
    var l := Append(Append(Append(Append(F.Nil<string>(), "1"), "2"), "3"), "4");
    ReduceConcatenates(l, "");
    assert ToArray(l) == ["1", "2", "3", "4"];
  }

  /** testEfficiencyOfSizeHidden, without the time bound: after i prepends onto nil the size is i. */
  lemma SizeAfterPrependsTest(xs: seq<string>, i: nat)
    requires i <= |xs|
    ensures Size(PrependAll(F.Nil(), xs[..i])) == i
  {
    PrependAllSize(F.Nil(), xs[..i]);
  }

  /** testEmptyVarArgsHidden: asList() with no arguments equals nil(). */
  lemma EmptyVarArgsTest()
    ensures Equals(F.AsList<string>([]), F.Nil())
  {
  }

  /** testBreakerForOneStudentHidden: a list of Integer holding 2 has size 1. */
  lemma IntegerPrependTest()
    ensures Size(Prepend(2, F.Nil<int>())) == 1
  {
  }

  /**
    testEvilNullCaseHidden and testEvilNullCaseVandewoordeHidden: null elements
    count toward size and render as "null". showInt stands for Integer.toString.
   */
  lemma EvilNullTest(showInt: int -> string)
    requires showInt(3) == "3"
    ensures var l1 := Prepend(None, F.Nil<Option<int>>());
      Size(l1) == 1 && ToString(l1, x => ShowNullable(showInt, x)) == "(null)"
    ensures var l3 := Prepend(None, Prepend(None, Prepend(Some(3), F.Nil<Option<int>>())));
      Size(l3) == 3 && ToString(l3, x => ShowNullable(showInt, x)) == "(null null 3)"
  {
  }

  /** The lists the reflection tests build: asList("a", "b", "c") is a cons chain with "a" at the head. */
  lemma AsListTest()
    ensures F.AsList(["a", "b", "c"]) == Cons("a", Cons("b", Cons("c", Nil)))
  {
  }
}
