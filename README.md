# Immutable cons list

A model of `migl.util.ConsList<T>`: a persistent singly-linked list built from
cons cells (`Cons`), created through `ConsListFactory`. The list has two
variants. `Nil` is the empty list. `Cons(head, tail)` is one cell holding an
element and the rest of the list. No operation changes an existing list:
`prepend` puts one new cell in front of its receiver and shares the receiver as
its tail, while `append` rebuilds the receiver's cells in front of a new last
cell. `car` and `cdr` on the empty list signal an error. `toString` renders
`(a b c)`, with `null` elements printed as `null`. `reduce` is a left fold.
`toArray` lists the elements from head to tail. `iterator` walks the list with
a cursor.

Modules:

- `Wrappers`: `Option` models a nullable reference. `Result` models an
  operation that may signal an error.
- `ConsList`: the `List` datatype and its operations. `ToArray` is the
  abstraction: every other operation is specified by what it does to the
  element sequence.
- `ConsListFactory`: `nil()` and `asList(x1, ..., xn)`. `AsList` and `ToArray`
  are inverse to each other.
- `ConsIterator`: the list's own iterator, a class whose `rest` field is the
  part of the list not yet visited.
- `ConsListHiddenTest`: the assertions of the test class as lemmas. Most
  tests have a lemma of their own. The three toString tests share
  `ToStringTest`, and the two null-element tests share `EvilNullTest`.
  `AsListTest` states the list that the last three tests build.
  `testEfficiencyOfPrependHidden` asserts only a time bound and has no lemma.

Elements that may be null are modelled by instantiating `T` with `Option<E>`.
Java's `String.valueOf` on such an element is `ShowNullable`, which renders
`None` as `null`. `car` and `cdr` return `Result`: the `Failure(EmptyListAccess)`
value stands for the exception the Java list throws on the empty list.

## Model

| member | source | states |
|---|---|---|
| `ConsList.Size` | src/test/java/migl/util/ConsListHiddenTest.java:35-44 | the size is the number of elements; it is 0 exactly for the empty list |
| `ConsList.IsEmpty` | src/test/java/migl/util/ConsListHiddenTest.java:35 | isEmpty comes from the list interface; the test calls only size() here. The list is empty exactly when its size is 0 |
| `ConsList.Car` | src/test/java/migl/util/ConsListHiddenTest.java:38-44 | car fails with EmptyListAccess exactly on the empty list; otherwise it is the first element |
| `ConsList.Cdr` | src/test/java/migl/util/ConsListHiddenTest.java:49-54 | cdr fails with EmptyListAccess exactly on the empty list; otherwise it holds every element but the first and its size is one less |
| `ConsList.Prepend` | src/test/java/migl/util/ConsListHiddenTest.java:34-55 | the cdr of prepend(x, L) is L itself and its car is x; the elements are x followed by L's; the size grows by one |
| `ConsList.Append` | src/test/java/migl/util/ConsListHiddenTest.java:57-81 | the elements are L's followed by x; the size grows by one; a non-empty L keeps its car |
| `ConsList.ToArray` | src/test/java/migl/util/ConsListHiddenTest.java:102-106 | toArray is empty exactly for the empty list and starts with the car. Its length is Size (see `ConsList.Size`), ToArrayInjective shows it is injective, and AsListOfToArray shows that AsList inverts it |
| `ConsList.ToArrayInjective` | src/test/java/migl/util/ConsListHiddenTest.java:102-106 | two lists with the same toArray are the same list |
| `ConsList.Equals` | src/test/java/migl/util/ConsListHiddenTest.java:50-53 | equals holds exactly when both lists have the same elements in the same order |
| `ConsList.EqualsIsEquality` | src/test/java/migl/util/ConsListHiddenTest.java:50-54 | equals coincides with value equality, hence is reflexive, symmetric and transitive |
| `ConsList.NullsRenderAsNull` | src/test/java/migl/util/ConsListHiddenTest.java:150-164 | in the rendering of any list of nullable elements, each null element appears as the text "null" wherever it sits, and every other element by its own rendering, space-separated between parentheses |
| `ConsList.ToString` | src/test/java/migl/util/ConsListHiddenTest.java:83-99 | the text opens with "(" and closes with ")"; the empty list renders as "()" |
| `ConsList.ItemsAreJoinedElements` | src/test/java/migl/util/ConsListHiddenTest.java:94-99 | the text between the parentheses is the rendered elements, head to tail, joined by single spaces |
| `ConsList.ToStringRendersElements` | src/test/java/migl/util/ConsListHiddenTest.java:83-99 | toString is "(" + the rendered elements joined by spaces + ")", for every list |
| `ConsList.Reduce` | src/test/java/migl/util/ConsListHiddenTest.java:109-116 | reduce(z, f) on (x1 ... xn) is f(...f(f(z, x1), x2)..., xn), a left fold from head to tail, which is defined independently from the last element; ReduceAppend and ReduceConcatenates state further properties of it |
| `ConsList.ReduceAppend` | src/test/java/migl/util/ConsListHiddenTest.java:111-115 | reducing L.append(x) combines x last, after all of L |
| `ConsList.ReduceConcatenates` | src/test/java/migl/util/ConsListHiddenTest.java:115 | reduce with String::concat gives the seed followed by the elements concatenated head to tail |
| `ConsListFactory.Nil` | src/test/java/migl/util/ConsListHiddenTest.java:28-31 | nil() is empty: size 0 and no elements |
| `ConsListFactory.AsList` | src/test/java/migl/util/ConsListHiddenTest.java:138-141 | asList(x1..xn) holds exactly x1..xn in order, so x1 is its car and n its size |
| `ConsListFactory.AsListOfToArray` | src/test/java/migl/util/ConsListHiddenTest.java:166-168 | asList of a list's elements gives back that list, so asList and toArray are inverse |
| `ConsIterator.Iterator.constructor` | src/test/java/migl/util/ConsListHiddenTest.java:198-201 | a new iterator starts at the head of the list, having visited nothing |
| `ConsIterator.Iterator.HasNext` | src/test/java/migl/util/ConsListHiddenTest.java:198-201 | hasNext comes from the iterator interface; the test only obtains the iterator. It holds exactly while elements remain, that is, while fewer elements have been returned than the list holds |
| `ConsIterator.Iterator.Next` | src/test/java/migl/util/ConsListHiddenTest.java:198-201 | next comes from the iterator interface; the test only obtains the iterator. It returns the car of the remaining list and advances to its cdr; when exhausted it signals NoSuchElement and changes nothing |
| `ConsIterator.Iterator.ExhaustedVisitedAll` | src/test/java/migl/util/ConsListHiddenTest.java:198-201 | once hasNext is false, the iterator has returned every element of the list, head to tail |
| `ConsListHiddenTest.PrependAllSize` | src/test/java/migl/util/ConsListHiddenTest.java:127-135 | n prepends grow the size by exactly n |
| `ConsListHiddenTest.PrependTest` | src/test/java/migl/util/ConsListHiddenTest.java:33-45 | prepending "1", "2", "3" onto nil gives sizes 1, 2, 3, each new element being the car |
| `ConsListHiddenTest.PrependSharesTest` | src/test/java/migl/util/ConsListHiddenTest.java:47-55 | the cdr of a prepended list is the list it was prepended to, for an empty and a non-empty list |
| `ConsListHiddenTest.AppendTest` | src/test/java/migl/util/ConsListHiddenTest.java:57-72 | appending "1", "2", "3" reads back "1", "2", "3" through car, cdr.car and cdr.cdr.car, with sizes 1, 2, 3 |
| `ConsListHiddenTest.AppendDoesNotShareTest` | src/test/java/migl/util/ConsListHiddenTest.java:74-81 | append onto nil has cdr equal to nil; appending keeps the car; the cdr of ("1" "2") differs from ("1") even as a value |
| `ConsListHiddenTest.ToStringTest` | src/test/java/migl/util/ConsListHiddenTest.java:83-99 | the renderings "()", "(1)" and "(1 2)" |
| `ConsListHiddenTest.ToArrayTest` | src/test/java/migl/util/ConsListHiddenTest.java:101-107 | toArray()[0] of the list holding "1" is "1" |
| `ConsListHiddenTest.ReduceTest` | src/test/java/migl/util/ConsListHiddenTest.java:109-116 | reduce("", String::concat) after appending "1".."4" is "1234" |
| `ConsListHiddenTest.SizeAfterPrependsTest` | src/test/java/migl/util/ConsListHiddenTest.java:127-135 | after i prepends onto nil the size is i |
| `ConsListHiddenTest.EmptyVarArgsTest` | src/test/java/migl/util/ConsListHiddenTest.java:137-141 | asList() with no arguments equals nil() |
| `ConsListHiddenTest.IntegerPrependTest` | src/test/java/migl/util/ConsListHiddenTest.java:143-148 | a list of integers holding 2 has size 1 |
| `ConsListHiddenTest.EvilNullTest` | src/test/java/migl/util/ConsListHiddenTest.java:150-164 | null elements count toward size and render as null: "(null)" and "(null null 3)" |
| `ConsListHiddenTest.AsListTest` | src/test/java/migl/util/ConsListHiddenTest.java:166-168 | asList("a", "b", "c") is a chain of cons cells with "a" at the head |

## Left out

- The source of the implementation classes `ConsList`, `Cons` and `ConsListFactory` is not available. Their behaviour is taken from the assertions of `ConsListHiddenTest` and from the list's documented contract.
- Object identity (`assertSame`, `assertNotSame`): Dafny datatypes have value equality. The sharing of prepend is stated as "the cdr of prepend(x, L) is L". In general, "append's cdr is not the same object as its receiver" has no value-level counterpart, because the two can be equal as values: for L = (x), L.append(x).cdr() equals L. The instance the test checks does differ as a value, and `AppendDoesNotShareTest` states it.
- The time bounds of the efficiency tests (`assertTimeout`). Only the functional assertion of the size test is kept. Prepend is one constructor application.
- The reflection tests that no field is a `java.util.Collection` and that `Cons` is used. The model is a datatype of cons cells by construction.
- The iterator-class identity check compares JDK runtime classes and is not modelled. `Iterator.remove` is not modelled either.
- `hashCode`, and `equals` called with an argument that is not a list: the model compares only lists.
- `Integer.toString` belongs to the JDK. It is a parameter of `EvilNullTest`, required to render 3 as "3".
- `ConsList.ReduceConcatenates`: covers lists of non-null strings only, because `String::concat` throws a `NullPointerException` on a null element.
- `ConsList.Size`: the count is an unbounded natural number. Java's `size()` returns an `int`, so lists longer than 2^31-1 elements, where that count would overflow, are not modelled.
- The JUnit harness (`@BeforeEach`, the rebinding of the test's `list` field) is not modelled.
