/** Slices without repetitions, slices with one value taken out, and sizes of sets. */
module Slices {

  predicate NoRepeat<T(==)>(list: seq<T>) {
    forall i, j :: 0 <= i < j < |list| ==> list[i] != list[j]
  }

  function Without<T(==)>(list: seq<T>, x: T): seq<T> {
    if list == [] then []
    else
      var rest := Without(list[1..], x);
      if list[0] == x then rest else [list[0]] + rest
  }

  lemma {:induction false} WithoutFacts<T>(list: seq<T>, x: T)
    ensures forall n :: n in Without(list, x) <==> n in list && n != x
    ensures NoRepeat(list) ==> NoRepeat(Without(list, x))
    ensures x !in list ==> Without(list, x) == list
  {
    if list != [] {
      WithoutFacts(list[1..], x);
      var rest := Without(list[1..], x);
      assert NoRepeat(list) ==> list[0] !in list[1..] && NoRepeat(list[1..]);
      assert list[0] !in rest && NoRepeat(rest) ==> NoRepeat([list[0]] + rest);
    }
  }

  lemma {:induction false} WithoutConcat<T>(a: seq<T>, b: seq<T>, x: T)
    ensures Without(a + b, x) == Without(a, x) + Without(b, x)
  {
    if a == [] {
      assert a + b == b;
    } else {
      assert (a + b)[1..] == a[1..] + b;
      WithoutConcat(a[1..], b, x);
    }
  }

  /** Cutting out the one place of a value. */
  lemma {:induction false} CutIsWithout<T>(list: seq<T>, i: nat)
    requires NoRepeat(list) && i < |list|
    ensures list[..i] + list[i + 1..] == Without(list, list[i])
  {
    var rest := list[1..];
    if i == 0 {
      assert list[0] !in rest;
      WithoutFacts(rest, list[0]);
    } else {
      CutIsWithout(rest, i - 1);
      assert list[..i] + list[i + 1..] == [list[0]] + (rest[..i - 1] + rest[i..]);
    }
  }

  lemma {:induction false} SubsetSize<T>(a: set<T>, b: set<T>)
    requires a <= b
    ensures |a| <= |b|
  {
    if x :| x in a {
      SubsetSize(a - {x}, b - {x});
    }
  }
}
