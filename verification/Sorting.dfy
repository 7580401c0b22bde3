/** Ascending sequences of integers, as sort.Slice leaves them. */
module Sorting {

  ghost predicate Ascending(s: seq<int>) {
    forall i, j :: 0 <= i < j < |s| ==> s[i] < s[j]
  }

  /** The place of `x` in an ascending sequence. */
  method Place(s: seq<int>, x: int) returns (i: nat)
    requires Ascending(s)
    ensures i <= |s| && (forall j :: 0 <= j < i ==> s[j] < x) && (forall j :: i <= j < |s| ==> x <= s[j])
  {
    i := 0;
    while i < |s| && s[i] < x
      invariant i <= |s| && forall j :: 0 <= j < i ==> s[j] < x
    {
      i := i + 1;
    }
  }

  lemma Inserted(s: seq<int>, x: int, i: nat)
    requires Ascending(s) && i <= |s|
    requires (forall j :: 0 <= j < i ==> s[j] < x) && (forall j :: i <= j < |s| ==> x < s[j])
    ensures Ascending(s[..i] + [x] + s[i..])
    ensures forall y :: y in s[..i] + [x] + s[i..] <==> y in s || y == x
  {
    assert s == s[..i] + s[i..];
  }

  /** Any element: the order in which a Go map is iterated is not fixed. */
  method Pick<T>(xs: set<T>) returns (x: T)
    requires xs != {}
    ensures x in xs
  {
    x :| x in xs;
  }

  /** The elements of a set in ascending order, whatever the order they are met in. */
  method SortSet(xs: set<int>) returns (s: seq<int>)
    ensures Ascending(s) && forall x :: x in s <==> x in xs
  {
    s := [];
    var rest := xs;
    while rest != {}
      invariant Ascending(s) && rest <= xs
      invariant forall x :: x in s <==> x in xs && x !in rest
      decreases |rest|
    {
      var x := Pick(rest);
      assert x !in s;
      var i := Place(s, x);
      Inserted(s, x, i);
      s := s[..i] + [x] + s[i..];
      rest := rest - {x};
    }
  }

  lemma AscendingTail(a: seq<int>, x: int)
    requires Ascending(a) && a != []
    ensures Ascending(a[1..]) && (x in a[1..] <==> x in a && x != a[0])
  {
    assert a == [a[0]] + a[1..];
  }

  /** Two ascending sequences with the same elements are equal. */
  lemma {:induction false} AscendingUnique(a: seq<int>, b: seq<int>)
    requires Ascending(a) && Ascending(b) && forall x :: x in a <==> x in b
    ensures a == b
    decreases |a|
  {
    assert b != [] ==> b[0] in b;
    if a != [] {
      assert a[0] in a;
      assert a[0] in b && b != [];
      var i :| 0 <= i < |b| && b[i] == a[0];
      var j :| 0 <= j < |a| && a[j] == b[0];
      assert a[0] == b[0];
      forall x ensures x in a[1..] <==> x in b[1..] {
        AscendingTail(a, x);
        AscendingTail(b, x);
      }
      AscendingUnique(a[1..], b[1..]);
      assert a == [a[0]] + a[1..] && b == [b[0]] + b[1..];
    }
  }
}
