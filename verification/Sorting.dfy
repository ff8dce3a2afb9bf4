/** Sorting by a key, as the failing states and the recoveries are. */
module Sorting {

  ghost predicate IsOrder<T(!new)>(le: (T, T) -> bool) {
    && (forall a, b :: le(a, b) || le(b, a))
    && (forall a, b, c :: le(a, b) && le(b, c) ==> le(a, c))
  }

  ghost predicate InOrder<T>(xs: seq<T>, le: (T, T) -> bool) {
    forall i, j :: 0 <= i < j < |xs| ==> le(xs[i], xs[j])
  }

  lemma Transitive<T(!new)>(a: T, b: T, c: T, le: (T, T) -> bool)
    requires IsOrder(le) && le(a, b) && le(b, c)
    ensures le(a, c)
  {
  }

  lemma InsertInOrder<T(!new)>(xs: seq<T>, i: nat, x: T, le: (T, T) -> bool)
    requires IsOrder(le) && InOrder(xs, le) && i <= |xs|
    requires (i > 0 ==> le(xs[i - 1], x)) && (i < |xs| ==> le(x, xs[i]))
    ensures InOrder(xs[..i] + [x] + xs[i..], le)
    ensures multiset(xs[..i] + [x] + xs[i..]) == multiset(xs) + multiset{x}
  {
    hide IsOrder;
    assert xs == xs[..i] + xs[i..];
    forall k | 0 <= k < i ensures le(xs[k], x) {
      if k < i - 1 {
        Transitive(xs[k], xs[i - 1], x, le);
      }
    }
    forall k | i <= k < |xs| ensures le(x, xs[k]) {
      if i < k {
        Transitive(x, xs[i], xs[k], le);
      }
    }
    AroundInOrder(xs, i, x, le);
  }

  lemma AroundInOrder<T>(xs: seq<T>, i: nat, x: T, le: (T, T) -> bool)
    requires InOrder(xs, le) && i <= |xs|
    requires (forall k :: 0 <= k < i ==> le(xs[k], x)) && (forall k :: i <= k < |xs| ==> le(x, xs[k]))
    ensures InOrder(xs[..i] + [x] + xs[i..], le)
  {
    var out := xs[..i] + [x] + xs[i..];
    assert forall k :: 0 <= k < |out| ==> out[k] == if k < i then xs[k] else if k == i then x else xs[k - 1];
  }

  method Sort<T(!new)>(xs: seq<T>, le: (T, T) -> bool) returns (out: seq<T>)
    requires IsOrder(le)
    ensures multiset(out) == multiset(xs) && InOrder(out, le)
  {
    hide InOrder;
    out := [];
    NothingToOrder(le);
    for n := 0 to |xs|
      invariant multiset(out) == multiset(xs[..n]) && InOrder(out, le)
    {
      var i := |out|;
      while i > 0 && !le(out[i - 1], xs[n])
        invariant 0 <= i <= |out| && (i < |out| ==> le(xs[n], out[i]))
      {
        i := i - 1;
      }
      InsertInOrder(out, i, xs[n], le);
      assert xs[..n + 1] == xs[..n] + [xs[n]];
      out := out[..i] + [xs[n]] + out[i..];
    }
    assert xs[..|xs|] == xs;
  }

  lemma NothingToOrder<T>(le: (T, T) -> bool)
    ensures InOrder([], le)
  {
  }

  /** The same elements, however often each. */
  lemma SameElements<T>(a: seq<T>, b: seq<T>)
    requires multiset(a) == multiset(b)
    ensures |a| == |b| && forall x :: x in a <==> x in b
  {
    assert |multiset(a)| == |a| && |multiset(b)| == |b|;
    forall x ensures x in a <==> x in b {
      assert x in a <==> x in multiset(a);
      assert x in b <==> x in multiset(b);
    }
  }
}
