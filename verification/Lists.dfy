/** Small facts about lists shared by the models. */
module Lists {
  ghost predicate NoDuplicates<T>(xs: seq<T>) {
    forall i, j :: 0 <= i < j < |xs| ==> xs[i] != xs[j]
  }

  /** The list without its element x. */
  function Without<T(==)>(xs: seq<T>, x: T): (r: seq<T>)
    ensures forall y :: y in r ==> y in xs
    ensures forall y :: y in xs && y != x ==> y in r
    ensures NoDuplicates(xs) ==> NoDuplicates(r) && x !in r
  {
    if xs == [] then []
    else
      assert xs == [xs[0]] + xs[1..];
      assert NoDuplicates(xs) ==> NoDuplicates(xs[1..]) && xs[0] !in xs[1..];
      if xs[0] == x then xs[1..] else [xs[0]] + Without(xs[1..], x)
  }

  lemma PopIsWithout<T>(xs: seq<T>)
    requires xs != []
    ensures Without(xs, xs[0]) == xs[1..]
  {}

  function Min(a: nat, b: nat): nat {
    if a < b then a else b
  }

  function Reverse<T>(xs: seq<T>): (r: seq<T>)
    ensures |r| == |xs|
  {
    if xs == [] then [] else Reverse(xs[1..]) + [xs[0]]
  }

  lemma {:induction false} ReverseMember<T>(xs: seq<T>, b: T)
    ensures b in Reverse(xs) <==> b in xs
  {
    if xs != [] {
      ReverseMember(xs[1..], b);
      assert xs == [xs[0]] + xs[1..];
    }
  }

  lemma {:induction false} ReverseAppend<T>(xs: seq<T>, y: T)
    ensures Reverse(xs + [y]) == [y] + Reverse(xs)
  {
    if xs != [] {
      assert (xs + [y])[1..] == xs[1..] + [y];
      ReverseAppend(xs[1..], y);
    } else {
      assert ([] + [y])[1..] == [];
    }
  }

  lemma {:induction false} ReverseSum<T>(a: seq<T>, b: seq<T>)
    ensures Reverse(a + b) == Reverse(b) + Reverse(a)
  {
    if a == [] {
      assert a + b == b;
    } else {
      assert (a + b)[1..] == a[1..] + b;
      ReverseSum(a[1..], b);
    }
  }

  lemma {:induction false} ReverseTwice<T>(xs: seq<T>)
    ensures Reverse(Reverse(xs)) == xs
  {
    if xs != [] {
      ReverseTwice(xs[1..]);
      ReverseAppend(Reverse(xs[1..]), xs[0]);
    }
  }

  lemma {:induction false} ReverseNoDuplicates<T>(xs: seq<T>)
    requires NoDuplicates(xs)
    ensures NoDuplicates(Reverse(xs))
  {
    if xs != [] {
      ReverseNoDuplicates(xs[1..]);
      ReverseMember(xs[1..], xs[0]);
    }
  }

  /** The list without its element number k. */
  ghost function Removed<T>(xs: seq<T>, k: nat): seq<T>
    requires k < |xs|
  {
    xs[..k] + xs[k + 1..]
  }

  lemma RemovedAt<T>(xs: seq<T>, k: nat)
    requires k < |xs|
    ensures |Removed(xs, k)| == |xs| - 1
    ensures forall i {:trigger Removed(xs, k)[i]} :: 0 <= i < |xs| - 1 ==>
      Removed(xs, k)[i] == xs[if i < k then i else i + 1]
  {}
}
