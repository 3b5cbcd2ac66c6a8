/** Row-major index arithmetic: dot products with strides, and the mixed-radix digits that undo them. */
module Radix {
  import opened Words

  function Product(s: seq<nat>): nat {
    if s == [] then 1 else Product(s[..|s| - 1]) * s[|s| - 1]
  }

  /** Element distance of the multi-index `c` under `strides`. */
  function Dot(c: seq<nat>, strides: seq<nat>): nat
    requires |c| == |strides|
  {
    if c == [] then 0 else c[0] * strides[0] + Dot(c[1..], strides[1..])
  }

  predicate AllPositive(s: seq<nat>) {
    forall i :: 0 <= i < |s| ==> s[i] > 0
  }

  /** Positive strides ending in 1, each dividing the one before it. */
  predicate RowMajor(strides: seq<nat>) {
    && |strides| > 0
    && AllPositive(strides)
    && strides[|strides| - 1] == 1
    && forall i :: 1 <= i < |strides| ==> strides[i - 1] % strides[i] == 0
  }

  /** Greedy decomposition of an element offset, outermost stride first. */
  function Digits(x: nat, strides: seq<nat>): (c: seq<nat>)
    requires AllPositive(strides)
    ensures |c| == |strides|
  {
    if strides == [] then [] else [x / strides[0]] + Digits(x % strides[0], strides[1..])
  }

  /** What is left of an offset after all strides have been divided out. */
  function Leftover(x: nat, strides: seq<nat>): nat
    requires AllPositive(strides)
  {
    if strides == [] then x else Leftover(x % strides[0], strides[1..])
  }

  /** Every index but the outermost stays below the extent its stride allows. */
  predicate Carries(c: seq<nat>, strides: seq<nat>)
    requires |c| == |strides| && AllPositive(strides)
  {
    forall i :: 1 <= i < |c| ==> c[i] < strides[i - 1] / strides[i]
  }

  lemma RowMajorTail(strides: seq<nat>)
    requires RowMajor(strides) && |strides| > 1
    ensures RowMajor(strides[1..])
  {
    var t := strides[1..];
    forall i | 1 <= i < |t| ensures t[i - 1] % t[i] == 0 {
      assert t[i - 1] == strides[i] && t[i] == strides[i + 1];
    }
  }

  lemma CarriesTail(c: seq<nat>, strides: seq<nat>)
    requires |c| == |strides| > 0 && AllPositive(strides) && Carries(c, strides)
    ensures AllPositive(strides[1..]) && Carries(c[1..], strides[1..])
  {
    var d, t := c[1..], strides[1..];
    forall i | 1 <= i < |d| ensures d[i] < t[i - 1] / t[i] {
      assert d[i] == c[i + 1] && t[i] == strides[i + 1] && t[i - 1] == strides[i];
    }
  }

  /** Below the bound `n` blocks, a whole index plus a remainder stays below `n` blocks. */
  lemma BlockBound(c: nat, n: nat, s: nat, r: nat)
    requires c < n && r < s
    ensures c * s + r < n * s
  {
    assert (c + 1) * s <= n * s;
  }

  /** The inner part of a carrying index never reaches the next outer stride. */
  lemma {:induction false} DotBound(c: seq<nat>, strides: seq<nat>, n: nat)
    requires |c| == |strides| && RowMajor(strides) && Carries(c, strides) && c[0] < n
    ensures Dot(c, strides) < n * strides[0]
  {
    if |c| == 1 {
      assert Dot(c[1..], strides[1..]) == 0;
      BlockBound(c[0], n, strides[0], 0);
    } else {
      RowMajorTail(strides);
      CarriesTail(c, strides);
      var m := strides[0] / strides[1];
      DotBound(c[1..], strides[1..], m);
      assert m * strides[1] == strides[0];
      BlockBound(c[0], n, strides[0], Dot(c[1..], strides[1..]));
    }
  }

  lemma InnerBound(c: seq<nat>, strides: seq<nat>)
    requires |c| == |strides| > 1 && RowMajor(strides) && Carries(c, strides)
    ensures Dot(c[1..], strides[1..]) < strides[0]
  {
    RowMajorTail(strides);
    CarriesTail(c, strides);
    var m := strides[0] / strides[1];
    DotBound(c[1..], strides[1..], m);
    assert m * strides[1] == strides[0];
  }

  /** Carrying indices are exactly recovered from their element distance. */
  lemma {:induction false} DigitsOfDot(c: seq<nat>, strides: seq<nat>)
    requires |c| == |strides| && RowMajor(strides) && Carries(c, strides)
    ensures Digits(Dot(c, strides), strides) == c
  {
    var x := Dot(c, strides);
    if |c| == 1 {
      assert Dot(c[1..], strides[1..]) == 0 && c[0] * 1 == c[0];
    } else {
      RowMajorTail(strides);
      CarriesTail(c, strides);
      InnerBound(c, strides);
      QuotientIs(x, c[0], Dot(c[1..], strides[1..]), strides[0]);
      DigitsOfDot(c[1..], strides[1..]);
    }
  }

  /** Conversely every offset is the element distance of its digits. */
  lemma {:induction false} DotOfDigits(x: nat, strides: seq<nat>)
    requires RowMajor(strides)
    ensures Dot(Digits(x, strides), strides) == x
    ensures Leftover(x, strides) == 0
    ensures Carries(Digits(x, strides), strides)
  {
    var c := Digits(x, strides);
    if |strides| == 1 {
      assert Dot(c[1..], strides[1..]) == 0 && x / 1 == x;
    } else {
      RowMajorTail(strides);
      var r := x % strides[0];
      DotOfDigits(r, strides[1..]);
      var d := Digits(r, strides[1..]);
      assert c[0] * strides[0] + r == x && c[1..] == d;
      QuotientBound(r, strides[0], strides[1]);
      assert d[0] == r / strides[1..][0] == r / strides[1];
      CarriesOnTop(c, strides);
    }
  }

  lemma CarriesOnTop(c: seq<nat>, strides: seq<nat>)
    requires |c| == |strides| > 1 && AllPositive(strides) && AllPositive(strides[1..])
    requires Carries(c[1..], strides[1..]) && c[1] < strides[0] / strides[1]
    ensures Carries(c, strides)
  {
    var d, t := c[1..], strides[1..];
    forall i | 1 <= i < |c| ensures c[i] < strides[i - 1] / strides[i] {
      if i > 1 {
        assert c[i] == d[i - 1] && strides[i - 1] == t[i - 2] && strides[i] == t[i - 1];
      }
    }
  }

  lemma QuotientBound(r: nat, big: nat, small: nat)
    requires small > 0 && big % small == 0 && r < big
    ensures r / small < big / small
  {
    CancelFactor(r / small, big / small, small);
  }

  /** Pointwise sum of two indices. */
  function Plus(a: seq<nat>, b: seq<nat>): (c: seq<nat>)
    requires |a| == |b|
    ensures |c| == |a|
  {
    seq(|a|, i requires 0 <= i < |a| => a[i] + b[i])
  }

  lemma {:induction false} DotPlus(a: seq<nat>, b: seq<nat>, strides: seq<nat>)
    requires |a| == |b| == |strides|
    ensures Dot(Plus(a, b), strides) == Dot(a, strides) + Dot(b, strides)
  {
    if a != [] {
      DotPlus(a[1..], b[1..], strides[1..]);
      assert Plus(a, b)[1..] == Plus(a[1..], b[1..]);
      assert (a[0] + b[0]) * strides[0] == a[0] * strides[0] + b[0] * strides[0];
    }
  }

  /** A larger index is no nearer. */
  lemma {:induction false} DotMonotone(a: seq<nat>, b: seq<nat>, strides: seq<nat>)
    requires |a| == |b| == |strides|
    requires forall i :: 0 <= i < |a| ==> a[i] <= b[i]
    ensures Dot(a, strides) <= Dot(b, strides)
  {
    if a != [] {
      DotMonotone(a[1..], b[1..], strides[1..]);
      assert a[0] * strides[0] <= b[0] * strides[0];
    }
  }

  lemma {:induction false} ProductFrom(s: seq<nat>)
    requires s != []
    ensures Product(s) == s[0] * Product(s[1..])
  {
    if |s| == 1 {
      assert s[..0] == [] && s[1..] == [];
    } else {
      var n := |s| - 1;
      ProductFrom(s[..n]);
      assert s[..n][1..] == s[1..][..n - 1];
      assert s[1..][|s[1..]| - 1] == s[n];
      assert (s[0] * Product(s[1..n])) * s[n] == s[0] * (Product(s[1..n]) * s[n]);
      assert s[..n][1..] == s[1..n];
    }
  }

  lemma {:induction false} ProductPositive(s: seq<nat>)
    requires AllPositive(s)
    ensures Product(s) > 0
  {
    if s != [] {
      ProductPositive(s[..|s| - 1]);
    }
  }
}
