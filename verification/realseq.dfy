/** Finite sums over sequences of reals: the arithmetic shared by the metrics
    and by the win-count distribution. */
module RealSeq {

  /** Sum of the elements. */
  function Sum(s: seq<real>): real
  {
    if |s| == 0 then 0.0 else s[0] + Sum(s[1..])
  }

  /** Sum of (offset + k) * s[k]: the first moment of a distribution when offset is 0. */
  function WeightedSum(s: seq<real>, offset: nat): real
  {
    if |s| == 0 then 0.0 else (offset as real) * s[0] + WeightedSum(s[1..], offset + 1)
  }

  /** Every element multiplied by c. */
  function Scale(s: seq<real>, c: real): (r: seq<real>)
    ensures |r| == |s|
    ensures forall k :: 0 <= k < |s| ==> r[k] == c * s[k]
  {
    seq(|s|, k requires 0 <= k < |s| => c * s[k])
  }

  /** Element-wise sum of two sequences of the same length. */
  function Plus(a: seq<real>, b: seq<real>): (r: seq<real>)
    requires |a| == |b|
    ensures |r| == |a|
    ensures forall k :: 0 <= k < |a| ==> r[k] == a[k] + b[k]
  {
    seq(|a|, k requires 0 <= k < |a| => a[k] + b[k])
  }

  /** The reals 0.0, 1.0, ..., n-1: the win counts a distribution is indexed by. */
  function Counts(n: nat): (r: seq<real>)
    ensures |r| == n
    ensures forall k :: 0 <= k < n ==> r[k] == k as real
  {
    seq(n, k requires 0 <= k < n => k as real)
  }

  lemma {:induction false} SumAppend(a: seq<real>, b: seq<real>)
    ensures Sum(a + b) == Sum(a) + Sum(b)
  {
    if |a| == 0 {
      assert a + b == b;
    } else {
      assert (a + b)[1..] == a[1..] + b;
      SumAppend(a[1..], b);
    }
  }

  lemma {:induction false} ScaleTail(s: seq<real>, c: real)
    requires |s| > 0
    ensures Scale(s, c)[1..] == Scale(s[1..], c)
  {
    assert forall k :: 0 <= k < |s| - 1 ==> Scale(s, c)[1..][k] == Scale(s[1..], c)[k];
  }

  lemma {:induction false} SumScale(s: seq<real>, c: real)
    ensures Sum(Scale(s, c)) == c * Sum(s)
  {
    if |s| > 0 {
      ScaleTail(s, c);
      SumScale(s[1..], c);
      Distribute(c, s[0], Sum(s[1..]));
    }
  }

  lemma {:induction false} Distribute(c: real, x: real, y: real)
    ensures c * x + c * y == c * (x + y)
  {
  }

  /** Replaces both factors of a product by equal ones. */
  lemma {:induction false} MulEq(a: real, b: real, c: real, d: real)
    requires a == c && b == d
    ensures a * b == c * d
  {
  }

  lemma {:induction false} Regroup(w: real, x: real, l: real)
    ensures (w * l) * x == (w * x) * l
  {
  }

  lemma {:induction false} Associate(w: real, l: real, y: real)
    ensures (w * l) * y == w * (l * y)
  {
  }

  lemma {:induction false} MulNonNegative(a: real, b: real)
    requires a >= 0.0 && b >= 0.0
    ensures a * b >= 0.0
  {
  }

  /** Splitting x into shares 1 - q and q loses nothing. */
  lemma {:induction false} Complement(q: real, x: real)
    ensures (1.0 - q) * x + q * x == x
  {
  }

  lemma {:induction false} PlusTail(a: seq<real>, b: seq<real>)
    requires |a| == |b| > 0
    ensures Plus(a, b)[1..] == Plus(a[1..], b[1..])
  {
    assert forall k :: 0 <= k < |a| - 1 ==> Plus(a, b)[1..][k] == Plus(a[1..], b[1..])[k];
  }

  lemma {:induction false} SumPlus(a: seq<real>, b: seq<real>)
    requires |a| == |b|
    ensures Sum(Plus(a, b)) == Sum(a) + Sum(b)
  {
    if |a| > 0 {
      PlusTail(a, b);
      SumPlus(a[1..], b[1..]);
    }
  }

  lemma {:induction false} SumNonNegative(s: seq<real>)
    requires forall k :: 0 <= k < |s| ==> s[k] >= 0.0
    ensures Sum(s) >= 0.0
  {
    if |s| > 0 {
      SumNonNegative(s[1..]);
    }
  }

  /** A sum of n terms each within [lo, hi] lies within [n * lo, n * hi]. */
  lemma {:induction false} SumBounds(s: seq<real>, lo: real, hi: real)
    requires forall k :: 0 <= k < |s| ==> lo <= s[k] <= hi
    ensures (|s| as real) * lo <= Sum(s) <= (|s| as real) * hi
  {
    if |s| > 0 {
      SumBounds(s[1..], lo, hi);
      OneMore(|s| - 1, lo);
      OneMore(|s| - 1, hi);
    }
  }

  /** (n + 1) copies of x are n copies and one more. */
  lemma {:induction false} OneMore(n: nat, x: real)
    ensures ((n + 1) as real) * x == (n as real) * x + x
  {
  }

  /** Raising every index weight by one adds the plain sum. */
  lemma {:induction false} WeightedShift(s: seq<real>, offset: nat)
    ensures WeightedSum(s, offset + 1) == WeightedSum(s, offset) + Sum(s)
  {
    if |s| > 0 {
      WeightedShift(s[1..], offset + 1);
      OneMore(offset, s[0]);
    }
  }

  lemma {:induction false} WeightedScale(s: seq<real>, c: real, offset: nat)
    ensures WeightedSum(Scale(s, c), offset) == c * WeightedSum(s, offset)
  {
    if |s| > 0 {
      ScaleTail(s, c);
      WeightedScale(s[1..], c, offset + 1);
      var o := offset as real;
      Associate(o, c, s[0]);
      Regroup(1.0, o, c);
      Distribute(c, o * s[0], WeightedSum(s[1..], offset + 1));
      assert o * (c * s[0]) == c * (o * s[0]) by {
        Associate(c, o, s[0]);
      }
    }
  }

  lemma {:induction false} WeightedPlus(a: seq<real>, b: seq<real>, offset: nat)
    requires |a| == |b|
    ensures WeightedSum(Plus(a, b), offset) == WeightedSum(a, offset) + WeightedSum(b, offset)
  {
    if |a| > 0 {
      PlusTail(a, b);
      WeightedPlus(a[1..], b[1..], offset + 1);
      Distribute(offset as real, a[0], b[0]);
    }
  }

  lemma {:induction false} WeightedTrailingZero(s: seq<real>, offset: nat)
    ensures WeightedSum(s + [0.0], offset) == WeightedSum(s, offset)
  {
    if |s| > 0 {
      assert (s + [0.0])[1..] == s[1..] + [0.0];
      WeightedTrailingZero(s[1..], offset + 1);
    }
  }

  /** A leading zero moves every element one weight up. */
  lemma {:induction false} WeightedLeadingZero(s: seq<real>)
    ensures WeightedSum([0.0] + s, 0) == WeightedSum(s, 0) + Sum(s)
  {
    assert ([0.0] + s)[1..] == s;
    WeightedShift(s, 0);
  }

  /** Sum of a_k * b_k. */
  function Dot(a: seq<real>, b: seq<real>): real
    requires |a| == |b|
  {
    if |a| == 0 then 0.0 else a[0] * b[0] + Dot(a[1..], b[1..])
  }

  /** Weighting a distribution by the counts 0..n-1 is its first moment. */
  lemma {:induction false} DotCountsIsWeightedSum(d: seq<real>)
    ensures Dot(Counts(|d|), d) == WeightedSum(d, 0)
  {
    assert Counts(|d|) == seq(|d|, k requires 0 <= k < |d| => (0 + k) as real);
    DotOffset(d, 0);
  }

  lemma {:induction false} DotOffset(d: seq<real>, offset: nat)
    ensures Dot(seq(|d|, k requires 0 <= k < |d| => (offset + k) as real), d) == WeightedSum(d, offset)
  {
    var ws := seq(|d|, k requires 0 <= k < |d| => (offset + k) as real);
    if |d| > 0 {
      assert ws[1..] == seq(|d[1..]|, k requires 0 <= k < |d[1..]| => (offset + 1 + k) as real);
      DotOffset(d[1..], offset + 1);
    }
  }

  /** The least element of a non-empty sequence. */
  function MinOf(s: seq<real>): (m: real)
    requires |s| > 0
    ensures m in s
    ensures forall k :: 0 <= k < |s| ==> m <= s[k]
  {
    if |s| == 1 then s[0]
    else
      var rest := MinOf(s[1..]);
      if s[0] <= rest then s[0] else rest
  }

  /** The greatest element of a non-empty sequence. */
  function MaxOf(s: seq<real>): (m: real)
    requires |s| > 0
    ensures m in s
    ensures forall k :: 0 <= k < |s| ==> s[k] <= m
  {
    if |s| == 1 then s[0]
    else
      var rest := MaxOf(s[1..]);
      if s[0] >= rest then s[0] else rest
  }
  /** Reordering the elements does not change the sum. */
  lemma {:induction false} SumPermutation(a: seq<real>, b: seq<real>)
    requires multiset(a) == multiset(b)
    ensures Sum(a) == Sum(b)
  {
    if |a| == 0 {
      assert |multiset(b)| == 0;
    } else {
      assert a[0] in multiset(b);
      var i :| 0 <= i < |b| && b[i] == a[0];
      RemoveAt(b, i);
      assert a == [a[0]] + a[1..];
      assert multiset(a[1..]) == multiset(a) - multiset{a[0]};
      SumPermutation(a[1..], b[..i] + b[i + 1..]);
    }
  }

  /** Taking out the element at i leaves the rest of the multiset and the rest of the sum. */
  lemma {:induction false} RemoveAt(b: seq<real>, i: nat)
    requires i < |b|
    ensures multiset(b[..i] + b[i + 1..]) == multiset(b) - multiset{b[i]}
    ensures Sum(b) == Sum(b[..i] + b[i + 1..]) + b[i]
  {
    assert b == b[..i] + ([b[i]] + b[i + 1..]);
    SumAppend(b[..i], [b[i]] + b[i + 1..]);
    assert ([b[i]] + b[i + 1..])[1..] == b[i + 1..];
    SumAppend(b[..i], b[i + 1..]);
  }

  /** Non-negative terms that add up to zero are all zero. */
  lemma {:induction false} SumZeroTerms(s: seq<real>)
    requires forall k :: 0 <= k < |s| ==> s[k] >= 0.0
    requires Sum(s) == 0.0
    ensures forall k :: 0 <= k < |s| ==> s[k] == 0.0
  {
    if |s| > 0 {
      SumNonNegative(s[1..]);
      SumZeroTerms(s[1..]);
      assert forall k :: 1 <= k < |s| ==> s[k] == s[1..][k - 1];
    }
  }
  /** n copies of x. */
  function Constant(n: nat, x: real): (r: seq<real>)
    ensures |r| == n && forall k :: 0 <= k < n ==> r[k] == x
  {
    seq(n, _ => x)
  }

  lemma {:induction false} SumConstant(n: nat, x: real)
    ensures Sum(Constant(n, x)) == (n as real) * x
  {
    SumBounds(Constant(n, x), x, x);
  }
}
