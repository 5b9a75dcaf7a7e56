/** A stable insertion sort by a real-valued key. It stands in for Python's
    `sorted(values)` and `list.sort(key=...)`, both stable. A descending sort
    (`reverse=True`, also stable in Python) is an ascending sort by the negated key. */
module KeySort {

  /** Keys never decrease along the sequence. */
  ghost predicate Sorted<T>(s: seq<T>, key: T -> real)
  {
    forall i, j :: 0 <= i < j < |s| ==> key(s[i]) <= key(s[j])
  }

  /** Places x after every leading element whose key does not exceed key(x). */
  function Insert<T>(x: T, s: seq<T>, key: T -> real): (r: seq<T>)
    ensures multiset(r) == multiset(s) + multiset{x}
    ensures |r| == |s| + 1
  {
    if |s| == 0 then [x]
    else if key(x) < key(s[0]) then [x] + s
    else
      assert s == [s[0]] + s[1..];
      [s[0]] + Insert(x, s[1..], key)
  }

  lemma {:induction false} InsertMembers<T>(x: T, s: seq<T>, key: T -> real, y: T)
    requires y in Insert(x, s, key)
    ensures y == x || y in s
  {
    assert y in multiset(Insert(x, s, key));
  }

  lemma {:induction false} InsertSorted<T>(x: T, s: seq<T>, key: T -> real)
    requires Sorted(s, key)
    ensures Sorted(Insert(x, s, key), key)
  {
    if |s| > 0 && key(x) >= key(s[0]) {
      var tail := Insert(x, s[1..], key);
      InsertSorted(x, s[1..], key);
      forall j | 0 <= j < |tail|
        ensures key(s[0]) <= key(tail[j])
      {
        InsertMembers(x, s[1..], key, tail[j]);
      }
    }
  }

  /** Inserts the elements one by one in input order, so equal keys keep input order. */
  function Sort<T>(s: seq<T>, key: T -> real): (r: seq<T>)
    ensures multiset(r) == multiset(s)
    ensures |r| == |s|
    ensures Sorted(r, key)
  {
    if |s| == 0 then []
    else
      var init := s[..|s| - 1];
      assert s == init + [s[|s| - 1]];
      InsertSorted(s[|s| - 1], Sort(init, key), key);
      Insert(s[|s| - 1], Sort(init, key), key)
  }

  /** The elements whose key is v, in the order they appear. */
  function WithKey<T>(s: seq<T>, key: T -> real, v: real): (r: seq<T>)
    ensures |r| <= |s|
  {
    if |s| == 0 then []
    else
      assert s == [s[0]] + s[1..];
      (if key(s[0]) == v then [s[0]] else []) + WithKey(s[1..], key, v)
  }

  lemma WithKeyCons<T>(h: T, t: seq<T>, key: T -> real, v: real)
    ensures WithKey([h] + t, key, v) == (if key(h) == v then [h] else []) + WithKey(t, key, v)
  {
    assert ([h] + t)[1..] == t;
  }

  lemma {:induction false} WithKeyAppend<T>(a: seq<T>, b: seq<T>, key: T -> real, v: real)
    ensures WithKey(a + b, key, v) == WithKey(a, key, v) + WithKey(b, key, v)
  {
    if |a| > 0 {
      var h := if key(a[0]) == v then [a[0]] else [];
      calc {
        WithKey(a + b, key, v);
        { assert a + b == [a[0]] + (a[1..] + b); }
        WithKey([a[0]] + (a[1..] + b), key, v);
        { WithKeyCons(a[0], a[1..] + b, key, v); }
        h + WithKey(a[1..] + b, key, v);
        { WithKeyAppend(a[1..], b, key, v); }
        h + (WithKey(a[1..], key, v) + WithKey(b, key, v));
        { SeqAssoc(h, WithKey(a[1..], key, v), WithKey(b, key, v)); }
        (h + WithKey(a[1..], key, v)) + WithKey(b, key, v);
        { WithKeyCons(a[0], a[1..], key, v); assert a == [a[0]] + a[1..]; }
        WithKey(a, key, v) + WithKey(b, key, v);
      }
    } else {
      assert a + b == b;
    }
  }

  lemma SeqAssoc<T>(a: seq<T>, b: seq<T>, c: seq<T>)
    ensures a + (b + c) == (a + b) + c
  {
  }

  /** A sorted sequence whose first key exceeds v has no element with key v. */
  lemma {:induction false} NoneWithSmallerKey<T>(t: seq<T>, key: T -> real, v: real)
    requires Sorted(t, key) && |t| > 0 && v < key(t[0])
    ensures WithKey(t, key, v) == []
  {
    if |t| > 1 {
      assert key(t[0]) <= key(t[1]);
      SortedTail(t, key);
      NoneWithSmallerKey(t[1..], key, v);
    }

  }

  /** Inserting x into a sorted sequence puts it after every element with its key. */
  lemma {:induction false} InsertWithKey<T>(x: T, t: seq<T>, key: T -> real, v: real)
    requires Sorted(t, key)
    ensures WithKey(Insert(x, t, key), key, v) == WithKey(t, key, v) + (if key(x) == v then [x] else [])
  {
    var hx := if key(x) == v then [x] else [];
    if |t| == 0 {
      WithKeyCons(x, [], key, v);
      assert [x] + [] == [x];
    } else if key(x) < key(t[0]) {
      WithKeyCons(x, t, key, v);
      if key(x) == v {
        NoneWithSmallerKey(t, key, v);
      }
    } else {
      var h := if key(t[0]) == v then [t[0]] else [];
      assert t == [t[0]] + t[1..];
      WithKeyCons(t[0], Insert(x, t[1..], key), key, v);
      WithKeyCons(t[0], t[1..], key, v);
      SortedTail(t, key);
      InsertWithKey(x, t[1..], key, v);
      SeqAssoc(h, WithKey(t[1..], key, v), hx);
    }
  }

  /** Elements with equal keys leave the sort in the order they came in. */
  lemma {:induction false} SortStable<T>(s: seq<T>, key: T -> real, v: real)
    ensures WithKey(Sort(s, key), key, v) == WithKey(s, key, v)
  {
    if |s| > 0 {
      var init, last := s[..|s| - 1], s[|s| - 1];
      assert s == init + [last];
      SortStable(init, key, v);
      InsertWithKey(last, Sort(init, key), key, v);
      WithKeyAppend(init, [last], key, v);
      WithKeyCons(last, [], key, v);
      assert [last] + [] == [last];
    }
  }

  lemma SortStableAt<T>(s: seq<T>, u: seq<T>, key: T -> real, v: real)
    requires u == Sort(s, key)
    ensures WithKey(u, key, v) == WithKey(s, key, v)
  {
    SortStable(s, key, v);
  }

  function Identity(x: real): real
  {
    x
  }

  /** The head of an ascending sequence is its least element. */
  lemma {:induction false} HeadIsLeast(a: seq<real>, y: real)
    requires Sorted(a, Identity)
    requires y in multiset(a)
    ensures a[0] <= y
  {
    var i :| 0 <= i < |a| && a[i] == y;
    if i > 0 {
      assert Identity(a[0]) <= Identity(a[i]);
    }
  }

  lemma {:induction false} SortedTail<T>(a: seq<T>, key: T -> real)
    requires |a| > 0 && Sorted(a, key)
    ensures Sorted(a[1..], key)
  {
    forall i, j | 0 <= i < j < |a| - 1
      ensures key(a[1..][i]) <= key(a[1..][j])
    {
      assert a[1..][i] == a[i + 1] && a[1..][j] == a[j + 1];
    }
  }

  lemma {:induction false} TailMultiset<T>(a: seq<T>, b: seq<T>)
    requires |a| > 0 && |b| > 0 && a[0] == b[0]
    requires multiset(a) == multiset(b)
    ensures multiset(a[1..]) == multiset(b[1..])
  {
    assert a == [a[0]] + a[1..];
    assert b == [b[0]] + b[1..];
    assert multiset(a) == multiset{a[0]} + multiset(a[1..]);
    assert multiset(b) == multiset{b[0]} + multiset(b[1..]);
    assert multiset(a[1..]) == multiset(a) - multiset{a[0]};
    assert multiset(b[1..]) == multiset(b) - multiset{b[0]};
  }

  /** Two ascending orderings of the same multiset of reals are the same sequence. */
  lemma {:induction false} SortedRealsUnique(a: seq<real>, b: seq<real>)
    requires multiset(a) == multiset(b)
    requires Sorted(a, Identity) && Sorted(b, Identity)
    ensures a == b
  {
    assert |a| == |b| by {
      assert |multiset(a)| == |a| && |multiset(b)| == |b|;
    }
    if |a| > 0 {
      assert b[0] in multiset(a) && a[0] in multiset(b);
      HeadIsLeast(a, b[0]);
      HeadIsLeast(b, a[0]);
      assert a[0] == b[0];
      TailMultiset(a, b);
      SortedTail(a, Identity);
      SortedTail(b, Identity);
      SortedRealsUnique(a[1..], b[1..]);
      assert a == [a[0]] + a[1..];
      assert b == [b[0]] + b[1..];
    }
  }

  /** Sorting a permutation of the input gives the same ordered sequence. */
  lemma {:induction false} SortIgnoresInputOrder(a: seq<real>, b: seq<real>)
    requires multiset(a) == multiset(b)
    ensures Sort(a, Identity) == Sort(b, Identity)
  {
    SortedRealsUnique(Sort(a, Identity), Sort(b, Identity));
  }
}
