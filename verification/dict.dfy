/** Python's insertion-ordered dict, as a list of (key, value) pairs. A lookup
    reads the first pair with the key, and assigning to a key already present
    replaces its value in place, so the key keeps its position. */
module Dict {
  import opened Wrappers

  /** No key occurs twice. */
  ghost predicate KeysUnique<K, V>(d: seq<(K, V)>)
  {
    forall i, j :: 0 <= i < j < |d| ==> d[i].0 != d[j].0
  }

  /** The keys in insertion order, as `dict.keys()` lists them. */
  function Keys<K, V>(d: seq<(K, V)>): (r: seq<K>)
    ensures |r| == |d| && forall i :: 0 <= i < |d| ==> r[i] == d[i].0
  {
    seq(|d|, i requires 0 <= i < |d| => d[i].0)
  }

  /** The first position holding key k. */
  function Find<K(==), V>(d: seq<(K, V)>, k: K): (r: Option<nat>)
    ensures r.Some? ==> r.value < |d| && d[r.value].0 == k
    ensures r.Some? ==> forall j :: 0 <= j < r.value ==> d[j].0 != k
    ensures r.None? <==> forall j :: 0 <= j < |d| ==> d[j].0 != k
  {
    if |d| == 0 then None
    else if d[0].0 == k then Some(0)
    else
      match Find(d[1..], k)
      case None => None
      case Some(i) => Some(i + 1)
  }

  /** `d.get(k)`: the value stored under k, or None when k is absent. */
  function Get<K(==), V>(d: seq<(K, V)>, k: K): (r: Option<V>)
    ensures r.None? <==> forall j :: 0 <= j < |d| ==> d[j].0 != k
  {
    match Find(d, k)
    case None => None
    case Some(i) => Some(d[i].1)
  }

  /** A value found under k is paired with k in the dict. */
  lemma {:induction false} GetMember<K, V>(d: seq<(K, V)>, k: K)
    requires Get(d, k).Some?
    ensures (k, Get(d, k).value) in d
  {
    assert d[Find(d, k).value] == (k, Get(d, k).value);
  }

  /** With unique keys, the value of any pair is what a lookup of its key returns. */
  lemma {:induction false} GetOfUnique<K, V>(d: seq<(K, V)>, i: nat)
    requires KeysUnique(d) && i < |d|
    ensures Get(d, d[i].0) == Some(d[i].1)
  {
  }

  /** Appending a pair does not move an earlier key, and finds a new one at the end. */
  lemma {:induction false} FindAppend<K, V>(d: seq<(K, V)>, p: (K, V), k: K)
    ensures Find(d, k).Some? ==> Find(d + [p], k) == Find(d, k)
    ensures Find(d, k).None? && p.0 == k ==> Find(d + [p], k) == Some(|d|)
    ensures Find(d, k).None? && p.0 != k ==> Find(d + [p], k).None?
  {
    var e := d + [p];
    assert forall j :: 0 <= j < |d| ==> e[j] == d[j];
    var f := Find(d, k);
    var g := Find(e, k);
    if f.Some? {
      assert g.Some? && g.value <= f.value;
    } else if p.0 == k {
      assert e[|d|] == p;
    }
  }

  /** Replacing a value under its own key moves no key. */
  lemma {:induction false} FindUpdate<K, V>(d: seq<(K, V)>, i: nat, p: (K, V), k: K)
    requires i < |d| && d[i].0 == p.0
    ensures Find(d[i := p], k) == Find(d, k)
  {
    var e := d[i := p];
    assert forall j :: 0 <= j < |d| ==> e[j].0 == d[j].0;
  }

  /** `d[k] = v`: replaces the value of a present key in place, or appends the pair. */
  function Put<K(==), V>(d: seq<(K, V)>, k: K, v: V): (r: seq<(K, V)>)
    ensures Get(r, k) == Some(v)
  {
    var f := Find(d, k);
    if f.None? then
      FindAppend(d, (k, v), k);
      d + [(k, v)]
    else
      FindUpdate(d, f.value, (k, v), k);
      d[f.value := (k, v)]
  }

  /** Assigning one key leaves every other key's lookup unchanged. */
  lemma {:induction false} PutOther<K, V>(d: seq<(K, V)>, k: K, v: V, other: K)
    requires other != k
    ensures Get(Put(d, k, v), other) == Get(d, other)
  {
    var f := Find(d, k);
    if f.None? {
      FindAppend(d, (k, v), other);
    } else {
      FindUpdate(d, f.value, (k, v), other);
      var g := Find(d, other);
      if g.Some? {
        assert g.value != f.value;
      }
    }
  }

  /** Assigning a present key keeps the key order; a new key goes last. */
  lemma {:induction false} PutKeys<K, V>(d: seq<(K, V)>, k: K, v: V)
    ensures Find(d, k).Some? ==> Keys(Put(d, k, v)) == Keys(d)
    ensures Find(d, k).None? ==> Keys(Put(d, k, v)) == Keys(d) + [k]
  {
  }

  /** Every pair after an assignment was there before or is the assigned one. */
  lemma {:induction false} PutMembers<K, V>(d: seq<(K, V)>, k: K, v: V)
    ensures forall i :: 0 <= i < |Put(d, k, v)| ==> Put(d, k, v)[i] in d || Put(d, k, v)[i] == (k, v)
  {
    var r := Put(d, k, v);
    forall i | 0 <= i < |r| ensures r[i] in d || r[i] == (k, v) {
      if i < |d| && r[i] != (k, v) {
        assert r[i] == d[i];
      }
    }
  }

  /** Assigning keeps keys unique. */
  lemma {:induction false} PutUnique<K, V>(d: seq<(K, V)>, k: K, v: V)
    requires KeysUnique(d)
    ensures KeysUnique(Put(d, k, v))
  {
    var r := Put(d, k, v);
    PutKeys(d, k, v);
    forall i, j | 0 <= i < j < |r| ensures r[i].0 != r[j].0 {
      assert Keys(r)[i] == r[i].0 && Keys(r)[j] == r[j].0;
    }
  }

  /** A dict filled by assigning the pairs in order, as a loop of `d[k] = v` does. */
  function FromPairs<K(==), V>(ps: seq<(K, V)>): seq<(K, V)>
  {
    if |ps| == 0 then []
    else Put(FromPairs(ps[..|ps| - 1]), ps[|ps| - 1].0, ps[|ps| - 1].1)
  }

  /** Every pair of the filled dict is one of the assigned pairs. */
  lemma {:induction false} FromPairsMembers<K, V>(ps: seq<(K, V)>)
    ensures forall i :: 0 <= i < |FromPairs(ps)| ==> FromPairs(ps)[i] in ps
  {
    if |ps| > 0 {
      var init := ps[..|ps| - 1];
      FromPairsMembers(init);
      PutMembers(FromPairs(init), ps[|ps| - 1].0, ps[|ps| - 1].1);
      var r := FromPairs(ps);
      forall i | 0 <= i < |r| ensures r[i] in ps {
        if r[i] != ps[|ps| - 1] {
          assert r[i] in FromPairs(init);
          var j :| 0 <= j < |FromPairs(init)| && FromPairs(init)[j] == r[i];
          assert r[i] in init;
        }
      }
    }
  }

  /** Filling with one more pair assigns it last. */
  lemma {:induction false} FromPairsSnoc<K, V>(ps: seq<(K, V)>, p: (K, V))
    ensures FromPairs(ps + [p]) == Put(FromPairs(ps), p.0, p.1)
  {
    assert (ps + [p])[..|ps|] == ps;
  }

  /** The filled dict has each key once. */
  lemma {:induction false} FromPairsUnique<K, V>(ps: seq<(K, V)>)
    ensures KeysUnique(FromPairs(ps))
  {
    if |ps| > 0 {
      FromPairsUnique(ps[..|ps| - 1]);
      PutUnique(FromPairs(ps[..|ps| - 1]), ps[|ps| - 1].0, ps[|ps| - 1].1);
    }
  }

  /** A key is absent from the filled dict exactly when no pair carries it. */
  lemma {:induction false} FromPairsAbsent<K, V>(ps: seq<(K, V)>, k: K)
    ensures Get(FromPairs(ps), k).None? <==> forall i :: 0 <= i < |ps| ==> ps[i].0 != k
  {
    if |ps| > 0 {
      var init := ps[..|ps| - 1];
      var last := ps[|ps| - 1];
      var d := FromPairs(init);
      assert FromPairs(ps) == Put(d, last.0, last.1);
      if last.0 == k {
        assert Get(FromPairs(ps), k).Some?;
        assert ps[|ps| - 1].0 == k;
      } else {
        FromPairsAbsent(init, k);
        PutOther(d, last.0, last.1, k);
        assert Get(FromPairs(ps), k) == Get(d, k);
        assert forall i :: 0 <= i < |init| ==> init[i] == ps[i];
        assert (forall i :: 0 <= i < |ps| ==> ps[i].0 != k) <==> (forall i :: 0 <= i < |init| ==> init[i].0 != k);
      }
    }
  }

  /** The last assignment to a key wins: the value paired with k last. */
  lemma {:induction false} FromPairsLastWins<K, V>(ps: seq<(K, V)>, i: nat)
    requires i < |ps|
    requires forall j :: i < j < |ps| ==> ps[j].0 != ps[i].0
    ensures Get(FromPairs(ps), ps[i].0) == Some(ps[i].1)
    decreases |ps|
  {
    var init := ps[..|ps| - 1];
    var last := ps[|ps| - 1];
    if i < |ps| - 1 {
      assert init[i] == ps[i];
      FromPairsLastWins(init, i);
      PutOther(FromPairs(init), last.0, last.1, ps[i].0);
    }
  }

  /** A pair followed only by other keys decides its key. */
  lemma {:induction false} FromPairsLastOf<K, V>(a: seq<(K, V)>, p: (K, V), b: seq<(K, V)>)
    requires forall j :: 0 <= j < |b| ==> b[j].0 != p.0
    ensures Get(FromPairs(a + ([p] + b)), p.0) == Some(p.1)
  {
    var ps := a + ([p] + b);
    assert ps[|a|] == p;
    forall j | |a| < j < |ps| ensures ps[j].0 != p.0 {
      assert ps[j] == b[j - |a| - 1];
    }
    FromPairsLastWins(ps, |a|);
  }

  /** Assigning a present key adds no key and removes none. */
  lemma {:induction false} PutPresent<K, V>(d: seq<(K, V)>, k: K, v: V, other: K)
    requires Get(d, k).Some?
    ensures Get(Put(d, k, v), other).Some? <==> Get(d, other).Some?
  {
    if other != k {
      PutOther(d, k, v, other);
    }
  }
}
