/** Insertion-ordered maps, as Python's `dict` and `OrderedDict` behave:
    a sequence of (key, value) slots.  Assigning to a key that is already
    present overwrites the value in its original slot; a new key gets a new
    slot at the end.  Both the project catalog and each project's
    work-packages are built this way (prj_pystray.py:161-169, 222-225). */
module OrderedMap {
  import opened Wrappers

  type OMap<K, V> = seq<(K, V)>

  /** The keys in slot order. */
  function Keys<K, V>(m: OMap<K, V>): (ks: seq<K>)
    ensures |ks| == |m|
    ensures forall i :: 0 <= i < |m| ==> ks[i] == m[i].0
  {
    seq(|m|, i requires 0 <= i < |m| => m[i].0)
  }

  predicate Distinct<T(==)>(s: seq<T>) {
    forall i, j :: 0 <= i < j < |s| ==> s[i] != s[j]
  }

  /** Position of the first slot holding key `k`. */
  function Find<K(==), V>(m: OMap<K, V>, k: K): (r: Option<nat>)
    ensures r.Some? ==> r.value < |m| && m[r.value].0 == k
    ensures r.Some? ==> forall j :: 0 <= j < r.value ==> m[j].0 != k
    ensures r.None? ==> forall j :: 0 <= j < |m| ==> m[j].0 != k
  {
    if m == [] then None
    else if m[0].0 == k then Some(0)
    else match Find(m[1..], k)
      case None => None
      case Some(i) => Some(i + 1)
  }

  /** `Find` yields the unique first slot of a key, and `None` exactly for
      an absent key. */
  lemma FindIs<K, V>(m: OMap<K, V>, k: K, i: nat)
    requires i < |m| && m[i].0 == k
    requires forall j :: 0 <= j < i ==> m[j].0 != k
    ensures Find(m, k) == Some(i)
  {
  }

  lemma FindNone<K, V>(m: OMap<K, V>, k: K)
    ensures Find(m, k).None? <==> k !in Keys(m)
  {
    if k in Keys(m) {
      var i :| 0 <= i < |m| && Keys(m)[i] == k;
    }
  }

  /** Index of the first occurrence of a key that is present. */
  function FirstIndex<K(==), V>(m: OMap<K, V>, k: K): (i: nat)
    requires k in Keys(m)
    ensures i < |m| && m[i].0 == k
    ensures forall j :: 0 <= j < i ==> m[j].0 != k
  {
    FindNone(m, k);
    Find(m, k).value
  }

  /** `m[k]`, with `None` standing for a `KeyError`. */
  function Get<K(==), V>(m: OMap<K, V>, k: K): (r: Option<V>)
    ensures r.Some? <==> k in Keys(m)
    ensures Distinct(Keys(m)) ==>
      forall i :: 0 <= i < |m| && m[i].0 == k ==> r == Some(m[i].1)
  {
    FindNone(m, k);
    match Find(m, k)
    case None => None
    case Some(i) => Some(m[i].1)
  }

  /** `m[k] = v`. */
  function Put<K(==,!new), V>(m: OMap<K, V>, k: K, v: V): (r: OMap<K, V>)
    ensures Keys(r) == if k in Keys(m) then Keys(m) else Keys(m) + [k]
    ensures Get(r, k) == Some(v)
    ensures forall k' :: k' != k ==> Get(r, k') == Get(m, k')
    ensures Distinct(Keys(m)) ==> Distinct(Keys(r))
    ensures forall e :: e in r ==> e in m || e == (k, v)
  {
    FindNone(m, k);
    match Find(m, k)
    case None =>
      var r := m + [(k, v)];
      assert Keys(r) == Keys(m) + [k];
      forall k' | k' != k ensures Get(r, k') == Get(m, k') {
        FindAppend(m, k', (k, v));
      }
      r
    case Some(i) =>
      var r := m[i := (k, v)];
      assert Keys(r) == Keys(m);
      forall k' | k' != k ensures Get(r, k') == Get(m, k') {
        FindUpdate(m, i, k, v, k');
      }
      r
  }

  lemma FindAppend<K, V>(m: OMap<K, V>, k: K, e: (K, V))
    requires e.0 != k
    ensures Find(m + [e], k) == Find(m, k)
  {
    var r := m + [e];
    match Find(m, k)
    case None =>
    case Some(i) =>
      FindIs(r, k, i);
  }

  lemma FindUpdate<K, V>(m: OMap<K, V>, i: nat, k: K, v: V, k': K)
    requires i < |m| && m[i].0 == k && k' != k
    ensures Find(m[i := (k, v)], k') == Find(m, k')
  {
    var r := m[i := (k, v)];
    match Find(m, k')
    case None =>
    case Some(j) =>
      FindIs(r, k', j);
  }

  /** The dictionary built by assigning every pair in order, as the loops
      `for ...: d[key] = value` of the modelled program do. */
  function FromPairs<K(==,!new), V>(ps: OMap<K, V>): (r: OMap<K, V>)
    ensures Distinct(Keys(r))
    ensures forall e :: e in r ==> e in ps
    ensures forall k :: k in Keys(r) <==> k in Keys(ps)
    decreases |ps|
  {
    if ps == [] then []
    else
      var init := ps[..|ps| - 1];
      var last := ps[|ps| - 1];
      var r0 := FromPairs(init);
      var r := Put(r0, last.0, last.1);
      SnocPairs(ps);
      r
  }

  /** A non-empty sequence of pairs is its front followed by its last pair. */
  lemma SnocPairs<K, V>(ps: OMap<K, V>)
    requires ps != []
    ensures var init := ps[..|ps| - 1]; var last := ps[|ps| - 1];
      && Keys(ps) == Keys(init) + [last.0]
      && (forall e :: e in init ==> e in ps)
      && last in ps
  {
    assert ps == ps[..|ps| - 1] + [ps[|ps| - 1]];
  }

  /** The pair `(k, v)` is the last assignment to `k` in `ps`. */
  ghost predicate LastWrite<K, V>(ps: OMap<K, V>, k: K, v: V) {
    exists i :: 0 <= i < |ps| && ps[i] == (k, v) && NoLaterWrite(ps, k, i)
  }

  ghost predicate NoLaterWrite<K, V>(ps: OMap<K, V>, k: K, i: int) {
    forall j :: 0 <= j < |ps| && i < j ==> ps[j].0 != k
  }

  /** How the last write of a key changes when one more pair is assigned. */
  lemma LastWriteSnoc<K, V>(init: OMap<K, V>, last: (K, V), k: K, v: V)
    ensures last.0 == k ==> (LastWrite(init + [last], k, v) <==> last.1 == v)
    ensures last.0 != k ==> (LastWrite(init + [last], k, v) <==> LastWrite(init, k, v))
  {
    var ps := init + [last];
    var n := |init|;
    if last.0 == k {
      if last.1 == v {
        assert ps[n] == (k, v) && NoLaterWrite(ps, k, n);
      }
      if LastWrite(ps, k, v) {
        var i :| 0 <= i < |ps| && ps[i] == (k, v) && NoLaterWrite(ps, k, i);
        assert ps[n].0 == k;
        assert i == n;
      }
    } else {
      if LastWrite(init, k, v) {
        var i :| 0 <= i < |init| && init[i] == (k, v) && NoLaterWrite(init, k, i);
        assert ps[i] == (k, v) && NoLaterWrite(ps, k, i);
      }
      if LastWrite(ps, k, v) {
        var i :| 0 <= i < |ps| && ps[i] == (k, v) && NoLaterWrite(ps, k, i);
        assert i < n;
        forall j | 0 <= j < |init| && i < j ensures init[j].0 != k {
          assert ps[j] == init[j];
        }
        assert init[i] == (k, v) && NoLaterWrite(init, k, i);
      }
    }
  }

  /** Later duplicates win: looking a key up in the built dictionary yields
      exactly the value of its last assignment. */
  lemma {:induction false} FromPairsGet<K(!new), V>(ps: OMap<K, V>, k: K, v: V)
    ensures Get(FromPairs(ps), k) == Some(v) <==> LastWrite(ps, k, v)
    decreases |ps|
  {
    if ps != [] {
      var init := ps[..|ps| - 1];
      var last := ps[|ps| - 1];
      assert ps == init + [last];
      var r0 := FromPairs(init);
      assert FromPairs(ps) == Put(r0, last.0, last.1);
      FromPairsGet(init, k, v);
      LastWriteSnoc(init, last, k, v);
    }
  }

  /** Without repeated keys nothing is overwritten: the dictionary holds
      the pairs exactly as given, in the same order. */
  lemma {:induction false} FromPairsDistinct<K(!new), V>(ps: OMap<K, V>)
    requires Distinct(Keys(ps))
    ensures FromPairs(ps) == ps
    decreases |ps|
  {
    if ps != [] {
      var init := ps[..|ps| - 1];
      assert Distinct(Keys(init)) && ps[|ps| - 1].0 !in Keys(init) by {
        SnocPairs(ps);
        DistinctSnoc(Keys(init), ps[|ps| - 1].0);
      }
      FromPairsDistinct(init);
      AppendAbsent(ps);
    }
  }

  /** When the front of a pair list builds to itself and the last key is
      new, the whole list builds to itself. */
  lemma AppendAbsent<K(!new), V>(ps: OMap<K, V>)
    requires ps != []
    requires FromPairs(ps[..|ps| - 1]) == ps[..|ps| - 1] && ps[|ps| - 1].0 !in Keys(ps[..|ps| - 1])
    ensures FromPairs(ps) == ps
  {
    var init := ps[..|ps| - 1];
    var last := ps[|ps| - 1];
    FrontAndLast(ps);
    AppendPairAbsent(init, last);
  }

  /** A non-empty sequence is its front followed by its last element. */
  lemma FrontAndLast<T>(s: seq<T>)
    requires s != []
    ensures s == s[..|s| - 1] + [s[|s| - 1]]
  {
  }

  lemma AppendPairAbsent<K(!new), V>(init: OMap<K, V>, last: (K, V))
    requires FromPairs(init) == init && last.0 !in Keys(init)
    ensures FromPairs(init + [last]) == init + [last]
  {
    var ps := init + [last];
    FromPairsSnoc(ps);
    assert ps[..|ps| - 1] == init && ps[|ps| - 1] == last;
    PutAbsent(init, last.0, last.1);
  }

  /** Assigning to an absent key appends a slot. */
  lemma PutAbsent<K(!new), V>(m: OMap<K, V>, k: K, v: V)
    requires k !in Keys(m)
    ensures Put(m, k, v) == m + [(k, v)]
  {
    FindNone(m, k);
  }

  /** Building from pairs is building from all but the last, then assigning
      the last. */
  lemma FromPairsSnoc<K(!new), V>(ps: OMap<K, V>)
    requires ps != []
    ensures FromPairs(ps) == Put(FromPairs(ps[..|ps| - 1]), ps[|ps| - 1].0, ps[|ps| - 1].1)
  {
  }

  /** A sequence with one more element at the end is repetition-free
      exactly when the front is and the new element is not in it. */
  lemma DistinctSnoc<T>(s: seq<T>, x: T)
    ensures Distinct(s + [x]) <==> Distinct(s) && x !in s
  {
    var t := s + [x];
    if Distinct(t) {
      assert forall i :: 0 <= i < |s| ==> t[i] == s[i];
      assert t[|s|] == x;
    }
  }

  /** Appending a pair does not move the first occurrence of any key. */
  lemma FirstIndexSnoc<K, V>(ps: OMap<K, V>, k: K)
    requires ps != [] && k in Keys(ps)
    ensures k in Keys(ps[..|ps| - 1]) ==> FirstIndex(ps, k) == FirstIndex(ps[..|ps| - 1], k)
    ensures k !in Keys(ps[..|ps| - 1]) ==> FirstIndex(ps, k) == |ps| - 1
  {
    var init := ps[..|ps| - 1];
    FindNone(init, k);
    FindNone(ps, k);
    match Find(init, k)
    case Some(i) =>
      FindIs(ps, k, i);
    case None =>
      FindIs(ps, k, |init|);
  }

  /** A key keeps the slot of its FIRST assignment: the built dictionary
      lists its keys in order of first occurrence in `ps`. */
  lemma FromPairsFirstOccurrenceOrder<K(!new), V>(ps: OMap<K, V>)
    ensures var r := FromPairs(ps);
      forall i, j :: 0 <= i < j < |r| ==> FirstIndex(ps, r[i].0) < FirstIndex(ps, r[j].0)
  {
    var r := FromPairs(ps);
    forall i, j | 0 <= i < j < |r|
      ensures FirstIndex(ps, r[i].0) < FirstIndex(ps, r[j].0)
    {
      FromPairsOrderAt(ps, i, j);
    }
  }

  lemma {:induction false} FromPairsOrderAt<K(!new), V>(ps: OMap<K, V>, i: nat, j: nat)
    requires i < j < |FromPairs(ps)|
    ensures FirstIndex(ps, FromPairs(ps)[i].0) < FirstIndex(ps, FromPairs(ps)[j].0)
    decreases |ps|
  {
    var init := ps[..|ps| - 1];
    var last := ps[|ps| - 1];
    var r0 := FromPairs(init);
    var r := FromPairs(ps);
    assert r == Put(r0, last.0, last.1);
    assert Keys(r)[i] == r[i].0 && Keys(r)[j] == r[j].0;
    assert i < |r0| && Keys(r0)[i] == r[i].0;
    assert r[i].0 in Keys(r0);
    FirstIndexSnoc(ps, r[i].0);
    FirstIndexSnoc(ps, r[j].0);
    if j < |r0| {
      assert Keys(r0)[j] == r[j].0;
      assert r[j].0 in Keys(r0);
      FromPairsOrderAt(init, i, j);
    } else {
      assert r[j].0 == last.0 && last.0 !in Keys(r0);
    }
  }
}
