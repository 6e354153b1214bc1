/**
 * The position index both the registry and every family keep: a map from
 * fingerprint to the position of the element that carries it, rebuilt by
 * writing every position after each sort.
 */
module Index {
  import opened Fnv

  /** What the loop `set[key(s[i])] = i` writes over an empty map, the last position winning. */
  function PositionMap<T>(s: seq<T>, key: T -> Fingerprint): (m: map<Fingerprint, int>)
    ensures forall f :: f in m ==> 0 <= m[f] < |s| && key(s[m[f]]) == f
    ensures forall i :: 0 <= i < |s| ==> key(s[i]) in m
    decreases |s|
  {
    if s == [] then map[]
    else
      var init := s[..|s| - 1];
      var m0 := PositionMap(init, key);
      assert forall f :: f in m0 ==> 0 <= m0[f] < |init| && key(s[m0[f]]) == f;
      m0[key(s[|s| - 1]) := |s| - 1]
  }

  /** The last position carrying a key is the one the rewrite loop leaves in the map. */
  lemma {:induction false} PositionMapLast<T>(s: seq<T>, key: T -> Fingerprint, i: int)
    requires 0 <= i < |s|
    requires forall j :: i < j < |s| ==> key(s[j]) != key(s[i])
    ensures PositionMap(s, key)[key(s[i])] == i
    decreases |s|
  {
    if i < |s| - 1 {
      var init := s[..|s| - 1];
      assert init[i] == s[i];
      assert forall j :: i < j < |init| ==> init[j] == s[j];
      PositionMapLast(init, key, i);
    }
  }

  /** No two positions carry the same fingerprint. */
  predicate Distinct<T>(s: seq<T>, key: T -> Fingerprint) {
    forall i, j :: 0 <= i < j < |s| ==> key(s[i]) != key(s[j])
  }

  /**
   * The index is consistent with the positions: every indexed fingerprint
   * points at an element that carries it, and every element is indexed.
   */
  predicate Indexed<T>(s: seq<T>, idx: map<Fingerprint, int>, key: T -> Fingerprint) {
    && (forall f :: f in idx ==> 0 <= idx[f] < |s| && key(s[idx[f]]) == f)
    && (forall i :: 0 <= i < |s| ==> key(s[i]) in idx)
  }

  /** With distinct fingerprints the rebuilt index maps each element to its own position. */
  lemma PositionMapExact<T>(s: seq<T>, key: T -> Fingerprint, i: int)
    requires Distinct(s, key) && 0 <= i < |s|
    ensures PositionMap(s, key)[key(s[i])] == i
  {
    var m := PositionMap(s, key);
    assert key(s[m[key(s[i])]]) == key(s[i]);
  }

  lemma PositionMapSnoc<T>(s: seq<T>, key: T -> Fingerprint, i: int)
    requires 0 <= i < |s|
    ensures PositionMap(s[..i + 1], key) == PositionMap(s[..i], key)[key(s[i]) := i]
  {
    assert s[..i + 1][..i] == s[..i];
  }

  lemma MapUnionUpdate<K, V>(a: map<K, V>, b: map<K, V>, k: K, v: V)
    ensures (a + b)[k := v] == a + b[k := v]
  {
  }

  /** The rebuild loop: each position of `s` written over `base`. */
  method Reindex<T>(base: map<Fingerprint, int>, s: seq<T>, key: T -> Fingerprint) returns (index: map<Fingerprint, int>)
    ensures index == base + PositionMap(s, key)
  {
    index := base;
    var i := 0;
    while i < |s|
      invariant 0 <= i <= |s|
      invariant index == base + PositionMap(s[..i], key)
    {
      PositionMapSnoc(s, key, i);
      MapUnionUpdate(base, PositionMap(s[..i], key), key(s[i]), i);
      index := index[key(s[i]) := i];
      i := i + 1;
    }
    assert s[..i] == s;
  }

  /** Removing position `p` shifts the later elements down by one. */
  lemma SpliceShape<T>(s: seq<T>, p: int)
    requires 0 <= p < |s|
    ensures var rest := s[..p] + s[p + 1..];
            && |rest| == |s| - 1
            && (forall i :: 0 <= i < |rest| ==> rest[i] == if i < p then s[i] else s[i + 1])
            && multiset(rest) + multiset{s[p]} == multiset(s)
  {
    assert s == s[..p] + [s[p]] + s[p + 1..];
  }

  /** Removing a position keeps fingerprints distinct, and the removed one is gone. */
  lemma SpliceDistinct<T>(s: seq<T>, key: T -> Fingerprint, p: int)
    requires 0 <= p < |s| && Distinct(s, key)
    ensures var rest := s[..p] + s[p + 1..];
            Distinct(rest, key) && forall i :: 0 <= i < |rest| ==> key(rest[i]) != key(s[p])
  {
    SpliceShape(s, p);
  }

  lemma MultisetCancel<T>(a: multiset<T>, b: multiset<T>, x: T)
    requires a + multiset{x} == b + multiset{x}
    ensures a == b
  {
    forall y ensures a[y] == b[y] {
      assert (a + multiset{x})[y] == (b + multiset{x})[y];
    }
  }

  lemma DistinctTail<T>(s: seq<T>, key: T -> Fingerprint)
    requires s != [] && Distinct(s, key)
    ensures Distinct(s[1..], key) && forall i :: 0 <= i < |s[1..]| ==> key(s[1..][i]) != key(s[0])
  {
    forall i, j | 0 <= i < j < |s[1..]| ensures key(s[1..][i]) != key(s[1..][j]) {
      assert s[1..][i] == s[i + 1] && s[1..][j] == s[j + 1];
    }
  }

  /** Inserting an element with a fresh fingerprint keeps fingerprints distinct. */
  lemma DistinctInsert<T>(u: seq<T>, x: T, k: int, key: T -> Fingerprint)
    requires Distinct(u, key) && 0 <= k <= |u|
    requires forall i :: 0 <= i < |u| ==> key(u[i]) != key(x)
    ensures Distinct(u[..k] + [x] + u[k..], key)
  {
    var t := u[..k] + [x] + u[k..];
    forall i, j | 0 <= i < j < |t| ensures key(t[i]) != key(t[j]) {
      if j < k {
        assert t[i] == u[i] && t[j] == u[j];
      } else if j == k {
        assert t[i] == u[i] && t[j] == x;
      } else if i < k {
        assert t[i] == u[i] && t[j] == u[j - 1];
      } else if i == k {
        assert t[i] == x && t[j] == u[j - 1];
      } else {
        assert t[i] == u[i - 1] && t[j] == u[j - 1];
      }
    }
  }

  /** Taking the head of `s` out of the permutation `t` leaves a permutation of the tail. */
  lemma RemoveMatching<T>(s: seq<T>, t: seq<T>, k: int)
    requires s != [] && multiset(s) == multiset(t) && 0 <= k < |t| && t[k] == s[0]
    ensures multiset(s[1..]) == multiset(t[..k] + t[k + 1..])
  {
    assert s == [s[0]] + s[1..];
    assert t == t[..k] + [t[k]] + t[k + 1..];
    assert multiset(t) == multiset(t[..k] + t[k + 1..]) + multiset{s[0]};
    MultisetCancel(multiset(s[1..]), multiset(t[..k] + t[k + 1..]), s[0]);
  }

  lemma PutBack<T>(t: seq<T>, k: int)
    requires 0 <= k < |t|
    ensures var u := t[..k] + t[k + 1..]; u[..k] + [t[k]] + u[k..] == t
  {
    var u := t[..k] + t[k + 1..];
    assert u[..k] == t[..k];
    assert u[k..] == t[k + 1..];
  }

  /** A permutation of a sequence with distinct fingerprints has distinct fingerprints. */
  lemma {:induction false} DistinctPermutation<T>(s: seq<T>, t: seq<T>, key: T -> Fingerprint)
    requires multiset(s) == multiset(t) && Distinct(s, key)
    ensures Distinct(t, key)
    decreases |s|
  {
    if s != [] {
      var x := s[0];
      assert x in multiset(t);
      var k :| 0 <= k < |t| && t[k] == x;
      var u := t[..k] + t[k + 1..];
      RemoveMatching(s, t, k);
      DistinctTail(s, key);
      DistinctPermutation(s[1..], u, key);
      forall i | 0 <= i < |u| ensures key(u[i]) != key(x) {
        assert u[i] in multiset(s[1..]);
        var m :| 0 <= m < |s[1..]| && s[1..][m] == u[i];
      }
      DistinctInsert(u, x, k, key);
      PutBack(t, k);
    }
  }

  /**
   * Adding an element whose fingerprint is not yet indexed and rebuilding
   * over the old exact index gives exactly the index of the new sequence,
   * with fingerprints still distinct.
   */
  lemma ReindexExact<T>(before: seq<T>, x: T, after: seq<T>, key: T -> Fingerprint)
    requires Distinct(before, key) && key(x) !in PositionMap(before, key)
    requires multiset(after) == multiset(before + [x])
    ensures Distinct(after, key)
    ensures PositionMap(before, key) + PositionMap(after, key) == PositionMap(after, key)
  {
    var all := before + [x];
    assert Distinct(all, key) by {
      forall i, j | 0 <= i < j < |all| ensures key(all[i]) != key(all[j]) {
        if j == |before| {
          assert all[i] == before[i];
        } else {
          assert all[i] == before[i] && all[j] == before[j];
        }
      }
    }
    DistinctPermutation(all, after, key);
    var base := PositionMap(before, key);
    var m := PositionMap(after, key);
    forall f | f in base ensures f in m {
      var b := before[base[f]];
      assert b == all[base[f]];
      assert b in multiset(after);
      var q :| 0 <= q < |after| && after[q] == b;
    }
    assert base + m == m;
  }
}
