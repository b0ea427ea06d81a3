/** Keyed collections with an iteration order. A Java `HashMap`, a JavaScript
    `Map` and a Python `dict` hand out their entries in a fixed order: the
    model keeps that order as a sequence of distinct keys beside the map, and
    takes insertion order for it (a `HashMap`'s real order depends on hash
    codes, which the sources never rely on). */
module Keys {

  predicate Distinct<K(==)>(ks: seq<K>) {
    forall i, j :: 0 <= i < j < |ks| ==> ks[i] != ks[j]
  }

  /** `ks` lists every key of `keys` once. */
  ghost predicate Enumerates<K>(ks: seq<K>, keys: set<K>) {
    && Distinct(ks)
    && (forall i :: 0 <= i < |ks| ==> ks[i] in keys)
    && (forall k :: k in keys ==> k in ks)
  }

  /** The order after a `put`: a new key goes last, a present key keeps its place. */
  function Put<K(==)>(ks: seq<K>, k: K): (r: seq<K>)
    ensures k in r && |ks| <= |r| <= |ks| + 1
    ensures ks <= r
  {
    if k in ks then ks else ks + [k]
  }

  lemma PutEnumerates<K(!new)>(ks: seq<K>, keys: set<K>, k: K)
    requires Enumerates(ks, keys)
    ensures Enumerates(Put(ks, k), keys + {k})
    ensures k in keys ==> Put(ks, k) == ks
  {
    if k !in ks {
      assert forall i :: 0 <= i < |ks| ==> ks[i] != k;
    }
  }

  /** The order after a `remove`: every other key in its place. */
  function Remove<K(==)>(ks: seq<K>, k: K): (r: seq<K>)
    ensures |r| <= |ks|
  {
    if ks == [] then []
    else Remove(ks[..|ks| - 1], k) + (if ks[|ks| - 1] == k then [] else [ks[|ks| - 1]])
  }

  lemma {:induction false} RemoveSpec<K(!new)>(ks: seq<K>, k: K)
    ensures forall x :: x in Remove(ks, k) <==> x in ks && x != k
    ensures Distinct(ks) ==> Distinct(Remove(ks, k))
    ensures k !in ks ==> Remove(ks, k) == ks
  {
    if ks != [] {
      var init, last := ks[..|ks| - 1], ks[|ks| - 1];
      RemoveSpec(init, k);
      assert ks == init + [last];
      if Distinct(ks) {
        assert Distinct(init);
        assert last !in init by {
          forall i | 0 <= i < |init| ensures init[i] != last {
            assert ks[i] == init[i];
          }
        }
      }
    }
  }

  lemma RemoveEnumerates<K(!new)>(ks: seq<K>, keys: set<K>, k: K)
    requires Enumerates(ks, keys)
    ensures Enumerates(Remove(ks, k), keys - {k})
  {
    RemoveSpec(ks, k);
    var r := Remove(ks, k);
    forall i | 0 <= i < |r| ensures r[i] in keys - {k} {
      var x := r[i];
      assert x in Remove(ks, k);
      assert x in ks;
    }
  }

  /** The keys of `ks` that `keep` accepts, in their order: a `filter`. */
  function Where<K(!new)>(ks: seq<K>, keep: K -> bool): (r: seq<K>)
    ensures |r| <= |ks|
    ensures forall x :: x in r <==> x in ks && keep(x)
  {
    if ks == [] then []
    else Where(ks[..|ks| - 1], keep) + (if keep(ks[|ks| - 1]) then [ks[|ks| - 1]] else [])
  }

  /** Filtering a listing of distinct keys lists the kept keys once each. */
  lemma {:induction false} WhereEnumerates<K(!new)>(ks: seq<K>, keys: set<K>, keep: K -> bool, kept: set<K>)
    requires Enumerates(ks, keys)
    requires forall k :: k in kept <==> k in keys && keep(k)
    ensures Enumerates(Where(ks, keep), kept)
  {
    if ks != [] {
      var init, last := ks[..|ks| - 1], ks[|ks| - 1];
      assert ks == init + [last];
      assert last !in init by {
        forall i | 0 <= i < |init| ensures init[i] != last {
          assert ks[i] == init[i];
        }
      }
      forall k | k in keys - {last} ensures k in init {
        var i :| 0 <= i < |ks| && ks[i] == k;
        assert i < |init|;
      }
      WhereEnumerates(init, keys - {last}, keep, kept - {last});
      var w := Where(init, keep);
      if keep(last) {
        forall i, j | 0 <= i < j < |w| + 1 ensures (w + [last])[i] != (w + [last])[j] {
          if j == |w| {
            assert (w + [last])[i] == w[i] && w[i] in w;
          } else {
            assert (w + [last])[i] == w[i] && (w + [last])[j] == w[j];
          }
        }
      }
    }
  }

  /** The values stored under `ks`, in their order. */
  function ValuesAt<K, V>(ks: seq<K>, m: map<K, V>): (r: seq<V>)
    requires forall i :: 0 <= i < |ks| ==> ks[i] in m
    ensures |r| == |ks| && forall i :: 0 <= i < |ks| ==> r[i] == m[ks[i]]
  {
    if ks == [] then [] else ValuesAt(ks[..|ks| - 1], m) + [m[ks[|ks| - 1]]]
  }

  /** A listing of distinct keys is as long as the key set is large. */
  lemma {:induction false} EnumeratesSize<K(!new)>(ks: seq<K>, keys: set<K>)
    requires Enumerates(ks, keys)
    ensures |keys| == |ks|
  {
    if ks != [] {
      var init, last := ks[..|ks| - 1], ks[|ks| - 1];
      assert ks == init + [last];
      assert last !in init by {
        forall i | 0 <= i < |init| ensures init[i] != last {
          assert ks[i] == init[i];
        }
      }
      forall k | k in keys - {last} ensures k in init {
        assert k in ks;
        var i :| 0 <= i < |ks| && ks[i] == k;
        assert i < |init|;
      }
      EnumeratesSize(init, keys - {last});
    }
  }

  /** A key occurs at most once in a listing of distinct keys. */
  lemma {:induction false} DistinctOnce<K>(ks: seq<K>, x: K)
    requires Distinct(ks)
    ensures multiset(ks)[x] <= 1
  {
    if ks != [] {
      var init, last := ks[..|ks| - 1], ks[|ks| - 1];
      assert ks == init + [last];
      DistinctOnce(init, x);
      if last == x {
        assert x !in init by {
          forall i | 0 <= i < |init| ensures init[i] != last {
            assert ks[i] == init[i];
          }
        }
      }
    }
  }

  lemma Twice<K>(s: seq<K>, i: nat, j: nat)
    requires i < j < |s| && s[i] == s[j]
    ensures multiset(s)[s[i]] >= 2
  {
    assert s == s[..j] + s[j..];
    assert s[i] in s[..j] && s[j] in s[j..];
  }

  /** A rearrangement of distinct keys lists the same keys. */
  lemma Rearranged<K(!new)>(ks: seq<K>, rs: seq<K>, keys: set<K>)
    requires Enumerates(ks, keys) && multiset(rs) == multiset(ks)
    ensures Enumerates(rs, keys)
  {
    forall i, j | 0 <= i < j < |rs| ensures rs[i] != rs[j] {
      if rs[i] == rs[j] {
        Twice(rs, i, j);
        DistinctOnce(ks, rs[i]);
      }
    }
    forall i | 0 <= i < |rs| ensures rs[i] in keys {
      assert rs[i] in multiset(ks);
    }
    forall k | k in keys ensures k in rs {
      assert k in multiset(ks);
    }
  }
}
