/**
 Lookup tables the program fills from slices, keyed by ID: `for _, s := range xs
 { m[s.ID] = f(s) }`. When two records share an ID the last one wins.
 */
module Tables {

  function LastWins<K(==, !new), V>(keys: seq<K>, vals: seq<V>): (m: map<K, V>)
    requires |keys| == |vals|
    ensures forall k :: k in m <==> k in keys
  {
    if keys == [] then map[]
    else
      var n := |keys| - 1;
      assert keys == keys[..n] + [keys[n]];
      LastWins(keys[..n], vals[..n])[keys[n] := vals[n]]
  }

  ghost predicate IsLastIndex<K>(keys: seq<K>, k: K, i: nat) {
    i < |keys| && keys[i] == k && forall j :: i < j < |keys| ==> keys[j] != k
  }

  /** A table entry comes from the last record with its key. */
  lemma {:induction false} LastWinsAt<K(!new), V>(keys: seq<K>, vals: seq<V>, k: K) returns (i: nat)
    requires |keys| == |vals| && k in keys
    ensures IsLastIndex(keys, k, i) && LastWins(keys, vals)[k] == vals[i]
    decreases |keys|
  {
    var n := |keys| - 1;
    if keys[n] == k {
      i := n;
    } else {
      assert keys == keys[..n] + [keys[n]];
      i := LastWinsAt(keys[..n], vals[..n], k);
      assert forall j :: i < j < n ==> keys[..n][j] != k;
    }
  }

  ghost predicate Distinct<K>(keys: seq<K>) {
    forall i, j :: 0 <= i < j < |keys| ==> keys[i] != keys[j]
  }

  ghost function Members<V>(s: seq<V>): set<V> {
    set x | x in s
  }

  lemma {:induction false} DistinctSize<V>(s: seq<V>)
    requires Distinct(s)
    ensures |Members(s)| == |s|
    decreases |s|
  {
    if s != [] {
      var n := |s| - 1;
      DistinctSize(s[..n]);
      assert s == s[..n] + [s[n]];
      assert Members(s) == Members(s[..n]) + {s[n]};
      assert s[n] !in s[..n];
    } else {
      assert Members(s) == {};
    }
  }

  lemma DistinctConcat<K(!new)>(a: seq<K>, b: seq<K>)
    requires Distinct(a) && Distinct(b) && forall x :: x in b ==> x !in a
    ensures Distinct(a + b)
  {
    var c := a + b;
    forall i, j | 0 <= i < j < |c| ensures c[i] != c[j] {
      if i < |a| <= j {
        assert c[j] in b;
      }
    }
  }

  /** With distinct keys every record is its own entry. */
  lemma DistinctAt<K(!new), V>(keys: seq<K>, vals: seq<V>, i: nat)
    requires |keys| == |vals| && Distinct(keys) && i < |keys|
    ensures keys[i] in LastWins(keys, vals) && LastWins(keys, vals)[keys[i]] == vals[i]
  {
    var j := LastWinsAt(keys, vals, keys[i]);
    assert j == i;
  }

  /** Filling a table in slice order. */
  method Tabulate<K(==, !new), V>(keys: seq<K>, vals: seq<V>) returns (m: map<K, V>)
    requires |keys| == |vals|
    ensures m == LastWins(keys, vals)
  {
    m := map[];
    for i := 0 to |keys|
      invariant m == LastWins(keys[..i], vals[..i])
    {
      m := m[keys[i] := vals[i]];
      assert keys[..i + 1][..i] == keys[..i] && vals[..i + 1][..i] == vals[..i];
    }
    assert keys[..|keys|] == keys && vals[..|vals|] == vals;
  }

  lemma HeadOrTail<V(!new)>(s: seq<V>)
    requires |s| > 0
    ensures forall x :: x in s <==> x == s[0] || x in s[1..]
  {
    assert s == [s[0]] + s[1..];
  }

  lemma PrefixGrows<V(!new)>(s: seq<V>, k: nat)
    requires k < |s|
    ensures s[..k + 1] == s[..k] + [s[k]]
    ensures forall x :: x in s[..k + 1] <==> x in s[..k] || x == s[k]
  {
  }
}
