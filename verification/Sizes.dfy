/** Sizes of ranges, of sequences without repetition and of the values of one-to-one maps. */
module Sizes {

  ghost function Range(n: nat): (r: set<int>)
    ensures forall i :: i in r <==> 0 <= i < n
    ensures |r| == n
  {
    if n == 0 then {} else Range(n - 1) + {n - 1}
  }

  lemma {:induction false} DistinctSize<T>(s: seq<T>)
    requires forall i, j :: 0 <= i < j < |s| ==> s[i] != s[j]
    ensures |set x | x in s| == |s|
  {
    if s != [] {
      var last := |s| - 1;
      DistinctSize(s[..last]);
      assert (set x | x in s) == (set x | x in s[..last]) + {s[last]};
    }
  }

  /** A one-to-one map has as many values as keys. */
  lemma {:induction false} ValuesSize<K, V>(m: map<K, V>)
    requires forall x, y :: x in m && y in m && x != y ==> m[x] != m[y]
    ensures |m.Values| == |m|
    decreases |m|
  {
    if |m| == 0 {
      assert m.Values == {};
    } else {
      var k :| k in m;
      var rest := m - {k};
      assert rest.Keys == m.Keys - {k} && |rest.Keys| == |rest| && |m.Keys| == |m|;
      ValuesSize(rest);
      assert m.Values == rest.Values + {m[k]} by {
        forall v
          ensures v in m.Values <==> v in rest.Values + {m[k]}
        {
          if v in m.Values && v != m[k] {
            var j :| j in m && m[j] == v;
            assert j in rest && rest[j] == v;
          }
          if v in rest.Values {
            var j :| j in rest && rest[j] == v;
            assert j in m && m[j] == v;
          }
        }
      }
      forall v | v in rest.Values
        ensures v != m[k]
      {
        var j :| j in rest && rest[j] == v;
        assert j in m && m[j] == v;
      }
    }
  }

  lemma SubsetFull<T>(a: set<T>, b: set<T>)
    requires a <= b && |a| == |b|
    ensures a == b
  {
    assert |b - a| == |b| - |a|;
    assert b == a + (b - a);
  }

  lemma KeyOf<K, V>(m: map<K, V>, v: V) returns (k: K)
    requires v in m.Values
    ensures k in m && m[k] == v
  {
    k :| k in m && m[k] == v;
  }

  /** A one-to-one map into a set of the same size reaches all of it. */
  lemma ReachesAll<K, V>(m: map<K, V>, s: set<V>)
    requires forall x, y :: x in m && y in m && x != y ==> m[x] != m[y]
    requires (forall k :: k in m ==> m[k] in s) && |m| == |s|
    ensures m.Values == s
  {
    ValuesSize(m);
    SubsetFull(m.Values, s);
  }

  lemma SubsetSize<T>(a: set<T>, b: set<T>)
    requires a <= b
    ensures |a| <= |b|
  {
    assert b == a + (b - a);
  }
}
