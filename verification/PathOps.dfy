/** The path to a name grown into a tree and pruned from it again, and what that does to
    the claims: the meaning the overlay cache has to reproduce. */
module PathOps {
  import opened ClaimTypes
  import opened NameTree

  ghost function ClaimsAt(t: Tree, p: Name): seq<ClaimValue>
  {
    if p in t then t[p].claims else []
  }

  lemma ClosedView(t: Tree)
    requires Closed(t)
    ensures View(t) == t
  {
  }

  lemma ClosedWithChild(t: Tree, p: Name, c: Byte)
    requires Closed(t) && p in t && c !in t[p].children
    ensures Closed(WithChild(t, p, c))
  {
    AddChildLinked(t, p, c);
  }

  lemma ClosedWith(t: Tree, p: Name, n: Node)
    requires Closed(t) && p in t && n.children == t[p].children
    ensures Closed(t[p := n])
  {
    SetNode(t, p, n);
  }

  /** The first k steps of the path to a name, created where missing. */
  ghost function GrowPath(t: Tree, name: Name, k: nat): (r: Tree)
    requires Closed(t) && k <= |name|
    ensures Closed(r) && name[..k] in r
  {
    if k == 0 then t
    else
      var u := GrowPath(t, name, k - 1);
      var p := name[..k - 1];
      assert Child(p, name[k - 1]) == name[..k];
      if name[k - 1] in u[p].children then u
      else ClosedWithChild(u, p, name[k - 1]); WithChild(u, p, name[k - 1])
  }

  lemma PrefixStep(q: Name, name: Name, k: nat)
    requires 0 < k <= |name|
    ensures q <= name[..k] <==> q <= name[..k - 1] || q == name[..k]
  {
    if q <= name[..k] && |q| < k {
      assert q == name[..k][..|q|] == name[..k - 1][..|q|];
    }
    if q <= name[..k - 1] {
      assert name[..k - 1] == name[..k][..k - 1];
    }
  }

  /** Growing a path adds its prefixes and touches nothing off the path. */
  lemma {:induction false} GrowPathNodes(t: Tree, name: Name, k: nat, q: Name)
    requires Closed(t) && k <= |name|
    ensures q in GrowPath(t, name, k) <==> q in t || q <= name[..k]
    ensures q in t && !(q <= name[..k]) ==> GrowPath(t, name, k)[q] == t[q]
  {
    hide Closed;
    if k > 0 {
      GrowPathNodes(t, name, k - 1, q);
      PrefixStep(q, name, k);
      assert Child(name[..k - 1], name[k - 1]) == name[..k];
      assert name[..k - 1] <= name[..k];
    }
  }

  /** It touches no claims, hashes or takeover heights, and new nodes are blank. */
  lemma {:induction false} GrowPathAt(t: Tree, name: Name, k: nat, q: Name)
    requires Closed(t) && k <= |name|
    ensures ClaimsAt(GrowPath(t, name, k), q) == ClaimsAt(t, q)
    ensures q in t ==> q in GrowPath(t, name, k)
                       && GrowPath(t, name, k)[q].hash == t[q].hash
                       && GrowPath(t, name, k)[q].nHeightOfLastTakeover == t[q].nHeightOfLastTakeover
    ensures q !in t && q in GrowPath(t, name, k) ==> GrowPath(t, name, k)[q].hash == NULL_DIGEST
  {
    hide Closed;
    if k > 0 {
      GrowPathAt(t, name, k - 1, q);
      var u := GrowPath(t, name, k - 1);
      if name[k - 1] !in u[name[..k - 1]].children {
        ClosedNoChild(u, name[..k - 1], name[k - 1]);
      }
    }
  }

  lemma ClosedNoChild(t: Tree, p: Name, c: Byte)
    requires Closed(t) && p in t && c !in t[p].children
    ensures Child(p, c) !in t
  {
    assert Child(p, c) in t ==> Live(t, Child(p, c));
  }

  ghost function Cut(t: Tree, p: Name, c: Byte): Tree
    requires p in t
  {
    (t - {Child(p, c)})[p := t[p].Without(c)]
  }

  lemma ClosedCut(t: Tree, p: Name, c: Byte)
    requires Closed(t) && p in t && c in t[p].children && t[Child(p, c)].children == {}
    ensures Closed(Cut(t, p, c))
  {
    CutLeaf(t, Cut(t, p, c), p, c);
  }

  lemma ClosedHas(t: Tree, name: Name, k: nat)
    requires Closed(t) && name in t && k <= |name|
    ensures name[..k] in t
        && (k < |name| ==> name[k] in t[name[..k]].children && Child(name[..k], name[k]) == name[..k + 1])
  {
    LivePrefix(t, name, k);
  }

  /** The tree once every empty node on the path below depth k has been cut off. */
  ghost function PruneTo(t: Tree, name: Name, k: nat): (r: Tree)
    requires Closed(t) && name in t && k <= |name|
    ensures Closed(r) && name[..k] in r
    ensures k < |name| && name[..k + 1] in r ==> name[k] in r[name[..k]].children
    decreases |name| - k
  {
    ClosedHas(t, name, k);
    if k == |name| then t
    else
      var u := PruneTo(t, name, k + 1);
      ClosedHas(u, name[..k + 1], k);
      assert name[..k + 1][..k] == name[..k];
      if u[name[..k + 1]].Empty() then ClosedCut(u, name[..k], name[k]); Cut(u, name[..k], name[k]) else u
  }

  lemma {:induction false} PruneToAt(t: Tree, name: Name, k: nat, q: Name)
    requires Closed(t) && name in t && k <= |name|
    ensures q in PruneTo(t, name, k) ==> q in t
    ensures q in t && !(q <= name) ==> q in PruneTo(t, name, k) && PruneTo(t, name, k)[q] == t[q]
    ensures q in t && |q| < k ==> q in PruneTo(t, name, k) && PruneTo(t, name, k)[q] == t[q]
    ensures ClaimsAt(PruneTo(t, name, k), q) == ClaimsAt(t, q)
    ensures q in PruneTo(t, name, k) ==>
              && PruneTo(t, name, k)[q].hash == t[q].hash
              && PruneTo(t, name, k)[q].nHeightOfLastTakeover == t[q].nHeightOfLastTakeover
    decreases |name| - k
  {
    if k < |name| {
      PruneToAt(t, name, k + 1, q);
      var u := PruneTo(t, name, k + 1);
      ClosedHas(u, name[..k + 1], k);
      assert name[..k + 1][..k] == name[..k];
    }
  }

  /** Only the end of the path may be empty before, and only depth k after. */
  lemma {:induction false} PruneToPruned(t: Tree, name: Name, k: nat)
    requires Closed(t) && name in t && k <= |name|
    requires forall q :: q in t && q != [] && q != name ==> !t[q].Empty()
    ensures forall q :: q in PruneTo(t, name, k) && q != [] && q != name[..k] ==> !PruneTo(t, name, k)[q].Empty()
    decreases |name| - k
  {
    if k == |name| {
      assert name[..k] == name;
    } else {
      PruneToPruned(t, name, k + 1);
      var u := PruneTo(t, name, k + 1);
      ClosedHas(u, name[..k + 1], k);
      assert name[..k + 1][..k] == name[..k];
    }
  }

  // ---------- inserting and removing a claim ----------

  datatype Option<T> = None | Some(value: T)

  /** The claims of a name after one more arrives: a lone claim is not reordered. */
  function Grown(heap: seq<ClaimValue> -> seq<ClaimValue>, claims: seq<ClaimValue>, claim: ClaimValue,
                 supports: seq<SupportValue>): seq<ClaimValue>
  {
    if claims == [] then [claim] else Reordered(heap, claims + [claim], supports)
  }

  /** Where a claim with this outpoint first stands, or the length of the list. */
  function FindOutPoint(claims: seq<ClaimValue>, outPoint: OutPoint): (k: nat)
    ensures k <= |claims|
    ensures k < |claims| ==> claims[k].outPoint == outPoint
    ensures forall i :: 0 <= i < k ==> claims[i].outPoint != outPoint
  {
    if claims == [] || claims[0].outPoint == outPoint then 0 else 1 + FindOutPoint(claims[1..], outPoint)
  }

  /** The claims of a name after the claim with this outpoint, if any, leaves. */
  function Shrunk(heap: seq<ClaimValue> -> seq<ClaimValue>, claims: seq<ClaimValue>, outPoint: OutPoint,
                  supports: seq<SupportValue>): seq<ClaimValue>
  {
    var k := FindOutPoint(claims, outPoint);
    var rest := if k < |claims| then claims[..k] + claims[k + 1..] else claims;
    if rest == [] then [] else Reordered(heap, rest, supports)
  }

  /** Whether the claim in front is no longer the one it was. */
  predicate TopChanged(before: seq<ClaimValue>, after: seq<ClaimValue>)
  {
    before == [] || after == [] || Plain(before[0]) != Plain(after[0])
  }

  ghost function Prefixes(name: Name): set<Name>
  {
    set k | 0 <= k <= |name| :: name[..k]
  }

  lemma InPrefixes(name: Name, q: Name)
    ensures q in Prefixes(name) <==> q <= name
  {
    if q <= name {
      assert name[..|q|] == q;
    }
  }

  /** The view after an insertion. */
  ghost function Inserted(t: Tree, name: Name, claims: seq<ClaimValue>): (r: Tree)
    requires Closed(t)
    ensures Closed(r)
  {
    assert name[..|name|] == name;
    var u := GrowPath(t, name, |name|);
    ClosedWith(u, name, u[name].(claims := claims));
    u[name := u[name].(claims := claims)]
  }

  /** The view after a removal. */
  ghost function Removed(t: Tree, name: Name, claims: seq<ClaimValue>): (r: Tree)
    requires Closed(t) && name in t
    ensures Closed(r)
  {
    ClosedWith(t, name, t[name].(claims := claims));
    PruneTo(t[name := t[name].(claims := claims)], name, 0)
  }

  ghost function AfterInsert(heap: seq<ClaimValue> -> seq<ClaimValue>, supports: seq<SupportValue>,
                             t: Tree, name: Name, claim: ClaimValue): (r: Tree)
    requires Closed(t)
    ensures Closed(r)
  {
    Inserted(t, name, Grown(heap, ClaimsAt(t, name), claim, supports))
  }

  /** A removal that finds nothing reorders the claims it looked through. */
  ghost function AfterRemove(heap: seq<ClaimValue> -> seq<ClaimValue>, supports: seq<SupportValue>,
                             t: Tree, name: Name, outPoint: OutPoint): (r: Tree)
    requires Closed(t)
    ensures Closed(r)
  {
    var before := ClaimsAt(t, name);
    var after := Shrunk(heap, before, outPoint, supports);
    if before == [] then t
    else if FindOutPoint(before, outPoint) < |before| then Removed(t, name, after)
    else ClosedWith(t, name, t[name].(claims := after)); t[name := t[name].(claims := after)]
  }

  lemma InsertedAt(t: Tree, name: Name, claims: seq<ClaimValue>, q: Name)
    requires Closed(t)
    ensures q in Inserted(t, name, claims) <==> q in t || q <= name
    ensures q in t && !(q <= name) ==> Inserted(t, name, claims)[q] == t[q]
    ensures ClaimsAt(Inserted(t, name, claims), q) == if q == name then claims else ClaimsAt(t, q)
    ensures q in t ==> Inserted(t, name, claims)[q].hash == t[q].hash
                       && Inserted(t, name, claims)[q].nHeightOfLastTakeover == t[q].nHeightOfLastTakeover
    ensures q !in t && q <= name ==> Inserted(t, name, claims)[q].hash == NULL_DIGEST
  {
    assert name[..|name|] == name;
    GrowPathNodes(t, name, |name|, q);
    GrowPathAt(t, name, |name|, q);
  }

  lemma InsertedPruned(t: Tree, name: Name, claims: seq<ClaimValue>)
    requires Closed(t) && Pruned(t) && claims != []
    ensures Pruned(Inserted(t, name, claims))
  {
    var r := Inserted(t, name, claims);
    forall q | q in r && q != []
      ensures !r[q].Empty()
    {
      InsertedAt(t, name, claims, q);
      InsertedAt(t, name, claims, name);
      if q <= name && q != name {
        assert name[..|q|] == q;
        ClosedHas(r, name, |q|);
      }
    }
  }

  lemma StillPruned(t: Tree, name: Name, claims: seq<ClaimValue>)
    requires Closed(t) && Pruned(t) && name in t && claims != []
    ensures Closed(t[name := t[name].(claims := claims)]) && Pruned(t[name := t[name].(claims := claims)])
  {
    ClosedWith(t, name, t[name].(claims := claims));
  }

  lemma RemovedAt(t: Tree, name: Name, claims: seq<ClaimValue>, q: Name)
    requires Closed(t) && name in t
    ensures q in Removed(t, name, claims) ==> q in t
    ensures q in t && !(q <= name) ==> q in Removed(t, name, claims) && Removed(t, name, claims)[q] == t[q]
    ensures ClaimsAt(Removed(t, name, claims), q) == if q == name then claims else ClaimsAt(t, q)
    ensures q in Removed(t, name, claims) ==>
              && Removed(t, name, claims)[q].hash == t[q].hash
              && Removed(t, name, claims)[q].nHeightOfLastTakeover == t[q].nHeightOfLastTakeover
  {
    ClosedWith(t, name, t[name].(claims := claims));
    PruneToAt(t[name := t[name].(claims := claims)], name, 0, q);
  }

  lemma RemovedPruned(t: Tree, name: Name, claims: seq<ClaimValue>)
    requires Closed(t) && Pruned(t) && name in t
    ensures Pruned(Removed(t, name, claims))
  {
    ClosedWith(t, name, t[name].(claims := claims));
    PruneToPruned(t[name := t[name].(claims := claims)], name, 0);
  }

  // ---------- the node set is determined by the claims ----------

  lemma NamesBelow(t: Tree, p: Name, n: nat)
    requires Closed(t) && Pruned(t) && p in t && (p != [] || t[p].claims != [])
    requires n == |(set q | q in t && p <= q)|
    ensures exists q :: q in t && p <= q && t[q].claims != []
    decreases n
  {
    if t[p].claims == [] {
      var c :| c in t[p].children;
      var d := Child(p, c);
      assert d in t;
      var below, above := set q | q in t && d <= q, set q | q in t && p <= q;
      assert below <= above by {
        forall q | q in below
          ensures q in above
        {
          assert p == d[..|p|] == q[..|p|];
        }
      }
      assert p in above && p !in below;
      assert below < above;
      ProperSubsetSmaller(below, above);
      NamesBelow(t, d, |below|);
      var q :| q in t && d <= q && t[q].claims != [];
      assert q in above;
    } else {
      assert p <= p;
    }
  }

  lemma {:induction false} ProperSubsetSmaller<T>(a: set<T>, b: set<T>)
    requires a < b
    ensures |a| < |b|
  {
    if a != {} {
      var x :| x in a;
      ProperSubsetSmaller(a - {x}, b - {x});
    } else {
      assert b != {};
    }
  }

  /** A pruned trie has exactly the root and the prefixes of the names that hold claims. */
  lemma NodesArePrefixes(t: Tree, p: Name)
    requires Closed(t) && Pruned(t)
    ensures p in t <==> p == [] || exists q :: q in t && t[q].claims != [] && p <= q
  {
    if p in t && p != [] {
      NamesBelow(t, p, |(set q | q in t && p <= q)|);
    }
    if q :| q in t && t[q].claims != [] && p <= q {
      assert q[..|p|] == p;
      ClosedHas(t, q, |p|);
    }
  }
}
