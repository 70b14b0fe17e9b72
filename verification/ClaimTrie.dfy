/** The claim trie a cache is laid over and flushed into. */
module ClaimTries {
  import opened ClaimTypes
  import opened NameTree
  import opened PathOps
  import opened Overlay
  import opened TrieHash
  import opened Flushing
  import opened ClaimLedger

  /** Shorter names first, equally long ones in byte order. */
  predicate NodeNameLess(i: Name, j: Name)
  {
    if |i| == |j| then BytesLess(i, j) else |i| < |j|
  }

  lemma NodeNameLessOrder(i: Name, j: Name, k: Name)
    ensures NodeNameLess(i, j) || NodeNameLess(j, i) || i == j
    ensures NodeNameLess(i, j) && NodeNameLess(j, k) ==> NodeNameLess(i, k)
  {
    BytesLessTotal(i, j);
    if BytesLess(i, j) && BytesLess(j, k) {
      BytesLessTransitive(i, j, k);
    }
  }

  lemma FirstOfMore(rest: set<Name>, n: Name, x: Name)
    requires n in rest && x !in rest && forall q :: q in rest && q != n ==> NodeNameLess(n, q)
    ensures exists m :: m in rest + {x} && forall q :: q in rest + {x} && q != m ==> NodeNameLess(m, q)
  {
    hide NodeNameLess;
    NodeNameLessOrder(n, x, x);
    var first := if NodeNameLess(n, x) then n else x;
    forall q | q in rest + {x} && q != first
      ensures NodeNameLess(first, q)
    {
      if q != x {
        NodeNameLessOrder(x, n, q);
      }
    }
    assert first in rest + {x};
  }

  lemma {:induction false} FirstName(names: set<Name>)
    requires names != {}
    ensures exists n :: n in names && forall q :: q in names && q != n ==> NodeNameLess(n, q)
    decreases |names|
  {
    hide NodeNameLess;
    var x :| x in names;
    var rest := names - {x};
    assert names == rest + {x};
    if rest != {} {
      FirstName(rest);
      var n :| n in rest && forall q :: q in rest && q != n ==> NodeNameLess(n, q);
      FirstOfMore(rest, n, x);
    }
  }

  /** The height a node itself holds. */
  ghost function OwnHeights(t: Tree): Name -> int
  {
    name => if name in t then t[name].nHeightOfLastTakeover else 0
  }

  /** Every hash at or below p is the one computed from scratch. */
  ghost predicate ConsistentBelow(h: HashFn, t: Tree, p: Name)
    requires Closed(t)
  {
    forall q :: q in t && p <= q ==> t[q].hash == NodeHash(h, OwnHeights(t), t, q)
  }

  lemma ConsistentChild(h: HashFn, t: Tree, p: Name, c: Byte)
    requires Closed(t)
    ensures ConsistentBelow(h, t, p) ==> ConsistentBelow(h, t, Child(p, c))
  {
    hide Closed, NodeHash;
    forall q | q in t && Child(p, c) <= q
      ensures p <= q
    {
      assert p <= Child(p, c);
      PrefixTransitive(p, Child(p, c), q);
    }
  }

  lemma ConsistentNode(h: HashFn, t: Tree, p: Name)
    requires Closed(t) && p in t
    requires forall c: Byte :: c in t[p].children ==> ConsistentBelow(h, t, Child(p, c))
    ensures ConsistentBelow(h, t, p) <==> t[p].hash == NodeHash(h, OwnHeights(t), t, p)
  {
    hide Closed, NodeHash;
    assert p <= p;
    forall q | q in t && p <= q && q != p
      ensures t[q].hash == NodeHash(h, OwnHeights(t), t, q)
    {
      ClosedHas(t, q, |p|);
      assert q[..|p|] == p && q[..|p| + 1] == Child(p, q[|p|]) && Child(p, q[|p|]) <= q;
    }
  }

  /** A trie with nodes below p taken out. */
  ghost predicate AgreesBelow(t: Tree, full: Tree, p: Name)
  {
    && (forall q :: q in t && p <= q ==> q in full && t[q] == full[q])
    && (forall q :: q in full && p <= q ==> q in t)
  }

  /** Cutting one child's nodes leaves those of the next as they were. */
  lemma AgreesAfter(t: Tree, full: Tree, p: Name, c: Byte, d: Byte)
    requires AgreesBelow(t, full, Child(p, d)) && c != d
    ensures AgreesBelow(t - Below(full, Child(p, c)), full, Child(p, d))
  {
    forall q | (q in t || q in full) && Child(p, d) <= q
      ensures !(Child(p, c) <= q)
    {
      SiblingsApart(p, d, c, q);
    }
  }

  lemma AgreesOnChild(t: Tree, full: Tree, p: Name, c: Byte)
    requires AgreesBelow(t, full, p)
    ensures AgreesBelow(t, full, Child(p, c))
  {
    forall q | (q in t || q in full) && Child(p, c) <= q
      ensures p <= q
    {
      assert p <= Child(p, c);
      PrefixTransitive(p, Child(p, c), q);
    }
  }

  /** What lies below p through a child before c. */
  ghost function BelowUpTo(t: Tree, p: Name, c: nat): set<Name>
  {
    set q | q in t && p <= q && |p| < |q| && q[|p|] < c
  }

  lemma BelowNext(t: Tree, p: Name, c: Byte)
    requires Closed(t) && p in t
    ensures BelowUpTo(t, p, c + 1) == BelowUpTo(t, p, c) + (if c in t[p].children then Below(t, Child(p, c)) else {})
  {
    hide Closed;
    forall q | q in t
      ensures (p <= q && |p| < |q| && q[|p|] == c) <==> (c in t[p].children && Child(p, c) <= q)
    {
      if p <= q && |p| < |q| {
        ClosedHas(t, q, |p|);
        assert q[..|p|] == p && q[..|p| + 1] == Child(p, q[|p|]);
      }
      if Child(p, c) <= q {
        assert p == Child(p, c)[..|p|] == q[..|p|] && q[|p|] == Child(p, c)[|p|];
      }
    }
  }

  lemma BelowAll(t: Tree, p: Name)
    ensures Below(t, p) == BelowUpTo(t, p, 256) + (if p in t then {p} else {})
  {
    assert p <= p;
    forall q | q in t && p <= q
      ensures q == p || |p| < |q|
    {
      if |p| == |q| {
        assert q == q[..|p|];
      }
    }
  }

  /** A node being written: its claims are taken over, and of the children to drop those
      before c are gone. */
  ghost function DroppedUpTo(u: Tree, name: Name, n: Node, c: nat): Tree
    requires name in u
  {
    map q | q in u && !(Dropped(name, n.children, q) && q[|name|] < c) ::
      if q == name then
        Node(u[q].hash, u[q].children - (set d: Byte | d in u[q].children && d !in n.children && d < c),
             u[q].nHeightOfLastTakeover, n.claims)
      else u[q]
  }

  lemma DropNothing(u: Tree, name: Name, n: Node)
    requires name in u
    ensures DroppedUpTo(u, name, n, 0)
            == u[name := Node(u[name].hash, u[name].children, u[name].nHeightOfLastTakeover, n.claims)]
  {
    assert (set d: Byte | d in u[name].children && d !in n.children && d < 0) == {};
    assert u[name].children - {} == u[name].children;
  }

  lemma LostChildren(mine: set<Byte>, kept: set<Byte>)
    ensures mine - (set d: Byte | d in mine && d !in kept && d < 256) == mine * kept
  {
  }

  /** Every byte is below 256. */
  lemma DroppedBytes(u: Tree, name: Name, n: Node)
    ensures forall q :: q in u && Dropped(name, n.children, q) ==> |name| < |q| && q[|name|] < 256
  {
  }

  lemma DropAll(t: Tree, name: Name, n: Node)
    requires Closed(t) && (name in t || (name != [] && Parent(name) in t))
    ensures name in Ensured(t, name)
    ensures DroppedUpTo(Ensured(t, name), name, n, 256) == Updated(t, name, n)
  {
    hide Closed, Dropped;
    EnsuredClosed(t, name);
    hide Ensured;
    LostChildren(Ensured(t, name)[name].children, n.children);
    DroppedBytes(Ensured(t, name), name, n);
  }

  lemma DropKept(u: Tree, name: Name, n: Node, c: Byte)
    requires Closed(u) && name in u && (c !in u[name].children || c in n.children)
    ensures DroppedUpTo(u, name, n, c + 1) == DroppedUpTo(u, name, n, c)
  {
    hide Closed;
    forall q | q in u && Dropped(name, n.children, q)
      ensures q[|name|] != c
    {
      ClosedHas(u, q, |name|);
      assert q[..|name|] == name;
    }
    var a := set d: Byte | d in u[name].children && d !in n.children && d < c + 1;
    var b := set d: Byte | d in u[name].children && d !in n.children && d < c;
    assert a == b;
  }

  lemma DropStep(u: Tree, name: Name, n: Node, c: Byte)
    requires Closed(u) && name in u && c in u[name].children && c !in n.children
    ensures Child(name, c) in u
    ensures var t := DroppedUpTo(u, name, n, c);
            && AgreesBelow(t, u, Child(name, c)) && name in t && name !in Below(u, Child(name, c))
            && DroppedUpTo(u, name, n, c + 1)
               == (t - Below(u, Child(name, c)))[name := t[name].Without(c)]
  {
    hide Closed;
    ClosedChild(u, name, c);
    forall q | q in u
      ensures Child(name, c) <= q <==> |name| < |q| && name <= q && q[|name|] == c
    {
      BelowThrough(name, c, q);
    }
    var a := set d: Byte | d in u[name].children && d !in n.children && d < c + 1;
    var b := set d: Byte | d in u[name].children && d !in n.children && d < c;
    assert a == b + {c};
    assert u[name].children - a == u[name].children - b - {c};
  }

  lemma BelowThrough(p: Name, c: Byte, q: Name)
    ensures Child(p, c) <= q <==> |p| < |q| && p <= q && q[|p|] == c
  {
    if Child(p, c) <= q {
      assert p == Child(p, c)[..|p|] == q[..|p|] && q[|p|] == Child(p, c)[|p|];
    }
    if |p| < |q| && p <= q && q[|p|] == c {
      assert q[..|p| + 1] == Child(p, c);
    }
  }

  // ---------- hashes and takeover heights written ----------

  ghost function Hashed(t: Tree, hashes: map<Name, Digest>): Tree
  {
    map p | p in t :: if p in hashes then Node(hashes[p], t[p].children, t[p].nHeightOfLastTakeover, t[p].claims)
        else t[p]
  }

  ghost function Heighted(t: Tree, heights: map<Name, int>): Tree
  {
    map p | p in t :: if p in heights then Node(t[p].hash, t[p].children, heights[p], t[p].claims) else t[p]
  }

  lemma {:induction false} ContentLive(t: Tree, u: Tree, p: Name)
    requires SameContent(t, u)
    ensures Live(t, p) <==> Live(u, p)
    decreases |p|
  {
    if p != [] {
      ContentLive(t, u, Parent(p));
    }
  }

  lemma ContentClosed(t: Tree, u: Tree)
    requires SameContent(t, u) && Closed(t)
    ensures Closed(u) && (Pruned(t) ==> Pruned(u))
  {
    forall p
      ensures Live(t, p) <==> Live(u, p)
    {
      ContentLive(t, u, p);
    }
  }

  lemma ContentHash(h: HashFn, tk: Name -> int, t: Tree, u: Tree, p: Name)
    requires SameContent(t, u) && Closed(t) && Closed(u) && p in t
    ensures NodeHash(h, tk, t, p) == NodeHash(h, tk, u, p)
  {
    hide Closed, NodeHash;
    assert SameBelow(t, u, p);
    NodeHashFrame(h, tk, t, u, p);
  }

  /** The trie after a whole cache is written, hashes and heights included. */
  ghost function Flushed(b: Tree, cache: Tree, hashes: map<Name, Digest>, heights: map<Name, int>): Tree
  {
    Heighted(Hashed(Written(b, cache, cache.Keys), hashes), heights)
  }

  lemma FlushedContent(b: Tree, cache: Tree, hashes: map<Name, Digest>, heights: map<Name, int>)
    requires Lays(b, cache)
    ensures SameContent(Shown(b, cache), Flushed(b, cache, hashes, heights))
    ensures Closed(Flushed(b, cache, hashes, heights))
    ensures Pruned(Shown(b, cache)) ==> Pruned(Flushed(b, cache, hashes, heights))
  {
    hide Closed, Lays, Shown, Written, Pruned;
    WrittenAll(b, cache);
    ShownClosed(b, cache);
    ContentClosed(Shown(b, cache), Flushed(b, cache, hashes, heights));
  }

  /** The takeover heights after a flush: those that were kept, else those of before. */
  ghost predicate HeightsWritten(b: Tree, heights: map<Name, int>, w: Tree)
  {
    forall p :: p in w ==>
      w[p].nHeightOfLastTakeover
      == if p in heights then heights[p] else if p in b then b[p].nHeightOfLastTakeover else 0
  }

  lemma FlushedRoot(b: Tree, cache: Tree, hashes: map<Name, Digest>, heights: map<Name, int>)
    requires Lays(b, cache)
    ensures [] in b && [] in Shown(b, cache) ==>
              && [] in Flushed(b, cache, hashes, heights)
              && Flushed(b, cache, hashes, heights)[[]].hash == if [] in hashes then hashes[[]] else b[[]].hash
  {
    hide Closed, Lays, Shown, Written;
    WrittenAll(b, cache);
  }

  lemma FlushedHeights(b: Tree, cache: Tree, hashes: map<Name, Digest>, heights: map<Name, int>)
    requires Lays(b, cache)
    ensures HeightsWritten(b, heights, Flushed(b, cache, hashes, heights))
  {
    hide Closed, Lays, Shown, Written;
    WrittenAll(b, cache);
  }

  /** With nothing left marked, every hash written is right. */
  lemma FlushedHash(h: HashFn, tk: Name -> int, b: Tree, cache: Tree, ch: map<Name, Digest>, heights: map<Name, int>,
                    dirty: set<Name>, p: Name)
    requires Lays(b, cache) && HashInv(h, tk, b, cache, ch, dirty)
    requires p in Shown(b, cache) && p !in dirty && !(p == [] && Shown(b, cache)[p].Empty())
    ensures var w := Flushed(b, cache, ch, heights);
            Closed(w) && p in w && w[p].hash == NodeHash(h, tk, w, p)
  {
    hide Closed, Lays, Shown, Written, NodeHash;
    FlushedContent(b, cache, ch, heights);
    WrittenAll(b, cache);
    ShownClosed(b, cache);
    ContentHash(h, tk, Shown(b, cache), Flushed(b, cache, ch, heights), p);
  }

  /** A name that holds claims has the same takeover height before and after. */
  lemma FlushedHeight(required: bool, b: Tree, cache: Tree, ch: map<Name, Digest>, heights: map<Name, int>, p: Name)
    requires Lays(b, cache) && p in Shown(b, cache) && Shown(b, cache)[p].claims != []
    requires TakeoverIn(required, heights, b, p).Some?
    ensures TakeoverIn(required, map[], Flushed(b, cache, ch, heights), p) == TakeoverIn(required, heights, b, p)
  {
    hide Closed, Lays, Shown, Written;
    FlushedContent(b, cache, ch, heights);
    WrittenAll(b, cache);
  }

  /** Every hash is the one computed from scratch, but for the root of an empty trie. */
  ghost predicate HashesRight(h: HashFn, tk: Name -> int, t: Tree)
  {
    Closed(t) && forall p :: p in t && !(p == [] && t[p].Empty()) ==> t[p].hash == NodeHash(h, tk, t, p)
  }

  lemma HashesRightFor(h: HashFn, tk: Name -> int, tk': Name -> int, t: Tree)
    requires HashesRight(h, tk, t)
    requires forall q :: q in t && t[q].claims != [] ==> tk(q) == tk'(q)
    ensures HashesRight(h, tk', t)
  {
    hide Closed, NodeHash;
    forall p | p in t
      ensures NodeHash(h, tk, t, p) == NodeHash(h, tk', t, p)
    {
      NodeHashHeights(h, tk, tk', t, p);
    }
  }

  /** A cache laid over a trie whose hashes are right starts with its hashes right. */
  lemma FreshHashInv(h: HashFn, tk: Name -> int, b: Tree)
    requires HashesRight(h, tk, b)
    ensures HashInv(h, tk, b, map[], map[], {})
  {
    hide Closed, NodeHash;
    FreshCache(b);
  }

  /** Right hashes are what the consistency check looks for. */
  lemma RightIsConsistent(h: HashFn, t: Tree)
    requires HashesRight(h, OwnHeights(t), t) && [] in t && !t[[]].Empty()
    ensures ConsistentBelow(h, t, [])
  {
  }

  /** What a flush makes of the hashes of a cache in which nothing is marked any more. */
  lemma FlushedHashes(h: HashFn, required: bool, b: Tree, cache: Tree, ch: map<Name, Digest>, heights: map<Name, int>,
      dirty: set<Name>)
    requires Lays(b, cache) && HashInv(h, HeightsIn(required, heights, b), b, cache, ch, dirty)
    requires [] in Shown(b, cache)
    requires forall p :: p in Shown(b, cache) && !Shown(b, cache)[[]].Empty() ==> p !in dirty
    requires forall p ::
        p in Shown(b, cache) && Shown(b, cache)[p].claims != [] ==> TakeoverIn(required, heights, b, p).Some?
    ensures var w := Flushed(b, cache, ch, heights);
            && HashesRight(h, HeightsIn(required, heights, b), w)
            && HashesRight(h, HeightsIn(required, map[], w), w)
  {
    hide Closed, Lays, Shown, NodeHash, Flushed, HashInv, TakeoverIn;
    var w := Flushed(b, cache, ch, heights);
    var tk := HeightsIn(required, heights, b);
    FlushedContent(b, cache, ch, heights);
    ShownClosed(b, cache);
    forall p | p in w && !(p == [] && w[p].Empty())
      ensures w[p].hash == NodeHash(h, tk, w, p)
    {
      if Shown(b, cache)[[]].Empty() {
        EmptyRootAlone(Shown(b, cache));
      } else {
        FlushedHash(h, tk, b, cache, ch, heights, dirty, p);
      }
    }
    forall p | p in w && w[p].claims != []
      ensures tk(p) == HeightsIn(required, map[], w)(p)
    {
      FlushedHeight(required, b, cache, ch, heights, p);
    }
    HashesRightFor(h, tk, HeightsIn(required, map[], w), w);
  }

  /** Where heights count, or are all zero, a trie's own heights are the ones that count. */
  lemma OwnHeightsRight(h: HashFn, required: bool, t: Tree)
    requires HashesRight(h, HeightsIn(required, map[], t), t) && [] in t
    requires required || forall p :: p in t ==> t[p].nHeightOfLastTakeover == 0
    ensures t[[]].Empty() || ConsistentBelow(h, t, [])
  {
    hide Closed, NodeHash, HashesRight;
    HashesRightFor(h, HeightsIn(required, map[], t), OwnHeights(t), t);
    if !t[[]].Empty() {
      RightIsConsistent(h, t);
    }
  }

  lemma ContentKeys(t: Tree, u: Tree)
    requires SameContent(t, u)
    ensures t.Keys == u.Keys
    ensures [] in t ==> t[[]].Empty() == u[[]].Empty()
  {
  }

  /** Takes over every row of a cache. */
  method UpdateRows<K(==), V>(rows: map<K, V>, cache: map<K, V>) returns (r: map<K, V>)
    ensures r == rows + cache
  {
    r := rows;
    var left := cache.Keys;
    while left != {}
      invariant left <= cache.Keys && r.Keys == rows.Keys + (cache.Keys - left)
      invariant forall k :: k in r ==> r[k] == if k in cache && k !in left then cache[k] else rows[k]
      decreases left
    {
      var k :| k in left;
      r := r[k := cache[k]];
      left := left - {k};
    }
  }

  class ClaimTrie {
    const hash: HashFn
    const nExpirationTime: int
    const nProportionalDelayFactor: int
    var nodes: Tree
    var supports: map<Name, seq<SupportValue>>
    var queueRows: map<int, seq<QueueEntry>>
    var queueNameRows: map<Name, seq<(OutPoint, int)>>
    var expirationRows: map<int, seq<Key>>
    var nCurrentHeight: int

    constructor (hash: HashFn, nExpirationTime: int, nProportionalDelayFactor: int)
      ensures this.hash == hash && this.nExpirationTime == nExpirationTime
      ensures this.nProportionalDelayFactor == nProportionalDelayFactor
      ensures nodes == map[[] := NEW_NODE] && Closed(nodes) && Pruned(nodes)
      ensures queueRows == map[] && queueNameRows == map[] && expirationRows == map[] && nCurrentHeight == 1
      ensures supports == map[]
    {
      this.hash, this.nExpirationTime, this.nProportionalDelayFactor := hash, nExpirationTime, nProportionalDelayFactor;
      nodes, supports := map[[] := NEW_NODE], map[];
      queueRows, queueNameRows, expirationRows, nCurrentHeight := map[], map[], map[], 1;
    }

    predicate Empty()
      reads this
    {
      [] in nodes ==> nodes[[]].Empty()
    }

    function SupportNode(name: Name): seq<SupportValue>
      reads this
    {
      if name in supports then supports[name] else []
    }

    // ---------- consistency ----------

    /** Checks every hash at and below a node against what its children hold. */
    method RecursiveCheckConsistency(node: Name) returns (ok: bool)
      requires Closed(nodes) && node in nodes
      ensures ok <==> ConsistentBelow(hash, nodes, node)
      decreases Below(nodes, node)
    {
      hide Closed, NodeHash, ChildBytes, ConsistentBelow, Below;
      var vchToHash := [];
      for c := 0 to 256
        invariant forall d: Byte :: d < c && d in nodes[node].children ==> ConsistentBelow(hash, nodes, Child(node, d))
        invariant vchToHash + ChildBytes(hash, OwnHeights(nodes), nodes, node, c)
               == ChildBytes(hash, OwnHeights(nodes), nodes, node, 0)
      {
        ChildBytesStep(hash, OwnHeights(nodes), nodes, node, c, vchToHash);
        if c in nodes[node].children {
          BelowChild(nodes, node, c);
          ok := RecursiveCheckConsistency(Child(node, c));
          if !ok {
            ConsistentChild(hash, nodes, node, c);
            return false;
          }
          ConsistentSelf(hash, nodes, Child(node, c));
          vchToHash := vchToHash + [c] + nodes[Child(node, c)].hash;
        }
      }
      ChildBytesEnd(hash, OwnHeights(nodes), nodes, node);
      if nodes[node].claims != [] {
        vchToHash := vchToHash + ValueHash(hash, nodes[node].claims[0].outPoint, nodes[node].nHeightOfLastTakeover);
      }
      assert vchToHash == ChildBytes(hash, OwnHeights(nodes), nodes, node, 0)
                          + ValueBytes(hash, OwnHeights(nodes)(node), nodes[node]);
      NodeHashDef(hash, OwnHeights(nodes), nodes, node);
      ConsistentNode(hash, nodes, node);
      ok := hash(vchToHash) == nodes[node].hash;
    }

    lemma ConsistentSelf(h: HashFn, t: Tree, p: Name)
      requires Closed(t) && p in t && ConsistentBelow(h, t, p)
      ensures t[p].hash == NodeHash(h, OwnHeights(t), t, p)
    {
      assert p <= p;
    }

    method CheckConsistency() returns (ok: bool)
      requires Closed(nodes)
      ensures ok <==> Empty() || ConsistentBelow(hash, nodes, [])
    {
      if Empty() {
        return true;
      }
      ok := RecursiveCheckConsistency([]);
    }

    // ---------- writing a cache ----------

    /** Takes a node and everything below it out of the trie. full is the trie as it was
        before any of that was done. */
    method RecursiveNullify(name: Name, ghost full: Tree)
      requires Closed(full) && name in full && AgreesBelow(nodes, full, name)
      modifies this`nodes
      ensures nodes == old(nodes) - Below(full, name)
      decreases Below(full, name)
    {
      hide Closed, Below, AgreesBelow, BelowUpTo;
      AgreesHere(nodes, full, name);
      var children := nodes[name].children;
      BelowNothing(full, name);
      forall d: Byte
        ensures AgreesBelow(nodes, full, Child(name, d))
      {
        AgreesOnChild(nodes, full, name, d);
      }
      for c := 0 to 256
        invariant nodes == old(nodes) - BelowUpTo(full, name, c)
        invariant forall d: Byte :: c <= d ==> AgreesBelow(nodes, full, Child(name, d))
      {
        BelowNext(full, name, c);
        if c in children {
          BelowChild(full, name, c);
          ghost var before := nodes;
          RecursiveNullify(Child(name, c), full);
          forall d: Byte | c < d
            ensures AgreesBelow(nodes, full, Child(name, d))
          {
            AgreesAfter(before, full, name, c, d);
          }
        }
      }
      BelowAll(full, name);
      nodes := nodes - {name};
    }

    lemma AgreesHere(t: Tree, full: Tree, p: Name)
      requires AgreesBelow(t, full, p) && p in full
      ensures p in t && t[p] == full[p]
    {
      assert p <= p;
    }

    lemma BelowNothing(t: Tree, p: Name)
      ensures BelowUpTo(t, p, 0) == {}
    {
    }

    /** Walks to a name, making its last node if only that is missing. */
    method EnsureName(name: Name) returns (ok: bool)
      requires Closed(nodes)
      modifies this`nodes
      ensures ok <==> name in old(nodes) || (name != [] && Parent(name) in old(nodes))
      ensures nodes == if ok then Ensured(old(nodes), name) else old(nodes)
    {
      hide Closed;
      var k := 0;
      RootThere(nodes);
      assert name[..0] == [];
      while k < |name|
        invariant 0 <= k <= |name|
        invariant name[..k] in nodes && nodes == old(nodes)
      {
        ChildOfPrefix(nodes, name, k);
        if name[k] !in nodes[name[..k]].children {
          if k + 1 == |name| {
            assert name[..k] == Parent(name);
            nodes := nodes[Child(name[..k], name[k]) := NEW_NODE][name[..k] := nodes[name[..k]].With(name[k])];
            assert nodes == WithChild(old(nodes), Parent(name), Last(name));
            return true;
          }
          if name in nodes || Parent(name) in nodes {
            PrefixThere(nodes, name, k);
          }
          return false;
        }
        k := k + 1;
      }
      assert name[..k] == name;
      return true;
    }

    lemma RootThere(t: Tree)
      requires Closed(t)
      ensures [] in t
    {
    }

    lemma ChildOfPrefix(t: Tree, name: Name, k: nat)
      requires Closed(t) && k < |name| && name[..k] in t
      ensures Child(name[..k], name[k]) == name[..k + 1]
      ensures name[k] in t[name[..k]].children <==> name[..k + 1] in t
      ensures k + 1 == |name| ==> name[..k + 1] == name && name != name[..k]
    {
      BaseChildren(t, name[..k], name[k]);
    }

    lemma PrefixThere(t: Tree, name: Name, k: nat)
      requires Closed(t) && k + 1 < |name| && (name in t || Parent(name) in t)
      ensures name[..k + 1] in t
    {
      if Parent(name) in t {
        ClosedHas(t, Parent(name), k + 1);
        assert Parent(name)[..k + 1] == name[..k + 1];
      } else {
        ClosedHas(t, name, k + 1);
      }
    }

    /** Takes over what a cached node holds: its claims, and which children are gone. */
    method UpdateName(name: Name, updatedNode: Node) returns (ok: bool)
      requires Closed(nodes)
      modifies this`nodes
      ensures ok <==> name in old(nodes) || (name != [] && Parent(name) in old(nodes))
      ensures ok ==> nodes == Updated(old(nodes), name, updatedNode) && Closed(nodes)
    {
      hide Closed, Below, AgreesBelow, DroppedUpTo, Updated, Ensured;
      ok := EnsureName(name);
      if !ok {
        return false;
      }
      EnsuredClosed(old(nodes), name);
      ghost var u := nodes;
      DropNothing(u, name, updatedNode);
      var children := nodes[name].children;
      nodes := nodes[name := Node(nodes[name].hash, children, nodes[name].nHeightOfLastTakeover, updatedNode.claims)];
      for c := 0 to 256
        invariant nodes == DroppedUpTo(u, name, updatedNode, c)
      {
        if c in children && c !in updatedNode.children {
          DropStep(u, name, updatedNode, c);
          RecursiveNullify(Child(name, c), u);
          nodes := nodes[name := nodes[name].Without(c)];
        } else {
          DropKept(u, name, updatedNode, c);
        }
      }
      DropAll(old(nodes), name, updatedNode);
      UpdatedClosed(old(nodes), name, updatedNode);
    }

    method UpdateHash(name: Name, hash: Digest) returns (ok: bool)
      requires Closed(nodes)
      modifies this`nodes
      ensures ok <==> name in old(nodes)
      ensures nodes == if ok
          then old(nodes)[name := Node(hash, old(nodes)[name].children, old(nodes)[name].nHeightOfLastTakeover,
            old(nodes)[name].claims)]
                       else old(nodes)
      ensures Closed(nodes)
    {
      if name !in nodes {
        return false;
      }
      var n := nodes[name];
      ClosedWith(nodes, name, Node(hash, n.children, n.nHeightOfLastTakeover, n.claims));
      nodes := nodes[name := Node(hash, n.children, n.nHeightOfLastTakeover, n.claims)];
      return true;
    }

    method UpdateTakeoverHeight(name: Name, nTakeoverHeight: int) returns (ok: bool)
      requires Closed(nodes)
      modifies this`nodes
      ensures ok <==> name in old(nodes)
      ensures nodes == if ok
          then old(nodes)[name := Node(old(nodes)[name].hash, old(nodes)[name].children, nTakeoverHeight,
            old(nodes)[name].claims)]
                       else old(nodes)
      ensures Closed(nodes)
    {
      if name !in nodes {
        return false;
      }
      var n := nodes[name];
      ClosedWith(nodes, name, Node(n.hash, n.children, nTakeoverHeight, n.claims));
      nodes := nodes[name := Node(n.hash, n.children, nTakeoverHeight, n.claims)];
      return true;
    }

    /** The name the map of cached nodes lists first. */
    method First(names: set<Name>) returns (name: Name)
      requires names != {}
      ensures name in names && forall q :: q in names && q != name ==> NodeNameLess(name, q)
    {
      FirstName(names);
      name :| name in names && forall q :: q in names && q != name ==> NodeNameLess(name, q);
    }

    /** No name that is left is shorter than one that is done. */
    ghost predicate Sorted(cache: Tree, done: set<Name>, rest: set<Name>)
    {
      done + rest == cache.Keys && done !! rest && forall q, r :: q in done && r in rest ==> |q| <= |r|
    }

    lemma NextInOrder(cache: Tree, done: set<Name>, rest: set<Name>, name: Name)
      requires Sorted(cache, done, rest) && name in rest
      requires forall q :: q in rest && q != name ==> NodeNameLess(name, q)
      ensures InOrder(cache, done, name)
      ensures Sorted(cache, done + {name}, rest - {name})
    {
    }

    lemma NoneDone(cache: Tree)
      ensures Sorted(cache, {}, cache.Keys)
    {
    }

    lemma AllDone(cache: Tree, done: set<Name>)
      requires Sorted(cache, done, {})
      ensures done == cache.Keys
    {
    }

    /** Writes the nodes of a cache, shortest names first. */
    method UpdateNodes(cache: Tree) returns (ok: bool)
      requires Lays(nodes, cache)
      modifies this`nodes
      ensures ok && nodes == Written(old(nodes), cache, cache.Keys)
    {
      hide Closed, Lays, Written, Updated, InOrder, ClaimTrie.Sorted;
      ghost var b := nodes;
      ghost var done: set<Name> := {};
      var rest := cache.Keys;
      WrittenNothing(b, cache);
      LaysClosed(b, cache);
      NoneDone(cache);
      while rest != {}
        invariant Sorted(cache, done, rest) && done <= cache.Keys
        invariant Closed(nodes) && nodes == Written(b, cache, done)
        decreases |rest|
      {
        var name := First(rest);
        NextInOrder(cache, done, rest, name);
        WriteNext(b, cache, done, name);
        ok := UpdateName(name, cache[name]);
        if !ok {
          return false;
        }
        rest, done := rest - {name}, done + {name};
      }
      assert Sorted(cache, done, {});
      AllDone(cache, done);
      return true;
    }

    method UpdateHashes(hashes: map<Name, Digest>) returns (ok: bool)
      requires Closed(nodes)
      modifies this`nodes
      ensures ok <==> hashes.Keys <= old(nodes).Keys
      ensures ok ==> nodes == Hashed(old(nodes), hashes) && Closed(nodes)
    {
      hide Closed;
      var rest := hashes.Keys;
      while rest != {}
        invariant rest <= hashes.Keys && hashes.Keys - rest <= old(nodes).Keys && Closed(nodes)
        invariant nodes == Hashed(old(nodes), hashes - rest)
        decreases |rest|
      {
        var name :| name in rest;
        ok := UpdateHash(name, hashes[name]);
        if !ok {
          return false;
        }
        rest := rest - {name};
      }
      assert hashes - {} == hashes;
      return true;
    }

    method UpdateTakeoverHeights(heights: map<Name, int>) returns (ok: bool)
      requires Closed(nodes)
      modifies this`nodes
      ensures ok <==> heights.Keys <= old(nodes).Keys
      ensures ok ==> nodes == Heighted(old(nodes), heights) && Closed(nodes)
    {
      hide Closed;
      var rest := heights.Keys;
      while rest != {}
        invariant rest <= heights.Keys && heights.Keys - rest <= old(nodes).Keys && Closed(nodes)
        invariant nodes == Heighted(old(nodes), heights - rest)
        decreases |rest|
      {
        var name :| name in rest;
        ok := UpdateTakeoverHeight(name, heights[name]);
        if !ok {
          return false;
        }
        rest := rest - {name};
      }
      assert heights - {} == heights;
      return true;
    }

    method Update(cache: Tree, hashes: map<Name, Digest>, takeoverHeights: map<Name, int>) returns (ok: bool)
      requires Lays(nodes, cache)
      modifies this`nodes
      ensures ok <==> hashes.Keys + takeoverHeights.Keys <= Shown(old(nodes), cache).Keys
      ensures ok ==> nodes == Flushed(old(nodes), cache, hashes, takeoverHeights)
    {
      hide Closed, Lays, Written, Shown;
      WrittenAll(nodes, cache);
      FlushedContent(nodes, cache, map[], map[]);
      NothingMore(Written(nodes, cache, cache.Keys));
      ok := UpdateNodes(cache);
      if !ok {
        return false;
      }
      ok := UpdateHashes(hashes);
      if !ok {
        return false;
      }
      ok := UpdateTakeoverHeights(takeoverHeights);
    }

    /** Takes over the rows of the queues and the height. */
    method UpdateQueues(queueCache: map<int, seq<QueueEntry>>, queueNameCache: map<Name, seq<(OutPoint, int)>>,
                        expirationQueueCache: map<int, seq<Key>>, nNewHeight: int)
      modifies this`queueRows, this`queueNameRows, this`expirationRows, this`nCurrentHeight
      ensures queueRows == old(queueRows) + queueCache && queueNameRows == old(queueNameRows) + queueNameCache
      ensures expirationRows == old(expirationRows) + expirationQueueCache && nCurrentHeight == nNewHeight
    {
      queueRows := UpdateRows(queueRows, queueCache);
      queueNameRows := UpdateRows(queueNameRows, queueNameCache);
      expirationRows := UpdateRows(expirationRows, expirationQueueCache);
      nCurrentHeight := nNewHeight;
    }

    lemma NothingMore(t: Tree)
      ensures Heighted(Hashed(t, map[]), map[]) == t
    {
    }
  }
}
