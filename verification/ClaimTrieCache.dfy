/** The cache in which claims are inserted and removed before they reach the trie. */
module ClaimTrieCaches {
  import opened ClaimTypes
  import opened NameTree
  import opened PathOps
  import opened Overlay
  import opened TrieHash
  import opened ClaimProofs
  import opened Flushing
  import opened ClaimTries

  /** A claim taken out of the list of a name. */
  method TakeClaim(claims: seq<ClaimValue>, outPoint: OutPoint)
      returns (rest: seq<ClaimValue>, claim: Option<ClaimValue>)
    ensures var k := FindOutPoint(claims, outPoint);
            if k < |claims| then rest == claims[..k] + claims[k + 1..] && claim == Some(claims[k])
            else rest == claims && claim == None
  {
    var i := 0;
    while i < |claims| && claims[i].outPoint != outPoint
      invariant 0 <= i <= |claims|
      invariant forall j :: 0 <= j < i ==> claims[j].outPoint != outPoint
    {
      i := i + 1;
    }
    FoundAt(claims, outPoint, i);
    if i < |claims| {
      return claims[..i] + claims[i + 1..], Some(claims[i]);
    }
    return claims, None;
  }

  lemma FoundAt(claims: seq<ClaimValue>, outPoint: OutPoint, i: nat)
    requires i <= |claims|
    requires forall j :: 0 <= j < i ==> claims[j].outPoint != outPoint
    requires i < |claims| ==> claims[i].outPoint == outPoint
    ensures FindOutPoint(claims, outPoint) == i
  {
  }

  /** What a walking node pointer points at: a node of the base or a cached copy. */
  datatype NodeRef = InBase(path: Name) | InCache(path: Name)

  /** Names stay cached as long as they are in the trie. */
  ghost predicate StillCached(before: Tree, after: Tree, t: Tree)
  {
    forall q :: q in before && q in t ==> q in after
  }

  lemma StillCachedCut(before: Tree, full: Tree, cut: Tree, t: Tree, p: Name, c: Byte)
    requires StillCached(before, full, t) && p in t && full.Keys - {Child(p, c)} <= cut.Keys
    ensures StillCached(before, cut, Cut(t, p, c))
  {
    assert Child(p, c) != p;
  }

  class ClaimTrieCache {
    const base: ClaimTrie
    const heap: seq<ClaimValue> -> seq<ClaimValue>
    var cache: Tree
    var blockOriginals: Tree
    var dirtyHashes: set<Name>
    var cacheHashes: map<Name, Digest>
    var namesToCheckForTakeover: set<Name>
    const fRequireTakeoverHeights: bool
    var cacheTakeoverHeights: map<Name, int>

    constructor (base: ClaimTrie, heap: seq<ClaimValue> -> seq<ClaimValue>, fRequireTakeoverHeights: bool)
      requires IsMakeHeap(heap) && Closed(base.nodes) && Pruned(base.nodes)
      ensures this.base == base && this.heap == heap && this.fRequireTakeoverHeights == fRequireTakeoverHeights
      ensures Valid() && Trie() == base.nodes
      ensures cache == map[] && blockOriginals == map[] && cacheTakeoverHeights == map[]
      ensures dirtyHashes == {} && cacheHashes == map[] && namesToCheckForTakeover == {}
    {
      this.base, this.heap, this.fRequireTakeoverHeights := base, heap, fRequireTakeoverHeights;
      cache, blockOriginals, cacheTakeoverHeights := map[], map[], map[];
      dirtyHashes, cacheHashes, namesToCheckForTakeover := {}, map[], {};
      new;
      FreshCache(base.nodes);
    }

    ghost predicate Valid()
      reads this`cache, base`nodes
    {
      && IsMakeHeap(heap)
      && Lays(base.nodes, cache)
      && Closed(Trie())
      && Pruned(Trie())
    }

    /** The trie that shows through the cache. */
    ghost function Trie(): Tree
      reads this`cache, base`nodes
    {
      Shown(base.nodes, cache)
    }

    function RefAt(p: Name): NodeRef
      reads this
    {
      if p in cache then InCache(p) else InBase(p)
    }

    method AddNodeToCache(position: Name, original: Node)
      modifies this`cache, this`blockOriginals
      ensures cache == old(cache)[position := original]
      ensures blockOriginals == Noted(old(blockOriginals), position, original)
    {
      cache := cache[position := original];
      if position !in blockOriginals {
        blockOriginals := blockOriginals[position := original];
      }
    }

    /** One step of the walk: the child is followed where it exists, else it is created,
        in the cache, below a cached copy of its parent. */
    method GrowStep(name: Name, k: nat, currentNode: NodeRef) returns (ok: bool, nextNode: NodeRef)
      requires Lays(base.nodes, cache)
      requires k < |name| && name[..k] in Trie() && currentNode == RefAt(name[..k])
      modifies this`cache, this`blockOriginals
      ensures ok && Lays(base.nodes, cache)
      ensures Trie() == if name[k] in old(Trie())[name[..k]].children then old(Trie())
                        else WithChild(old(Trie()), name[..k], name[k])
      ensures name[..k + 1] in Trie() && nextNode == RefAt(name[..k + 1])
      ensures old(cache).Keys <= cache.Keys
      ensures old(Remembers(base.nodes, cache, blockOriginals)) ==> Remembers(base.nodes, cache, blockOriginals)
    {
      hide Closed, Linked, Live, View, Lays, Shown, Pruned, Remembers;
      ShownClosed(base.nodes, cache);
      ShownChild(base.nodes, cache, name[..k], name[k]);
      var current, next := name[..k], name[..k + 1];
      assert next == Child(current, name[k]);
      var node := if currentNode.InCache? then cache[currentNode.path] else base.nodes[currentNode.path];
      if next in cache {
        return true, InCache(next);
      }
      if name[k] in node.children {
        return true, InBase(next);
      }
      if current in cache {
        if currentNode != InCache(current) {
          return false, currentNode;
        }
      } else {
        CopyNode(base.nodes, cache, current);
        if Remembers(base.nodes, cache, blockOriginals) {
          RememberCopy(base.nodes, cache, blockOriginals, current);
        }
        AddNodeToCache(current, node);
      }
      GrowCache(base.nodes, cache, current, name[k]);
      if Remembers(base.nodes, cache, blockOriginals) {
        RememberGrow(base.nodes, cache, blockOriginals, current, name[k]);
      }
      AddNodeToCache(next, NEW_NODE);
      cache := cache[current := cache[current].With(name[k])];
      return true, InCache(next);
    }

    /** Walks to a name, creating what is missing, and puts its node in the cache. */
    method CacheName(name: Name) returns (ok: bool)
      requires Lays(base.nodes, cache) && Closed(Trie())
      modifies this`cache, this`blockOriginals
      ensures ok && Lays(base.nodes, cache) && name in cache && name in Trie() && Trie()[name] == cache[name]
      ensures Trie() == GrowPath(old(Trie()), name, |name|)
      ensures old(cache).Keys <= cache.Keys
      ensures old(Remembers(base.nodes, cache, blockOriginals)) ==> Remembers(base.nodes, cache, blockOriginals)
    {
      hide Closed, Linked, Live, View, Lays, Shown, Pruned, Remembers;
      ShownClosed(base.nodes, cache);
      var currentNode := RefAt([]);
      var k := 0;
      assert name[..0] == [];
      while k < |name|
        invariant 0 <= k <= |name| && Lays(base.nodes, cache)
        invariant Trie() == GrowPath(old(Trie()), name, k)
        invariant old(cache).Keys <= cache.Keys
        invariant name[..k] in Trie() && currentNode == RefAt(name[..k])
        invariant old(Remembers(base.nodes, cache, blockOriginals)) ==> Remembers(base.nodes, cache, blockOriginals)
      {
        ok, currentNode := GrowStep(name, k, currentNode);
        if !ok {
          return false;
        }
        k := k + 1;
      }
      assert name[..k] == name;
      ShownClosed(base.nodes, cache);
      if name in cache {
        if currentNode != InCache(name) {
          return false;
        }
      } else {
        CopyNode(base.nodes, cache, name);
        if Remembers(base.nodes, cache, blockOriginals) {
          RememberCopy(base.nodes, cache, blockOriginals, name);
        }
        AddNodeToCache(name, base.nodes[currentNode.path]);
      }
      ShownClosed(base.nodes, cache);
      return true;
    }

    /** Replaces the claims of a cached node. */
    method PutClaims(name: Name, claims: seq<ClaimValue>)
      requires Lays(base.nodes, cache) && name in cache && name in Trie()
      modifies this`cache
      ensures Lays(base.nodes, cache) && name in cache
      ensures Trie() == old(Trie())[name := old(Trie())[name].(claims := claims)]
      ensures cache.Keys == old(cache).Keys
      ensures old(Remembers(base.nodes, cache, blockOriginals)) ==> Remembers(base.nodes, cache, blockOriginals)
    {
      hide Closed, Linked, Live, View, Lays, Shown, Pruned, Remembers;
      ShownClosed(base.nodes, cache);
      var n := cache[name].(claims := claims);
      SetClaims(base.nodes, cache, name, n);
      if Remembers(base.nodes, cache, blockOriginals) {
        RememberSetClaims(base.nodes, cache, blockOriginals, name, n);
      }
      cache := cache[name := n];
    }

    /** Marks the hashes of a name and of everything above it as stale. */
    method MarkDirty(name: Name, fCheckTakeover: bool)
      modifies this`dirtyHashes, this`namesToCheckForTakeover
      ensures dirtyHashes == old(dirtyHashes) + Prefixes(name)
      ensures namesToCheckForTakeover == old(namesToCheckForTakeover) + if fCheckTakeover then {name} else {}
    {
      for k := 0 to |name|
        invariant dirtyHashes == old(dirtyHashes) + (set j | 0 <= j < k :: name[..j])
        invariant namesToCheckForTakeover == old(namesToCheckForTakeover)
      {
        dirtyHashes := dirtyHashes + {name[..k]};
      }
      assert name == name[..|name|];
      dirtyHashes := dirtyHashes + {name};
      if fCheckTakeover {
        namesToCheckForTakeover := namesToCheckForTakeover + {name};
      }
    }

    /** The insertion, but for what it means to the hashes. */
    method InsertAndMark(name: Name, claim: ClaimValue, fCheckTakeover: bool) returns (ok: bool)
      requires Valid()
      modifies this`cache, this`blockOriginals, this`dirtyHashes, this`namesToCheckForTakeover
      ensures ok && Valid()
      ensures Trie() == AfterInsert(heap, base.SupportNode(name), old(Trie()), name, claim)
      ensures old(cache).Keys + {name} <= cache.Keys
      ensures Marked(old(dirtyHashes), old(namesToCheckForTakeover), name, fCheckTakeover,
                     TopChanged(ClaimsAt(old(Trie()), name), ClaimsAt(Trie(), name)))
      ensures old(Remembers(base.nodes, cache, blockOriginals)) ==> Remembers(base.nodes, cache, blockOriginals)
    {
      hide Closed, Linked, Live, View, Lays, Shown, Pruned, Remembers, IsMakeHeap, GrowPath, Reordered;
      ShownClosed(base.nodes, cache);
      GrowPathAt(Trie(), name, |name|, name);
      assert name[..|name|] == name;
      ok := CacheName(name);
      if !ok {
        return false;
      }
      var fChanged := false;
      var claims := cache[name].claims;
      if claims == [] {
        fChanged := true;
        PutClaims(name, [claim]);
      } else {
        var reordered := ReorderClaims(heap, claims + [claim], base.SupportNode(name));
        ReorderedControls(heap, claims + [claim], base.SupportNode(name));
        if Plain(claims[0]) != Plain(reordered[0]) {
          fChanged := true;
        }
        PutClaims(name, reordered);
      }
      InsertedPruned(old(Trie()), name, Grown(heap, claims, claim, base.SupportNode(name)));
      if fChanged {
        MarkDirty(name, fCheckTakeover);
      }
      return true;
    }

    method InsertClaimIntoTrie(name: Name, claim: ClaimValue, fCheckTakeover: bool) returns (ok: bool)
      requires Valid()
      modifies this`cache, this`blockOriginals, this`dirtyHashes, this`namesToCheckForTakeover
      ensures ok && Valid()
      ensures Trie() == AfterInsert(heap, base.SupportNode(name), old(Trie()), name, claim)
      ensures old(cache).Keys + {name} <= cache.Keys
      ensures Marked(old(dirtyHashes), old(namesToCheckForTakeover), name, fCheckTakeover,
                     TopChanged(ClaimsAt(old(Trie()), name), ClaimsAt(Trie(), name)))
      ensures old(Remembers(base.nodes, cache, blockOriginals)) ==> Remembers(base.nodes, cache, blockOriginals)
      ensures old(HashValid()) ==> HashValid()
    {
      hide Closed, Linked, Live, View, Lays, Shown, Pruned, Remembers, IsMakeHeap, Inserted, Reordered, HashInv;
      ghost var grown := Grown(heap, ClaimsAt(Trie(), name), claim, base.SupportNode(name));
      ok := InsertAndMark(name, claim, fCheckTakeover);
      InsertedAt(old(Trie()), name, grown, name);
      ReorderedControls(heap, ClaimsAt(old(Trie()), name) + [claim], base.SupportNode(name));
      if old(HashValid()) {
        InsertKeepsHashes(base.hash, Heights(), base.nodes, old(cache), cache, cacheHashes, old(dirtyHashes),
            dirtyHashes, name, grown);
      }
    }

    /** Takes the character of a child that nullified itself, and is out of the cache
        already, from its parent, which is copied into the cache first if need be. */
    method CutChild(tnCurrent: NodeRef, p: Name, c: Byte, ghost full: Tree)
        returns (ok: bool, node: NodeRef, ghost cut: Tree)
      requires Lays(base.nodes, full) && cache == full - {Child(p, c)} && Child(p, c) in full
          && full[Child(p, c)].Empty()
      requires p in Shown(base.nodes, full) && c in Shown(base.nodes, full)[p].children && tnCurrent == RefAt(p)
      modifies this`cache, this`blockOriginals
      ensures ok && Lays(base.nodes, cut) && Shown(base.nodes, cut) == Cut(Shown(base.nodes, full), p, c)
      ensures cache == cut && node == InCache(p) && p in cache
      ensures full.Keys - {Child(p, c)} <= cut.Keys
      ensures forall q :: q != p && q != Child(p, c) ==> (q in cut <==> q in full) && (q in cut ==> cut[q] == full[q])
      ensures old(Remembers(base.nodes, full, blockOriginals)) ==> Remembers(base.nodes, cut, blockOriginals)
    {
      hide Closed, Linked, Live, View, Lays, Shown, Pruned, Remembers;
      ShownClosed(base.nodes, full);
      CopyAndCut(base.nodes, full, p, c);
      cut := CutCache(Copied(base.nodes, full, p), p, c);
      if Remembers(base.nodes, full, blockOriginals) {
        RememberCopyAndCut(base.nodes, full, blockOriginals, p, c);
      }
      assert p != Child(p, c);
      node := tnCurrent;
      if p !in cache {
        AddNodeToCache(p, base.nodes[tnCurrent.path]);
        node := InCache(p);
      }
      if c !in cache[p].children {
        return false, node, cut;
      }
      cache := cache[p := cache[p].Without(c)];
      assert cache == cut;
      return true, node, cut;
    }

    /** The child a walk goes on to, if there is one. */
    method NextNode(current: NodeRef, name: Name, nPos: nat) returns (found: bool, next: NodeRef)
      requires Lays(base.nodes, cache) && nPos < |name|
      requires name[..nPos] in Trie() && current == RefAt(name[..nPos])
      ensures found <==> name[..nPos + 1] in Trie()
      ensures found ==> next == RefAt(name[..nPos + 1])
    {
      hide Closed, Linked, Live, View, Lays, Shown, Pruned;
      ShownClosed(base.nodes, cache);
      ShownChild(base.nodes, cache, name[..nPos], name[nPos]);
      assert name[..nPos + 1] == Child(name[..nPos], name[nPos]);
      if name[..nPos + 1] in cache {
        return true, InCache(name[..nPos + 1]);
      }
      var node := if current.InCache? then cache[current.path] else base.nodes[current.path];
      return name[nPos] in node.children, InBase(name[..nPos + 1]);
    }

    /** Cuts off the empty nodes at the end of a path. A node that nullifies itself leaves
        the cache at once, and its parent's children one level up: full is the cache as it
        stands when that is not counted yet. */
    method RecursivePruneName(tnCurrent: NodeRef, nPos: nat, name: Name)
      returns (ok: bool, fNullified: bool, ghost full: Tree)
      requires Lays(base.nodes, cache) && Closed(Trie()) && name in Trie() && name in cache
      requires nPos <= |name| && tnCurrent == RefAt(name[..nPos])
      modifies this`cache, this`blockOriginals
      ensures ok && Lays(base.nodes, full)
      ensures Shown(base.nodes, full) == PruneTo(old(Trie()), name, nPos)
      ensures fNullified <==> nPos > 0 && Shown(base.nodes, full)[name[..nPos]].Empty()
      ensures fNullified ==> name[..nPos] in full
      ensures cache == if fNullified then full - {name[..nPos]} else full
      ensures forall q :: |q| < nPos ==> (q in full <==> q in old(cache))
      ensures StillCached(old(cache), full, Shown(base.nodes, full))
      ensures old(Remembers(base.nodes, cache, blockOriginals)) ==> Remembers(base.nodes, full, blockOriginals)
      decreases |name| - nPos, 1
    {
      hide Closed, Linked, Live, View, Lays, Shown, Pruned, Remembers, Cut;
      var current := tnCurrent;
      if nPos < |name| {
        ok, current := PruneChild(tnCurrent, nPos, name);
        if !ok {
          return false, false, cache;
        }
      } else {
        ShownClosed(base.nodes, cache);
        assert name[..nPos] == name;
      }
      full := cache;
      ok, fNullified := DropIfEmpty(current, name[..nPos]);
      return ok, fNullified, full;
    }

    /** The recursive call, and what its outcome means for the node above. */
    method PruneChild(tnCurrent: NodeRef, nPos: nat, name: Name) returns (ok: bool, current: NodeRef)
      requires Lays(base.nodes, cache) && Closed(Trie()) && name in Trie() && name in cache
      requires nPos < |name| && tnCurrent == RefAt(name[..nPos])
      modifies this`cache, this`blockOriginals
      ensures ok && Lays(base.nodes, cache)
      ensures Trie() == PruneTo(old(Trie()), name, nPos)
      ensures current == RefAt(name[..nPos])
      ensures Trie()[name[..nPos]].Empty() ==> name[..nPos] in cache
      ensures forall q :: |q| < nPos ==> (q in cache <==> q in old(cache))
      ensures StillCached(old(cache), cache, Trie())
      ensures old(Remembers(base.nodes, cache, blockOriginals)) ==> Remembers(base.nodes, cache, blockOriginals)
      decreases |name| - nPos, 0
    {
      hide Closed, Linked, Live, View, Lays, Shown, Pruned, Remembers, Cut, StillCached;
      ghost var before := Trie();
      ClosedHas(before, name, nPos);
      ClosedHas(before, name, nPos + 1);
      var next := name[..nPos + 1];
      assert next == Child(name[..nPos], name[nPos]) && next[..nPos] == name[..nPos];
      var found, tnNext := NextNode(tnCurrent, name, nPos);
      if !found {
        return false, tnCurrent;
      }
      var fChildNullified;
      ghost var full;
      ok, fChildNullified, full := RecursivePruneName(tnNext, nPos + 1, name);
      if !ok {
        return false, tnCurrent;
      }
      ShownClosed(base.nodes, full);
      ClosedHas(Shown(base.nodes, full), next, nPos);
      current := tnCurrent;
      if fChildNullified {
        ghost var cut;
        ok, current, cut := CutChild(tnCurrent, name[..nPos], name[nPos], full);
        StillCachedCut(old(cache), full, cut, Shown(base.nodes, full), name[..nPos], name[nPos]);
      }
    }

    /** Takes an empty node out of the cache. */
    method DropIfEmpty(tnCurrent: NodeRef, p: Name) returns (ok: bool, fNullified: bool)
      requires Lays(base.nodes, cache) && p in Trie() && tnCurrent == RefAt(p)
      modifies this`cache
      ensures ok && (fNullified <==> p != [] && old(Trie())[p].Empty())
      ensures cache == if fNullified then old(cache) - {p} else old(cache)
    {
      hide Closed, Linked, Live, View, Lays, Shown, Pruned;
      ShownClosed(base.nodes, cache);
      fNullified := false;
      var node := if tnCurrent.InCache? then cache[tnCurrent.path] else base.nodes[tnCurrent.path];
      if p != [] && node.Empty() {
        if p in cache {
          if tnCurrent != InCache(p) {
            return false, false;
          }
          cache := cache - {p};
        }
        fNullified := true;
      }
      return true, fNullified;
    }

    /** Walks to a name without creating anything. */
    method FindName(name: Name) returns (found: bool, currentNode: NodeRef)
      requires Lays(base.nodes, cache) && Closed(Trie())
      ensures found <==> name in Trie()
      ensures found ==> currentNode == RefAt(name)
    {
      hide Closed, Linked, Live, View, Lays, Shown, Pruned;
      ShownClosed(base.nodes, cache);
      currentNode := RefAt([]);
      var k := 0;
      assert name[..0] == [];
      while k < |name|
        invariant 0 <= k <= |name|
        invariant name[..k] in Trie() && currentNode == RefAt(name[..k])
      {
        if name in Trie() {
          ClosedHas(Trie(), name, k + 1);
        }
        found, currentNode := NextNode(currentNode, name, k);
        if !found {
          return false, currentNode;
        }
        k := k + 1;
      }
      assert name[..k] == name;
      return true, currentNode;
    }

    /** Copies a node that is there into the cache. */
    method CacheFound(name: Name, currentNode: NodeRef) returns (ok: bool)
      requires Lays(base.nodes, cache) && name in Trie() && currentNode == RefAt(name)
      modifies this`cache, this`blockOriginals
      ensures ok && Lays(base.nodes, cache) && Trie() == old(Trie()) && name in cache && cache[name] == Trie()[name]
      ensures old(cache).Keys <= cache.Keys
      ensures old(Remembers(base.nodes, cache, blockOriginals)) ==> Remembers(base.nodes, cache, blockOriginals)
    {
      hide Closed, Linked, Live, View, Lays, Shown, Pruned, Remembers;
      ShownClosed(base.nodes, cache);
      if name in cache {
        if currentNode != InCache(name) {
          return false;
        }
      } else {
        CopyNode(base.nodes, cache, name);
        if Remembers(base.nodes, cache, blockOriginals) {
          RememberCopy(base.nodes, cache, blockOriginals, name);
        }
        AddNodeToCache(name, base.nodes[currentNode.path]);
      }
      ShownClosed(base.nodes, cache);
      return true;
    }

    /** The removal, but for what it means to the hashes. */
    method RemoveAndMark(name: Name, outPoint: OutPoint, fCheckTakeover: bool)
      returns (ok: bool, claim: Option<ClaimValue>)
      requires Valid()
      modifies this`cache, this`blockOriginals, this`dirtyHashes, this`namesToCheckForTakeover
      ensures Valid()
      ensures Trie() == AfterRemove(heap, base.SupportNode(name), old(Trie()), name, outPoint)
      ensures StillCached(old(cache), cache, Trie()) && (name in Trie() ==> name in cache)
      ensures var before := ClaimsAt(old(Trie()), name);
              && (ok <==> FindOutPoint(before, outPoint) < |before|)
              && claim == (if ok then Some(before[FindOutPoint(before, outPoint)]) else None)
              && (!ok && name in old(Trie()) ==> name in cache)
              && (name !in old(Trie()) ==> cache == old(cache))
              && Marked(old(dirtyHashes), old(namesToCheckForTakeover), name, fCheckTakeover,
                        ok && TopChanged(before, ClaimsAt(Trie(), name)))
      ensures old(Remembers(base.nodes, cache, blockOriginals)) ==> Remembers(base.nodes, cache, blockOriginals)
    {
      hide Closed, Linked, Live, View, Lays, Shown, Pruned, Remembers, IsMakeHeap, PruneTo, Reordered;
      var found, currentNode := FindName(name);
      if !found {
        return false, None;
      }
      ok := CacheFound(name, currentNode);
      if !ok {
        return false, None;
      }
      if cache[name].claims == [] {
        return false, None;
      }
      var fChanged;
      claim, fChanged := TakeFromNode(name, outPoint);
      ghost var rest := Trie()[name].claims;
      if claim == None {
        StillPruned(old(Trie()), name, rest);
        return false, None;
      }
      if fChanged {
        MarkDirty(name, fCheckTakeover);
      }
      RemovedPruned(old(Trie()), name, rest);
      RemovedAt(old(Trie()), name, rest, name);
      ClosedWith(old(Trie()), name, old(Trie())[name].(claims := rest));
      ok := Prune(name);
    }

    /** A removal that fails may still reorder the claims it leaves in place, and marks
        nothing as stale. */
    method RemoveClaimFromTrie(name: Name, outPoint: OutPoint, fCheckTakeover: bool)
      returns (ok: bool, claim: Option<ClaimValue>)
      requires Valid()
      modifies this`cache, this`blockOriginals, this`dirtyHashes, this`namesToCheckForTakeover
      ensures Valid()
      ensures Trie() == AfterRemove(heap, base.SupportNode(name), old(Trie()), name, outPoint)
      ensures StillCached(old(cache), cache, Trie()) && (name in Trie() ==> name in cache)
      ensures var before := ClaimsAt(old(Trie()), name);
              && (ok <==> FindOutPoint(before, outPoint) < |before|)
              && claim == (if ok then Some(before[FindOutPoint(before, outPoint)]) else None)
              && (!ok && name in old(Trie()) ==> name in cache)
              && (name !in old(Trie()) ==> cache == old(cache))
              && Marked(old(dirtyHashes), old(namesToCheckForTakeover), name, fCheckTakeover,
                        ok && TopChanged(before, ClaimsAt(Trie(), name)))
      ensures (old(HashValid())
               && (ok || (UniqueClaims(ClaimsAt(old(Trie()), name))
                          && FrontControls(ClaimsAt(old(Trie()), name), base.SupportNode(name)))))
              ==> HashValid()
      ensures old(Remembers(base.nodes, cache, blockOriginals)) ==> Remembers(base.nodes, cache, blockOriginals)
    {
      hide Closed, Linked, Live, View, Lays, Shown, Pruned, Remembers, IsMakeHeap, AfterRemove, HashInv, UniqueClaims,
          FrontControls;
      ok, claim := RemoveAndMark(name, outPoint, fCheckTakeover);
      if old(HashValid()) && (ok || (UniqueClaims(ClaimsAt(old(Trie()), name))
                                     && FrontControls(ClaimsAt(old(Trie()), name), base.SupportNode(name)))) {
        AfterRemoveKeepsHashes(base.hash, Heights(), heap, base.SupportNode(name), base.nodes, old(cache), cache,
                               cacheHashes, old(dirtyHashes), dirtyHashes, name, outPoint);
      }
    }

    /** Takes a claim from a cached node and puts the others in order. */
    method TakeFromNode(name: Name, outPoint: OutPoint) returns (claim: Option<ClaimValue>, fChanged: bool)
      requires Lays(base.nodes, cache) && name in cache && name in Trie() && cache[name] == Trie()[name]
      requires cache[name].claims != [] && IsMakeHeap(heap)
      modifies this`cache
      ensures Lays(base.nodes, cache) && name in cache
      ensures var before := old(Trie())[name].claims;
              var k := FindOutPoint(before, outPoint);
              var after := Shrunk(heap, before, outPoint, base.SupportNode(name));
              && claim == (if k < |before| then Some(before[k]) else None)
              && Trie() == old(Trie())[name := old(Trie())[name].(claims := after)]
              && fChanged == TopChanged(before, after)
              && (k == |before| ==> after != [])
              && cache.Keys == old(cache).Keys
      ensures old(Remembers(base.nodes, cache, blockOriginals)) ==> Remembers(base.nodes, cache, blockOriginals)
    {
      hide Closed, Linked, Live, View, Lays, Shown, Pruned, Remembers, IsMakeHeap, Reordered;
      var claims := cache[name].claims;
      var rest;
      rest, claim := TakeClaim(claims, outPoint);
      if rest != [] {
        ReorderedControls(heap, rest, base.SupportNode(name));
        rest := ReorderClaims(heap, rest, base.SupportNode(name));
        fChanged := Plain(claims[0]) != Plain(rest[0]);
      } else {
        fChanged := true;
      }
      PutClaims(name, rest);
    }

    /** Prunes from the root. */
    method Prune(name: Name) returns (ok: bool)
      requires Lays(base.nodes, cache) && Closed(Trie()) && name in Trie() && name in cache
      modifies this`cache, this`blockOriginals
      ensures ok && Lays(base.nodes, cache) && Trie() == PruneTo(old(Trie()), name, 0) && Closed(Trie())
      ensures StillCached(old(cache), cache, Trie())
      ensures old(Remembers(base.nodes, cache, blockOriginals)) ==> Remembers(base.nodes, cache, blockOriginals)
    {
      hide Closed, Linked, Live, View, Lays, Shown, Pruned, Remembers, PruneTo;
      assert name[..0] == [];
      var fNullified;
      ghost var full;
      ok, fNullified, full := RecursivePruneName(RefAt([]), 0, name);
    }

    /** How an operation on a name that may have changed its front claim marks it. */
    ghost predicate Marked(dirtyBefore: set<Name>, namesBefore: set<Name>, name: Name, fCheckTakeover: bool,
        changed: bool)
      reads this
    {
      && dirtyHashes == dirtyBefore + (if changed then Prefixes(name) else {})
      && namesToCheckForTakeover == namesBefore + (if changed && fCheckTakeover then {name} else {})
    }

    // ---------- Merkle hashes ----------

    /** Every hash that is not marked as stale is right. */
    ghost predicate HashValid()
      reads this, base
    {
      HashInv(base.hash, Heights(), base.nodes, cache, cacheHashes, dirtyHashes)
    }

    function TakeoverOf(name: Name): Option<int>
      reads this, base
    {
      TakeoverIn(fRequireTakeoverHeights, cacheTakeoverHeights, base.nodes, name)
    }

    ghost function Heights(): Name -> int
      reads this, base
    {
      HeightsIn(fRequireTakeoverHeights, cacheTakeoverHeights, base.nodes)
    }

    /** Every name that holds claims has a takeover height. */
    ghost predicate HeightsKnown()
      reads this, base
    {
      forall p :: p in Trie() && Trie()[p].claims != [] ==> TakeoverOf(p).Some?
    }

    ghost predicate DueAt(p: Name)
      requires Closed(Trie())
      reads this, base
    {
      Due(base.hash, Heights(), Trie(), cacheHashes, dirtyHashes, p)
    }

    ghost predicate SettledAt(p: Name)
      requires Closed(Trie())
      reads this, base
    {
      Settled(base.hash, Heights(), Trie(), cacheHashes, dirtyHashes, p)
    }

    /** The entry of one child: hashed anew if it is marked, then read. Here and below, good
        says that the hashes were right before and every takeover height is known. */
    method HashChild(next: Name, ghost good: bool) returns (childHash: Digest)
      requires Lays(base.nodes, cache) && Closed(Trie()) && next in Trie() && next != []
      requires good ==> HeightsKnown() && DueAt(next)
      modifies this`cacheHashes, this`dirtyHashes
      ensures Local(Trie(), old(cacheHashes), old(dirtyHashes), cacheHashes, dirtyHashes, next)
      ensures good ==> SettledAt(next) && childHash == NodeHash(base.hash, Heights(), Trie(), next)
      decreases Below(Trie(), next), 259
    {
      hide Closed, Linked, Live, View, Lays, Shown, NodeHash, Due, Settled, Local, Below;
      ShownClosed(base.nodes, cache);
      if next in dirtyHashes {
        var ok := RecursiveComputeMerkleHash(RefAt(next), next, good);
      } else {
        LocalRefl(Trie(), cacheHashes, dirtyHashes, next);
        if good {
          CleanSettled(base.hash, Heights(), Trie(), cacheHashes, dirtyHashes, next);
        }
      }
      if next in cacheHashes {
        childHash := cacheHashes[next];
      } else {
        childHash := if next in cache then cache[next].hash else base.nodes[next].hash;
      }
      if good {
        SettledStored(base.hash, Heights(), Trie(), cacheHashes, dirtyHashes, next);
      }
    }

    ghost predicate ProgressAt(p: Name, c: nat)
      requires Closed(Trie()) && p in Trie()
      reads this, base
    {
      Progress(base.hash, Heights(), Trie(), cacheHashes, dirtyHashes, p, c)
    }

    /** One more entry. */
    method HashNext(sPos: Name, c: Byte, vchToHash: seq<Byte>, ghost good: bool) returns (longer: seq<Byte>)
      requires Lays(base.nodes, cache) && Closed(Trie()) && sPos in Trie() && c in Trie()[sPos].children
      requires good ==> HeightsKnown() && ProgressAt(sPos, c)
      modifies this`cacheHashes, this`dirtyHashes
      ensures Local(Trie(), old(cacheHashes), old(dirtyHashes), cacheHashes, dirtyHashes, Child(sPos, c))
      ensures good ==>
                && ProgressAt(sPos, c + 1)
                && longer + ChildBytes(base.hash, Heights(), Trie(), sPos, c + 1)
                   == vchToHash + ChildBytes(base.hash, Heights(), Trie(), sPos, c)
      decreases Below(Trie(), sPos), 256
    {
      hide Closed, Linked, Live, View, Lays, Shown, NodeHash, Due, Settled, Local, Below, Progress, ChildBytes;
      BelowChild(Trie(), sPos, c);
      ghost var ch, dirty := cacheHashes, dirtyHashes;
      if good {
        ProgressDue(base.hash, Heights(), Trie(), cacheHashes, dirtyHashes, sPos, c);
      }
      var childHash := HashChild(Child(sPos, c), good);
      if good {
        ProgressStep(base.hash, Heights(), Trie(), ch, dirty, cacheHashes, dirtyHashes, sPos, c);
      }
      ChildBytesStep(base.hash, Heights(), Trie(), sPos, c, vchToHash);
      longer := vchToHash + [c] + childHash;
    }

    /** The entries of all children, in order. */
    method HashChildren(tnCurrent: NodeRef, sPos: Name, ghost good: bool) returns (vchToHash: seq<Byte>)
      requires Lays(base.nodes, cache) && Closed(Trie()) && sPos in Trie() && tnCurrent == RefAt(sPos)
      requires good ==> HeightsKnown() && DueAt(sPos)
      modifies this`cacheHashes, this`dirtyHashes
      ensures Local(Trie(), old(cacheHashes), old(dirtyHashes), cacheHashes, dirtyHashes, sPos)
      ensures good ==> vchToHash == ChildBytes(base.hash, Heights(), Trie(), sPos, 0) && ProgressAt(sPos, 256)
      decreases Below(Trie(), sPos), 257
    {
      hide Closed, Linked, Live, View, Lays, Shown, NodeHash, Due, Settled, Local, Below, Progress, ChildBytes;
      ShownClosed(base.nodes, cache);
      var node := if tnCurrent.InCache? then cache[tnCurrent.path] else base.nodes[tnCurrent.path];
      vchToHash := [];
      LocalRefl(Trie(), cacheHashes, dirtyHashes, sPos);
      if good {
        ProgressStart(base.hash, Heights(), Trie(), cacheHashes, dirtyHashes, sPos);
      }
      for c := 0 to 256
        invariant Local(Trie(), old(cacheHashes), old(dirtyHashes), cacheHashes, dirtyHashes, sPos)
        invariant good ==> ProgressAt(sPos, c)
        invariant good ==>
            vchToHash + ChildBytes(base.hash, Heights(), Trie(), sPos, c)
                == ChildBytes(base.hash, Heights(), Trie(), sPos, 0)
      {
        ghost var ch, dirty := cacheHashes, dirtyHashes;
        if c in node.children {
          vchToHash := HashNext(sPos, c, vchToHash, good);
          LocalTransitive(Trie(), old(cacheHashes), old(dirtyHashes), ch, dirty, cacheHashes, dirtyHashes, sPos, c);
        } else if good {
          ChildBytesStep(base.hash, Heights(), Trie(), sPos, c, vchToHash);
          ProgressSkip(base.hash, Heights(), Trie(), cacheHashes, dirtyHashes, sPos, c);
        }
      }
      ChildBytesEnd(base.hash, Heights(), Trie(), sPos);
    }

    method RecursiveComputeMerkleHash(tnCurrent: NodeRef, sPos: Name, ghost good: bool) returns (ok: bool)
      requires Lays(base.nodes, cache) && Closed(Trie()) && sPos in Trie() && tnCurrent == RefAt(sPos)
      requires good ==> HeightsKnown() && (!(sPos == [] && Trie()[sPos].Empty()) ==> DueAt(sPos))
      modifies this`cacheHashes, this`dirtyHashes
      ensures Local(Trie(), old(cacheHashes), old(dirtyHashes), cacheHashes, dirtyHashes, sPos)
      ensures sPos == [] && Trie()[sPos].Empty() ==>
                cacheHashes == old(cacheHashes)[[] := EMPTY_TRIE_HASH] && dirtyHashes == old(dirtyHashes)
      ensures good && !(sPos == [] && Trie()[sPos].Empty()) ==> ok && SettledAt(sPos)
      decreases Below(Trie(), sPos), 258
    {
      hide Closed, Linked, Live, View, Lays, Shown, Due, Settled, Below, NodeHash, Local, Progress;
      ShownClosed(base.nodes, cache);
      var node := if tnCurrent.InCache? then cache[tnCurrent.path] else base.nodes[tnCurrent.path];
      if sPos == [] && node.Empty() {
        LocalRefl(Trie(), cacheHashes, dirtyHashes, sPos);
        LocalRoot(Trie(), cacheHashes, dirtyHashes, EMPTY_TRIE_HASH);
        cacheHashes := cacheHashes[[] := EMPTY_TRIE_HASH];
        return true;
      }
      var vchToHash := HashChildren(tnCurrent, sPos, good);
      if node.claims != [] {
        var nHeightOfLastTakeover := TakeoverOf(sPos);
        if nHeightOfLastTakeover == None {
          return false;
        }
        vchToHash := vchToHash + ValueHash(base.hash, node.claims[0].outPoint, nHeightOfLastTakeover.value);
      }
      if good {
        assert vchToHash
            == ChildBytes(base.hash, Heights(), Trie(), sPos, 0) + ValueBytes(base.hash, Heights()(sPos), node);
        NodeHashDef(base.hash, Heights(), Trie(), sPos);
        SettleNode(base.hash, Heights(), Trie(), cacheHashes, dirtyHashes, sPos);
      }
      LocalNode(Trie(), old(cacheHashes), old(dirtyHashes), cacheHashes, dirtyHashes, sPos, base.hash(vchToHash));
      cacheHashes := cacheHashes[sPos := base.hash(vchToHash)];
      dirtyHashes := dirtyHashes - {sPos};
      return true;
    }

    predicate Empty()
      reads this, base
    {
      base.Empty() && cache == map[]
    }

    /** The one state in which the hash of an empty trie is read instead of being given:
        the cache holds nodes, all of them empty, and nothing is marked. */
    ghost predicate EmptyButUnmarked()
      reads this, base
    {
      [] in Trie() && Trie()[[]].Empty() && !Empty() && dirtyHashes == {}
    }

    /** What a flush leaves as the hash of the root where the trie is empty. */
    ghost function EmptyRootHash(): Digest
      requires [] in base.nodes
      reads this, base
    {
      if dirtyHashes != {} && !Empty() then EMPTY_TRIE_HASH
      else if [] in cacheHashes then cacheHashes[[]]
      else base.nodes[[]].hash
    }

    method GetMerkleHash() returns (hash: Digest)
      requires Valid()
      modifies this`cacheHashes, this`dirtyHashes
      ensures old(HashValid()) && HeightsKnown() ==>
                && HashValid()
                && (forall p :: p in Trie() && !Trie()[[]].Empty() ==> p !in dirtyHashes)
                && hash == if EmptyButUnmarked()
                    then (if [] in cacheHashes then cacheHashes[[]] else base.nodes[[]].hash)
                           else RootHash(base.hash, Heights(), Trie())
      ensures forall p :: p in cacheHashes ==> p in old(cacheHashes) || p in Trie()
      ensures forall p :: p in old(cacheHashes) ==> p in cacheHashes
      ensures dirtyHashes <= old(dirtyHashes)
          && ([] in Trie() && Trie()[[]].Empty() ==> dirtyHashes == old(dirtyHashes))
      ensures old(dirtyHashes) == {} ==> cacheHashes == old(cacheHashes)
      ensures forall p :: p in old(dirtyHashes) && p !in dirtyHashes ==> p in cacheHashes
      ensures [] in base.nodes && [] in Trie() && Trie()[[]].Empty() ==>
                && EmptyRootHash() == old(EmptyRootHash())
                && (dirtyHashes != {} && !Empty() ==> [] in cacheHashes && cacheHashes[[]] == EMPTY_TRIE_HASH)
                && hash == if Empty() then EMPTY_TRIE_HASH else EmptyRootHash()
    {
      hide Closed, Linked, Live, View, Lays, Shown, NodeHash, HashesOk, CopiesHash, Pruned, Due, Settled, IsMakeHeap;
      ShownClosed(base.nodes, cache);
      if Empty() {
        EmptyCache(base.nodes, cache);
        assert cache == map[];
        return EMPTY_TRIE_HASH;
      }
      if dirtyHashes != {} {
        var root := if [] in cache then cache[[]] else base.nodes[[]];
        if old(HashValid()) && !root.Empty() {
          RootDue(base.hash, Heights(), Trie(), cacheHashes, dirtyHashes);
        }
        var ok := RecursiveComputeMerkleHash(RefAt([]), [], HashValid() && HeightsKnown());
        if old(HashValid()) && HeightsKnown() {
          ComputedHashes(base.hash, Heights(), base.nodes, cache, old(cacheHashes), old(dirtyHashes), cacheHashes,
              dirtyHashes);
        }
      } else if HashValid() {
        CleanRoot(base.hash, Heights(), base.nodes, cache, cacheHashes, dirtyHashes);
      }
      if [] in cacheHashes {
        return cacheHashes[[]];
      }
      return base.nodes[[]].hash;
    }

    // ---------- flushing ----------

    method Clear()
      modifies this
      ensures cache == map[] && blockOriginals == map[] && dirtyHashes == {} && cacheHashes == map[]
      ensures namesToCheckForTakeover == {} && cacheTakeoverHeights == map[]
    {
      cache, blockOriginals, dirtyHashes, cacheHashes := map[], map[], {}, map[];
      namesToCheckForTakeover, cacheTakeoverHeights := {}, map[];
    }

    /** Writes the cache into the base. That fails exactly when a hash or a takeover height
        was kept for a name that is no longer in the trie. */
    method Flush() returns (ok: bool)
      requires Valid()
      modifies this, base`nodes
      ensures ok <==> old(cacheHashes).Keys + old(cacheTakeoverHeights).Keys <= old(Trie()).Keys
      ensures ok
          ==> Valid() && cache == map[] && dirtyHashes == {} && cacheHashes == map[] && cacheTakeoverHeights == map[]
      ensures ok ==> Trie() == base.nodes && SameContent(old(Trie()), base.nodes)
      ensures ok ==> HeightsWritten(old(base.nodes), old(cacheTakeoverHeights), base.nodes)
      ensures ok && [] in old(base.nodes) && [] in old(Trie()) && old(Trie())[[]].Empty() ==>
                [] in base.nodes && base.nodes[[]].hash == old(EmptyRootHash())
      ensures ok && old(HashValid()) && old(HeightsKnown()) ==>
                && HashesRight(base.hash, old(Heights()), base.nodes) && HashValid()
                && HashesRight(base.hash, HeightsIn(fRequireTakeoverHeights, map[], base.nodes), base.nodes)
      ensures (ok && old(HashValid()) && old(HeightsKnown())
               && (fRequireTakeoverHeights || forall p :: p in base.nodes ==> base.nodes[p].nHeightOfLastTakeover == 0))
              ==> base.Empty() || ConsistentBelow(base.hash, base.nodes, [])
    {
      hide Closed, Lays, Shown, Pruned, HashInv, IsMakeHeap, HashesRight, ConsistentBelow, SameContent, Flushed,
          HeightsWritten;
      ghost var b, c0, heights := base.nodes, cache, cacheTakeoverHeights;
      ghost var v := Trie();
      ghost var good := HashValid() && HeightsKnown();
      ShownClosed(b, c0);
      if dirtyHashes != {} {
        var hash := GetMerkleHash();
      }
      ghost var ch, dirty := cacheHashes, dirtyHashes;
      ok := base.Update(cache, cacheHashes, cacheTakeoverHeights);
      FlushedContent(b, c0, ch, heights);
      FlushedHeights(b, c0, ch, heights);
      FlushedRoot(b, c0, ch, heights);
      if ok {
        Clear();
        ContentKeys(v, base.nodes);
        FreshCache(base.nodes);
        if good {
          FlushedHashes(base.hash, fRequireTakeoverHeights, b, c0, ch, heights, dirty);
          FreshHashInv(base.hash, Heights(), base.nodes);
          if fRequireTakeoverHeights || forall p :: p in base.nodes ==> base.nodes[p].nHeightOfLastTakeover == 0 {
            OwnHeightsRight(base.hash, fRequireTakeoverHeights, base.nodes);
          }
        }
      }
    }

    // ---------- proofs ----------

    /** No node of the trie is marked. */
    ghost predicate AllClean()
      reads this, base
    {
      forall p :: p in Trie() ==> p !in dirtyHashes
    }

    /** The hash of a child the proof does not go on to. */
    method GetLeafHashForProof(leaf: Name) returns (childHash: Digest)
      requires Lays(base.nodes, cache) && Closed(Trie()) && leaf in Trie() && leaf != []
      ensures HashValid() && AllClean() ==> childHash == NodeHash(base.hash, Heights(), Trie(), leaf)
    {
      hide Closed, Linked, Live, View, Lays, Shown, NodeHash, CopiesHash;
      ShownClosed(base.nodes, cache);
      if leaf in cacheHashes {
        return cacheHashes[leaf];
      }
      return if leaf in cache then cache[leaf].hash else base.nodes[leaf].hash;
    }

    /** The entry of one child, blank for the child the proof goes on to. */
    method ProofEntry(currentPosition: Name, c: Byte, follow: Option<Byte>) returns (entry: Entry)
      requires Lays(base.nodes, cache) && Closed(Trie()) && Child(currentPosition, c) in Trie()
      ensures HashValid() && AllClean() ==>
                entry == MaskEntry((c, NodeHash(base.hash, Heights(), Trie(), Child(currentPosition, c))), follow)
    {
      hide Closed, Linked, Live, View, Lays, Shown, NodeHash, HashInv;
      if follow == Some(c) {
        return (c, NULL_DIGEST);
      }
      var childHash := GetLeafHashForProof(Child(currentPosition, c));
      return (c, childHash);
    }

    /** The children of one node of a proof. */
    method ProofChildren(current: NodeRef, currentPosition: Name, follow: Option<Byte>) returns (children: seq<Entry>)
      requires Lays(base.nodes, cache) && Closed(Trie()) && currentPosition in Trie()
          && current == RefAt(currentPosition)
      ensures HashValid() && AllClean() ==>
                children == Masked(EntriesFrom(base.hash, Heights(), Trie(), currentPosition, 0), follow)
    {
      hide Closed, Linked, Live, View, Lays, Shown, NodeHash, HashInv, EntriesFrom, Masked, MaskEntry;
      ghost var all := EntriesFrom(base.hash, Heights(), Trie(), currentPosition, 0);
      ShownClosed(base.nodes, cache);
      var node := if current.InCache? then cache[current.path] else base.nodes[current.path];
      children := [];
      assert [] + Masked(all, follow) == Masked(all, follow);
      for c := 0 to 256
        invariant HashValid() && AllClean() ==>
            children + Masked(EntriesFrom(base.hash, Heights(), Trie(), currentPosition, c), follow)
                == Masked(all, follow)
      {
        EntriesStep(base.hash, Heights(), Trie(), currentPosition, c, follow, children);
        if c in node.children {
          var entry := ProofEntry(currentPosition, c, follow);
          children := children + [entry];
        }
      }
      EntriesEnd(base.hash, Heights(), Trie(), currentPosition);
    }

    /** One node of a proof, and whether the walk goes on. */
    method ProofNodeAt(current: NodeRef, name: Name, k: nat, signedChar: bool) returns (node: ProofNode, next: bool)
      requires Lays(base.nodes, cache) && Closed(Trie())
      requires k <= |name| && name[..k] in Trie() && current == RefAt(name[..k])
      ensures next <==> GoesOn(signedChar, Trie(), name, k)
      ensures HashValid() && AllClean() && HeightsKnown() ==>
                node == NodeProof(base.hash, Heights(), Trie(), signedChar, name, k)
    {
      hide Closed, Linked, Live, View, Lays, Shown, NodeHash, HashInv, EntriesFrom, ValueHash;
      ShownClosed(base.nodes, cache);
      var tnode := if current.InCache? then cache[current.path] else base.nodes[current.path];
      var follow := Follow(signedChar, name, k);
      var children := ProofChildren(current, name[..k], follow);
      var valueHash := NULL_DIGEST;
      if tnode.claims != [] && name[..k] != name {
        var height := TakeoverOf(name[..k]);
        valueHash := ValueHash(base.hash, tnode.claims[0].outPoint, if height == None then 0 else height.value);
      }
      return ProofNode(children, tnode.claims != [], valueHash), follow.Some? && follow.value in tnode.children;
    }

    /** The nodes of a proof, from the root to where the walk ends. */
    method ProofNodes(name: Name, signedChar: bool) returns (nodes: seq<ProofNode>, k: nat)
      requires Lays(base.nodes, cache) && Closed(Trie()) && [] in Trie() && name[..0] == []
      ensures k == WalkEnd(Trie(), signedChar, name, 0)
      ensures HashValid() && AllClean() && HeightsKnown() ==>
                nodes == ProofFrom(base.hash, Heights(), Trie(), signedChar, name, 0)
    {
      hide Closed, Linked, Live, View, Lays, Shown, HashInv, GoesOn, NodeProof, ProofFrom, WalkEnd;
      ghost var all := ProofFrom(base.hash, Heights(), Trie(), signedChar, name, 0);
      var next := true;
      nodes, k := [], 0;
      assert [] + all == all;
      while next
        invariant k <= |name| && name[..k] in Trie()
        invariant WalkEnd(Trie(), signedChar, name, 0) == if next then WalkEnd(Trie(), signedChar, name, k) else k
        invariant HashValid() && AllClean() && HeightsKnown() ==>
            (if next then nodes + ProofFrom(base.hash, Heights(), Trie(), signedChar, name, k) else nodes) == all
        decreases |name| - k, next
      {
        ProofFromStep(base.hash, Heights(), Trie(), signedChar, name, k, nodes);
        var node;
        node, next := ProofNodeAt(RefAt(name[..k]), name, k, signedChar);
        nodes := nodes + [node];
        if next {
          k := k + 1;
        }
      }
    }

    /** The proof for a name. Whether a child is the one to go on to is decided by comparing
        its unsigned key with a char of the name, which may be signed. */
    method GetProofForName(name: Name, signedChar: bool) returns (proof: Proof)
      requires Valid()
      modifies this`cacheHashes, this`dirtyHashes
      ensures (old(HashValid()) && HeightsKnown() && [] in Trie() && !Trie()[[]].Empty()) ==>
                HashValid() && IsProofFor(base.hash, Heights(), Trie(), signedChar, name, proof)
    {
      hide Closed, Linked, Live, View, Lays, Shown, HashInv, RootHash, Pruned, IsMakeHeap, GoesOn, ProofFrom;
      if dirtyHashes != {} {
        var hash := GetMerkleHash();
      }
      ShownClosed(base.nodes, cache);
      assert name[..0] == [] && name[..|name|] == name;
      var nodes, k := ProofNodes(name, signedChar);
      proof := FinishProof(name, k, nodes);
    }

    /** The header of a proof, from where the walk ended. */
    method FinishProof(name: Name, k: nat, nodes: seq<ProofNode>) returns (proof: Proof)
      requires Lays(base.nodes, cache) && k <= |name| && name[..k] in Trie()
      ensures proof.nodes == nodes
      ensures proof.hasValue <==> k == |name| && Trie()[name[..k]].claims != []
      ensures proof.hasValue && HeightsKnown() ==>
                && name in Trie() && Trie()[name].claims != []
                && proof.outPoint == Trie()[name].claims[0].outPoint && proof.nHeightOfLastTakeover == Heights()(name)
    {
      hide Closed, Linked, Live, View, Lays, Shown;
      ShownClosed(base.nodes, cache);
      if k == |name| {
        assert name[..k] == name;
        var node := if name in cache then cache[name] else base.nodes[name];
        if node.claims != [] {
          var height := TakeoverOf(name);
          return Proof(nodes, true, node.claims[0].outPoint, if height == None then 0 else height.value);
        }
      }
      return Proof(nodes, false, OutPoint(NULL_DIGEST, 0xffff_ffff), 0);
    }
  }
}
