/** A cache of nodes laid over a base trie: a node is the cached one where there is one,
    else the one of the base. Steps on the cache are steps on the trie that shows through. */
module Overlay {
  import opened ClaimTypes
  import opened NameTree
  import opened PathOps

  /** Every cached node is part of the trie that shows through. */
  ghost predicate Lays(b: Tree, cache: Tree)
  {
    && Closed(b)
    && Linked(b + cache)
    && forall p :: p in cache ==> Live(b + cache, p)
  }

  ghost function Shown(b: Tree, cache: Tree): Tree
  {
    View(b + cache)
  }

  lemma ShownClosed(b: Tree, cache: Tree)
    requires Lays(b, cache)
    ensures Closed(Shown(b, cache)) && [] in Shown(b, cache) && [] in b
    ensures forall p :: p in cache ==> p in Shown(b, cache) && Shown(b, cache)[p] == cache[p]
    ensures forall p :: p in Shown(b, cache) && p !in cache ==> p in b && Shown(b, cache)[p] == b[p]
  {
    ViewClosed(b + cache);
  }

  lemma ShownChild(b: Tree, cache: Tree, p: Name, c: Byte)
    requires Lays(b, cache) && p in Shown(b, cache)
    ensures c in Shown(b, cache)[p].children <==> Child(p, c) in Shown(b, cache)
  {
  }

  lemma FreshCache(b: Tree)
    requires Closed(b)
    ensures Lays(b, map[]) && Shown(b, map[]) == b
  {
    assert b + map[] == b;
    ClosedView(b);
  }

  // ---------- nodes blockOriginals keeps ----------

  /** For a cache no block was applied to yet: what a name held when the block began. */
  ghost predicate Remembers(b: Tree, cache: Tree, originals: Tree)
  {
    && (forall p :: p in cache ==> p in originals)
    && (forall p :: p in b && !Live(b + cache, p) ==> p in originals)
    && (forall p :: p in originals ==> originals[p].claims == ClaimsAt(b, p))
  }

  /** The first copy of a node made during a block is kept. */
  function Noted(originals: Tree, p: Name, n: Node): Tree
  {
    if p in originals then originals else originals[p := n]
  }

  // ---------- hashes of cached copies ----------

  /** A cached node whose hash is not that of the base copy is due for hashing, or hashed. */
  ghost predicate CopiesHash(b: Tree, cache: Tree, marked: set<Name>)
  {
    forall p :: p in cache ==>
      || p in marked
      || (p in b && cache[p].hash == b[p].hash && cache[p].nHeightOfLastTakeover == b[p].nHeightOfLastTakeover)
  }

  // ---------- copying a node into the cache ----------

  lemma CopyNode(b: Tree, cache: Tree, p: Name)
    requires Lays(b, cache) && p in Shown(b, cache) && p !in cache
    ensures p in b
    ensures b + cache[p := b[p]] == b + cache
    ensures Lays(b, cache[p := b[p]]) && Shown(b, cache[p := b[p]]) == Shown(b, cache)
  {
    assert b + cache[p := b[p]] == b + cache;
  }

  // ---------- replacing the claims of a cached node ----------

  lemma SetClaims(b: Tree, cache: Tree, p: Name, n: Node)
    requires Lays(b, cache) && p in cache && n.children == cache[p].children
    ensures Lays(b, cache[p := n])
    ensures Shown(b, cache[p := n]) == Shown(b, cache)[p := n]
    ensures forall q :: Live(b + cache[p := n], q) <==> Live(b + cache, q)
  {
    assert b + cache[p := n] == (b + cache)[p := n];
    SetNode(b + cache, p, n);
  }

  // ---------- adding a child below a cached node ----------

  function GrownCache(cache: Tree, p: Name, c: Byte): Tree
    requires p in cache
  {
    cache[Child(p, c) := NEW_NODE][p := cache[p].With(c)]
  }

  lemma GrownMap(b: Tree, cache: Tree, p: Name, c: Byte)
    requires p in cache
    ensures b + GrownCache(cache, p, c) == WithChild(b + cache, p, c)
  {
  }

  lemma GrowCache(b: Tree, cache: Tree, p: Name, c: Byte)
    requires Lays(b, cache) && p in cache && c !in cache[p].children
    ensures Child(p, c) !in cache
    ensures Lays(b, GrownCache(cache, p, c))
    ensures Shown(b, GrownCache(cache, p, c)) == WithChild(Shown(b, cache), p, c)
    ensures forall q :: Live(b + GrownCache(cache, p, c), q) <==> Live(b + cache, q) || q == Child(p, c)
  {
    hide Closed, Linked, View;
    GrownMap(b, cache, p, c);
    AddChildLinked(b + cache, p, c);
    AddChildView(b + cache, p, c);
    assert !Live(b + cache, Child(p, c));
  }

  // ---------- cutting a leaf below a cached node ----------

  function CutCache(cache: Tree, p: Name, c: Byte): Tree
    requires p in cache
  {
    (cache - {Child(p, c)})[p := cache[p].Without(c)]
  }

  lemma ShrinkCache(b: Tree, cache: Tree, p: Name, c: Byte)
    requires Lays(b, cache) && p in cache && c in cache[p].children
    requires Child(p, c) in Shown(b, cache) && Shown(b, cache)[Child(p, c)].children == {}
    ensures Lays(b, CutCache(cache, p, c))
    ensures Shown(b, CutCache(cache, p, c)) == Cut(Shown(b, cache), p, c)
    ensures forall q :: Live(b + CutCache(cache, p, c), q) <==> Live(b + cache, q) && q != Child(p, c)
  {
    hide Linked, Live;
    CutMap(b, cache, p, c);
    CutLeaf(b + cache, b + CutCache(cache, p, c), p, c);
  }

  lemma CutMap(b: Tree, cache: Tree, p: Name, c: Byte)
    requires p in cache
    ensures Cuts(b + cache, b + CutCache(cache, p, c), p, c)
    ensures forall q :: q in CutCache(cache, p, c) ==> q in cache && q != Child(p, c)
  {
    assert Child(p, c) != p;
  }

  /** The cache with p in it: as it is, or with the copy from the base. */
  function Copied(b: Tree, cache: Tree, p: Name): Tree
    requires p in cache || p in b
  {
    if p in cache then cache else cache[p := b[p]]
  }

  lemma CopyAndCut(b: Tree, full: Tree, p: Name, c: Byte)
    requires Lays(b, full) && p in Shown(b, full) && c in Shown(b, full)[p].children
    requires Child(p, c) in full && full[Child(p, c)].Empty()
    ensures p in full || p in b
    ensures var cut := CutCache(Copied(b, full, p), p, c);
            && c in Copied(b, full, p)[p].children
            && Lays(b, cut) && Shown(b, cut) == Cut(Shown(b, full), p, c)
            && cut == (full - {Child(p, c)})[p := Copied(b, full, p)[p].Without(c)]
  {
    hide Closed, Linked, Live, View, Lays, Shown;
    ShownClosed(b, full);
    if p !in full {
      CopyNode(b, full, p);
    }
    ShownClosed(b, Copied(b, full, p));
    ShrinkCache(b, Copied(b, full, p), p, c);
  }

  // ---------- the originals along these steps ----------

  lemma FreshRemembers(b: Tree)
    requires Closed(b)
    ensures Remembers(b, map[], map[])
  {
    assert b + map[] == b;
  }

  lemma RememberCopy(b: Tree, cache: Tree, originals: Tree, p: Name)
    requires Lays(b, cache) && p in Shown(b, cache) && p !in cache
    requires Remembers(b, cache, originals)
    ensures p in b && Remembers(b, cache[p := b[p]], Noted(originals, p, b[p]))
  {
    CopyNode(b, cache, p);
  }

  lemma RememberGrow(b: Tree, cache: Tree, originals: Tree, p: Name, c: Byte)
    requires Lays(b, cache) && p in cache && c !in cache[p].children
    requires Remembers(b, cache, originals)
    ensures Remembers(b, GrownCache(cache, p, c), Noted(originals, Child(p, c), NEW_NODE))
  {
    hide Closed, Linked, View, Lays;
    GrowCache(b, cache, p, c);
    assert !Live(b + cache, Child(p, c));
  }

  lemma RememberSetClaims(b: Tree, cache: Tree, originals: Tree, p: Name, n: Node)
    requires Lays(b, cache) && p in cache && n.children == cache[p].children
    requires Remembers(b, cache, originals)
    ensures Remembers(b, cache[p := n], originals)
  {
    hide Closed, Linked, View, Lays;
    SetClaims(b, cache, p, n);
  }

  lemma RememberCut(b: Tree, cache: Tree, originals: Tree, p: Name, c: Byte)
    requires Lays(b, cache) && p in cache && c in cache[p].children
    requires Child(p, c) in cache && cache[Child(p, c)].children == {}
    requires Remembers(b, cache, originals)
    ensures Remembers(b, CutCache(cache, p, c), originals)
  {
    ShrinkCache(b, cache, p, c);
  }

  lemma RememberCopyAndCut(b: Tree, full: Tree, originals: Tree, p: Name, c: Byte)
    requires Lays(b, full) && p in Shown(b, full) && c in Shown(b, full)[p].children
    requires Child(p, c) in full && full[Child(p, c)].Empty()
    requires Remembers(b, full, originals)
    ensures p in full || p in b
    ensures Remembers(b, CutCache(Copied(b, full, p), p, c),
                      if p in full then originals else Noted(originals, p, Copied(b, full, p)[p]))
  {
    hide Closed, Linked, Live, View, Lays, Shown, Remembers;
    ShownClosed(b, full);
    if p in full {
      RememberCut(b, full, originals, p, c);
    } else {
      CopyNode(b, full, p);
      RememberCopy(b, full, originals, p);
      ShownClosed(b, Copied(b, full, p));
      RememberCut(b, Copied(b, full, p), Noted(originals, p, b[p]), p, c);
    }
  }
}
