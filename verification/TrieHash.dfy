/** The Merkle hash of a trie, computed from scratch. */
module TrieHash {
  import opened ClaimTypes
  import opened NameTree
  import opened PathOps
  import opened Overlay

  type HashFn = seq<Byte> -> Digest

  // ---------- the hash of a value ----------

  /** A number in decimal, as characters. */
  function Decimal(n: nat): seq<Byte>
  {
    if n < 10 then [48 + n] else Decimal(n / 10) + [48 + n % 10]
  }

  /** The takeover height of a name: zero where heights are not required, else the one
      the cache holds, else that of a node of the base that has claims. */
  function TakeoverIn(required: bool, heights: map<Name, int>, b: Tree, name: Name): Option<int>
  {
    if !required then Some(0)
    else if name in heights then Some(heights[name])
    else if name in b && b[name].claims != [] then Some(b[name].nHeightOfLastTakeover)
    else None
  }

  /** The same as a total function, for where the height is known. */
  ghost function HeightsIn(required: bool, heights: map<Name, int>, b: Tree): Name -> int
  {
    name => var found := TakeoverIn(required, heights, b, name); if found.Some? then found.value else 0
  }

  /** Eight bytes, the last four a 32-bit height, most significant first. */
  function HeightBytes(n: int): (r: seq<Byte>)
    ensures |r| == 8
  {
    [0, 0, 0, 0, (n / 0x1000000) % 256, (n / 0x10000) % 256, (n / 0x100) % 256, n % 256]
  }

  function ValueHash(h: HashFn, outPoint: OutPoint, nHeightOfLastTakeover: int): Digest
  {
    h(h(outPoint.hash) + h(Decimal(outPoint.n)) + h(HeightBytes(nHeightOfLastTakeover)))
  }

  /** What a node adds after its children: the hash of its controlling claim, if any. */
  function ValueBytes(h: HashFn, height: int, n: Node): seq<Byte>
  {
    if n.claims == [] then [] else ValueHash(h, n.claims[0].outPoint, height)
  }

  // ---------- the hash of a node ----------

  ghost function Below(t: Tree, p: Name): set<Name>
  {
    set q | q in t && p <= q
  }

  lemma BelowChild(t: Tree, p: Name, c: Byte)
    requires Closed(t) && p in t && c in t[p].children
    ensures Child(p, c) in t && Below(t, Child(p, c)) < Below(t, p)
  {
    forall q | q in Below(t, Child(p, c))
      ensures q in Below(t, p)
    {
      assert p == Child(p, c)[..|p|] == q[..|p|];
    }
    assert p in Below(t, p) && p !in Below(t, Child(p, c));
  }

  /** The children from character c on: each character, then the hash of that child. */
  ghost function ChildBytes(h: HashFn, tk: Name -> int, t: Tree, p: Name, c: nat): seq<Byte>
    requires Closed(t) && p in t && c <= 256
    decreases Below(t, p), 256 - c
  {
    if c == 256 then []
    else if c in t[p].children then
      BelowChild(t, p, c);
      [c] + NodeHash(h, tk, t, Child(p, c)) + ChildBytes(h, tk, t, p, c + 1)
    else ChildBytes(h, tk, t, p, c + 1)
  }

  ghost function NodeHash(h: HashFn, tk: Name -> int, t: Tree, p: Name): Digest
    requires Closed(t) && p in t
    decreases Below(t, p), 257
  {
    h(ChildBytes(h, tk, t, p, 0) + ValueBytes(h, tk(p), t[p]))
  }

  /** The root hash of a trie: one when it holds nothing. */
  ghost function RootHash(h: HashFn, tk: Name -> int, t: Tree): Digest
    requires Closed(t)
  {
    if t[[]].Empty() then EMPTY_TRIE_HASH else NodeHash(h, tk, t, [])
  }

  // ---------- what a hash depends on ----------

  /** The same children and the same claim in front. */
  predicate SameShape(a: Node, b: Node)
  {
    a.children == b.children && (a.claims == [] <==> b.claims == [])
    && (a.claims != [] ==> a.claims[0].outPoint == b.claims[0].outPoint)
  }

  ghost predicate SameBelow(t: Tree, u: Tree, p: Name)
  {
    && (forall q :: q in t && p <= q ==> q in u && SameShape(t[q], u[q]))
    && (forall q :: q in u && p <= q ==> q in t)
  }

  lemma SameBelowChild(t: Tree, u: Tree, p: Name, c: Byte)
    requires SameBelow(t, u, p)
    ensures SameBelow(t, u, Child(p, c))
  {
    forall q | (q in t || q in u) && Child(p, c) <= q
      ensures p <= q
    {
      assert p == Child(p, c)[..|p|] == q[..|p|];
    }
  }

  lemma ChildBytesStep(h: HashFn, tk: Name -> int, t: Tree, p: Name, c: nat, vch: seq<Byte>)
    requires Closed(t) && p in t && c < 256
    ensures c !in t[p].children ==> ChildBytes(h, tk, t, p, c) == ChildBytes(h, tk, t, p, c + 1)
    ensures c in t[p].children ==>
              && Child(p, c) in t
              && vch + ChildBytes(h, tk, t, p, c)
                 == (vch + [c] + NodeHash(h, tk, t, Child(p, c))) + ChildBytes(h, tk, t, p, c + 1)
  {
    hide Closed, NodeHash;
    if c in t[p].children {
      BelowChild(t, p, c);
    }
  }

  lemma ChildBytesEnd(h: HashFn, tk: Name -> int, t: Tree, p: Name)
    requires Closed(t) && p in t
    ensures ChildBytes(h, tk, t, p, 256) == []
  {
  }

  lemma {:induction false} ChildBytesFrame(h: HashFn, tk: Name -> int, t: Tree, u: Tree, p: Name, c: nat)
    requires Closed(t) && Closed(u) && p in t && p in u && SameBelow(t, u, p) && c <= 256
    ensures ChildBytes(h, tk, t, p, c) == ChildBytes(h, tk, u, p, c)
    decreases Below(t, p), 256 - c
  {
    hide Closed;
    assert p <= p;
    if c < 256 {
      ChildBytesFrame(h, tk, t, u, p, c + 1);
      if c in t[p].children {
        BelowChild(t, p, c);
        BelowChild(u, p, c);
        SameBelowChild(t, u, p, c);
        NodeHashFrame(h, tk, t, u, Child(p, c));
      }
    }
  }

  /** A hash depends on the shape of the nodes below, and on nothing else. */
  lemma {:induction false} NodeHashFrame(h: HashFn, tk: Name -> int, t: Tree, u: Tree, p: Name)
    requires Closed(t) && Closed(u) && p in t && p in u && SameBelow(t, u, p)
    ensures NodeHash(h, tk, t, p) == NodeHash(h, tk, u, p)
    decreases Below(t, p), 257
  {
    hide Closed;
    assert p <= p;
    ChildBytesFrame(h, tk, t, u, p, 0);
  }

  lemma {:induction false} ChildBytesHeights(h: HashFn, tk: Name -> int, tk': Name -> int, t: Tree, p: Name, c: nat)
    requires Closed(t) && p in t && c <= 256
    requires forall q :: q in t && p <= q && t[q].claims != [] ==> tk(q) == tk'(q)
    ensures ChildBytes(h, tk, t, p, c) == ChildBytes(h, tk', t, p, c)
    decreases Below(t, p), 256 - c
  {
    hide Closed;
    if c < 256 {
      ChildBytesHeights(h, tk, tk', t, p, c + 1);
      if c in t[p].children {
        BelowChild(t, p, c);
        PassOnHeights(tk, tk', t, p, c);
        NodeHashHeights(h, tk, tk', t, Child(p, c));
      }
    }
  }

  lemma PassOnHeights(tk: Name -> int, tk': Name -> int, t: Tree, p: Name, c: Byte)
    requires forall q :: q in t && p <= q && t[q].claims != [] ==> tk(q) == tk'(q)
    ensures forall q :: q in t && Child(p, c) <= q && t[q].claims != [] ==> tk(q) == tk'(q)
  {
    forall q | q in t && Child(p, c) <= q && t[q].claims != []
      ensures tk(q) == tk'(q)
    {
      PrefixTransitive(p, Child(p, c), q);
    }
  }

  /** Only the takeover heights of names that hold claims count, and only those at and below
      the node. */
  lemma {:induction false} NodeHashHeights(h: HashFn, tk: Name -> int, tk': Name -> int, t: Tree, p: Name)
    requires Closed(t) && p in t
    requires forall q :: q in t && p <= q && t[q].claims != [] ==> tk(q) == tk'(q)
    ensures NodeHash(h, tk, t, p) == NodeHash(h, tk', t, p)
    decreases Below(t, p), 257
  {
    hide Closed;
    ChildBytesHeights(h, tk, tk', t, p, 0);
  }

  // ---------- stored hashes and the dirty set ----------

  /** The hash last computed for a node: in the cache, else in the node. */
  function Stored(cacheHashes: map<Name, Digest>, t: Tree, p: Name): Digest
    requires p in t
  {
    if p in cacheHashes then cacheHashes[p] else t[p].hash
  }

  /** A stale hash is marked, and so is everything above a marked node. The root of an
      empty trie has no hash of its own. */
  ghost predicate HashesOk(h: HashFn, tk: Name -> int, t: Tree, cacheHashes: map<Name, Digest>, dirty: set<Name>)
    requires Closed(t)
  {
    && (forall p ::
        p in t && p !in dirty && !(p == [] && t[p].Empty()) ==> Stored(cacheHashes, t, p) == NodeHash(h, tk, t, p))
    && (forall p :: p in t && p in dirty && p != [] ==> Parent(p) in dirty)
  }

  lemma {:induction false} CleanBelow(t: Tree, dirty: set<Name>, p: Name, q: Name)
    requires Closed(t) && p in t && q in t && p <= q && p !in dirty
    requires forall r :: r in t && r in dirty && r != [] ==> Parent(r) in dirty
    ensures q !in dirty
    decreases |q|
  {
    if |p| < |q| {
      assert p == q[..|p|] == Parent(q)[..|p|];
      assert Live(t, Parent(q));
      CleanBelow(t, dirty, p, Parent(q));
    } else {
      assert p == q;
    }
  }

  lemma PrefixTransitive(p: Name, q: Name, r: Name)
    ensures p <= q && q <= r ==> p <= r
  {
    if p <= q && q <= r {
      assert p == q[..|p|] == r[..|q|][..|p|] == r[..|p|];
    }
  }

  /** A change confined to a path, all of which gets marked. */
  lemma MarkedChange(h: HashFn, tk: Name -> int, t: Tree, u: Tree, name: Name, cacheHashes: map<Name, Digest>,
      dirty: set<Name>)
    requires Closed(t) && Closed(u) && HashesOk(h, tk, t, cacheHashes, dirty)
    requires forall q :: q in t && !(q <= name) ==> q in u && u[q] == t[q]
    requires forall q :: q in u && !(q <= name) ==> q in t
    ensures HashesOk(h, tk, u, cacheHashes, dirty + Prefixes(name))
  {
    hide Closed, NodeHash;
    var marked := dirty + Prefixes(name);
    forall p | p in u && p !in marked
      ensures Stored(cacheHashes, u, p) == NodeHash(h, tk, u, p)
    {
      InPrefixes(name, p);
      forall q | (q in t || q in u) && p <= q
        ensures !(q <= name)
      {
        PrefixTransitive(p, q, name);
      }
      assert SameBelow(t, u, p);
      NodeHashFrame(h, tk, t, u, p);
    }
    forall p | p in u && p in marked && p != []
      ensures Parent(p) in marked
    {
      InPrefixes(name, p);
      InPrefixes(name, Parent(p));
    }
  }

  /** A change that leaves every shape and every hash field as it was. */
  lemma UnmarkedChange(h: HashFn, tk: Name -> int, t: Tree, u: Tree, cacheHashes: map<Name, Digest>, dirty: set<Name>)
    requires Closed(t) && Closed(u) && HashesOk(h, tk, t, cacheHashes, dirty)
    requires t.Keys == u.Keys
    requires forall q :: q in t ==> SameShape(t[q], u[q]) && t[q].hash == u[q].hash
    ensures HashesOk(h, tk, u, cacheHashes, dirty)
  {
    hide Closed, NodeHash;
    forall p | p in u
      ensures NodeHash(h, tk, u, p) == NodeHash(h, tk, t, p)
    {
      assert SameBelow(t, u, p);
      NodeHashFrame(h, tk, t, u, p);
    }
  }

  // ---------- insertions and removals ----------

  lemma {:induction false} GrowPathThere(t: Tree, name: Name, k: nat)
    requires Closed(t) && name in t && k <= |name|
    ensures GrowPath(t, name, k) == t
  {
    hide Closed;
    if k > 0 {
      GrowPathThere(t, name, k - 1);
      ClosedHas(t, name, k - 1);
    }
  }

  lemma {:induction false} PruneToNothing(t: Tree, name: Name, k: nat)
    requires Closed(t) && name in t && k <= |name| && !t[name].Empty()
    ensures PruneTo(t, name, k) == t
    decreases |name| - k
  {
    hide Closed;
    if k < |name| {
      PruneToNothing(t, name, k + 1);
      ClosedHas(t, name, k);
      ClosedHas(t, name, k + 1);
      assert k + 1 == |name| ==> name[..k + 1] == name;
    }
  }

  lemma InsertHashes(h: HashFn, tk: Name -> int, t: Tree, name: Name, claims: seq<ClaimValue>,
                     cacheHashes: map<Name, Digest>, dirty: set<Name>)
    requires Closed(t) && HashesOk(h, tk, t, cacheHashes, dirty) && claims != []
    ensures HashesOk(h, tk, Inserted(t, name, claims), cacheHashes,
                     dirty + if TopChanged(ClaimsAt(t, name), claims) then Prefixes(name) else {})
  {
    hide Closed, NodeHash, HashesOk, Inserted, Prefixes;
    var u := Inserted(t, name, claims);
    if TopChanged(ClaimsAt(t, name), claims) {
      forall q | (q in t || q in u) && !(q <= name)
        ensures q in t && q in u && u[q] == t[q]
      {
        InsertedAt(t, name, claims, q);
      }
      MarkedChange(h, tk, t, u, name, cacheHashes, dirty);
    } else {
      InsertedThere(t, name, claims);
      UnmarkedChange(h, tk, t, u, cacheHashes, dirty);
      assert dirty + {} == dirty;
    }
  }

  lemma InsertedThere(t: Tree, name: Name, claims: seq<ClaimValue>)
    requires Closed(t) && name in t
    ensures Inserted(t, name, claims) == t[name := t[name].(claims := claims)]
  {
    GrowPathThere(t, name, |name|);
  }

  lemma RemoveHashes(h: HashFn, tk: Name -> int, t: Tree, name: Name, claims: seq<ClaimValue>,
                     cacheHashes: map<Name, Digest>, dirty: set<Name>)
    requires Closed(t) && HashesOk(h, tk, t, cacheHashes, dirty) && name in t && t[name].claims != []
    ensures HashesOk(h, tk, Removed(t, name, claims), cacheHashes,
                     dirty + if TopChanged(t[name].claims, claims) then Prefixes(name) else {})
  {
    hide Closed, NodeHash, HashesOk, Removed, Prefixes;
    var u := Removed(t, name, claims);
    if TopChanged(t[name].claims, claims) {
      forall q | (q in t || q in u) && !(q <= name)
        ensures q in t && q in u && u[q] == t[q]
      {
        RemovedAt(t, name, claims, q);
      }
      MarkedChange(h, tk, t, u, name, cacheHashes, dirty);
    } else {
      RemovedThere(t, name, claims);
      UnmarkedChange(h, tk, t, u, cacheHashes, dirty);
      assert dirty + {} == dirty;
    }
  }

  lemma RemovedThere(t: Tree, name: Name, claims: seq<ClaimValue>)
    requires Closed(t) && name in t && claims != []
    ensures Removed(t, name, claims) == t[name := t[name].(claims := claims)]
  {
    ClosedWith(t, name, t[name].(claims := claims));
    PruneToNothing(t[name := t[name].(claims := claims)], name, 0);
  }

  /** A removal that fails marks nothing. That is right as long as the front claim was the
      controlling one, because then the reordering leaves it there. */
  lemma FailedRemoveHashes(h: HashFn, tk: Name -> int, heap: seq<ClaimValue> -> seq<ClaimValue>,
      supports: seq<SupportValue>, t: Tree, name: Name, cacheHashes: map<Name, Digest>, dirty: set<Name>)
    requires IsMakeHeap(heap)
    requires Closed(t) && HashesOk(h, tk, t, cacheHashes, dirty) && name in t
    requires UniqueClaims(t[name].claims) && FrontControls(t[name].claims, supports)
    requires Closed(t[name := t[name].(claims := Reordered(heap, t[name].claims, supports))])
    ensures HashesOk(h, tk, t[name := t[name].(claims := Reordered(heap, t[name].claims, supports))], cacheHashes,
        dirty)
  {
    hide Closed, NodeHash, HashesOk, IsMakeHeap, Reordered;
    var claims := t[name].claims;
    ReorderedControls(heap, claims, supports);
    if claims != [] {
      FrontUnique(claims, Reordered(heap, claims, supports), supports);
      assert Plain(claims[0]).outPoint == Plain(Reordered(heap, claims, supports)[0]).outPoint;
    }
    UnmarkedChange(h, tk, t, t[name := t[name].(claims := Reordered(heap, claims, supports))], cacheHashes, dirty);
  }

  // ---------- recomputing below a node ----------

  /** What the recursion may rely on below p: a clean node is right, and what is above a
      marked one is marked. */
  ghost predicate Due(h: HashFn, tk: Name -> int, t: Tree, cacheHashes: map<Name, Digest>, dirty: set<Name>, p: Name)
    requires Closed(t)
  {
    && (forall q :: q in t && p <= q && q !in dirty ==> Stored(cacheHashes, t, q) == NodeHash(h, tk, t, q))
    && (forall q :: q in t && p <= q && q != p && q in dirty ==> Parent(q) in dirty)
  }

  /** What it leaves there. */
  ghost predicate Settled(h: HashFn, tk: Name -> int, t: Tree, cacheHashes: map<Name, Digest>, dirty: set<Name>,
      p: Name)
    requires Closed(t)
  {
    forall q :: q in t && p <= q ==> q !in dirty && Stored(cacheHashes, t, q) == NodeHash(h, tk, t, q)
  }

  /** Nothing changed outside the nodes at and below p, and only live nodes got hashes. */
  ghost predicate Local(t: Tree, ch: map<Name, Digest>, dirty: set<Name>, ch': map<Name, Digest>, dirty': set<Name>,
      p: Name)
  {
    && (forall q :: q in dirty' ==> q in dirty)
    && (forall q :: q in dirty && !(p <= q) ==> q in dirty')
    && (forall q :: q in ch ==> q in ch')
    && (forall q :: q in ch' && !(p <= q) ==> q in ch && ch'[q] == ch[q])
    && (forall q :: q in ch' && q !in ch ==> q in t)
    && (forall q :: q in dirty && q !in dirty' ==> q in ch')
  }

  lemma LocalRefl(t: Tree, ch: map<Name, Digest>, dirty: set<Name>, p: Name)
    ensures Local(t, ch, dirty, ch, dirty, p)
  {
  }

  lemma LocalTransitive(t: Tree, ch: map<Name, Digest>, dirty: set<Name>, ch1: map<Name, Digest>, dirty1: set<Name>,
                        ch2: map<Name, Digest>, dirty2: set<Name>, p: Name, c: Byte)
    requires Local(t, ch, dirty, ch1, dirty1, p) && Local(t, ch1, dirty1, ch2, dirty2, Child(p, c))
    ensures Local(t, ch, dirty, ch2, dirty2, p)
  {
    forall q | q in dirty || q in dirty1 || q in ch1 || q in ch2
      ensures Child(p, c) <= q ==> p <= q
    {
      assert p <= Child(p, c);
      PrefixTransitive(p, Child(p, c), q);
    }
  }

  lemma DueChild(h: HashFn, tk: Name -> int, t: Tree, ch: map<Name, Digest>, dirty: set<Name>, p: Name, c: Byte)
    requires Closed(t) && Due(h, tk, t, ch, dirty, p)
    ensures Due(h, tk, t, ch, dirty, Child(p, c))
  {
    hide Closed, NodeHash;
    forall q | q in t && Child(p, c) <= q
      ensures p <= q && q != p
    {
      assert p <= Child(p, c);
      PrefixTransitive(p, Child(p, c), q);
    }
  }

  lemma {:induction false} CleanDue(h: HashFn, tk: Name -> int, t: Tree, ch: map<Name, Digest>, dirty: set<Name>,
      p: Name, q: Name)
    requires Closed(t) && Due(h, tk, t, ch, dirty, p) && p in t && p !in dirty && q in t && p <= q
    ensures q !in dirty
    decreases |q|
  {
    if |p| < |q| {
      assert p == q[..|p|] == Parent(q)[..|p|];
      assert Live(t, Parent(q));
      CleanDue(h, tk, t, ch, dirty, p, Parent(q));
    } else {
      assert p == q;
    }
  }

  /** A clean node needs no visit. */
  lemma CleanSettled(h: HashFn, tk: Name -> int, t: Tree, ch: map<Name, Digest>, dirty: set<Name>, p: Name)
    requires Closed(t) && Due(h, tk, t, ch, dirty, p) && p in t && p !in dirty
    ensures Settled(h, tk, t, ch, dirty, p)
  {
    hide Closed, NodeHash;
    forall q | q in t && p <= q
      ensures q !in dirty
    {
      CleanDue(h, tk, t, ch, dirty, p, q);
    }
  }

  lemma SiblingsApart(p: Name, c: Byte, d: Byte, q: Name)
    requires c != d && Child(p, c) <= q
    ensures !(Child(p, d) <= q)
  {
    assert q[|p|] == Child(p, c)[|p|] == c && Child(p, d)[|p|] == d;
  }

  /** Work below one child leaves the other children as they were. */
  lemma OtherChild(h: HashFn, tk: Name -> int, t: Tree, ch: map<Name, Digest>, dirty: set<Name>,
                   ch': map<Name, Digest>, dirty': set<Name>, p: Name, c: Byte, d: Byte)
    requires Closed(t) && Local(t, ch, dirty, ch', dirty', Child(p, c)) && c != d
    ensures Due(h, tk, t, ch, dirty, Child(p, d)) ==> Due(h, tk, t, ch', dirty', Child(p, d))
    ensures Settled(h, tk, t, ch, dirty, Child(p, d)) ==> Settled(h, tk, t, ch', dirty', Child(p, d))
  {
    hide Closed, NodeHash;
    forall q | q in t && Child(p, d) <= q
      ensures !(Child(p, c) <= q) && (q in dirty <==> q in dirty') && Stored(ch, t, q) == Stored(ch', t, q)
    {
      SiblingsApart(p, d, c, q);
    }
    forall q | q in t && Child(p, d) <= q && q != Child(p, d)
      ensures Parent(q) in dirty <==> Parent(q) in dirty'
    {
      assert Child(p, d) <= Parent(q) by {
        assert Child(p, d) == q[..|p| + 1] == Parent(q)[..|p| + 1];
      }
      SiblingsApart(p, d, c, Parent(q));
    }
  }

  /** Halfway through the children of p: those before c are settled, the others still due. */
  ghost predicate Progress(h: HashFn, tk: Name -> int, t: Tree, ch: map<Name, Digest>, dirty: set<Name>, p: Name,
      c: nat)
    requires Closed(t) && p in t
  {
    forall d: Byte :: d in t[p].children ==>
      && (d < c ==> Settled(h, tk, t, ch, dirty, Child(p, d)))
      && (c <= d ==> Due(h, tk, t, ch, dirty, Child(p, d)))
  }

  lemma ProgressStart(h: HashFn, tk: Name -> int, t: Tree, ch: map<Name, Digest>, dirty: set<Name>, p: Name)
    requires Closed(t) && p in t && Due(h, tk, t, ch, dirty, p)
    ensures Progress(h, tk, t, ch, dirty, p, 0)
  {
    hide Closed, Due, Settled;
    forall d: Byte | d in t[p].children
      ensures Due(h, tk, t, ch, dirty, Child(p, d))
    {
      DueChild(h, tk, t, ch, dirty, p, d);
    }
  }

  lemma ProgressDue(h: HashFn, tk: Name -> int, t: Tree, ch: map<Name, Digest>, dirty: set<Name>, p: Name, c: Byte)
    requires Closed(t) && p in t && c in t[p].children && Progress(h, tk, t, ch, dirty, p, c)
    ensures Due(h, tk, t, ch, dirty, Child(p, c))
  {
  }

  lemma ProgressSkip(h: HashFn, tk: Name -> int, t: Tree, ch: map<Name, Digest>, dirty: set<Name>, p: Name, c: nat)
    requires Closed(t) && p in t && c !in t[p].children && Progress(h, tk, t, ch, dirty, p, c)
    ensures Progress(h, tk, t, ch, dirty, p, c + 1)
  {
    hide Closed, Due, Settled;
  }

  lemma ProgressStep(h: HashFn, tk: Name -> int, t: Tree, ch: map<Name, Digest>, dirty: set<Name>,
                     ch': map<Name, Digest>, dirty': set<Name>, p: Name, c: Byte)
    requires Closed(t) && p in t && Progress(h, tk, t, ch, dirty, p, c)
    requires Local(t, ch, dirty, ch', dirty', Child(p, c)) && Settled(h, tk, t, ch', dirty', Child(p, c))
    ensures Progress(h, tk, t, ch', dirty', p, c + 1)
  {
    hide Closed, Due, Settled, Local;
    forall d: Byte | d in t[p].children && d != c
      ensures d < c ==> Settled(h, tk, t, ch', dirty', Child(p, d))
      ensures c < d ==> Due(h, tk, t, ch', dirty', Child(p, d))
    {
      OtherChild(h, tk, t, ch, dirty, ch', dirty', p, c, d);
    }
  }

  /** The node itself, once all its children are settled. */
  lemma SettleNode(h: HashFn, tk: Name -> int, t: Tree, ch: map<Name, Digest>, dirty: set<Name>, p: Name)
    requires Closed(t) && p in t
    requires Progress(h, tk, t, ch, dirty, p, 256)
    ensures Settled(h, tk, t, ch[p := NodeHash(h, tk, t, p)], dirty - {p}, p)
  {
    hide Closed, NodeHash;
    forall q | q in t && p <= q && q != p
      ensures q !in dirty && Stored(ch, t, q) == NodeHash(h, tk, t, q)
    {
      ClosedHas(t, q, |p|);
      assert q[..|p|] == p && q[..|p| + 1] == Child(p, q[|p|]);
      assert Child(p, q[|p|]) <= q;
    }
  }

  lemma SettledStored(h: HashFn, tk: Name -> int, t: Tree, ch: map<Name, Digest>, dirty: set<Name>, p: Name)
    requires Closed(t) && p in t && Settled(h, tk, t, ch, dirty, p)
    ensures Stored(ch, t, p) == NodeHash(h, tk, t, p)
  {
    assert p <= p;
  }

  lemma NodeHashDef(h: HashFn, tk: Name -> int, t: Tree, p: Name)
    requires Closed(t) && p in t
    ensures NodeHash(h, tk, t, p) == h(ChildBytes(h, tk, t, p, 0) + ValueBytes(h, tk(p), t[p]))
  {
  }

  lemma LocalNode(t: Tree, ch: map<Name, Digest>, dirty: set<Name>, ch': map<Name, Digest>, dirty': set<Name>, p: Name,
      d: Digest)
    requires Local(t, ch, dirty, ch', dirty', p) && p in t
    ensures Local(t, ch, dirty, ch'[p := d], dirty' - {p}, p)
  {
    assert p <= p;
  }

  lemma LocalRoot(t: Tree, ch: map<Name, Digest>, dirty: set<Name>, d: Digest)
    requires [] in t
    ensures Local(t, ch, dirty, ch[[] := d], dirty, [])
  {
  }

  /** At the root, the invariant is what the recursion needs, and gives it back. */
  lemma RootDue(h: HashFn, tk: Name -> int, t: Tree, ch: map<Name, Digest>, dirty: set<Name>)
    requires Closed(t) && HashesOk(h, tk, t, ch, dirty) && !t[[]].Empty()
    ensures Due(h, tk, t, ch, dirty, [])
  {
  }

  lemma RootSettled(h: HashFn, tk: Name -> int, t: Tree, ch: map<Name, Digest>, dirty: set<Name>)
    requires Closed(t) && Settled(h, tk, t, ch, dirty, [])
    ensures HashesOk(h, tk, t, ch, dirty) && Stored(ch, t, []) == NodeHash(h, tk, t, [])
    ensures forall p :: p in t ==> p !in dirty
  {
    forall p | p in t
      ensures p !in dirty && Stored(ch, t, p) == NodeHash(h, tk, t, p)
    {
      assert [] <= p;
    }
  }

  // ---------- the invariant of a cache ----------

  /** Hashes are right where they are not marked, and cached copies kept theirs. */
  ghost predicate HashInv(h: HashFn, tk: Name -> int, b: Tree, cache: Tree, ch: map<Name, Digest>, dirty: set<Name>)
  {
    && Closed(Shown(b, cache))
    && HashesOk(h, tk, Shown(b, cache), ch, dirty)
    && CopiesHash(b, cache, dirty + ch.Keys)
  }

  lemma CopiesKept(b: Tree, cache: Tree, cache': Tree, marked: set<Name>, marked': set<Name>)
    requires Lays(b, cache) && Lays(b, cache') && CopiesHash(b, cache, marked) && marked <= marked'
    requires forall p :: p in cache' && p in Shown(b, cache) ==>
               && Shown(b, cache')[p].hash == Shown(b, cache)[p].hash
               && Shown(b, cache')[p].nHeightOfLastTakeover == Shown(b, cache)[p].nHeightOfLastTakeover
    requires forall p :: p in cache' && p !in Shown(b, cache) ==> p in marked'
    ensures CopiesHash(b, cache', marked')
  {
    hide Lays, Shown;
    ShownClosed(b, cache);
    ShownClosed(b, cache');
  }

  lemma InsertKeepsHashes(h: HashFn, tk: Name -> int, b: Tree, cache: Tree, cache': Tree, ch: map<Name, Digest>,
                          dirty: set<Name>, dirty': set<Name>, name: Name, claims: seq<ClaimValue>)
    requires HashInv(h, tk, b, cache, ch, dirty) && Lays(b, cache) && Lays(b, cache') && claims != []
    requires Shown(b, cache') == Inserted(Shown(b, cache), name, claims)
    requires dirty' == dirty + if TopChanged(ClaimsAt(Shown(b, cache), name), claims) then Prefixes(name) else {}
    ensures HashInv(h, tk, b, cache', ch, dirty')
  {
    hide Closed, NodeHash, HashesOk, Inserted, Lays, Shown, CopiesHash;
    var t := Shown(b, cache);
    InsertHashes(h, tk, t, name, claims, ch, dirty);
    ShownClosed(b, cache');
    forall p | p in cache'
      ensures p in t ==> Shown(b, cache')[p].hash == t[p].hash
                         && Shown(b, cache')[p].nHeightOfLastTakeover == t[p].nHeightOfLastTakeover
      ensures p !in t ==> p in dirty'
    {
      InsertedAt(t, name, claims, p);
      InPrefixes(name, p);
      if p !in t && name in t {
        ClosedHas(t, name, |p|);
      }
    }
    CopiesKept(b, cache, cache', dirty + ch.Keys, dirty' + ch.Keys);
  }

  lemma RemoveKeepsHashes(h: HashFn, tk: Name -> int, b: Tree, cache: Tree, cache': Tree, ch: map<Name, Digest>,
                          dirty: set<Name>, dirty': set<Name>, name: Name, claims: seq<ClaimValue>)
    requires HashInv(h, tk, b, cache, ch, dirty) && Lays(b, cache) && Lays(b, cache')
    requires name in Shown(b, cache) && Shown(b, cache)[name].claims != []
    requires Shown(b, cache') == Removed(Shown(b, cache), name, claims)
    requires dirty' == dirty + if TopChanged(Shown(b, cache)[name].claims, claims) then Prefixes(name) else {}
    ensures HashInv(h, tk, b, cache', ch, dirty')
  {
    hide Closed, NodeHash, HashesOk, Removed, Lays, Shown, CopiesHash, Prefixes;
    var t := Shown(b, cache);
    RemoveHashes(h, tk, t, name, claims, ch, dirty);
    ShownClosed(b, cache');
    forall p | p in cache'
      ensures p in t
      ensures Shown(b, cache')[p].hash == t[p].hash
      ensures Shown(b, cache')[p].nHeightOfLastTakeover == t[p].nHeightOfLastTakeover
    {
      RemovedAt(t, name, claims, p);
    }
    CopiesKept(b, cache, cache', dirty + ch.Keys, dirty' + ch.Keys);
  }

  lemma FailedRemoveKeepsHashes(h: HashFn, tk: Name -> int, heap: seq<ClaimValue> -> seq<ClaimValue>,
      supports: seq<SupportValue>,
                                b: Tree, cache: Tree, cache': Tree, ch: map<Name, Digest>, dirty: set<Name>, name: Name)
    requires HashInv(h, tk, b, cache, ch, dirty) && Lays(b, cache) && Lays(b, cache') && IsMakeHeap(heap)
    requires name in Shown(b, cache)
    requires var claims := Shown(b, cache)[name].claims;
             && UniqueClaims(claims) && FrontControls(claims, supports)
             && Shown(b, cache')
                 == Shown(b, cache)[name := Shown(b, cache)[name].(claims := Reordered(heap, claims, supports))]
    ensures HashInv(h, tk, b, cache', ch, dirty)
  {
    hide Closed, NodeHash, HashesOk, Lays, Shown, CopiesHash, IsMakeHeap, Reordered, UniqueClaims, FrontControls;
    ShownClosed(b, cache');
    FailedRemoveHashes(h, tk, heap, supports, Shown(b, cache), name, ch, dirty);
    CopiesKept(b, cache, cache', dirty + ch.Keys, dirty + ch.Keys);
  }

  /** Looking at a node without changing it. */
  lemma SameViewKeepsHashes(h: HashFn, tk: Name -> int, b: Tree, cache: Tree, cache': Tree, ch: map<Name, Digest>,
      dirty: set<Name>)
    requires HashInv(h, tk, b, cache, ch, dirty) && Lays(b, cache) && Lays(b, cache')
        && Shown(b, cache') == Shown(b, cache)
    ensures HashInv(h, tk, b, cache', ch, dirty)
  {
    hide Closed, NodeHash, HashesOk, Lays, Shown, CopiesHash;
    ShownClosed(b, cache');
    CopiesKept(b, cache, cache', dirty + ch.Keys, dirty + ch.Keys);
  }

  lemma EmptyCache(b: Tree, cache: Tree)
    requires Lays(b, cache) && cache == map[]
    ensures Shown(b, cache) == b
  {
    FreshCache(b);
  }

  /** After a recomputation from the root. */
  lemma ComputedHashes(h: HashFn, tk: Name -> int, b: Tree, cache: Tree, ch: map<Name, Digest>, dirty: set<Name>,
                       ch': map<Name, Digest>, dirty': set<Name>)
    requires Lays(b, cache) && HashInv(h, tk, b, cache, ch, dirty)
    requires [] in Shown(b, cache) && Local(Shown(b, cache), ch, dirty, ch', dirty', [])
    requires if Shown(b, cache)[[]].Empty() then ch' == ch[[] := EMPTY_TRIE_HASH] && dirty' == dirty
             else Settled(h, tk, Shown(b, cache), ch', dirty', [])
    ensures HashInv(h, tk, b, cache, ch', dirty')
    ensures Shown(b, cache)[[]].Empty() ==> [] in ch' && ch'[[]] == EMPTY_TRIE_HASH
    ensures !Shown(b, cache)[[]].Empty() ==>
              && (forall p :: p in Shown(b, cache) ==> p !in dirty')
              && ([] in ch' ==> ch'[[]] == NodeHash(h, tk, Shown(b, cache), []))
              && ([] !in ch' ==> [] in b && b[[]].hash == NodeHash(h, tk, Shown(b, cache), []))
  {
    hide Closed, Lays, Shown, NodeHash;
    var t := Shown(b, cache);
    ShownClosed(b, cache);
    if t[[]].Empty() {
      EmptyRootAlone(t);
    } else {
      RootSettled(h, tk, t, ch', dirty');
    }
  }

  lemma EmptyRootAlone(t: Tree)
    requires Closed(t) && t[[]].Empty()
    ensures forall p :: p in t ==> p == []
  {
    forall p | p in t
      ensures p == []
    {
      ClosedHas(t, p, 0);
      assert p[..0] == [];
    }
  }

  lemma CleanRoot(h: HashFn, tk: Name -> int, b: Tree, cache: Tree, ch: map<Name, Digest>, dirty: set<Name>)
    requires Lays(b, cache) && HashInv(h, tk, b, cache, ch, dirty) && [] in Shown(b, cache) && [] !in dirty
    ensures !Shown(b, cache)[[]].Empty() ==>
              && ([] in ch ==> ch[[]] == NodeHash(h, tk, Shown(b, cache), []))
              && ([] !in ch ==> [] in b && b[[]].hash == NodeHash(h, tk, Shown(b, cache), []))
  {
    hide Closed, Lays, Shown, NodeHash;
    ShownClosed(b, cache);
  }

  /** A removal keeps the hashes right, a failed one as long as the front claim controls. */
  lemma AfterRemoveKeepsHashes(h: HashFn, tk: Name -> int, heap: seq<ClaimValue> -> seq<ClaimValue>,
      supports: seq<SupportValue>, b: Tree, cache: Tree, cache': Tree, ch: map<Name, Digest>, dirty: set<Name>,
                                   dirty': set<Name>, name: Name, outPoint: OutPoint)
    requires HashInv(h, tk, b, cache, ch, dirty) && Lays(b, cache) && Lays(b, cache') && IsMakeHeap(heap)
    requires Shown(b, cache') == AfterRemove(heap, supports, Shown(b, cache), name, outPoint)
    requires var claims := ClaimsAt(Shown(b, cache), name);
             var found := FindOutPoint(claims, outPoint) < |claims|;
             && (found || (UniqueClaims(claims) && FrontControls(claims, supports)))
             && dirty' == dirty
                 + (if found && TopChanged(claims, ClaimsAt(Shown(b, cache'), name)) then Prefixes(name) else {})
    ensures HashInv(h, tk, b, cache', ch, dirty')
  {
    hide Closed, NodeHash, HashInv, Removed, Lays, Shown, IsMakeHeap, Reordered, UniqueClaims, FrontControls, Prefixes;
    var claims := ClaimsAt(Shown(b, cache), name);
    if FindOutPoint(claims, outPoint) < |claims| {
      var after := Shrunk(heap, claims, outPoint, supports);
      ShownClosed(b, cache);
      RemovedAt(Shown(b, cache), name, after, name);
      RemoveKeepsHashes(h, tk, b, cache, cache', ch, dirty, dirty', name, after);
    } else {
      assert dirty' == dirty;
      if claims == [] {
        SameViewKeepsHashes(h, tk, b, cache, cache', ch, dirty);
      } else {
        FailedRemoveKeepsHashes(h, tk, heap, supports, b, cache, cache', ch, dirty, name);
      }
    }
  }
}
