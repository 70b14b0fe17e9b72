/** Root hashes written out down to the bytes that go into them. */
module ClaimHashCases {
  import opened ClaimTypes
  import opened NameTree
  import opened PathOps
  import opened Overlay
  import opened TrieHash
  import opened ClaimMap
  import opened ClaimLedger
  import opened ClaimMoves
  import opened ClaimTries
  import opened ClaimTrieCaches
  import opened ClaimTrieCases
  import opened ClaimBlocks
  import opened ClaimHoldings
  import opened ClaimChains
  import opened ClaimBlockCases

  // ---------- what a node hashes ----------

  lemma {:induction false} NoneBetween(h: HashFn, tk: Name -> int, t: Tree, p: Name, c: nat, d: nat)
    requires Closed(t) && p in t && c <= d <= 256 && forall e: Byte :: c <= e < d ==> e !in t[p].children
    ensures ChildBytes(h, tk, t, p, c) == ChildBytes(h, tk, t, p, d)
    decreases d - c
  {
    hide Closed, NodeHash;
    if c < d {
      var e: Byte := c;
      assert e !in t[p].children;
      NoneBetween(h, tk, t, p, c + 1, d);
    }
  }

  lemma LeafBytes(h: HashFn, tk: Name -> int, t: Tree, p: Name)
    requires Closed(t) && p in t && t[p].children == {}
    ensures ChildBytes(h, tk, t, p, 0) == []
  {
    hide Closed, NodeHash;
    NoneBetween(h, tk, t, p, 0, 256);
  }

  lemma OneChildBytes(h: HashFn, tk: Name -> int, t: Tree, p: Name, a: Byte)
    requires Closed(t) && p in t && t[p].children == {a}
    ensures Child(p, a) in t && ChildBytes(h, tk, t, p, 0) == [a] + NodeHash(h, tk, t, Child(p, a))
  {
    hide Closed, NodeHash;
    BelowChild(t, p, a);
    NoneBetween(h, tk, t, p, 0, a);
    NoneBetween(h, tk, t, p, a + 1, 256);
  }

  lemma TwoChildrenBytes(h: HashFn, tk: Name -> int, t: Tree, p: Name, a: Byte, b: Byte)
    requires Closed(t) && p in t && t[p].children == {a, b} && a < b
    ensures Child(p, a) in t && Child(p, b) in t
    ensures ChildBytes(h, tk, t, p, 0)
         == [a] + NodeHash(h, tk, t, Child(p, a)) + ([b] + NodeHash(h, tk, t, Child(p, b)))
  {
    hide Closed, NodeHash;
    BelowChild(t, p, a);
    BelowChild(t, p, b);
    NoneBetween(h, tk, t, p, 0, a);
    NoneBetween(h, tk, t, p, a + 1, b);
    NoneBetween(h, tk, t, p, b + 1, 256);
  }

  lemma LeafHash(h: HashFn, tk: Name -> int, t: Tree, p: Name)
    requires Closed(t) && p in t && t[p].children == {}
    ensures NodeHash(h, tk, t, p) == h(ValueBytes(h, tk(p), t[p]))
  {
    hide Closed, ValueBytes;
    LeafBytes(h, tk, t, p);
    assert [] + ValueBytes(h, tk(p), t[p]) == ValueBytes(h, tk(p), t[p]);
  }

  // ---------- which nodes there are ----------

  lemma ChildOf(t: Tree, p: Name, c: Byte)
    requires Closed(t) && Pruned(t) && p in t
    ensures c in t[p].children <==> exists q :: q in t && t[q].claims != [] && Child(p, c) <= q
  {
    hide Pruned;
    NodesArePrefixes(t, Child(p, c));
    if Child(p, c) in t {
      assert Live(t, Child(p, c));
      assert Parent(Child(p, c)) == p && Last(Child(p, c)) == c;
    }
  }

  /** The names that hold claims. */
  ghost predicate Named(t: Tree, names: set<Name>)
  {
    forall n :: ClaimsAt(t, n) != [] <==> n in names
  }

  lemma ChildNamed(t: Tree, names: set<Name>, p: Name, c: Byte)
    requires Closed(t) && Pruned(t) && p in t && Named(t, names)
    ensures c in t[p].children <==> exists q :: q in names && Child(p, c) <= q
  {
    hide Closed, Pruned;
    ChildOf(t, p, c);
    if q :| q in names && Child(p, c) <= q {
      assert ClaimsAt(t, q) != [];
    }
    if q :| q in t && t[q].claims != [] && Child(p, c) <= q {
      assert ClaimsAt(t, q) != [];
      assert q in names;
    }
  }

  // ---------- one claim ----------

  const NAME_A: Name := [97]

  lemma OneSpelled(c: Byte)
    ensures [c] <= NAME_A <==> c == 97
    ensures !([97, c] <= NAME_A)
  {
    assert NAME_A[..1] == [97] && [c][0] == c;
    assert c == 97 ==> [c] == [97];
  }

  lemma OneNameChildren(t: Tree, p: Name, c: Byte)
    requires Closed(t) && Pruned(t) && p in t && Named(t, {NAME_A})
    ensures c in t[p].children <==> Child(p, c) <= NAME_A
  {
    hide Closed, Pruned, Named;
    ChildNamed(t, {NAME_A}, p, c);
  }

  lemma OneNameIn(t: Tree)
    requires Closed(t) && Named(t, {NAME_A})
    ensures [] in t && NAME_A in t && t[[]].claims == []
  {
    hide Closed;
    assert ClaimsAt(t, NAME_A) != [] && ClaimsAt(t, []) == [];
    ClosedHas(t, NAME_A, 0);
    assert NAME_A[..0] == [];
  }

  lemma OneNameNodes(t: Tree)
    requires Closed(t) && Pruned(t) && Named(t, {NAME_A})
    ensures [] in t && NAME_A in t && t[[]].children == {97} && t[[]].claims == [] && t[NAME_A].children == {}
  {
    hide Closed, Pruned, Named, ClaimsAt;
    OneNameIn(t);
    forall c: Byte
      ensures c in t[[]].children <==> c == 97
      ensures c !in t[NAME_A].children
    {
      OneSpelled(c);
      OneNameChildren(t, [], c);
      OneNameChildren(t, NAME_A, c);
      assert Child([], c) == [c] && Child(NAME_A, c) == [97, c];
    }
  }

  lemma OneClaimRoot(h: HashFn, tk: Name -> int, t: Tree, a: OutPoint)
    requires Closed(t) && Pruned(t) && Named(t, {NAME_A}) && ClaimsAt(t, NAME_A)[0].outPoint == a && tk(NAME_A) == 1
    requires a.n == 12
    ensures RootHash(h, tk, t) == h([97] + h(h(h(a.hash) + h([49, 50]) + h([0, 0, 0, 0, 0, 0, 0, 1]))))
  {
    hide Closed, Pruned, NodeHash;
    OneNameNodes(t);
    OneChildBytes(h, tk, t, [], 97);
    LeafHash(h, tk, t, NAME_A);
    assert Child([], 97) == NAME_A;
    assert Decimal(12) == [49, 50] by { assert Decimal(1) == [49]; }
    assert HeightBytes(1) == [0, 0, 0, 0, 0, 0, 0, 1];
    RootIsNode(h, tk, t);
    assert [97] + NodeHash(h, tk, t, NAME_A) + [] == [97] + NodeHash(h, tk, t, NAME_A);
  }

  lemma RootIsNode(h: HashFn, tk: Name -> int, t: Tree)
    requires Closed(t) && [] in t && t[[]].children != {} && t[[]].claims == []
    ensures RootHash(h, tk, t) == h(ChildBytes(h, tk, t, [], 0) + [])
  {
    hide Closed, ChildBytes;
  }

  lemma StageNames(base: ClaimTrie, heap: seq<ClaimValue> -> seq<ClaimValue>, l: Ledger, m: Holdings, a: OutPoint)
    requires Stage(base, heap, l, m, NAME_A, a, 2) && m.Keys == {(NAME_A, a)}
    ensures Closed(base.nodes) && Pruned(base.nodes) && Named(base.nodes, {NAME_A})
    ensures ClaimsAt(base.nodes, NAME_A)[0].outPoint == a && HeightsIn(true, map[], base.nodes)(NAME_A) == 1
  {
    hide BaseInOrder, Closed, Pruned, InTrieThen, FrontsIn;
    LedgerKeys(base, heap, l, m);
    UsableStage(base, heap, l, m);
    forall n
      ensures ClaimsAt(base.nodes, n) != [] ==> n == NAME_A && ClaimsAt(base.nodes, n)[0].outPoint == a
    {
      if ClaimsAt(base.nodes, n) != [] {
        FoundInTree(base.nodes, l, (n, ClaimsAt(base.nodes, n)[0].outPoint), 0);
        assert (n, ClaimsAt(base.nodes, n)[0].outPoint) in m.Keys;
      }
    }
  }

  lemma UsableStage(base: ClaimTrie, heap: seq<ClaimValue> -> seq<ClaimValue>, l: Ledger, m: Holdings)
    requires BaseInOrder(base, heap, l, m)
    ensures Closed(base.nodes) && Pruned(base.nodes)
  {
    hide Closed, Pruned;
  }

  /** The root hash after the first block of a new trie, with a claim to the name of the one
      character a: hashes are taken of the bytes of its outpoint, of the digits of its index, and
      of its takeover height, the height of the block. */
  method RootHashOfOneClaim(hash: HashFn, heap: seq<ClaimValue> -> seq<ClaimValue>, txHash: Digest)
    returns (rootHash: Digest)
    requires IsMakeHeap(heap)
    ensures rootHash == hash([97] + hash(hash(hash(txHash) + hash([49, 50]) + hash([0, 0, 0, 0, 0, 0, 0, 1]))))
  {
    hide Stage, Closed, RootHash, HeightsIn, Named, ClaimsAt;
    ghost var l, m;
    var base;
    base, rootHash, l, m := FirstBlock(hash, heap, NAME_A, OutPoint(txHash, 12));
    StageNames(base, heap, l, m, OutPoint(txHash, 12));
    OneClaimRoot(hash, HeightsIn(true, map[], base.nodes), base.nodes, OutPoint(txHash, 12));
  }

  // ---------- three claims ----------

  const NAME_AB: Name := [97, 98]
  const NAME_B: Name := [98]

  lemma Spelled(c: Byte)
    ensures [c] <= NAME_A <==> c == 97
    ensures [c] <= NAME_AB <==> c == 97
    ensures [c] <= NAME_B <==> c == 98
    ensures [97, c] <= NAME_AB <==> c == 98
    ensures !([97, c] <= NAME_A) && !([97, c] <= NAME_B)
    ensures !([97, 98, c] <= NAME_A) && !([97, 98, c] <= NAME_AB) && !([97, 98, c] <= NAME_B)
    ensures !([98, c] <= NAME_A) && !([98, c] <= NAME_AB) && !([98, c] <= NAME_B)
  {
    assert NAME_A[..1] == [97] && NAME_AB[..1] == [97] && NAME_B[..1] == [98] && NAME_AB[..2] == [97, 98];
    assert [c][0] == c && [97, c][1] == c;
    assert c == 97 ==> [c] == [97];
    assert c == 98 ==> [c] == [98] && [97, c] == [97, 98];
  }

  lemma ThreeNamesChildren(t: Tree, p: Name, c: Byte)
    requires Closed(t) && Pruned(t) && p in t && Named(t, {NAME_A, NAME_AB, NAME_B})
    ensures c in t[p].children <==> Child(p, c) <= NAME_A || Child(p, c) <= NAME_AB || Child(p, c) <= NAME_B
  {
    hide Closed, Pruned, Named;
    ChildNamed(t, {NAME_A, NAME_AB, NAME_B}, p, c);
  }

  lemma ThreeNamesIn(t: Tree)
    requires Closed(t) && Named(t, {NAME_A, NAME_AB, NAME_B})
    ensures [] in t && NAME_A in t && NAME_AB in t && NAME_B in t && t[[]].claims == []
  {
    hide Closed;
    assert ClaimsAt(t, NAME_A) != [] && ClaimsAt(t, NAME_AB) != [];
    assert ClaimsAt(t, NAME_B) != [] && ClaimsAt(t, []) == [];
    ClosedHas(t, NAME_A, 0);
    assert NAME_A[..0] == [];
  }

  lemma RootOfThree(t: Tree)
    requires Closed(t) && Pruned(t) && Named(t, {NAME_A, NAME_AB, NAME_B}) && [] in t
    ensures t[[]].children == {97, 98}
  {
    hide Closed, Pruned, Named, ClaimsAt;
    forall c: Byte
      ensures c in t[[]].children <==> c in {97, 98}
    {
      Spelled(c);
      ThreeNamesChildren(t, [], c);
      assert Child([], c) == [c];
    }
  }

  lemma FirstOfThree(t: Tree)
    requires Closed(t) && Pruned(t) && Named(t, {NAME_A, NAME_AB, NAME_B}) && NAME_A in t
    ensures t[NAME_A].children == {98}
  {
    hide Closed, Pruned, Named, ClaimsAt;
    forall c: Byte
      ensures c in t[NAME_A].children <==> c in {98}
    {
      Spelled(c);
      ThreeNamesChildren(t, NAME_A, c);
      assert Child(NAME_A, c) == [97, c];
    }
  }

  lemma LeavesOfThree(t: Tree)
    requires Closed(t) && Pruned(t) && Named(t, {NAME_A, NAME_AB, NAME_B}) && NAME_AB in t && NAME_B in t
    ensures t[NAME_AB].children == {} && t[NAME_B].children == {}
  {
    hide Closed, Pruned, Named, ClaimsAt;
    forall c: Byte
      ensures c !in t[NAME_AB].children && c !in t[NAME_B].children
    {
      Spelled(c);
      ThreeNamesChildren(t, NAME_AB, c);
      ThreeNamesChildren(t, NAME_B, c);
      assert Child(NAME_AB, c) == [97, 98, c] && Child(NAME_B, c) == [98, c];
    }
  }

  lemma ThreeNameNodes(t: Tree)
    requires Closed(t) && Pruned(t) && Named(t, {NAME_A, NAME_AB, NAME_B})
    ensures [] in t && NAME_A in t && NAME_AB in t && NAME_B in t
    ensures t[[]].children == {97, 98} && t[NAME_A].children == {98}
    ensures t[[]].claims == [] && t[NAME_AB].children == {} && t[NAME_B].children == {}
  {
    hide Closed, Pruned, Named, ClaimsAt;
    ThreeNamesIn(t);
    RootOfThree(t);
    FirstOfThree(t);
    LeavesOfThree(t);
  }

  /** The value hash of an outpoint with some one-digit index, where heights are not kept. */
  function Value(h: HashFn, txHash: Digest, digit: Byte): Digest
  {
    h(h(txHash) + h([digit]) + h([0, 0, 0, 0, 0, 0, 0, 0]))
  }

  lemma ThreeClaimsRoot(h: HashFn, tk: Name -> int, t: Tree, a: Digest, ab: Digest, b: Digest)
    requires Closed(t) && Pruned(t) && Named(t, {NAME_A, NAME_AB, NAME_B}) && forall n :: tk(n) == 0
    requires ClaimsAt(t, NAME_A)[0].outPoint == OutPoint(a, 0)
    requires ClaimsAt(t, NAME_AB)[0].outPoint == OutPoint(ab, 1)
    requires ClaimsAt(t, NAME_B)[0].outPoint == OutPoint(b, 2)
    ensures RootHash(h, tk, t)
         == h([97] + h([98] + h(Value(h, ab, 49)) + Value(h, a, 48)) + ([98] + h(Value(h, b, 50))))
  {
    hide Closed, Pruned, NodeHash;
    ThreeNameNodes(t);
    TwoChildrenBytes(h, tk, t, [], 97, 98);
    OneChildBytes(h, tk, t, NAME_A, 98);
    LeafHash(h, tk, t, NAME_AB);
    LeafHash(h, tk, t, NAME_B);
    assert Child([], 97) == NAME_A && Child([], 98) == NAME_B && Child(NAME_A, 98) == NAME_AB;
    assert HeightBytes(0) == [0, 0, 0, 0, 0, 0, 0, 0];
    InnerHash(h, tk, t, NAME_A);
    RootIsNode(h, tk, t);
    assert ChildBytes(h, tk, t, [], 0) + [] == ChildBytes(h, tk, t, [], 0);
  }

  lemma InnerHash(h: HashFn, tk: Name -> int, t: Tree, p: Name)
    requires Closed(t) && p in t
    ensures NodeHash(h, tk, t, p) == h(ChildBytes(h, tk, t, p, 0) + ValueBytes(h, tk(p), t[p]))
  {
    hide Closed, ChildBytes, ValueBytes;
  }

  lemma InsertedClaims(heap: seq<ClaimValue> -> seq<ClaimValue>, supports: seq<SupportValue>, t: Tree, name: Name,
      claim: ClaimValue)
    requires Closed(t) && ClaimsAt(t, name) == []
    ensures forall n :: ClaimsAt(AfterInsert(heap, supports, t, name, claim), n)
                     == if n == name then [claim] else ClaimsAt(t, n)
  {
    hide Closed, Inserted;
    forall n
      ensures ClaimsAt(AfterInsert(heap, supports, t, name, claim), n) == if n == name then [claim] else ClaimsAt(t, n)
    {
      InsertedAt(t, name, [claim], n);
    }
  }

  lemma BlankClaims(t: Tree)
    requires t == map[[] := NEW_NODE]
    ensures forall n :: ClaimsAt(t, n) == []
  {
  }

  function Made(txHash: Digest, n: nat): ClaimValue
  {
    ClaimValue(OutPoint(txHash, n), 1, 10, 0, 1, 1)
  }

  /** The first claim to a name. */
  method InsertNew(cache: ClaimTrieCache, name: Name, claim: ClaimValue)
    requires cache.Valid() && cache.HashValid() && ClaimsAt(cache.Trie(), name) == []
    modifies cache`cache, cache`blockOriginals, cache`dirtyHashes, cache`namesToCheckForTakeover
    ensures cache.Valid() && cache.HashValid()
    ensures forall n :: ClaimsAt(cache.Trie(), n) == if n == name then [claim] else ClaimsAt(old(cache.Trie()), n)
  {
    hide Closed, Pruned, IsMakeHeap, HashInv, Shown, Lays, AfterInsert, ClaimsAt, TopChanged, Prefixes;
    InsertedClaims(cache.heap, cache.base.SupportNode(name), cache.Trie(), name, claim);
    var ok := cache.InsertClaimIntoTrie(name, claim, true);
  }

  /** Three claims in a cache over a new trie. */
  method ThreeInCache(hash: HashFn, heap: seq<ClaimValue> -> seq<ClaimValue>, a: Digest, ab: Digest, b: Digest)
    returns (cache: ClaimTrieCache)
    requires IsMakeHeap(heap)
    ensures fresh(cache) && cache.base.hash == hash && !cache.fRequireTakeoverHeights
    ensures cache.Valid() && cache.HashValid() && Named(cache.Trie(), {NAME_A, NAME_AB, NAME_B})
    ensures ClaimsAt(cache.Trie(), NAME_A) == [Made(a, 0)] && ClaimsAt(cache.Trie(), NAME_AB) == [Made(ab, 1)]
    ensures ClaimsAt(cache.Trie(), NAME_B) == [Made(b, 2)]
  {
    hide ClaimsAt, ClaimTrieCache.Valid, ClaimTrieCache.HashValid, ClaimTrieCache.Trie, IsMakeHeap;
    cache := NewCache(hash, heap);
    BlankClaims(cache.Trie());
    InsertNew(cache, NAME_A, Made(a, 0));
    InsertNew(cache, NAME_AB, Made(ab, 1));
    InsertNew(cache, NAME_B, Made(b, 2));
  }

  lemma NoHeights(cache: ClaimTrieCache)
    requires !cache.fRequireTakeoverHeights
    ensures forall n :: cache.Heights()(n) == 0
  {
  }

  lemma ShownParts(cache: ClaimTrieCache)
    requires cache.Valid()
    ensures Closed(cache.Trie()) && Pruned(cache.Trie())
  {
    hide Closed, Pruned, IsMakeHeap, Lays;
  }

  /** The root hash of three claims, to a, to ab and to b: a node hashes its children in the order
      of their characters, each as the character and the hash below, and then its own value. */
  method RootHashOfThreeClaims(hash: HashFn, heap: seq<ClaimValue> -> seq<ClaimValue>, a: Digest, ab: Digest,
      b: Digest) returns (rootHash: Digest)
    requires IsMakeHeap(heap)
    ensures rootHash
         == hash([97] + hash([98] + hash(Value(hash, ab, 49)) + Value(hash, a, 48)) + ([98] + hash(Value(hash, b, 50))))
  {
    hide ClaimTrieCache.Valid, ClaimTrieCache.HashValid, Closed, Pruned, RootHash, Named, ClaimsAt, Value,
        ClaimTrieCache.Trie, ClaimTrieCache.Heights;
    var cache := ThreeInCache(hash, heap, a, ab, b);
    HeightsNotRequired(cache);
    ShownParts(cache);
    ThreeNameNodes(cache.Trie());
    rootHash := cache.GetMerkleHash();
    HeightsNotRequired(cache);
    NoHeights(cache);
    ThreeClaimsRoot(hash, cache.Heights(), cache.Trie(), a, ab, b);
  }

  /** The hash of the empty trie is the number one, least significant byte first. */
  lemma EmptyHashIsOne()
    ensures EMPTY_TRIE_HASH[0] == 1 && forall i :: 1 <= i < 32 ==> EMPTY_TRIE_HASH[i] == 0
    ensures forall i :: 0 <= i < 32 ==> NULL_DIGEST[i] == 0
  {
  }
}
