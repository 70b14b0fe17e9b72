/** Runs in which the cache does not do what one would expect of it. */
module ClaimTrieCases {
  import opened ClaimTypes
  import opened NameTree
  import opened PathOps
  import opened Overlay
  import opened TrieHash
  import opened ClaimProofs
  import opened ClaimTries
  import opened ClaimTrieCaches

  lemma BlankTrieRight(h: HashFn, tk: Name -> int)
    ensures HashesRight(h, tk, map[[] := NEW_NODE])
  {
    var t: Tree := map[[] := NEW_NODE];
    assert Live(t, []);
  }

  /** A cache over a new, empty trie. */
  method NewCache(hash: HashFn, heap: seq<ClaimValue> -> seq<ClaimValue>) returns (cache: ClaimTrieCache)
    requires IsMakeHeap(heap)
    ensures fresh(cache) && fresh(cache.base) && cache.heap == heap && cache.base.hash == hash
    ensures cache.Valid() && cache.HashValid() && !cache.fRequireTakeoverHeights
    ensures cache.base.nodes == map[[] := NEW_NODE] && cache.Trie() == cache.base.nodes
    ensures cache.dirtyHashes == {} && cache.cacheHashes == map[] && cache.cacheTakeoverHeights == map[]
  {
    hide Closed, Pruned, IsMakeHeap, HashesRight, Shown, Lays;
    var base := new ClaimTrie(hash, 262974, 32);
    cache := new ClaimTrieCache(base, heap, false);
    BlankTrieRight(hash, cache.Heights());
    FreshHashInv(hash, cache.Heights(), base.nodes);
  }

  lemma HeightsNotRequired(cache: ClaimTrieCache)
    requires !cache.fRequireTakeoverHeights
    ensures cache.HeightsKnown()
  {
  }

  lemma NullNotOne()
    ensures NULL_DIGEST != EMPTY_TRIE_HASH
  {
    assert NULL_DIGEST[0] == 0 && EMPTY_TRIE_HASH[0] == 1;
  }

  lemma NothingToRemove(heap: seq<ClaimValue> -> seq<ClaimValue>, supports: seq<SupportValue>, t: Tree,
      outPoint: OutPoint)
    requires t == map[[] := NEW_NODE] && Closed(t)
    ensures AfterRemove(heap, supports, t, [], outPoint) == t
    ensures ClaimsAt(t, []) == [] && UniqueClaims([]) && FrontControls([], supports)
    ensures [] in t && t[[]].Empty()
  {
  }

  /** An empty trie whose hash is zero and not one: a removal from the empty name fails,
      but leaves a copy of the root in the cache, with nothing marked. */
  method ZeroHashOfEmptyTrie(hash: HashFn, heap: seq<ClaimValue> -> seq<ClaimValue>, outPoint: OutPoint)
    returns (rootHash: Digest)
    requires IsMakeHeap(heap)
    ensures rootHash == NULL_DIGEST && rootHash != EMPTY_TRIE_HASH
  {
    hide Closed, Pruned, IsMakeHeap, HashInv, Shown, Lays, RootHash, AfterRemove, ClaimsAt, UniqueClaims, FrontControls,
        FindOutPoint, TopChanged, Prefixes;
    var cache := NewCache(hash, heap);
    ghost var t := cache.Trie();
    NothingToRemove(heap, cache.base.SupportNode([]), t, outPoint);
    var ok, claim := cache.RemoveClaimFromTrie([], outPoint, false);
    assert cache.Trie() == t && cache.HashValid() && cache.EmptyButUnmarked();
    HeightsNotRequired(cache);
    rootHash := cache.GetMerkleHash();
    assert rootHash == NULL_DIGEST;
    NullNotOne();
  }

  /** A name that was hashed and then pruned. */
  method HashedAndPruned(hash: HashFn, heap: seq<ClaimValue> -> seq<ClaimValue>, name: Name, claim: ClaimValue)
    returns (cache: ClaimTrieCache)
    requires IsMakeHeap(heap) && name != []
    ensures fresh(cache) && fresh(cache.base)
    ensures cache.Valid() && name in cache.cacheHashes && name !in cache.Trie()
  {
    hide Closed, Pruned, IsMakeHeap, HashInv, Shown, Lays, RootHash, AfterInsert, AfterRemove;
    cache := NewCache(hash, heap);
    ghost var t := cache.Trie();
    var ok := cache.InsertClaimIntoTrie(name, claim, false);
    OneName(t, name, claim, heap, cache.base.SupportNode(name));
    HeightsNotRequired(cache);
    var rootHash := cache.GetMerkleHash();
    assert name in cache.cacheHashes;
    var taken;
    ok, taken := cache.RemoveClaimFromTrie(name, claim.outPoint, false);
    OneNameGone(cache.Trie(), name);
  }

  /** A flush that fails. */
  method FlushAfterPruning(hash: HashFn, heap: seq<ClaimValue> -> seq<ClaimValue>, name: Name, claim: ClaimValue)
    returns (ok: bool)
    requires IsMakeHeap(heap) && name != []
    ensures !ok
  {
    hide ClaimTrieCache.Trie, ClaimTrieCache.Valid, HashesRight;
    var cache := HashedAndPruned(hash, heap, name, claim);
    ok := cache.Flush();
  }

  lemma NewTrieHolds(t: Tree, q: Name)
    requires t == map[[] := NEW_NODE]
    ensures ClaimsAt(t, q) == []
  {
  }

  lemma FirstClaim(claim: ClaimValue)
    ensures FindOutPoint([claim], claim.outPoint) == 0
  {
  }

  /** The one claim is in its node, and its path makes the trie not empty. */
  lemma LoneClaimIn(t: Tree, name: Name, claim: ClaimValue, heap: seq<ClaimValue> -> seq<ClaimValue>,
      supports: seq<SupportValue>)
    requires t == map[[] := NEW_NODE] && Closed(t) && name != []
    ensures var u := AfterInsert(heap, supports, t, name, claim);
            && u == Inserted(t, name, [claim]) && name in u && u[name].claims == [claim] && !u[[]].Empty()
  {
    hide Closed, Inserted;
    var u := AfterInsert(heap, supports, t, name, claim);
    NewTrieHolds(t, name);
    InsertedAt(t, name, [claim], name);
    ClosedHas(u, name, 0);
    assert name[..0] == [];
  }

  lemma OneNameTaken(u: Tree, name: Name, claim: ClaimValue, heap: seq<ClaimValue> -> seq<ClaimValue>,
      supports: seq<SupportValue>)
    requires Closed(u) && name in u && u[name].claims == [claim]
    ensures FindOutPoint([claim], claim.outPoint) == 0
    ensures AfterRemove(heap, supports, u, name, claim.outPoint) == Removed(u, name, [])
  {
    hide Closed, Removed, FindOutPoint;
    FirstClaim(claim);
    assert ClaimsAt(u, name) == [claim];
    assert Shrunk(heap, [claim], claim.outPoint, supports) == [];
  }

  lemma OneName(t: Tree, name: Name, claim: ClaimValue, heap: seq<ClaimValue> -> seq<ClaimValue>,
      supports: seq<SupportValue>)
    requires t == map[[] := NEW_NODE] && Closed(t) && name != []
    ensures var u := AfterInsert(heap, supports, t, name, claim);
            && name in u && u[name].claims == [claim] && !u[[]].Empty() && name in Prefixes(name)
            && FindOutPoint([claim], claim.outPoint) == 0
            && forall q :: ClaimsAt(AfterRemove(heap, supports, u, name, claim.outPoint), q) == []
  {
    hide Closed, Inserted, Removed, ClaimsAt, Prefixes;
    var u := AfterInsert(heap, supports, t, name, claim);
    LoneClaimIn(t, name, claim, heap, supports);
    InPrefixes(name, name);
    OneNameTaken(u, name, claim, heap, supports);
    forall q
      ensures ClaimsAt(AfterRemove(heap, supports, u, name, claim.outPoint), q) == []
    {
      InsertedAt(t, name, [claim], q);
      NewTrieHolds(t, q);
      RemovedAt(u, name, [], q);
    }
  }

  lemma OneNameGone(t: Tree, name: Name)
    requires Closed(t) && Pruned(t) && name != []
    requires forall q :: ClaimsAt(t, q) == []
    ensures name !in t
  {
    assert forall q :: q in t ==> ClaimsAt(t, q) == t[q].claims;
    NodesArePrefixes(t, name);
  }

  /** A cache in which one name holds a claim. */
  method CacheWithClaim(hash: HashFn, heap: seq<ClaimValue> -> seq<ClaimValue>, name: Name, claim: ClaimValue)
    returns (cache: ClaimTrieCache)
    requires IsMakeHeap(heap) && name != []
    ensures fresh(cache) && cache.Valid() && cache.HashValid() && !cache.fRequireTakeoverHeights
    ensures Closed(cache.Trie()) && [] in cache.Trie() && !cache.Trie()[[]].Empty()
        && ClaimsAt(cache.Trie(), name) != []
  {
    hide Closed, Pruned, IsMakeHeap, HashInv, Shown, Lays, AfterInsert, AfterRemove;
    cache := NewCache(hash, heap);
    ghost var t := cache.Trie();
    var ok := cache.InsertClaimIntoTrie(name, claim, false);
    OneName(t, name, claim, heap, cache.base.SupportNode(name));
    ClosedHas(cache.Trie(), name, 0);
    assert name[..0] == [];
  }

  /** Whether the proof for a name comes with its claim. */
  method ProofHasValue(cache: ClaimTrieCache, name: Name, signedChar: bool) returns (hasValue: bool)
    requires cache.Valid() && cache.HashValid() && !cache.fRequireTakeoverHeights && name == [200]
    requires Closed(cache.Trie()) && [] in cache.Trie() && !cache.Trie()[[]].Empty()
        && ClaimsAt(cache.Trie(), name) != []
    modifies cache`cacheHashes, cache`dirtyHashes
    ensures cache.Valid() && cache.HashValid() && (hasValue <==> !signedChar)
  {
    hide Closed, Pruned, IsMakeHeap, HashInv, Shown, Lays, IsProofFor, ClaimsAt;
    HeightsNotRequired(cache);
    var proof := cache.GetProofForName(name, signedChar);
    ProvesByBytes(cache, name, signedChar, proof);
    hasValue := proof.hasValue;
  }

  /** A name with a byte of 128 or more holds a claim, but where char is signed its proof does
      not give it. */
  method HighByteUnproved(hash: HashFn, heap: seq<ClaimValue> -> seq<ClaimValue>, claim: ClaimValue)
    returns (signedProves: bool, unsignedProves: bool)
    requires IsMakeHeap(heap)
    ensures !signedProves && unsignedProves
  {
    hide Closed, IsMakeHeap, ClaimsAt, ClaimTrieCache.Valid, ClaimTrieCache.HashValid;
    var cache := CacheWithClaim(hash, heap, [200], claim);
    signedProves := ProofHasValue(cache, [200], true);
    unsignedProves := ProofHasValue(cache, [200], false);
  }

  lemma ProvesByBytes(cache: ClaimTrieCache, name: Name, signedChar: bool, proof: Proof)
    requires Closed(cache.Trie()) && [] in cache.Trie() && name == [200] && ClaimsAt(cache.Trie(), name) != []
    requires IsProofFor(cache.base.hash, cache.Heights(), cache.Trie(), signedChar, name, proof)
    ensures proof.hasValue <==> !signedChar
  {
    hide Closed, Proves, IsProofFor, ClaimsAt, ClaimTrieCache.Trie;
    IsProofParts(cache.base.hash, cache.Heights(), cache.Trie(), signedChar, name, proof);
    ProvesExactly(cache.Trie(), signedChar, name);
    assert name[0] == 200;
  }
}
