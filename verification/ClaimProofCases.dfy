/** A proof written out node by node. */
module ClaimProofCases {
  import opened ClaimTypes
  import opened NameTree
  import opened PathOps
  import opened Overlay
  import opened TrieHash
  import opened ClaimProofs
  import opened ClaimTries
  import opened ClaimTrieCaches
  import opened ClaimTrieCases
  import opened ClaimHashCases

  lemma {:induction false} NoEntries(h: HashFn, tk: Name -> int, t: Tree, p: Name, c: nat, d: nat)
    requires Closed(t) && p in t && c <= d <= 256 && forall e: Byte :: c <= e < d ==> e !in t[p].children
    ensures EntriesFrom(h, tk, t, p, c) == EntriesFrom(h, tk, t, p, d)
    decreases d - c
  {
    hide Closed, NodeHash;
    if c < d {
      var e: Byte := c;
      assert e !in t[p].children;
      NoEntries(h, tk, t, p, c + 1, d);
    }
  }

  lemma LeafEntries(h: HashFn, tk: Name -> int, t: Tree, p: Name)
    requires Closed(t) && p in t && t[p].children == {}
    ensures EntriesFrom(h, tk, t, p, 0) == []
  {
    hide Closed, NodeHash;
    NoEntries(h, tk, t, p, 0, 256);
  }

  lemma OneEntry(h: HashFn, tk: Name -> int, t: Tree, p: Name, a: Byte)
    requires Closed(t) && p in t && t[p].children == {a}
    ensures Child(p, a) in t && EntriesFrom(h, tk, t, p, 0) == [(a, NodeHash(h, tk, t, Child(p, a)))]
  {
    hide Closed, NodeHash;
    BelowChild(t, p, a);
    NoEntries(h, tk, t, p, 0, a);
    NoEntries(h, tk, t, p, a + 1, 256);
  }

  lemma TwoEntries(h: HashFn, tk: Name -> int, t: Tree, p: Name, a: Byte, b: Byte)
    requires Closed(t) && p in t && t[p].children == {a, b} && a < b
    ensures Child(p, a) in t && Child(p, b) in t
    ensures EntriesFrom(h, tk, t, p, 0)
         == [(a, NodeHash(h, tk, t, Child(p, a))), (b, NodeHash(h, tk, t, Child(p, b)))]
  {
    hide Closed, NodeHash;
    BelowChild(t, p, a);
    BelowChild(t, p, b);
    NoEntries(h, tk, t, p, 0, a);
    NoEntries(h, tk, t, p, a + 1, b);
    NoEntries(h, tk, t, p, b + 1, 256);
  }

  lemma RootNode(h: HashFn, tk: Name -> int, t: Tree)
    requires Closed(t) && [] in t && t[[]].children == {97, 98} && t[[]].claims == [] && NAME_AB[..0] in t
    ensures NAME_B in t
    ensures NodeProof(h, tk, t, false, NAME_AB, 0)
         == ProofNode([(97, NULL_DIGEST), (98, NodeHash(h, tk, t, NAME_B))], false, NULL_DIGEST)
  {
    hide Closed, NodeHash;
    TwoEntries(h, tk, t, [], 97, 98);
    assert NAME_AB[..0] == [] && Child([], 98) == NAME_B;
    MaskedTwo((97, NodeHash(h, tk, t, Child([], 97))), (98, NodeHash(h, tk, t, NAME_B)), Some(97));
  }

  lemma MaskedTwo(a: Entry, b: Entry, follow: Option<Byte>)
    ensures Masked([a, b], follow) == [MaskEntry(a, follow), MaskEntry(b, follow)]
  {
    assert [a, b][1..] == [b] && [b][1..] == [];
  }

  lemma MiddleNode(h: HashFn, tk: Name -> int, t: Tree)
    requires Closed(t) && NAME_A in t && t[NAME_A].children == {98} && t[NAME_A].claims != [] && NAME_AB[..1] in t
    ensures NodeProof(h, tk, t, false, NAME_AB, 1)
         == ProofNode([(98, NULL_DIGEST)], true, ValueHash(h, t[NAME_A].claims[0].outPoint, tk(NAME_A)))
  {
    hide Closed, NodeHash, ValueHash;
    OneEntry(h, tk, t, NAME_A, 98);
    assert NAME_AB[..1] == NAME_A;
    var e: Entry := (98, NodeHash(h, tk, t, Child(NAME_A, 98)));
    assert [e][1..] == [] && Masked([e], Some(98)) == [MaskEntry(e, Some(98))];
  }

  lemma LastNode(h: HashFn, tk: Name -> int, t: Tree)
    requires Closed(t) && NAME_AB in t && t[NAME_AB].children == {} && t[NAME_AB].claims != [] && NAME_AB[..2] in t
    ensures NodeProof(h, tk, t, false, NAME_AB, 2) == ProofNode([], true, NULL_DIGEST)
  {
    hide Closed, NodeHash;
    LeafEntries(h, tk, t, NAME_AB);
    assert NAME_AB[..2] == NAME_AB;
  }

  lemma ThreeProofNodes(h: HashFn, tk: Name -> int, t: Tree)
    requires Closed(t) && Pruned(t) && Named(t, {NAME_A, NAME_AB, NAME_B}) && NAME_AB[..0] in t
    ensures NAME_A in t && t[NAME_A].claims != [] && NAME_B in t && [] in t && !t[[]].Empty()
    ensures ProofFrom(h, tk, t, false, NAME_AB, 0)
         == [ProofNode([(97, NULL_DIGEST), (98, NodeHash(h, tk, t, NAME_B))], false, NULL_DIGEST),
             ProofNode([(98, NULL_DIGEST)], true, ValueHash(h, t[NAME_A].claims[0].outPoint, tk(NAME_A))),
             ProofNode([], true, NULL_DIGEST)]
  {
    ThreeNameNodes(t);
    assert ClaimsAt(t, NAME_A) != [] && ClaimsAt(t, NAME_AB) != [];
    assert NAME_AB[..0] == [] && NAME_AB[..1] == NAME_A && NAME_AB[..2] == NAME_AB;
    RootNode(h, tk, t);
    MiddleNode(h, tk, t);
    LastNode(h, tk, t);
    hide Closed, Pruned, NodeHash, ValueHash, NodeProof, Named, ClaimsAt;
    assert ProofFrom(h, tk, t, false, NAME_AB, 2) == [NodeProof(h, tk, t, false, NAME_AB, 2)];
    assert ProofFrom(h, tk, t, false, NAME_AB, 1)
        == [NodeProof(h, tk, t, false, NAME_AB, 1)] + ProofFrom(h, tk, t, false, NAME_AB, 2);
    assert ProofFrom(h, tk, t, false, NAME_AB, 0)
        == [NodeProof(h, tk, t, false, NAME_AB, 0)] + ProofFrom(h, tk, t, false, NAME_AB, 1);
  }

  lemma ProvesAB(h: HashFn, tk: Name -> int, t: Tree, proof: Proof)
    requires Closed(t) && Pruned(t) && Named(t, {NAME_A, NAME_AB, NAME_B})
    requires IsProofFor(h, tk, t, false, NAME_AB, proof)
    ensures proof.hasValue && ClaimsAt(t, NAME_AB) != [] && proof.outPoint == ClaimsAt(t, NAME_AB)[0].outPoint
    ensures proof.nHeightOfLastTakeover == tk(NAME_AB) && proof.nodes == ProofFrom(h, tk, t, false, NAME_AB, 0)
  {
    hide Closed, Pruned, Proves, ProofFrom;
    assert ClaimsAt(t, NAME_AB) != [];
    ThreeNameNodes(t);
    ProvesExactly(t, false, NAME_AB);
  }

  /** The proof of the claim to ab in the trie of three claims, to a, to ab and to b: the nodes of
      the root, of a and of ab, each with its children and a blank hash where the path goes on;
      the node on the way has the hash of its value, the last one leaves it blank, since the
      proof names outpoint and height. */
  method ProofWrittenOut(hash: HashFn, heap: seq<ClaimValue> -> seq<ClaimValue>, a: Digest, ab: Digest, b: Digest)
    returns (proof: Proof)
    requires IsMakeHeap(heap)
    ensures proof.nodes == [
              ProofNode([(97, NULL_DIGEST), (98, hash(Value(hash, b, 50)))], false, NULL_DIGEST),
              ProofNode([(98, NULL_DIGEST)], true, Value(hash, a, 48)),
              ProofNode([], true, NULL_DIGEST)]
    ensures proof.hasValue && proof.outPoint == OutPoint(ab, 1) && proof.nHeightOfLastTakeover == 0
  {
    hide ClaimTrieCache.Valid, ClaimTrieCache.HashValid, Closed, Pruned, Named, ClaimsAt, ClaimTrieCache.Trie,
        ClaimTrieCache.Heights, IsProofFor, Value, ProofFrom;
    var cache := ThreeInCache(hash, heap, a, ab, b);
    HeightsNotRequired(cache);
    ShownParts(cache);
    ThreeNameNodes(cache.Trie());
    proof := cache.GetProofForName(NAME_AB, false);
    NoHeights(cache);
    ProvesAB(hash, cache.Heights(), cache.Trie(), proof);
    assert NAME_AB[..0] == [];
    ThreeProofNodes(hash, cache.Heights(), cache.Trie());
    ValuesOfThree(hash, cache.Heights(), cache.Trie(), a, b);
  }

  lemma ValuesOfThree(h: HashFn, tk: Name -> int, t: Tree, a: Digest, b: Digest)
    requires Closed(t) && Pruned(t) && Named(t, {NAME_A, NAME_AB, NAME_B}) && forall n :: tk(n) == 0
    requires ClaimsAt(t, NAME_A)[0].outPoint == OutPoint(a, 0) && ClaimsAt(t, NAME_B)[0].outPoint == OutPoint(b, 2)
    ensures NAME_A in t && t[NAME_A].claims != [] && NAME_B in t
    ensures ValueHash(h, t[NAME_A].claims[0].outPoint, tk(NAME_A)) == Value(h, a, 48)
    ensures NodeHash(h, tk, t, NAME_B) == h(Value(h, b, 50))
  {
    hide Closed, Pruned, NodeHash;
    ThreeNameNodes(t);
    LeafHash(h, tk, t, NAME_B);
    assert HeightBytes(0) == [0, 0, 0, 0, 0, 0, 0, 0];
  }
}
