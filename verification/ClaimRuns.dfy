/** Whole runs of the claim trie cache: any insertions and removals, then the hash, a flush
    and the consistency check. */
module ClaimRuns {
  import opened ClaimTypes
  import opened NameTree
  import opened PathOps
  import opened Overlay
  import opened Flushing
  import opened ClaimMap
  import opened TrieHash
  import opened ClaimProofs
  import opened ClaimTries
  import opened ClaimTrieCaches

  ghost function EnvOf(c: ClaimTrieCache): Env
    reads c.base
  {
    Env(c.heap, c.base.supports)
  }

  /** Ids and outpoints stay unique per name, so that the front claim always controls. */
  ghost predicate Orderly(env: Env, t: Tree, ops: seq<Op>)
    requires Closed(t)
  {
    IsMakeHeap(env.heap) && Controlled(env, t) && FreshRun(env, t, ops)
  }

  lemma RunNext(env: Env, t: Tree, ops: seq<Op>, i: nat)
    requires Closed(t) && i < |ops|
    ensures Run(env, t, ops[..i + 1]) == Step(env, Run(env, t, ops[..i]), ops[i])
  {
    hide Step, Closed;
    assert ops[..i + 1][..i] == ops[..i];
  }

  lemma OrderlyAt(env: Env, t: Tree, ops: seq<Op>, i: nat)
    requires Closed(t) && i < |ops| && Orderly(env, t, ops)
    ensures Controlled(env, Run(env, t, ops[..i]))
  {
    hide Step, Closed, Fresh, Run, Controlled, IsMakeHeap;
    assert forall k :: 0 <= k < i ==> ops[..i][..k] == ops[..k] && ops[..i][k] == ops[k];
    RunControls(env, t, ops[..i]);
  }

  lemma ControlsAt(env: Env, t: Tree, name: Name)
    requires Controlled(env, t)
    ensures UniqueClaims(ClaimsAt(t, name)) && FrontControls(ClaimsAt(t, name), env.SupportsOf(name))
  {
  }

  // ---------- what a run marks ----------

  /** What an operation marks, and which names it certainly caches or leaves alone. */
  ghost predicate Touches(t: Tree, u: Tree, cache: Tree, cache': Tree, dirty: set<Name>, dirty': set<Name>, op: Op)
  {
    && dirty' == dirty + (if Changes(t, u, op) then Prefixes(op.name) else {})
    && (op.Remove? && op.name !in t ==> cache' == cache)
    && (op.Remove? && op.name in u ==> op.name in cache')
  }

  ghost predicate Changes(t: Tree, u: Tree, op: Op)
  {
    && TopChanged(ClaimsAt(t, op.name), ClaimsAt(u, op.name))
    && (op.Remove? ==> FindOutPoint(ClaimsAt(t, op.name), op.outPoint) < |ClaimsAt(t, op.name)|)
  }

  predicate NoInserts(ops: seq<Op>)
  {
    forall i :: 0 <= i < |ops| ==> ops[i].Remove?
  }

  predicate RemovesEmptyName(ops: seq<Op>)
  {
    exists i :: 0 <= i < |ops| && ops[i].Remove? && ops[i].name == []
  }

  /** What is known if nothing is marked after a run, and when that is so for an empty base. */
  ghost predicate Witnessed(b: Tree, t: Tree, cache: Tree, dirty: set<Name>, ops: seq<Op>)
    requires [] in b
  {
    && (dirty == {} ==>
          && (forall n :: ClaimsAt(b, n) == [] <==> ClaimsAt(t, n) == [])
          && (b[[]].Empty() ==> NoInserts(ops) && (cache == map[] <==> !RemovesEmptyName(ops))))
    && (b[[]].Empty() && NoInserts(ops) ==> dirty == {} && t == b)
  }

  lemma StepClaims(env: Env, t: Tree, op: Op)
    requires IsMakeHeap(env.heap) && Closed(t)
    ensures var u := Step(env, t, op);
            && (forall n :: n != op.name ==> ClaimsAt(u, n) == ClaimsAt(t, n))
            && (op.Insert? ==> ClaimsAt(u, op.name) != [])
            && (op.Remove? && !(FindOutPoint(ClaimsAt(t, op.name), op.outPoint) < |ClaimsAt(t, op.name)|) ==>
                  (ClaimsAt(u, op.name) == [] <==> ClaimsAt(t, op.name) == []))
            && (op.Remove? && ClaimsAt(t, op.name) == [] ==> u == t)
  {
    hide IsMakeHeap, Closed, AfterInsert, ClaimsAt, FindOutPoint, Reordered, FrontControls, UniqueClaims, ClaimBag;
    match op
    case Insert(name, claim) =>
      InsertedClaims(env, t, name, claim);
    case Remove(name, outPoint) =>
      RemovedClaims(env, t, name, outPoint);
  }

  lemma InsertedClaims(env: Env, t: Tree, name: Name, claim: ClaimValue)
    requires IsMakeHeap(env.heap) && Closed(t)
    ensures var u := AfterInsert(env.heap, env.SupportsOf(name), t, name, claim);
            ClaimsAt(u, name) != [] && forall n :: n != name ==> ClaimsAt(u, n) == ClaimsAt(t, n)
  {
    hide IsMakeHeap, Closed, ClaimsAt, Inserted, Reordered, FrontControls, UniqueClaims, ClaimBag;
    var grown := Grown(env.heap, ClaimsAt(t, name), claim, env.SupportsOf(name));
    ReorderedControls(env.heap, ClaimsAt(t, name) + [claim], env.SupportsOf(name));
    forall n
      ensures ClaimsAt(Inserted(t, name, grown), n) == if n == name then grown else ClaimsAt(t, n)
    {
      InsertedAt(t, name, grown, n);
    }
  }

  lemma RemovedClaims(env: Env, t: Tree, name: Name, outPoint: OutPoint)
    requires IsMakeHeap(env.heap) && Closed(t)
    ensures var u := AfterRemove(env.heap, env.SupportsOf(name), t, name, outPoint);
            && (forall n :: n != name ==> ClaimsAt(u, n) == ClaimsAt(t, n))
            && (!(FindOutPoint(ClaimsAt(t, name), outPoint) < |ClaimsAt(t, name)|)
                ==> (ClaimsAt(u, name) == [] <==> ClaimsAt(t, name) == []))
            && (ClaimsAt(t, name) == [] ==> u == t)
  {
    hide IsMakeHeap, Closed, ClaimsAt, FindOutPoint, Reordered, FrontControls, UniqueClaims, ClaimBag, Removed;
    forall n
      ensures ClaimsAt(AfterRemove(env.heap, env.SupportsOf(name), t, name, outPoint), n)
              == if n == name then Shrunk(env.heap, ClaimsAt(t, name), outPoint, env.SupportsOf(name))
                  else ClaimsAt(t, n)
    {
      AfterRemoveAt(env, t, name, outPoint, n);
    }
    ReorderedControls(env.heap, ClaimsAt(t, name), env.SupportsOf(name));
  }

  lemma OneMoreOp(ops: seq<Op>, op: Op)
    ensures NoInserts(ops + [op]) <==> NoInserts(ops) && op.Remove?
    ensures RemovesEmptyName(ops + [op]) <==> RemovesEmptyName(ops) || (op.Remove? && op.name == [])
  {
    var all := ops + [op];
    if NoInserts(all) {
      assert forall i :: 0 <= i < |ops| ==> ops[i] == all[i];
      assert all[|ops|] == op;
    }
    if RemovesEmptyName(ops) {
      var i :| 0 <= i < |ops| && ops[i].Remove? && ops[i].name == [];
      assert all[i] == ops[i];
    }
    if op.Remove? && op.name == [] {
      assert all[|ops|] == op;
    }
  }

  lemma PrefixesNotNone(name: Name)
    ensures [] in Prefixes(name)
  {
    InPrefixes(name, []);
  }

  /** Where nothing gets marked, no name gains or loses its claims. */
  lemma UnmarkedStep(env: Env, b: Tree, t: Tree, op: Op)
    requires IsMakeHeap(env.heap) && Closed(t)
    requires !Changes(t, Step(env, t, op), op)
    requires forall n :: ClaimsAt(b, n) == [] <==> ClaimsAt(t, n) == []
    ensures forall n :: ClaimsAt(b, n) == [] <==> ClaimsAt(Step(env, t, op), n) == []
    ensures op.Insert? ==> ClaimsAt(b, op.name) != []
  {
    hide IsMakeHeap, Closed, Step, ClaimsAt, FindOutPoint;
    StepClaims(env, t, op);
  }

  lemma WitnessedNext(env: Env, b: Tree, t: Tree, cache: Tree, cache': Tree, dirty: set<Name>, dirty': set<Name>,
      ops: seq<Op>, op: Op)
    requires IsMakeHeap(env.heap) && Closed(t) && Closed(b) && [] in b && Witnessed(b, t, cache, dirty, ops)
    requires Touches(t, Step(env, t, op), cache, cache', dirty, dirty', op)
    ensures Witnessed(b, Step(env, t, op), cache', dirty', ops + [op])
  {
    hide IsMakeHeap, Closed, Step, FindOutPoint, TopChanged, Prefixes, NoInserts, RemovesEmptyName;
    var u := Step(env, t, op);
    OneMoreOp(ops, op);
    PrefixesNotNone(op.name);
    if dirty' == {} {
      assert !Changes(t, u, op) && dirty == {};
      UnmarkedStep(env, b, t, op);
      if b[[]].Empty() {
        BlankClaims(b);
        StepClaims(env, t, op);
        EmptyRootAlone(b);
      }
    }
    if b[[]].Empty() && NoInserts(ops) && op.Remove? {
      BlankClaims(b);
      StepClaims(env, t, op);
    }
  }

  lemma BlankClaims(b: Tree)
    requires Closed(b) && [] in b && b[[]].Empty()
    ensures forall n :: ClaimsAt(b, n) == []
  {
    hide Closed;
    EmptyRootAlone(b);
  }

  /** One operation of a run. */
  method Apply(c: ClaimTrieCache, op: Op)
    requires c.Valid()
    modifies c`cache, c`blockOriginals, c`dirtyHashes, c`namesToCheckForTakeover
    ensures c.Valid() && c.Trie() == Step(EnvOf(c), old(c.Trie()), op)
    ensures old(c.HashValid()) && Controlled(EnvOf(c), old(c.Trie())) ==> c.HashValid()
    ensures Touches(old(c.Trie()), c.Trie(), old(c.cache), c.cache, old(c.dirtyHashes), c.dirtyHashes, op)
  {
    hide Closed, Pruned, IsMakeHeap, HashInv, Shown, Lays, AfterInsert, AfterRemove, UniqueClaims, FrontControls,
        Controlled, Remembers, ClaimsAt, TopChanged, FindOutPoint, Prefixes;
    match op
    case Insert(name, claim) =>
      var ok := c.InsertClaimIntoTrie(name, claim, true);
    case Remove(name, outPoint) =>
      if Controlled(EnvOf(c), c.Trie()) {
        ControlsAt(EnvOf(c), c.Trie(), name);
      }
      var ok, claim := c.RemoveClaimFromTrie(name, outPoint, true);
  }

  /** The trie that shows through follows the run, the base is left alone, and in an orderly
      run every hash that is not marked stays right. */
  method ApplyAll(c: ClaimTrieCache, ops: seq<Op>)
    requires c.Valid()
    modifies c`cache, c`blockOriginals, c`dirtyHashes, c`namesToCheckForTakeover
    ensures c.Valid() && c.Trie() == Run(EnvOf(c), old(c.Trie()), ops)
    ensures old(c.HashValid()) && Orderly(EnvOf(c), old(c.Trie()), ops) ==> c.HashValid()
    ensures [] in old(c.Trie()) && Closed(old(c.Trie()))
    ensures old(c.cache) == map[] && old(c.dirtyHashes) == {} ==>
              Witnessed(old(c.Trie()), c.Trie(), c.cache, c.dirtyHashes, ops)
  {
    hide Closed, Pruned, IsMakeHeap, HashInv, Shown, Lays, Step, Run, Controlled, Orderly, Witnessed, Touches;
    HasRoot(c);
    ghost var untouched := c.cache == map[] && c.dirtyHashes == {};
    if untouched {
      NothingWitnessed(c.Trie(), c.cache, c.dirtyHashes, ops);
    }
    ghost var t, env, good := c.Trie(), EnvOf(c), c.HashValid() && Orderly(EnvOf(c), c.Trie(), ops);
    RunNothing(env, t);
    for i := 0 to |ops|
      invariant c.Valid() && c.Trie() == Run(env, t, ops[..i])
      invariant good ==> c.HashValid()
      invariant untouched ==> Witnessed(t, c.Trie(), c.cache, c.dirtyHashes, ops[..i])
    {
      RunNext(env, t, ops, i);
      ghost var u, cache, dirty := c.Trie(), c.cache, c.dirtyHashes;
      HasRoot(c);
      if good {
        OrderlyAt(env, t, ops, i);
      }
      Apply(c, ops[i]);
      if untouched {
        assert ops[..i] + [ops[i]] == ops[..i + 1];
        HeapOf(c);
        WitnessedNext(env, t, u, cache, c.cache, dirty, c.dirtyHashes, ops[..i], ops[i]);
      }
    }
    assert ops[..|ops|] == ops;
  }

  lemma NothingWitnessed(t: Tree, cache: Tree, dirty: set<Name>, ops: seq<Op>)
    requires [] in t && cache == map[] && dirty == {}
    ensures Witnessed(t, t, cache, dirty, ops[..0])
  {
  }

  lemma HeapOf(c: ClaimTrieCache)
    requires c.Valid()
    ensures IsMakeHeap(c.heap)
  {
    hide IsMakeHeap, Closed, Pruned, Lays, Shown;
  }

  lemma RunNothing(env: Env, t: Tree)
    requires Closed(t)
    ensures forall ops: seq<Op> :: Run(env, t, ops[..0]) == t
  {
  }

  /** A run flushed without any hash taken: the flush succeeds, and the base then holds, for
      every name, the claims that the same run on a plain map leaves there. */
  method RunThenFlush(base: ClaimTrie, heap: seq<ClaimValue> -> seq<ClaimValue>, ops: seq<Op>) returns (ok: bool)
    requires IsMakeHeap(heap) && Closed(base.nodes) && Pruned(base.nodes)
    modifies base`nodes
    ensures ok && Closed(base.nodes)
    ensures SameContent(Run(Env(heap, base.supports), old(base.nodes), ops), base.nodes)
    ensures exists states :: PlainRun(states, ops, Plainly(old(base.nodes)), Plainly(base.nodes))
  {
    hide Closed, Pruned, IsMakeHeap, HashInv, Shown, Lays, Step, Run, Controlled, Orderly, PlainRun, Plainly,
        SameContent, HashesRight, ConsistentBelow;
    var c := new ClaimTrieCache(base, heap, false);
    ApplyAll(c, ops);
    RunRefines(EnvOf(c), old(base.nodes), ops);
    ghost var t := c.Trie();
    ok := c.Flush();
    SamePlainly(t, base.nodes);
    FlushedIsClosed(c);
  }

  lemma SamePlainly(t: Tree, u: Tree)
    requires SameContent(t, u)
    ensures Plainly(t) == Plainly(u)
  {
  }

  lemma FlushedIsClosed(c: ClaimTrieCache)
    requires c.Valid() && c.Trie() == c.base.nodes
    ensures Closed(c.base.nodes)
  {
    hide Closed, Pruned, IsMakeHeap, Lays, Shown;
  }

  /** The one kind of run that leaves nothing marked in an empty trie and yet puts a node in the
      cache: on an empty base nothing is inserted, and something is to be removed from the
      empty name. */
  ghost predicate NothingMarked(b: Tree, ops: seq<Op>)
    requires [] in b
  {
    b[[]].Empty() && NoInserts(ops) && RemovesEmptyName(ops)
  }

  lemma WitnessedMeans(c: ClaimTrieCache, b: Tree, ops: seq<Op>)
    requires c.Valid() && c.base.nodes == b && Closed(b) && Pruned(b) && [] in b
    requires Witnessed(b, c.Trie(), c.cache, c.dirtyHashes, ops)
    ensures c.EmptyButUnmarked() <==> NothingMarked(b, ops)
  {
    hide Closed, IsMakeHeap, Lays, Shown, NoInserts, RemovesEmptyName;
    HasRoot(c);
    if c.EmptyButUnmarked() && !b[[]].Empty() {
      var n := SomeClaims(b);
      assert ClaimsAt(c.Trie(), n) != [];
      BlankClaims(c.Trie());
      assert false;
    }
  }

  /** A pruned trie that is not empty holds a claim. */
  lemma SomeClaims(b: Tree) returns (n: Name)
    requires Closed(b) && Pruned(b) && [] in b && !b[[]].Empty()
    ensures ClaimsAt(b, n) != []
  {
    hide Closed, Pruned;
    if b[[]].claims != [] {
      return [];
    }
    var c :| c in b[[]].children;
    ClosedChildIn(b, [], c);
    NodesArePrefixes(b, Child([], c));
    var q :| q in b && b[q].claims != [] && Child([], c) <= q;
    return q;
  }

  lemma ClosedChildIn(b: Tree, p: Name, c: Byte)
    requires Closed(b) && p in b && c in b[p].children
    ensures Child(p, c) in b
  {
  }

  /** A run, hashed and flushed: the hash is the one computed from scratch for what the run
      leaves, the flush succeeds, and the base passes its consistency check. */
  method RunThenHash(base: ClaimTrie, heap: seq<ClaimValue> -> seq<ClaimValue>, ops: seq<Op>)
    returns (rootHash: Digest, ok: bool, consistent: bool)
    requires IsMakeHeap(heap) && Pruned(base.nodes)
        && HashesRight(base.hash, HeightsIn(false, map[], base.nodes), base.nodes)
    requires forall p :: p in base.nodes ==> base.nodes[p].nHeightOfLastTakeover == 0
    requires Orderly(Env(heap, base.supports), base.nodes, ops)
    modifies base`nodes
    ensures var t := Run(Env(heap, base.supports), old(base.nodes), ops);
            && [] in t && [] in old(base.nodes) && SameContent(t, base.nodes)
            && rootHash == if NothingMarked(old(base.nodes), ops) then old(base.nodes)[[]].hash
                else RootHash(base.hash, _ => 0, t)
    ensures ok && consistent
  {
    hide Closed, Pruned, IsMakeHeap, HashInv, Shown, Lays, Step, Run, Controlled, Orderly, SameContent, HashesRight,
        ConsistentBelow, RootHash, Witnessed, NothingMarked;
    HashesClosed(base);
    var c := new ClaimTrieCache(base, heap, false);
    FreshHashInv(base.hash, c.Heights(), base.nodes);
    ApplyAll(c, ops);
    WitnessedMeans(c, old(base.nodes), ops);
    rootHash, ok, consistent := HashAndFlush(c);
  }

  method HashAndFlush(c: ClaimTrieCache) returns (rootHash: Digest, ok: bool, consistent: bool)
    requires c.Valid() && c.HashValid() && !c.fRequireTakeoverHeights && c.cacheHashes == map[]
        && c.cacheTakeoverHeights == map[]
    requires forall p :: p in c.base.nodes ==> c.base.nodes[p].nHeightOfLastTakeover == 0
    modifies c, c.base`nodes
    ensures Closed(old(c.Trie())) && [] in old(c.Trie())
    ensures rootHash == if old(c.EmptyButUnmarked()) then old(c.base.nodes)[[]].hash
                        else RootHash(c.base.hash, _ => 0, old(c.Trie()))
    ensures SameContent(old(c.Trie()), c.base.nodes) && ok && consistent
  {
    hide Closed, Pruned, IsMakeHeap, HashInv, Shown, Lays, SameContent, HashesRight, ConsistentBelow, RootHash,
        HeightsWritten;
    ghost var t, b := c.Trie(), c.base.nodes;
    KnownHeights(c);
    HasRoot(c);
    SameRootHash(c);
    rootHash := c.GetMerkleHash();
    ok := c.Flush();
    FlushedIsClosed(c);
    StillZero(b, c.base.nodes);
    consistent := c.base.CheckConsistency();
  }

  lemma StillZero(b: Tree, w: Tree)
    requires HeightsWritten(b, map[], w) && forall p :: p in b ==> b[p].nHeightOfLastTakeover == 0
    ensures forall p :: p in w ==> w[p].nHeightOfLastTakeover == 0
  {
  }

  lemma HashesClosed(base: ClaimTrie)
    requires HashesRight(base.hash, HeightsIn(false, map[], base.nodes), base.nodes)
    ensures Closed(base.nodes)
  {
    hide Closed, NodeHash;
  }

  lemma KnownHeights(c: ClaimTrieCache)
    requires !c.fRequireTakeoverHeights
    ensures c.HeightsKnown()
  {
  }

  lemma HasRoot(c: ClaimTrieCache)
    requires c.Valid()
    ensures [] in c.Trie() && Closed(c.Trie())
  {
    hide Shown, Pruned, IsMakeHeap;
    ShownClosed(c.base.nodes, c.cache);
  }

  /** No takeover height is required: all count as zero. */
  lemma SameRootHash(c: ClaimTrieCache)
    requires !c.fRequireTakeoverHeights && [] in c.Trie() && Closed(c.Trie())
    ensures RootHash(c.base.hash, c.Heights(), c.Trie()) == RootHash(c.base.hash, _ => 0, c.Trie())
  {
    hide Closed, NodeHash, Shown;
    NodeHashHeights(c.base.hash, c.Heights(), _ => 0, c.Trie(), []);
  }

  /** The proof for any name verifies against the root hash of a trie that holds something. It
      proves the controlling claim exactly if the name holds one and, where char is signed, is
      spelled without characters above 127. */
  method ProveAndVerify(c: ClaimTrieCache, name: Name, signedChar: bool)
      returns (proof: Proof, rootHash: Digest, ok: bool)
    requires c.Valid() && c.HashValid() && c.HeightsKnown() && NonZero(c.base.hash)
    requires [] in c.Trie() && !c.Trie()[[]].Empty()
    modifies c`cacheHashes, c`dirtyHashes
    ensures ok
    ensures proof.hasValue
            <==> ClaimsAt(c.Trie(), name) != [] && (signedChar ==> forall i :: 0 <= i < |name| ==> name[i] < 128)
    ensures proof.hasValue ==>
              name in c.Trie() && c.Trie()[name].claims != []
              && proof.outPoint == c.Trie()[name].claims[0].outPoint && proof.nHeightOfLastTakeover == c.Heights()(name)
  {
    hide Closed, Pruned, IsMakeHeap, HashInv, Shown, Lays, RootHash, IsProofFor, Proves, NonZero, Accepts;
    HasRoot(c);
    proof := c.GetProofForName(name, signedChar);
    rootHash := c.GetMerkleHash();
    ProofAccepted(c.base.hash, c.Heights(), c.Trie(), signedChar, name, proof);
    ProvesExactly(c.Trie(), signedChar, name);
    IsProofParts(c.base.hash, c.Heights(), c.Trie(), signedChar, name, proof);
    ok := VerifyProof(c.base.hash, proof, rootHash, name);
  }
}
