/** Blocks that are taken back: in a new cache over the base that the block was written to, with
    what was stored about it, and down to the spends and additions of its transactions. */
module ClaimDisconnects {
  import opened ClaimTypes
  import opened NameTree
  import opened PathOps
  import opened Overlay
  import opened Flushing
  import opened ClaimMap
  import opened TrieHash
  import opened ClaimLedger
  import opened ClaimMoves
  import opened ClaimUndo
  import opened ClaimQueues
  import opened ClaimTries
  import opened ClaimTrieCaches
  import opened ClaimTracks
  import opened ClaimBlocks
  import opened ClaimHoldings
  import opened ClaimTrails
  import opened ClaimChains

  // ---------- names that were taken over ended with another front claim ----------

  /** Ranks do not depend on when a claim became valid. */
  lemma SameRank(a: ClaimValue, b: ClaimValue, c: ClaimValue, d: ClaimValue, valid: int, supports: seq<SupportValue>)
    requires Outranks(a, b, supports)
    requires Plain(c) == Plain(a) || Plain(c) == Plain(a).(nValidAtHeight := valid)
        || Plain(a) == Plain(c).(nValidAtHeight := valid)
    requires Plain(d) == Plain(b) || Plain(d) == Plain(b).(nValidAtHeight := valid)
        || Plain(b) == Plain(d).(nValidAtHeight := valid)
    ensures Outranks(c, d, supports)
  {
    assert Plain(c).claimId == Plain(a).claimId && Plain(c).nAmount == Plain(a).nAmount;
    assert Plain(c).nHeight == Plain(a).nHeight && Plain(c).outPoint == Plain(a).outPoint;
    assert Plain(d).claimId == Plain(b).claimId && Plain(d).nAmount == Plain(b).nAmount;
    assert Plain(d).nHeight == Plain(b).nHeight && Plain(d).outPoint == Plain(b).outPoint;
  }

  lemma NotBoth(a: ClaimValue, b: ClaimValue, supports: seq<SupportValue>)
    requires Outranks(a, b, supports)
    ensures !Outranks(b, a, supports)
  {
    OutPointLessTotal(a.outPoint, b.outPoint);
  }

  lemma EndUnique(last: Ledger, end: Ledger, inserts: seq<InsertUndo>, expiries: seq<QueueEntry>, height: int,
      lifetime: int)
    requires UniqueIds(last) && Recorded(last, end, inserts, expiries, height)
    ensures UniqueIds(end) && UniqueIds(Expired(Ripened(last, height), height, lifetime))
  {
    forall j, k | j in end.claims && k in end.claims && j.0 == k.0 && j != k
      ensures end.claims[j].claimId != end.claims[k].claimId
    {
      assert end.claims[j] == Rewound(last, end, height).claims[j];
      assert end.claims[k] == Rewound(last, end, height).claims[k];
    }
  }

  /** A claim of a name in both tries, that of the middle of the end of a block and that after
      it, ranks alike in both. */
  lemma EndClaim(last: Ledger, end: Ledger, inserts: seq<InsertUndo>, expiries: seq<QueueEntry>, height: int,
      lifetime: int, k: Key)
    requires Recorded(last, end, inserts, expiries, height) && k in end.claims
    ensures k in last.claims
    ensures end.claims[k] == last.claims[k] || end.claims[k] == last.claims[k].(nValidAtHeight := height)
  {
    assert end.claims[k] == Rewound(last, end, height).claims[k];
  }

  /** If a claim that did not wait is in front at the end it was in front in the middle. */
  lemma FrontStays(b: Tree, t: Tree, supports: map<Name, seq<SupportValue>>, last: Ledger, end: Ledger, undo: BlockUndo,
      mid: Tree, taken: set<Name>, height: int, lifetime: int, k: Key)
    requires Ends(b, t, supports, last, end, undo, mid, taken, height, lifetime) && UniqueIds(last)
    requires InTrieThen(t, end) && FrontsIn(t, supports)
    requires ClaimsAt(t, k.0) != [] && ClaimsAt(t, k.0)[0].outPoint == k.1 && k in last.claims && k !in last.due
    ensures ClaimsAt(mid, k.0) != [] && Plain(ClaimsAt(mid, k.0)[0]) == last.claims[k]
  {
    hide InTrieThen, ClaimsAt, FindOutPoint, FrontControls, UniqueClaims, UniqueIds, Recorded, HeightsNoted, AllTaken,
        TakenOver, Outranks;
    var midL := Expired(Ripened(last, height), height, lifetime);
    var n, s := k.0, if k.0 in supports then supports[k.0] else [];
    EndUnique(last, end, undo.inserts, undo.expiries, height, lifetime);
    UniqueInTree(mid, midL, n);
    UniqueInTree(t, end, n);
    FoundInTree(t, end, k, 0);
    InTree(mid, midL, k);
    var i := FindOutPoint(ClaimsAt(mid, n), k.1);
    var j: Key := (n, ClaimsAt(mid, n)[0].outPoint);
    FoundInTree(mid, midL, j, 0);
    InTree(t, end, j);
    var o := FindOutPoint(ClaimsAt(t, n), j.1);
    OneFront(ClaimsAt(mid, n), ClaimsAt(t, n), i, o, k, j, last, end, undo, height, lifetime, s);
    FoundInTree(mid, midL, k, 0);
  }

  lemma OneFront(a: seq<ClaimValue>, b: seq<ClaimValue>, i: nat, o: nat, k: Key, j: Key, last: Ledger, end: Ledger,
      undo: BlockUndo, height: int, lifetime: int, s: seq<SupportValue>)
    requires i < |a| && o < |b| && FrontControls(a, s) && FrontControls(b, s)
    requires Recorded(last, end, undo.inserts, undo.expiries, height) && k in end.claims && j in end.claims
    requires k in last.claims && j in last.claims && a[i].outPoint == k.1 == b[0].outPoint
    requires a[0].outPoint == b[o].outPoint && j.1 == a[0].outPoint
    requires Plain(a[0]) == last.claims[j] && Plain(a[i]) == last.claims[k]
    requires Plain(b[0]) == end.claims[k] && Plain(b[o]) == end.claims[j]
    ensures a[0].outPoint == k.1
  {
    hide Recorded, Outranks;
    EndClaim(last, end, undo.inserts, undo.expiries, height, lifetime, k);
    EndClaim(last, end, undo.inserts, undo.expiries, height, lifetime, j);
    if a[0].outPoint != k.1 {
      assert Outranks(a[0], a[i], s) && Outranks(b[0], b[o], s);
      SameRank(a[0], a[i], b[o], b[0], height, s);
      NotBoth(b[0], b[o], s);
      assert false;
    }
  }

  /** A name that was taken over ends with another front claim, or with none. */
  lemma TakenFront(l: Ledger, b: Tree, t: Tree, supports: map<Name, seq<SupportValue>>, txs: seq<Tx>, undo: BlockUndo,
      trail: Trail, m: Holdings, height: int, lifetime: int, n: Name)
    requires Connected(l, b, t, supports, txs, undo, trail, height, lifetime) && NewOutPoints(m, txs) && Lists(l, m)
    requires InTrieThen(b, l) && InTrieThen(t, trail.end) && FrontsIn(t, supports)
    requires n in trail.taken && ClaimsAt(b, n) != []
    ensures Front(ClaimsAt(t, n)) != Front(ClaimsAt(b, n))
  {
    hide InTrieThen, ClaimsAt, FrontsIn, Sound, Steps, NewOutPoints, UniqueIds, StandsInBase, Ends;
    if Front(ClaimsAt(t, n)) == Front(ClaimsAt(b, n)) {
      var last := trail.ledgers[|txs|];
      var x, y := ClaimsAt(b, n)[0], ClaimsAt(t, n)[0];
      assert Plain(x).outPoint == Plain(y).outPoint;
      var k: Key := (n, x.outPoint);
      FoundInTree(b, l, k, 0);
      FoundInTree(t, trail.end, k, 0);
      EndsRecorded(b, t, supports, last, trail.end, undo, trail.mid, trail.taken, height, lifetime, n);
      EndClaim(last, trail.end, undo.inserts, undo.expiries, height, lifetime, k);
      StillHeld(trail.ledgers, txs, undo.spends, m, height, lifetime, |txs|, k);
      FrontStays(b, t, supports, last, trail.end, undo, trail.mid, trail.taken, height, lifetime, k);
    }
  }

  lemma EndsRecorded(b: Tree, t: Tree, supports: map<Name, seq<SupportValue>>, last: Ledger, end: Ledger,
      undo: BlockUndo, mid: Tree, taken: set<Name>, height: int, lifetime: int, n: Name)
    requires Ends(b, t, supports, last, end, undo, mid, taken, height, lifetime)
    ensures Recorded(last, end, undo.inserts, undo.expiries, height)
    ensures n in taken && ClaimsAt(b, n) != [] && ClaimsAt(mid, n) != [] ==>
              ClaimsAt(b, n)[0].claimId != ClaimsAt(mid, n)[0].claimId
  {
    hide Recorded, InTrieThen, FrontsIn, AllTaken, HeightsNoted, ClaimsAt;
  }

  // ---------- the transactions ----------

  /** One transaction is taken back: its output is removed, or its input comes back as it was. */
  method UndoTx(c: ClaimQueueCache, tx: Tx, spend: Option<int>, ghost l: Ledger, ghost l': Ledger, ghost last: Ledger,
      ghost end: Ledger)
    requires c.trie.Valid() && Holds(c.Current(), c.ledger, c.Lifetime())
    requires c.ledger == Altered(l', last, end, c.nCurrentHeight)
    requires Sound(l, c.nCurrentHeight, c.Lifetime()) && Steps(l, tx, spend, l', c.nCurrentHeight)
    requires tx.SpendClaim? ==> tx.Key() !in last.due
    modifies c, c.trie`cache, c.trie`blockOriginals, c.trie`dirtyHashes, c.trie`namesToCheckForTakeover
    ensures c.trie.Valid() && Holds(c.Current(), c.ledger, c.Lifetime()) && c.nCurrentHeight == old(c.nCurrentHeight)
    ensures c.ledger == Altered(l, last, end, c.nCurrentHeight)
    ensures Undoes(old(c.Snapshot()), c.Snapshot())
  {
    hide ClaimTrieCache.Valid, Holds, ClaimQueueCache.Valid, ClaimQueueCache.Current, Undoes, Sound, Steps, Altered,
        ClaimQueueCache.Snapshot;
    UndoesSelf(c.Snapshot());
    match tx
    case AddClaim(name, outPoint, _, _) =>
      SoundForm(l, c.nCurrentHeight, c.Lifetime());
      AlteredAdd(l, tx, spend, l', last, end, c.nCurrentHeight);
      var removed, nValidAtHeight := c.RemoveClaim(name, outPoint, c.nCurrentHeight, false);
    case SpendClaim(name, outPoint, _, _, nHeight) =>
      AlteredSpend(l, tx, spend, l', last, end, c.nCurrentHeight, c.Lifetime());
      if spend.Some? && 0 < spend.value && nHeight <= spend.value {
        var ok := c.UndoSpendClaim(name, Spent(tx, spend.value));
      }
  }

  lemma SoundForm(l: Ledger, height: int, lifetime: int)
    requires Sound(l, height, lifetime)
    ensures WellFormed(l) && InTime(l, height, lifetime)
  {
  }

  /** All transactions are taken back, the last one first. */
  method UndoTxs(c: ClaimQueueCache, txs: seq<Tx>, spends: seq<Option<int>>, ghost ledgers: seq<Ledger>,
      ghost m: Holdings, ghost end: Ledger)
    requires c.trie.Valid() && Holds(c.Current(), c.ledger, c.Lifetime())
    requires Follows(ledgers, txs, spends, c.nCurrentHeight, c.Lifetime()) && NewOutPoints(m, txs)
    requires c.ledger == Altered(ledgers[|txs|], ledgers[|txs|], end, c.nCurrentHeight)
    modifies c, c.trie`cache, c.trie`blockOriginals, c.trie`dirtyHashes, c.trie`namesToCheckForTakeover
    ensures c.trie.Valid() && Holds(c.Current(), c.ledger, c.Lifetime()) && c.nCurrentHeight == old(c.nCurrentHeight)
    ensures c.ledger == Altered(ledgers[0], ledgers[|txs|], end, c.nCurrentHeight)
    ensures Undoes(old(c.Snapshot()), c.Snapshot())
  {
    hide ClaimTrieCache.Valid, Holds, ClaimQueueCache.Current, Undoes, Sound, Steps, Altered, NewOutPoints,
        ClaimQueueCache.Snapshot;
    ghost var last := ledgers[|txs|];
    UndoesSelf(c.Snapshot());
    var i := |txs|;
    while 0 < i
      invariant 0 <= i <= |txs| && c.nCurrentHeight == old(c.nCurrentHeight)
      invariant c.trie.Valid() && Holds(c.Current(), c.ledger, c.Lifetime())
      invariant c.ledger == Altered(ledgers[i], last, end, c.nCurrentHeight)
      invariant Undoes(old(c.Snapshot()), c.Snapshot())
    {
      i := i - 1;
      ghost var v := c.Snapshot();
      if txs[i].SpendClaim? {
        StaysGone(ledgers, txs, spends, m, c.nCurrentHeight, c.Lifetime(), i, |txs|, txs[i].Key());
      }
      UndoTx(c, txs[i], spends[i], ledgers[i], ledgers[i + 1], last, end);
      UndoesOn(old(c.Snapshot()), v, c.Snapshot());
    }
  }

  // ---------- where that leads ----------

  /** A base as it was between two blocks. */
  ghost predicate WasInOrder(b: Tree, hash: HashFn, supports: map<Name, seq<SupportValue>>, l: Ledger, m: Holdings,
      height: int)
  {
    && Closed(b) && Pruned(b) && InTrieThen(b, l) && FrontsIn(b, supports)
    && HashesRight(hash, HeightsIn(true, map[], b), b)
    && Lists(l, m) && UniqueHoldings(m)
    && 0 < height && (forall n :: n in b ==> b[n].nHeightOfLastTakeover <= height)
  }

  lemma WasSo(base: ClaimTrie, heap: seq<ClaimValue> -> seq<ClaimValue>, l: Ledger, m: Holdings)
    requires BaseInOrder(base, heap, l, m)
    ensures WasInOrder(base.nodes, base.hash, base.supports, l, m, base.nCurrentHeight)
  {
    hide Closed, Pruned, RowsHold, NamesHold, ExpiriesHold, TrieHolds, FrontsIn, HashesRight, HeightsIn, Lists,
        UniqueHoldings, InTime, Aged, IsMakeHeap;
  }

  /** Two tries for the same claims have the same front claims. */
  lemma SameFronts(b: Tree, t: Tree, supports: map<Name, seq<SupportValue>>, l: Ledger, r: Ledger, n: Name)
    requires InTrieThen(b, l) && InTrieThen(t, r) && FrontsIn(b, supports) && FrontsIn(t, supports) && UniqueIds(l)
    requires TrieSet(r, n) == TrieSet(l, n)
    ensures ClaimBag(ClaimsAt(t, n)) == ClaimBag(ClaimsAt(b, n)) && Front(ClaimsAt(t, n)) == Front(ClaimsAt(b, n))
  {
    hide ClaimsAt, FrontControls, UniqueClaims, UniqueIds, ClaimBag;
    UniqueInTree(b, l, n);
    UniqueByBag(ClaimsAt(b, n), ClaimsAt(t, n));
    InClaimBag(ClaimsAt(b, n), LONE);
    InClaimBag(ClaimsAt(t, n), LONE);
    if ClaimsAt(b, n) != [] {
      FrontUnique(ClaimsAt(b, n), ClaimsAt(t, n), if n in supports then supports[n] else []);
    }
  }

  const LONE: ClaimValue := ClaimValue(OutPoint(NULL_DIGEST, 0), 0, 0, 0, 0, 0)

  /** What left the queue at the end of the block waits again, so the trie has what it had. */
  lemma SameTrieSet(l: Ledger, last: Ledger, end: Ledger, height: int, n: Name)
    requires WellFormed(l)
    ensures var r := Altered(l, last, end, height); WellFormed(r) && TrieSet(r, n) == TrieSet(l, n)
  {
    var r := Altered(l, last, end, height);
    forall k | k in r.claims
      ensures r.claims[k].outPoint == k.1 && Plain(r.claims[k]) == r.claims[k]
    {
      assert Plain(l.claims[k]) == l.claims[k];
    }
    assert forall k :: k in l.claims && k !in l.due ==> k in r.claims && k !in r.due && r.claims[k] == l.claims[k];
  }

  /** A trie for the claims of a pruned one has the same nodes. */
  lemma SameNodes(b: Tree, t: Tree, p: Name)
    requires Closed(b) && Pruned(b) && Closed(t) && Pruned(t)
    requires forall n :: ClaimsAt(t, n) == [] <==> ClaimsAt(b, n) == []
    ensures p in b <==> p in t
  {
    hide Closed, Pruned;
    NodesArePrefixes(b, p);
    NodesArePrefixes(t, p);
    if p in b && p != [] {
      var q :| q in b && b[q].claims != [] && p <= q;
      assert ClaimsAt(b, q) != [] && ClaimsAt(t, q) != [];
      assert q in t && t[q].claims != [];
    }
    if p in t && p != [] {
      var q :| q in t && t[q].claims != [] && p <= q;
      assert ClaimsAt(t, q) != [] && ClaimsAt(b, q) != [];
      assert q in b && b[q].claims != [];
    }
  }

  lemma ChildrenAre(t: Tree, p: Name, c: Byte)
    requires Closed(t) && p in t
    ensures c in t[p].children <==> Child(p, c) in t
  {
    if Child(p, c) in t {
      assert Live(t, Child(p, c));
      ChildOfParent(Child(p, c));
    }
  }

  /** And the same shape. */
  lemma SameShapes(b: Tree, t: Tree)
    requires Closed(b) && Pruned(b) && Closed(t) && Pruned(t)
    requires forall n :: Front(ClaimsAt(t, n)) == Front(ClaimsAt(b, n))
    ensures t.Keys == b.Keys && forall p :: p in b ==> SameShape(b[p], t[p])
  {
    hide Closed, Pruned;
    forall p
      ensures p in b <==> p in t
    {
      SameNodes(b, t, p);
    }
    forall p | p in b
      ensures SameShape(b[p], t[p])
    {
      forall c: Byte
        ensures c in b[p].children <==> c in t[p].children
      {
        ChildrenAre(b, p, c);
        ChildrenAre(t, p, c);
      }
      assert ClaimsAt(b, p) == b[p].claims && ClaimsAt(t, p) == t[p].claims;
      if b[p].claims != [] {
        assert Plain(b[p].claims[0]).outPoint == Plain(t[p].claims[0]).outPoint;
      }
    }
  }

  /** So it has the same root hash, if the takeover heights are the same. */
  lemma SameRoot(h: HashFn, tk: Name -> int, tk': Name -> int, b: Tree, t: Tree)
    requires Closed(b) && Pruned(b) && Closed(t) && Pruned(t)
    requires forall n :: Front(ClaimsAt(t, n)) == Front(ClaimsAt(b, n))
    requires forall n :: ClaimsAt(b, n) != [] ==> tk(n) == tk'(n)
    ensures RootHash(h, tk', t) == RootHash(h, tk, b)
  {
    hide Closed, Pruned, NodeHash;
    SameShapes(b, t);
    assert [] in b && [] in t by { RootIn(b); RootIn(t); }
    assert SameBelow(b, t, []);
    NodeHashFrame(h, tk, b, t, []);
    NodeHashHeights(h, tk, tk', t, []);
  }

  lemma RootIn(t: Tree)
    requires Closed(t)
    ensures [] in t
  {
  }

  // ---------- takeover heights and hashes ----------

  /** Only names that were taken over and held claims before get a height back. */
  lemma HeightOf(b: Tree, h: map<Name, int>, heights: seq<(Name, int)>, taken: set<Name>, n: Name)
    requires HeightsNoted(b, true, map[], heights, taken) && HeightsRestored(map[], h, heights) && n in h
    ensures n in taken && ClaimsAt(b, n) != []
  {
    hide ClaimsAt, TakeoverIn;
    assert (n, h[n]) in heights;
  }

  /** Every name that held claims before the block has the takeover height it had. */
  lemma HeightBack(b: Tree, w: Tree, h: map<Name, int>, heights: seq<(Name, int)>, taken: set<Name>, height: int,
      n: Name)
    requires HeightsNoted(b, true, map[], heights, taken) && HeightsRestored(map[], h, heights)
    requires AllTaken(b, w, taken) && StandsInBase(b, w, taken, height) && ClaimsAt(b, n) != []
    ensures n in b && TakeoverIn(true, h, w, n) == Some(b[n].nHeightOfLastTakeover)
  {
    if n in taken {
      assert TakeoverIn(true, map[], b, n) == Some(b[n].nHeightOfLastTakeover);
      assert (n, b[n].nHeightOfLastTakeover) in heights;
    } else {
      assert !ChangesHands(b, w, n);
      if n in h {
        HeightOf(b, h, heights, taken, n);
        assert false;
      }
    }
  }

  /** The names whose takeover heights change have their whole paths marked. */
  lemma ChangedMarked(l: Ledger, b: Tree, v: TrieView, txs: seq<Tx>, undo: BlockUndo, trail: Trail, m: Holdings,
      height: int, lifetime: int, h: map<Name, int>)
    requires Connected(l, b, v.base, v.supports, txs, undo, trail, height, lifetime) && NewOutPoints(m, txs)
    requires Lists(l, m) && InTrieThen(b, l) && InTrieThen(v.base, trail.end) && FrontsIn(v.base, v.supports)
    requires Noticed(v) && HeightsRestored(map[], h, undo.heights)
    requires forall n :: Front(ClaimsAt(v.Trie(), n)) == Front(ClaimsAt(b, n))
    ensures forall n ::
        HeightsIn(true, map[], v.base)(n) != HeightsIn(true, h, v.base)(n) ==> Prefixes(n) <= v.dirty
  {
    hide InTrieThen, ClaimsAt, FrontsIn, NewOutPoints, Prefixes, Shown, HeightsRestored, HeightsNoted;
    forall n | HeightsIn(true, map[], v.base)(n) != HeightsIn(true, h, v.base)(n)
      ensures Prefixes(n) <= v.dirty
    {
      assert n in h;
      HeightOf(b, h, undo.heights, trail.taken, n);
      TakenFront(l, b, v.base, v.supports, txs, undo, trail, m, height, lifetime, n);
      assert n in MarkedNames(v.dirty);
    }
  }

  lemma UndoesAt(v: TrieView, w: TrieView, heights: map<Name, int>)
    requires Undoes(v, w)
    ensures Undoes(v.(heights := heights), w.(heights := heights))
  {
    hide Watched, HashInv, Shown;
    ControlsOther(v, v.(heights := heights));
    ControlsOther(w, w.(heights := heights));
    forall tk: Name -> int
      ensures HashesFor(v, tk) <==> HashesFor(v.(heights := heights), tk)
      ensures HashesFor(w, tk) <==> HashesFor(w.(heights := heights), tk)
    {
    }
  }

  lemma NewNoticed(v: TrieView)
    requires v.Trie() == v.base
    ensures Noticed(v)
  {
    hide Shown, ClaimsAt;
  }

  // ---------- a block is taken back ----------

  /** A base is what a block left of another one, which was in order. */
  ghost predicate LeftBy(base: ClaimTrie, b: Tree, l: Ledger, m: Holdings, txs: seq<Tx>, undo: BlockUndo, trail: Trail)
    reads base
  {
    && WasInOrder(b, base.hash, base.supports, l, m, base.nCurrentHeight - 1) && NewOutPoints(m, txs) && UniqueIds(l)
    && Connected(l, b, base.nodes, base.supports, txs, undo, trail, base.nCurrentHeight - 1, base.nExpirationTime)
  }

  /** A cache of which all is taken back: its trie holds what the base held before the block,
      every hash that is not marked is right, and the takeover heights are known. */
  ghost predicate TakenBack(c: ClaimQueueCache, b: Tree, l: Ledger, back: Ledger, undo: BlockUndo)
    reads c, c.trie, c.trie.base
  {
    && c.trie.Valid() && Holds(c.Current(), c.ledger, c.Lifetime()) && c.ledger == back
    && SameClaims(b, c.trie.Trie()) && FrontsIn(c.trie.Trie(), c.trie.base.supports)
    && HeightsRestored(map[], c.trie.cacheTakeoverHeights, undo.heights)
    && c.trie.HashValid() && c.trie.cacheHashes == map[]
  }

  /** The same claims of every name, and the same one in front. */
  ghost predicate SameClaims(b: Tree, t: Tree)
  {
    forall n :: ClaimBag(ClaimsAt(t, n)) == ClaimBag(ClaimsAt(b, n)) && Front(ClaimsAt(t, n)) == Front(ClaimsAt(b, n))
  }

  lemma AllSame(b: Tree, t: Tree, supports: map<Name, seq<SupportValue>>, l: Ledger, last: Ledger, end: Ledger,
      height: int)
    requires InTrieThen(b, l) && InTrieThen(t, Altered(l, last, end, height)) && UniqueIds(l)
    requires FrontsIn(b, supports) && FrontsIn(t, supports)
    ensures SameClaims(b, t)
  {
    hide InTrieThen, FrontsIn, Altered, UniqueIds, ClaimsAt, ClaimBag;
    forall n
      ensures ClaimBag(ClaimsAt(t, n)) == ClaimBag(ClaimsAt(b, n)) && Front(ClaimsAt(t, n)) == Front(ClaimsAt(b, n))
    {
      assert WellFormed(l) by { IsWellFormed(b, l); }
      SameTrieSet(l, last, end, height, n);
      SameFronts(b, t, supports, l, Altered(l, last, end, height), n);
    }
  }

  lemma IsWellFormed(t: Tree, l: Ledger)
    requires InTrieThen(t, l)
    ensures WellFormed(l)
  {
  }

  /** What a block that was connected gives its undoing. */
  lemma UndoReady(l: Ledger, b: Tree, w: Tree, supports: map<Name, seq<SupportValue>>, txs: seq<Tx>, undo: BlockUndo,
      trail: Trail, height: int, lifetime: int)
    requires Connected(l, b, w, supports, txs, undo, trail, height, lifetime)
    ensures Follows(trail.ledgers, txs, undo.spends, height, lifetime) && trail.ledgers[0] == l
    ensures var last := trail.ledgers[|txs|]; var goal := Rewound(last, trail.end, height);
            && Undoing(goal, trail.end, undo.inserts, undo.expiries) && goal.due.Keys <= goal.claims.Keys
            && goal == Altered(last, last, trail.end, height)
            && Recorded(last, trail.end, undo.inserts, undo.expiries, height)
    ensures forall e :: e in undo.expiries ==> e.claim.nHeight + lifetime == height
    ensures forall p, q :: p in undo.heights && q in undo.heights && p.0 == q.0 ==> p.1 == q.1
    ensures HeightsNoted(b, true, map[], undo.heights, trail.taken)
    ensures AllTaken(b, w, trail.taken) && StandsInBase(b, w, trail.taken, height)
    ensures forall p :: p in w ==> w[p].nHeightOfLastTakeover <= height
  {
    hide Steps, Aged, UniqueIds, HeightsNoted, StandsInBase, InTrieThen, FrontsIn, TakenOver, AllTaken, Undoing;
    var last := trail.ledgers[|txs|];
    assert Sound(last, height, lifetime);
    UndoFits(last, trail.end, undo.inserts, undo.expiries, height, lifetime);
    NotedOnce(b, true, map[], undo.heights, trail.taken);
    AlteredLast(last, trail.end, height);
  }

  /** A new cache over the base. */
  ghost predicate Anew(v: TrieView, end: Ledger)
  {
    && v.Trie() == v.base && v.required && v.hashes == map[] && v.heights == map[]
    && HashesFor(v, HeightsIn(true, map[], v.base)) && Controls(v)
    && InTrieThen(v.base, end) && FrontsIn(v.base, v.supports)
  }

  lemma NewView(c: ClaimQueueCache, held: Holdings)
    requires Running(c, held) && c.trie.fRequireTakeoverHeights
    requires c.trie.cache == map[] && c.trie.cacheTakeoverHeights == map[] && c.trie.cacheHashes == map[]
    ensures Anew(c.Snapshot(), c.ledger)
  {
    hide Lists, UniqueHoldings, Aged, Tracks, Watches, Controls, Holds, InTrieThen, FrontsIn, HashInv, HeightsIn, Shown,
        Lays, Closed, Pruned, IsMakeHeap, ClaimQueueCache.HeightsPassed, InTime;
    var v := c.Snapshot();
    BooksInPlace(c);
    HoldsInTrie(c.Current(), c.ledger, c.Lifetime());
    c.CurrentTrie();
    c.TrieIsShown();
    ShownFresh(c.trie);
    FrontsOf(v);
  }

  lemma ShownFresh(trie: ClaimTrieCache)
    requires trie.Valid() && trie.cache == map[]
    ensures trie.Trie() == trie.base.nodes
  {
    hide Closed, Lays, Pruned, IsMakeHeap, Shown;
    BaseClosed(trie);
    FreshCache(trie.base.nodes);
  }

  lemma BaseClosed(trie: ClaimTrieCache)
    requires trie.Valid() && trie.cache == map[]
    ensures Closed(trie.base.nodes)
  {
    hide Closed, Pruned, IsMakeHeap, Shown;
  }

  /** Everything is there again. */
  lemma AllTakenBack(c: ClaimQueueCache, v: TrieView, w: TrieView, b: Tree, l: Ledger, m: Holdings, txs: seq<Tx>,
      undo: BlockUndo, trail: Trail, height: int)
    requires c.trie.Valid() && Holds(c.Current(), c.ledger, c.Lifetime()) && Anew(v, trail.end) && Undoes(v, w)
    requires w == c.Snapshot().(heights := map[], originals := w.originals)
    requires HeightsRestored(map[], c.trie.cacheTakeoverHeights, undo.heights)
    requires Connected(l, b, v.base, v.supports, txs, undo, trail, height, c.Lifetime()) && NewOutPoints(m, txs)
    requires Lists(l, m) && UniqueIds(l) && InTrieThen(b, l) && FrontsIn(b, v.supports)
    requires |trail.ledgers| == |txs| + 1 && c.ledger == Altered(l, trail.ledgers[|txs|], trail.end, height)
    ensures TakenBack(c, b, l, c.ledger, undo)
  {
    hide Holds, Connected, NewOutPoints, Lists, UniqueIds, InTrieThen, FrontsIn, HeightsRestored, Altered, Noticed,
        Controls, HashInv, HeightsIn, Shown, ClaimTrieCache.Valid, ClaimsAt, ClaimBag;
    HoldsInTrie(c.Current(), c.ledger, c.Lifetime());
    c.CurrentTrie();
    c.TrieIsShown();
    FrontsOf(w);
    AllSame(b, w.Trie(), w.supports, l, trail.ledgers[|txs|], trail.end, height);
    NewNoticed(v);
    ChangedMarked(l, b, w, txs, undo, trail, m, height, c.Lifetime(), c.trie.cacheTakeoverHeights);
    OtherHeights(w, HeightsIn(true, map[], w.base), HeightsIn(true, c.trie.cacheTakeoverHeights, w.base));
  }

  /** The end of the block is taken back, and then its transactions. */
  method RewindTo(c: ClaimQueueCache, txs: seq<Tx>, undo: BlockUndo, ghost ledgers: seq<Ledger>, ghost m: Holdings,
      ghost end: Ledger) returns (ok: bool)
    requires c.trie.Valid() && Holds(c.Current(), c.ledger, c.Lifetime()) && c.ledger == end
    requires c.trie.cacheTakeoverHeights == map[]
    requires Follows(ledgers, txs, undo.spends, c.nCurrentHeight - 1, c.Lifetime()) && NewOutPoints(m, txs)
    requires |ledgers| == |txs| + 1
    requires var last := ledgers[|txs|]; var goal := Altered(last, last, end, c.nCurrentHeight - 1);
             Undoing(goal, end, undo.inserts, undo.expiries) && goal.due.Keys <= goal.claims.Keys
    requires forall e :: e in undo.expiries ==> e.claim.nHeight + c.Lifetime() == c.nCurrentHeight - 1
    requires forall p, q :: p in undo.heights && q in undo.heights && p.0 == q.0 ==> p.1 == q.1
    modifies c, c.trie
    ensures ok && c.nCurrentHeight == old(c.nCurrentHeight) - 1
    ensures c.trie.Valid() && Holds(c.Current(), c.ledger, c.Lifetime())
    ensures c.ledger == Altered(ledgers[0], ledgers[|txs|], end, c.nCurrentHeight)
    ensures HeightsRestored(map[], c.trie.cacheTakeoverHeights, undo.heights)
    ensures Undoes(old(c.Snapshot()), c.Snapshot().(heights := map[]))
  {
    hide Undoes, Undoing, Follows, HeightsRestored, NewOutPoints, Holds, ClaimTrieCache.Valid, ClaimQueueCache.Current,
        Altered, ClaimTrieCache.Trie;
    ghost var v0, last := c.Snapshot(), ledgers[|txs|];
    ok := c.DecrementBlock(undo.inserts, undo.expiries, undo.heights, Altered(last, last, end, c.nCurrentHeight - 1));
    ghost var v1 := c.Snapshot();
    UndoTxs(c, txs, undo.spends, ledgers, m, end);
    UndoesAt(v1, c.Snapshot(), map[]);
    UndoesOn(v0, v1.(heights := map[]), c.Snapshot().(heights := map[]));
  }

  /** All of the last block is taken back. */
  method Rewind(c: ClaimQueueCache, txs: seq<Tx>, undo: BlockUndo, ghost l: Ledger, ghost m: Holdings,
      ghost held: Holdings, ghost b: Tree, ghost trail: Trail) returns (ok: bool)
    requires Running(c, held) && c.ledger == trail.end && c.trie.fRequireTakeoverHeights
    requires c.trie.cache == map[] && c.trie.cacheTakeoverHeights == map[] && c.trie.cacheHashes == map[]
    requires c.nCurrentHeight == c.trie.base.nCurrentHeight && LeftBy(c.trie.base, b, l, m, txs, undo, trail)
    modifies c, c.trie
    ensures ok && c.nCurrentHeight == old(c.nCurrentHeight) - 1
    ensures |trail.ledgers| == |txs| + 1
        && c.ledger == Altered(l, trail.ledgers[|txs|], trail.end, c.nCurrentHeight)
    ensures TakenBack(c, b, l, c.ledger, undo)
  {
    hide Running, Undoes, Undoing, Follows, Recorded, HeightsNoted, AllTaken, StandsInBase, HeightsRestored, TakenBack,
        NewOutPoints, Holds, ClaimTrieCache.Valid, ClaimQueueCache.Current, LeftBy, Altered, Rewound,
        ClaimTrieCache.Trie, Connected, Lists, UniqueIds, InTrieThen, FrontsIn, HashesHold, Controls, Anew;
    ghost var height, v := c.nCurrentHeight - 1, c.Snapshot();
    LeftParts(c.trie.base, b, l, m, txs, undo, trail);
    UndoReady(l, b, c.trie.base.nodes, c.trie.base.supports, txs, undo, trail, height, c.Lifetime());
    FollowsSize(trail.ledgers, txs, undo.spends, height, c.Lifetime());
    RunningBooks(c, held);
    NewView(c, held);
    ok := RewindTo(c, txs, undo, trail.ledgers, m, trail.end);
    ghost var w := c.Snapshot().(heights := map[]);
    c.FinalizeDecrement();
    AllTakenBack(c, v, w, b, l, m, txs, undo, trail, height);
  }

  lemma FollowsSize(ledgers: seq<Ledger>, txs: seq<Tx>, spends: seq<Option<int>>, height: int, lifetime: int)
    requires Follows(ledgers, txs, spends, height, lifetime)
    ensures |ledgers| == |txs| + 1
  {
  }

  lemma LeftParts(base: ClaimTrie, b: Tree, l: Ledger, m: Holdings, txs: seq<Tx>, undo: BlockUndo, trail: Trail)
    requires LeftBy(base, b, l, m, txs, undo, trail)
    ensures NewOutPoints(m, txs) && Lists(l, m) && UniqueIds(l) && InTrieThen(b, l) && FrontsIn(b, base.supports)
    ensures Connected(l, b, base.nodes, base.supports, txs, undo, trail, base.nCurrentHeight - 1, base.nExpirationTime)
  {
    hide Connected, Closed, Pruned, InTrieThen, FrontsIn, HashesRight, HeightsIn, Lists, UniqueHoldings, NewOutPoints,
        UniqueIds;
  }

  lemma RunningBooks(c: ClaimQueueCache, m: Holdings)
    requires Running(c, m)
    ensures c.trie.Valid() && Holds(c.Current(), c.ledger, c.Lifetime())
    ensures HashesHold(c.Snapshot()) && Controls(c.Snapshot())
  {
    hide Lists, UniqueHoldings, Aged, Tracks, Watches, HashesHold, Controls, ClaimQueueCache.Valid;
    BooksInPlace(c);
  }

  /** Takeover heights are known, and all that is to be written belongs to a node. */
  lemma ReadyToFlush(c: ClaimQueueCache, b: Tree, l: Ledger, back: Ledger, undo: BlockUndo, taken: set<Name>,
      height: int)
    requires TakenBack(c, b, l, back, undo) && HeightsNoted(b, true, map[], undo.heights, taken)
    requires AllTaken(b, c.trie.base.nodes, taken) && StandsInBase(b, c.trie.base.nodes, taken, height)
    requires c.trie.fRequireTakeoverHeights
    ensures c.trie.HeightsKnown() && c.trie.cacheTakeoverHeights.Keys <= c.trie.Trie().Keys
  {
    hide HeightsNoted, AllTaken, StandsInBase, Holds, HeightsRestored, ClaimTrieCache.Valid, ClaimTrieCache.HashValid,
        ClaimTrieCache.Trie, ClaimBag, FrontsIn;
    forall p | p in c.trie.Trie() && c.trie.Trie()[p].claims != []
      ensures c.trie.TakeoverOf(p).Some?
    {
      assert Front(ClaimsAt(c.trie.Trie(), p)) == Front(ClaimsAt(b, p));
      HeightBack(b, c.trie.base.nodes, c.trie.cacheTakeoverHeights, undo.heights, taken, height, p);
    }
    forall p | p in c.trie.cacheTakeoverHeights
      ensures p in c.trie.Trie()
    {
      HeightOf(b, c.trie.cacheTakeoverHeights, undo.heights, taken, p);
      assert Front(ClaimsAt(c.trie.Trie(), p)) == Front(ClaimsAt(b, p));
    }
  }

  /** Every name that holds claims has the takeover height it had, and no other node has a
      later one. */
  ghost predicate SameTakeovers(b: Tree, t: Tree, height: int)
  {
    && (forall n :: n in b && b[n].claims != [] ==> n in t && t[n].nHeightOfLastTakeover == b[n].nHeightOfLastTakeover)
    && (forall n :: n in t ==> t[n].nHeightOfLastTakeover <= height)
  }

  lemma TakeoversBack(b: Tree, w: Tree, h: map<Name, int>, t: Tree, heights: seq<(Name, int)>, taken: set<Name>,
      height: int)
    requires HeightsNoted(b, true, map[], heights, taken) && HeightsRestored(map[], h, heights)
    requires AllTaken(b, w, taken) && StandsInBase(b, w, taken, height) && HeightsWritten(w, h, t) && SameClaims(b, t)
    requires 0 <= height && (forall n :: n in b ==> b[n].nHeightOfLastTakeover <= height)
    requires forall n :: n in w ==> w[n].nHeightOfLastTakeover <= height
    ensures SameTakeovers(b, t, height)
  {
    hide HeightsNoted, AllTaken, StandsInBase, HeightsRestored, ClaimBag;
    forall n | n in b && b[n].claims != []
      ensures n in t && t[n].nHeightOfLastTakeover == b[n].nHeightOfLastTakeover
    {
      assert Front(ClaimsAt(t, n)) == Front(ClaimsAt(b, n));
      HeightBack(b, w, h, heights, taken, height, n);
    }
    forall n | n in t
      ensures t[n].nHeightOfLastTakeover <= height
    {
      if n in h {
        HeightOf(b, h, heights, taken, n);
        HeightBack(b, w, h, heights, taken, height, n);
      }
    }
  }

  lemma SameRootHash(hash: HashFn, b: Tree, t: Tree, height: int)
    requires Closed(b) && Pruned(b) && Closed(t) && Pruned(t) && SameClaims(b, t) && SameTakeovers(b, t, height)
    ensures t.Keys == b.Keys
    ensures RootHash(hash, HeightsIn(true, map[], t), t) == RootHash(hash, HeightsIn(true, map[], b), b)
  {
    hide Closed, Pruned, RootHash, ClaimBag;
    SameShapes(b, t);
    forall n | ClaimsAt(b, n) != []
      ensures HeightsIn(true, map[], b)(n) == HeightsIn(true, map[], t)(n)
    {
      assert Front(ClaimsAt(t, n)) == Front(ClaimsAt(b, n));
    }
    SameRoot(hash, HeightsIn(true, map[], b), HeightsIn(true, map[], t), b, t);
  }

  lemma WasLeft(base: ClaimTrie, b: Tree, l: Ledger, m: Holdings, txs: seq<Tx>, undo: BlockUndo, trail: Trail)
    requires LeftBy(base, b, l, m, txs, undo, trail)
    ensures WasInOrder(b, base.hash, base.supports, l, m, base.nCurrentHeight - 1) && NewOutPoints(m, txs)
    ensures UniqueIds(l)
    ensures Connected(l, b, base.nodes, base.supports, txs, undo, trail, base.nCurrentHeight - 1, base.nExpirationTime)
  {
    hide WasInOrder, Connected, NewOutPoints, UniqueIds;
  }

  lemma OrderParts(b: Tree, hash: HashFn, supports: map<Name, seq<SupportValue>>, l: Ledger, m: Holdings, height: int)
    requires WasInOrder(b, hash, supports, l, m, height)
    ensures Closed(b) && Pruned(b) && Lists(l, m) && UniqueHoldings(m) && 0 < height
    ensures forall n :: n in b ==> b[n].nHeightOfLastTakeover <= height
  {
    hide Closed, Pruned, InTrieThen, FrontsIn, HashesRight, HeightsIn, Lists, UniqueHoldings;
  }

  lemma BackParts(c: ClaimQueueCache, b: Tree, l: Ledger, back: Ledger, undo: BlockUndo)
    requires TakenBack(c, b, l, back, undo)
    ensures c.trie.Valid() && Holds(c.Current(), c.ledger, c.Lifetime()) && c.ledger == back
    ensures SameClaims(b, c.trie.Trie()) && FrontsIn(c.trie.Trie(), c.trie.base.supports)
    ensures HeightsRestored(map[], c.trie.cacheTakeoverHeights, undo.heights)
    ensures c.trie.HashValid() && c.trie.cacheHashes == map[]
  {
    hide ClaimTrieCache.Valid, ClaimTrieCache.Trie, ClaimTrieCache.HashValid, Holds, SameClaims, FrontsIn,
        HeightsRestored;
  }

  lemma SameClaimsWritten(b: Tree, t: Tree, u: Tree)
    requires SameClaims(b, t) && SameContent(t, u)
    ensures SameClaims(b, u)
  {
    hide ClaimBag;
    forall n
      ensures ClaimsAt(u, n) == ClaimsAt(t, n)
    {
    }
  }

  /** What was taken back is written. */
  method WriteBack(c: ClaimQueueCache, undo: BlockUndo, ghost l: Ledger, ghost m: Holdings, ghost b: Tree,
      ghost txs: seq<Tx>, ghost trail: Trail, ghost height: int) returns (ok: bool)
    requires TakenBack(c, b, l, c.ledger, undo) && c.trie.fRequireTakeoverHeights && c.nCurrentHeight == height
    requires Usable(c.trie.base, c.trie.heap)
    requires WasInOrder(b, c.trie.base.hash, c.trie.base.supports, l, m, height)
    requires Connected(l, b, c.trie.base.nodes, c.trie.base.supports, txs, undo, trail, height, c.Lifetime())
    modifies c, c.trie, c.trie.base
    ensures ok && c.trie.base.nCurrentHeight == height && c.trie.base.supports == old(c.trie.base.supports)
    ensures Holds(BooksOf(c.trie.base), old(c.ledger), c.trie.base.nExpirationTime)
    ensures SameClaims(b, c.trie.base.nodes) && SameTakeovers(b, c.trie.base.nodes, height)
    ensures FrontsIn(c.trie.base.nodes, c.trie.base.supports)
    ensures Usable(c.trie.base, c.trie.heap)
    ensures HashesRight(c.trie.base.hash, HeightsIn(true, map[], c.trie.base.nodes), c.trie.base.nodes)
  {
    hide TakenBack, WasInOrder, Connected, ClaimTrieCache.Valid, ClaimTrieCache.Trie, ClaimTrieCache.HashValid,
        ClaimTrieCache.HeightsKnown, Holds, SameClaims, SameTakeovers, FrontsIn, HeightsRestored, HashesRight,
        HeightsIn, HeightsNoted, AllTaken, StandsInBase, HeightsWritten, SameContent, Closed, Pruned, IsMakeHeap;
    ghost var t, h, w := c.trie.Trie(), c.trie.cacheTakeoverHeights, c.trie.base.nodes;
    BackParts(c, b, l, c.ledger, undo);
    OrderParts(b, c.trie.base.hash, c.trie.base.supports, l, m, height);
    UndoReady(l, b, w, c.trie.base.supports, txs, undo, trail, height, c.Lifetime());
    ReadyToFlush(c, b, l, c.ledger, undo, trail.taken, height);
    ok := c.Flush();
    SameClaimsWritten(b, t, c.trie.base.nodes);
    FrontsAfterFlush(t, c.trie.base.nodes, c.trie.base.supports);
    TakeoversBack(b, w, h, c.trie.base.nodes, undo.heights, trail.taken, height);
    TrieFits(c.trie);
    LastTakeovers(b, c.trie.base.nodes, height);
  }

  lemma LastTakeovers(b: Tree, t: Tree, height: int)
    requires SameTakeovers(b, t, height)
    ensures forall n :: n in t ==> t[n].nHeightOfLastTakeover <= height
  {
  }

  /** What that comes to. */
  lemma Concluded(base: ClaimTrie, heap: seq<ClaimValue> -> seq<ClaimValue>, l: Ledger, m: Holdings, txs: seq<Tx>,
      undo: BlockUndo, b: Tree, trail: Trail, height: int, w: Tree, back: Ledger)
    requires WasInOrder(b, base.hash, base.supports, l, m, height) && NewOutPoints(m, txs)
    requires Connected(l, b, w, base.supports, txs, undo, trail, height, base.nExpirationTime)
    requires |trail.ledgers| == |txs| + 1 && back == Altered(l, trail.ledgers[|txs|], trail.end, height)
    requires base.nCurrentHeight == height && Holds(BooksOf(base), back, base.nExpirationTime)
    requires SameClaims(b, base.nodes) && SameTakeovers(b, base.nodes, height)
    requires FrontsIn(base.nodes, base.supports) && Usable(base, heap)
    requires HashesRight(base.hash, HeightsIn(true, map[], base.nodes), base.nodes)
    ensures Lists(back, m) && Redated(l, back, undo.inserts, height)
    ensures base.nodes.Keys == b.Keys && Closed(b) && Closed(base.nodes)
    ensures RootHash(base.hash, HeightsIn(true, map[], base.nodes), base.nodes)
        == RootHash(base.hash, HeightsIn(true, map[], b), b)
    ensures back == l <==> forall u :: u in undo.inserts && InsertKey(u) in m ==> u.nHeight == height
    ensures BaseInOrder(base, heap, back, m) <==> back == l
  {
    hide WasInOrder, Connected, NewOutPoints, Altered, Holds, SameClaims, SameTakeovers, FrontsIn, Usable, HashesRight,
        HeightsIn, Lists, Closed, Pruned, RootHash, InTime, Aged, UniqueHoldings, Follows, Recorded, HeightsNoted,
        AllTaken, StandsInBase, Undoing, Redated;
    OrderParts(b, base.hash, base.supports, l, m, height);
    UndoReady(l, b, w, base.supports, txs, undo, trail, height, base.nExpirationTime);
    AlteredFirst(trail.ledgers, txs, undo.spends, m, trail.end, undo.inserts, undo.expiries, height,
        base.nExpirationTime);
    AlteredRedated(trail.ledgers, txs, undo.spends, m, trail.end, undo.inserts, undo.expiries, height,
        base.nExpirationTime);
    UsableNodes(base, heap);
    SameRootHash(base.hash, b, base.nodes, height);
    FirstSound(trail.ledgers, txs, undo.spends, height, base.nExpirationTime);
    if InTime(back, height, base.nExpirationTime) {
      AlteredInTime(trail.ledgers, txs, undo.spends, trail.end, height, base.nExpirationTime);
    }
  }

  lemma UsableNodes(base: ClaimTrie, heap: seq<ClaimValue> -> seq<ClaimValue>)
    requires Usable(base, heap)
    ensures Closed(base.nodes) && Pruned(base.nodes)
  {
    hide Closed, Pruned, IsMakeHeap;
  }

  lemma FirstSound(ledgers: seq<Ledger>, txs: seq<Tx>, spends: seq<Option<int>>, height: int, lifetime: int)
    requires Follows(ledgers, txs, spends, height, lifetime)
    ensures InTime(ledgers[0], height, lifetime) && Aged(ledgers[0], height)
  {
    hide Steps, InTime, Aged;
    assert Sound(ledgers[0], height, lifetime);
  }

  /** The last block is taken back, from a new cache over the base it was written to. Every
      claim is where it was, as it was added; every name that holds claims has the takeover
      height it had; and the root hash is what it was. The claims are all the same, and the
      base is in order for the next block, exactly if the block promoted no claim ahead of its
      height that was held before. */
  method DisconnectBlock(base: ClaimTrie, heap: seq<ClaimValue> -> seq<ClaimValue>, txs: seq<Tx>, undo: BlockUndo,
      ghost l: Ledger, ghost m: Holdings, ghost held: Holdings, ghost b: Tree, ghost trail: Trail)
    returns (ok: bool, ghost back: Ledger)
    requires BaseInOrder(base, heap, trail.end, held) && LeftBy(base, b, l, m, txs, undo, trail)
    modifies base
    ensures ok && base.nCurrentHeight == old(base.nCurrentHeight) - 1 && base.supports == old(base.supports)
    ensures Holds(BooksOf(base), back, base.nExpirationTime) && Lists(back, m)
    ensures Redated(l, back, undo.inserts, base.nCurrentHeight)
    ensures SameClaims(b, base.nodes) && base.nodes.Keys == b.Keys && SameTakeovers(b, base.nodes, base.nCurrentHeight)
    ensures Closed(b) && Closed(base.nodes)
        && RootHash(base.hash, HeightsIn(true, map[], base.nodes), base.nodes)
           == RootHash(base.hash, HeightsIn(true, map[], b), b)
    ensures HashesRight(base.hash, HeightsIn(true, map[], base.nodes), base.nodes)
    ensures back == l <==> forall u :: u in undo.inserts && InsertKey(u) in m ==> u.nHeight == base.nCurrentHeight
    ensures BaseInOrder(base, heap, back, m) <==> back == l
  {
    hide BaseInOrder, LeftBy, Running, Holds, Lists, SameClaims, SameTakeovers, Closed, RootHash, HeightsIn,
        HashesRight, TakenBack, Altered, ClaimTrieCache.Trie, Usable, Redated;
    IsUsable(base, heap, trail.end, held);
    ghost var height, w := base.nCurrentHeight - 1, base.nodes;
    var c := BeginBlock(base, heap, trail.end, held);
    WasLeft(base, b, l, m, txs, undo, trail);
    ok := Rewind(c, txs, undo, l, m, held, b, trail);
    back := c.ledger;
    ok := WriteBack(c, undo, l, m, b, txs, trail, height);
    Concluded(base, heap, l, m, txs, undo, b, trail, height, w, back);
  }

  /** A block is connected and disconnected. Whatever it is, spends that find nothing included,
      each claim is where it was, as it was added, each name that holds claims has its takeover
      height, and the root hash is the one before. The base is in order again, and all claims
      are the same, exactly if no claim that was held before was promoted ahead of its height. */
  method ConnectAndDisconnect(base: ClaimTrie, heap: seq<ClaimValue> -> seq<ClaimValue>, txs: seq<Tx>, ghost l: Ledger,
      ghost m: Holdings)
    returns (ok: bool, undo: BlockUndo, ghost back: Ledger)
    requires BaseInOrder(base, heap, l, m) && ProperTxs(m, txs, base.nCurrentHeight) && NewOutPoints(m, txs)
    modifies base
    ensures ok && base.nCurrentHeight == old(base.nCurrentHeight) && base.supports == old(base.supports)
    ensures Holds(BooksOf(base), back, base.nExpirationTime) && Lists(back, m)
    ensures Redated(l, back, undo.inserts, base.nCurrentHeight)
    ensures SameClaims(old(base.nodes), base.nodes) && base.nodes.Keys == old(base.nodes).Keys
    ensures SameTakeovers(old(base.nodes), base.nodes, base.nCurrentHeight)
    ensures Closed(old(base.nodes)) && Closed(base.nodes)
        && RootHash(base.hash, HeightsIn(true, map[], base.nodes), base.nodes)
           == RootHash(base.hash, HeightsIn(true, map[], old(base.nodes)), old(base.nodes))
    ensures HashesRight(base.hash, HeightsIn(true, map[], base.nodes), base.nodes)
    ensures back == l <==> forall u :: u in undo.inserts && InsertKey(u) in m ==> u.nHeight == base.nCurrentHeight
    ensures BaseInOrder(base, heap, back, m) <==> back == l
  {
    hide BaseInOrder, Connected, WasInOrder, ProperTxs, NewOutPoints, AfterBlock, Holds, Lists, SameClaims,
        SameTakeovers, Closed, RootHash, HeightsIn, HashesRight, UniqueIds, Redated;
    ghost var b := base.nodes;
    WasSo(base, heap, l, m);
    OrderUnique(base, heap, l, m);
    var rootHash;
    ghost var trail;
    ok, rootHash, undo, trail := ConnectBlock(base, heap, txs, l, m);
    ghost var held := AfterBlock(m, txs, base.nCurrentHeight - 1, base.nExpirationTime);
    ok, back := DisconnectBlock(base, heap, txs, undo, l, m, held, b, trail);
  }

  lemma OrderUnique(base: ClaimTrie, heap: seq<ClaimValue> -> seq<ClaimValue>, l: Ledger, m: Holdings)
    requires BaseInOrder(base, heap, l, m)
    ensures UniqueIds(l)
  {
    hide Usable, Holds, InTime, Aged, HashesRight, HeightsIn, FrontsIn;
    UniqueListed(l, m);
  }
}
