/** Chains of blocks on a claim trie: each is applied to a new cache, hashed and written to
    the base the next one is applied to. */
module ClaimChains {
  import opened ClaimTypes
  import opened NameTree
  import opened PathOps
  import opened Overlay
  import opened Flushing
  import opened ClaimMap
  import opened TrieHash
  import opened ClaimLedger
  import opened ClaimMoves
  import opened ClaimUndo
  import opened ClaimTries
  import opened ClaimTrieCaches
  import opened ClaimTracks
  import opened ClaimBlocks
  import opened ClaimHoldings
  import opened ClaimTrails
  import opened ClaimDelays

  /** A base between two blocks: the rows list what the ledger says, the ledger has the claims
      held, every stored hash is right, and front claims control. */
  ghost predicate BaseInOrder(base: ClaimTrie, heap: seq<ClaimValue> -> seq<ClaimValue>, l: Ledger, m: Holdings)
    reads base
  {
    && Usable(base, heap)
    && Holds(BooksOf(base), l, base.nExpirationTime) && InTime(l, base.nCurrentHeight, base.nExpirationTime)
    && Aged(l, base.nCurrentHeight)
    && Lists(l, m) && UniqueHoldings(m)
    && HashesRight(base.hash, HeightsIn(true, map[], base.nodes), base.nodes)
    && FrontsIn(base.nodes, base.supports)
  }

  ghost predicate Usable(base: ClaimTrie, heap: seq<ClaimValue> -> seq<ClaimValue>)
    reads base
  {
    && IsMakeHeap(heap) && Closed(base.nodes) && Pruned(base.nodes)
    && MAX_DELAY <= base.nExpirationTime && 0 < base.nProportionalDelayFactor && 0 < base.nCurrentHeight
    && (forall n :: n in base.nodes ==> base.nodes[n].nHeightOfLastTakeover <= base.nCurrentHeight)
  }

  /** A cache in the middle of a block. */
  ghost predicate Running(c: ClaimQueueCache, m: Holdings)
    reads c, c.trie, c.trie.base
  {
    && c.Valid() && Lists(c.ledger, m) && UniqueHoldings(m) && Aged(c.ledger, c.nCurrentHeight) && 0 < c.nCurrentHeight
    && Tracks(c.Snapshot()) && Watches(c.Snapshot()) && HashesHold(c.Snapshot()) && Controls(c.Snapshot())
  }

  lemma CarriesRunning(v: TrieView, w: TrieView)
    requires Carries(v, w) && Tracks(v) && Watches(v) && HashesHold(v) && Controls(v)
    ensures Tracks(w) && Watches(w) && HashesHold(w) && Controls(w)
  {
  }

  lemma AgedMoves(l: Ledger, height: int, k: Key, c: ClaimValue)
    requires Aged(l, height) && 0 < height && c.nHeight == height <= c.nValidAtHeight
    ensures Aged(Gone(l, k), height) && Aged(Enqueued(l, k, c, c.nValidAtHeight), height)
  {
  }

  /** A new claim. */
  method ApplyAdd(c: ClaimQueueCache, tx: Tx, ghost m: Holdings)
    requires Running(c, m) && Proper(m, tx) && tx.AddClaim?
    modifies c, c.trie`cache, c.trie`blockOriginals, c.trie`dirtyHashes, c.trie`namesToCheckForTakeover
    ensures Running(c, AfterTx(m, tx, c.nCurrentHeight)) && c.nCurrentHeight == old(c.nCurrentHeight)
    ensures c.Snapshot() == old(c.Snapshot()) && tx.Key() !in old(c.ledger).claims
    ensures c.ledger == Enqueued(old(c.ledger), tx.Key(), Added(tx, c.nCurrentHeight, old(DelayOf(c, tx))),
                                 c.nCurrentHeight + old(DelayOf(c, tx)))
  {
    hide Aged, ClaimQueueCache.Valid, Tracks, Watches, HashesHold, Controls, Carries, Lists, UniqueHoldings, UniqueIds,
        AfterTx, ClaimQueueCache.GetOriginalInfoForName, ClaimQueueCache.GetDelayForName, ClaimQueueCache.Snapshot,
        FrontControls, ClaimTrieCache.Trie;
    NotListed(c.ledger, m, tx);
    ghost var l := c.ledger;
    ghost var delay := DelayOf(c, tx);
    var ok := c.AddClaim(tx.name, tx.outPoint, tx.claimId, tx.nAmount, c.nCurrentHeight);
    AddLists(l, m, tx, c.nCurrentHeight, Added(tx, c.nCurrentHeight, delay), c.nCurrentHeight + delay);
    AgedMoves(l, c.nCurrentHeight, tx.Key(), Added(tx, c.nCurrentHeight, delay));
  }

  /** A spend, which may find nothing. */
  method ApplySpend(c: ClaimQueueCache, tx: Tx, ghost m: Holdings) returns (spend: Option<int>)
    requires Running(c, m) && Proper(m, tx) && tx.SpendClaim?
    modifies c, c.trie`cache, c.trie`blockOriginals, c.trie`dirtyHashes, c.trie`namesToCheckForTakeover
    ensures Running(c, AfterTx(m, tx, c.nCurrentHeight)) && c.nCurrentHeight == old(c.nCurrentHeight)
    ensures c.Snapshot() == old(c.Snapshot()).(cache := c.trie.cache, originals := c.trie.blockOriginals,
                                               dirty := c.trie.dirtyHashes, names := c.trie.namesToCheckForTakeover)
    ensures c.ledger == Gone(old(c.ledger), tx.Key())
    ensures Steps(old(c.ledger), tx, spend, c.ledger, c.nCurrentHeight)
  {
    hide Aged, ClaimQueueCache.Valid, Tracks, Watches, HashesHold, Controls, Carries, Lists, UniqueHoldings, UniqueIds,
        AfterTx;
    ghost var v := c.Snapshot();
    HeightListed(c.ledger, m, tx);
    UniqueListed(c.ledger, m);
    SpendLists(c.ledger, m, tx, c.nCurrentHeight);
    AgedMoves(c.ledger, c.nCurrentHeight, tx.Key(), Spent(tx, c.nCurrentHeight).(nHeight := c.nCurrentHeight));
    BooksInPlace(c);
    var removed, nValidAtHeight := c.RemoveClaim(tx.name, tx.outPoint, tx.nHeight, true);
    CarriesRunning(v, c.Snapshot());
    return if removed then Some(nValidAtHeight) else None;
  }

  /** One transaction of a block. */
  method ApplyTx(c: ClaimQueueCache, tx: Tx, ghost m: Holdings) returns (spend: Option<int>)
    requires Running(c, m) && Proper(m, tx)
    modifies c, c.trie`cache, c.trie`blockOriginals, c.trie`dirtyHashes, c.trie`namesToCheckForTakeover
    ensures Running(c, AfterTx(m, tx, c.nCurrentHeight)) && c.nCurrentHeight == old(c.nCurrentHeight)
    ensures c.Snapshot() == old(c.Snapshot()).(cache := c.trie.cache, originals := c.trie.blockOriginals,
                                               dirty := c.trie.dirtyHashes, names := c.trie.namesToCheckForTakeover)
    ensures c.ledger == match tx
                        case AddClaim(_, _, _, _) => Enqueued(old(c.ledger), tx.Key(),
                            Added(tx, c.nCurrentHeight, old(DelayOf(c, tx))), c.nCurrentHeight + old(DelayOf(c, tx)))
                        case SpendClaim(_, _, _, _, _) => Gone(old(c.ledger), tx.Key())
    ensures Steps(old(c.ledger), tx, spend, c.ledger, c.nCurrentHeight)
  {
    hide Running, Proper, AfterTx, DelayOf;
    if tx.AddClaim? {
      ApplyAdd(c, tx, m);
      return None;
    } else {
      spend := ApplySpend(c, tx, m);
    }
  }

  /** The claim that a transaction adds. */
  function Added(tx: Tx, height: int, delay: int): ClaimValue
    requires tx.AddClaim?
  {
    ClaimValue(tx.outPoint, tx.claimId, tx.nAmount, 0, height, height + delay)
  }

  /** How long a new claim has to wait. */
  ghost function DelayOf(c: ClaimQueueCache, tx: Tx): int
    requires c.Valid()
    reads c, c.trie, c.trie.base
  {
    if tx.SpendClaim? then 0
    else
      var original := c.GetOriginalInfoForName(tx.name);
      if original.Some? && original.value.claimId == tx.claimId then 0 else c.GetDelayForName(tx.name)
  }

  /** By the base and the claims in the trie so far. */
  lemma DelayIs(c: ClaimQueueCache, tx: Tx, m: Holdings)
    requires Running(c, m) && tx.AddClaim? && c.trie.fRequireTakeoverHeights && c.trie.cacheTakeoverHeights == map[]
    requires 0 < c.trie.base.nProportionalDelayFactor
    ensures DelayOf(c, tx) == DelayIn(c.trie.base.nodes, c.ledger, tx.name, tx.claimId, c.nCurrentHeight,
                                      c.trie.base.nProportionalDelayFactor)
  {
    hide Tracks, Watches, HashesHold, Controls, Lists, UniqueHoldings, Aged, ClaimQueueCache.Valid, EmptiedInside,
        ClaimQueueCache.GetDelayForName, ClaimQueueCache.GetOriginalInfoForName, Shown, Lays, Closed, Pruned, Holds;
    BooksInPlace(c);
    HoldsInTrie(c.Current(), c.ledger, c.Lifetime());
    RunningKnows(c, m);
    if ClaimsAt(c.trie.base.nodes, tx.name) != [] {
      CopyEmptied(c.trie.base.nodes, c.trie.cache, c.ledger, tx.name);
    }
  }

  lemma RunningKnows(c: ClaimQueueCache, m: Holdings)
    requires Running(c, m)
    ensures Remembers(c.trie.base.nodes, c.trie.cache, c.trie.blockOriginals)
  {
    hide Watches, HashesHold, Controls, Lists, UniqueHoldings, Aged, ClaimQueueCache.Valid, Remembers;
  }

  lemma HoldsInTrie(b: Books, l: Ledger, lifetime: int)
    requires Holds(b, l, lifetime)
    ensures InTrieThen(b.trie, l)
  {
    hide RowsHold, NamesHold, ExpiriesHold, TrieHolds;
  }

  lemma BooksInPlace(c: ClaimQueueCache)
    requires c.Valid()
    ensures c.trie.Valid() && Holds(c.Current(), c.ledger, c.Lifetime()) && WellFormed(c.ledger)
    ensures InTime(c.ledger, c.nCurrentHeight, c.Lifetime())
  {
    hide RowsHold, NamesHold, ExpiriesHold, TrieHolds, InTime, ClaimTrieCache.Valid, ClaimTrieCache.Trie,
        ClaimQueueCache.HeightsPassed;
  }

  lemma NotListed(l: Ledger, m: Holdings, tx: Tx)
    requires Lists(l, m) && tx.AddClaim? && Proper(m, tx)
    ensures tx.Key() !in l.claims && tx.Key() == (tx.name, tx.outPoint)
  {
  }

  lemma HeightListed(l: Ledger, m: Holdings, tx: Tx)
    requires Lists(l, m) && tx.SpendClaim? && Proper(m, tx)
    ensures tx.Key() == (tx.name, tx.outPoint)
    ensures tx.Key() in l.claims ==> HoldingOf(l.claims[tx.Key()]) == Holding(tx.claimId, tx.nAmount, tx.nHeight)
  {
  }

  /** All transactions of a block. */
  method ApplyTxs(c: ClaimQueueCache, txs: seq<Tx>, ghost m: Holdings)
    returns (spends: seq<Option<int>>, ghost ledgers: seq<Ledger>)
    requires Running(c, m) && ProperTxs(m, txs, c.nCurrentHeight)
    modifies c, c.trie`cache, c.trie`blockOriginals, c.trie`dirtyHashes, c.trie`namesToCheckForTakeover
    ensures Running(c, AfterTxs(m, txs, c.nCurrentHeight)) && c.nCurrentHeight == old(c.nCurrentHeight)
    ensures Follows(ledgers, txs, spends, c.nCurrentHeight, c.Lifetime())
    ensures ledgers[0] == old(c.ledger) && ledgers[|txs|] == c.ledger
    ensures 0 < c.trie.base.nProportionalDelayFactor
    ensures c.trie.fRequireTakeoverHeights && c.trie.cacheTakeoverHeights == map[] ==>
              Delays(c.trie.base.nodes, ledgers, txs, c.nCurrentHeight, c.trie.base.nProportionalDelayFactor)
  {
    hide Running, Proper, AfterTxs, Sound, Steps, Waits, DelayOf, Enqueued, Added, ClaimQueueCache.Valid;
    ghost var height, factor := c.nCurrentHeight, c.trie.base.nProportionalDelayFactor;
    ghost var known := c.trie.fRequireTakeoverHeights && c.trie.cacheTakeoverHeights == map[];
    NoTxs(m, txs, height);
    RunningSound(c, m);
    RunningFactor(c, m);
    spends, ledgers := [], [c.ledger];
    for i := 0 to |txs|
      invariant Running(c, AfterTxs(m, txs[..i], height)) && c.nCurrentHeight == height
      invariant Follows(ledgers, txs[..i], spends, height, c.Lifetime())
      invariant ledgers[0] == old(c.ledger) && ledgers[i] == c.ledger
      invariant known ==> Delays(c.trie.base.nodes, ledgers, txs[..i], height, factor)
    {
      NextTx(m, txs, height, i);
      ghost var l := c.ledger;
      RunningFactor(c, AfterTxs(m, txs[..i], height));
      ghost var delay := DelayOf(c, txs[i]);
      if known && txs[i].AddClaim? {
        DelayIs(c, txs[i], AfterTxs(m, txs[..i], height));
      }
      var spend := ApplyTx(c, txs[i], AfterTxs(m, txs[..i], height));
      RunningSound(c, AfterTxs(m, txs[..i + 1], height));
      FollowsOn(ledgers, txs[..i], spends, l, txs[i], spend, c.ledger, height, c.Lifetime());
      if known {
        if txs[i].AddClaim? {
          WaitsFor(c.trie.base.nodes, l, txs[i], height, factor, delay);
        } else {
          NoneWaits(c.trie.base.nodes, l, txs[i], c.ledger, height, factor);
        }
        DelaysOn(c.trie.base.nodes, ledgers, txs[..i], l, txs[i], c.ledger, height, factor);
      }
      assert txs[..i] + [txs[i]] == txs[..i + 1];
      spends, ledgers := spends + [spend], ledgers + [c.ledger];
    }
    assert txs[..|txs|] == txs;
  }

  lemma RunningSound(c: ClaimQueueCache, m: Holdings)
    requires Running(c, m)
    ensures Sound(c.ledger, c.nCurrentHeight, c.Lifetime())
  {
    hide Aged, InTime, Lists, UniqueHoldings, Tracks, Watches, HashesHold, Controls, ClaimQueueCache.Valid;
    BooksInPlace(c);
  }

  lemma RunningFactor(c: ClaimQueueCache, m: Holdings)
    requires Running(c, m)
    ensures 0 < c.trie.base.nProportionalDelayFactor && c.Valid()
  {
    hide Aged, Lists, UniqueHoldings, Tracks, Watches, HashesHold, Controls, Holds, InTime, ClaimTrieCache.Valid,
        ClaimTrieCache.Trie;
  }

  lemma WaitsFor(b: Tree, l: Ledger, tx: Tx, height: int, factor: int, delay: int)
    requires tx.AddClaim? && factor > 0 && delay == DelayIn(b, l, tx.name, tx.claimId, height, factor)
    ensures Waits(b, l, tx, Enqueued(l, tx.Key(), Added(tx, height, delay), height + delay), height, factor)
  {
    hide DelayIn;
  }

  lemma NoneWaits(b: Tree, l: Ledger, tx: Tx, l': Ledger, height: int, factor: int)
    requires tx.SpendClaim? && factor > 0
    ensures Waits(b, l, tx, l', height, factor)
  {
  }

  lemma RunningUnique(c: ClaimQueueCache, m: Holdings)
    requires Running(c, m)
    ensures UniqueIds(c.ledger)
  {
    hide Aged, Tracks, Watches, HashesHold, Controls, ClaimQueueCache.Valid;
    UniqueListed(c.ledger, m);
  }

  lemma NoTxs(m: Holdings, txs: seq<Tx>, height: int)
    ensures AfterTxs(m, txs[..0], height) == m
  {
  }

  // ---------- one block ----------

  /** A block begins with a new cache. */
  method BeginBlock(base: ClaimTrie, heap: seq<ClaimValue> -> seq<ClaimValue>, ghost l: Ledger, ghost m: Holdings)
    returns (c: ClaimQueueCache)
    requires BaseInOrder(base, heap, l, m)
    ensures fresh(c) && fresh(c.trie) && c.trie.base == base && c.trie.heap == heap && c.trie.fRequireTakeoverHeights
    ensures Running(c, m) && c.nCurrentHeight == base.nCurrentHeight
    ensures c.trie.cacheHashes == map[] && c.trie.cacheTakeoverHeights == map[]
    ensures c.trie.cache == map[] && c.trie.blockOriginals == map[] && c.ledger == l
  {
    hide Holds, InTime, Lists, UniqueHoldings, HashesRight, HeightsIn, IsMakeHeap, Closed, Pruned, Tracks, Watches,
        HashesHold, ClaimQueueCache.Valid, ClaimTrieCache.Valid;
    var trie := new ClaimTrieCache(base, heap, true);
    c := new ClaimQueueCache(trie, l);
    SameHeights(trie);
    FrontsOf(c.Snapshot());
  }

  lemma SameHeights(trie: ClaimTrieCache)
    requires trie.fRequireTakeoverHeights && trie.cacheTakeoverHeights == map[]
    ensures trie.Heights() == HeightsIn(true, map[], trie.base.nodes)
  {
  }

  lemma FrontsOf(v: TrieView)
    ensures Controls(v) <==> FrontsIn(v.Trie(), v.supports)
  {
    hide UniqueClaims, FrontControls, ClaimsAt, Shown;
    forall n
      ensures v.SupportsOf(n) == if n in v.supports then v.supports[n] else []
    {
    }
  }

  lemma BlockLists(start: Ledger, l: Ledger, m: Holdings, inserts: seq<InsertUndo>, expiries: seq<QueueEntry>,
      height: int, lifetime: int)
    requires Lists(start, m) && UniqueHoldings(m) && Recorded(start, l, inserts, expiries, height)
    requires forall k :: k in l.claims <==> k in start.claims && start.claims[k].nHeight + lifetime != height
    ensures Lists(l, Unexpired(m, height, lifetime)) && UniqueHoldings(Unexpired(m, height, lifetime))
  {
    forall k | k in l.claims
      ensures HoldingOf(l.claims[k]) == m[k]
    {
      assert l.claims[k] == Rewound(start, l, height).claims[k];
    }
  }

  lemma BlockAges(start: Ledger, l: Ledger, inserts: seq<InsertUndo>, expiries: seq<QueueEntry>, height: int,
      lifetime: int)
    requires Aged(start, height) && InTime(start, height, lifetime) && Recorded(start, l, inserts, expiries, height)
    ensures Aged(l, height + 1)
  {
    forall k | k in l.claims
      ensures 0 < l.claims[k].nHeight <= l.claims[k].nValidAtHeight && l.claims[k].nHeight <= height + 1
      ensures k !in l.due ==> l.claims[k].nValidAtHeight < height + 1
    {
      assert l.claims[k] == Rewound(start, l, height).claims[k];
    }
  }

  /** After a block every name that holds claims has a takeover height. */
  lemma HeightsKnownAfter(trie: ClaimTrieCache, taken: set<Name>, height: int)
    requires AllTaken(trie.base.nodes, trie.Trie(), taken)
    requires forall n :: n in taken && ClaimsAt(trie.Trie(), n) != [] && trie.fRequireTakeoverHeights ==>
               trie.TakeoverOf(n) == Some(height)
    ensures trie.HeightsKnown()
  {
    hide ClaimTrieCache.Trie;
    forall p | p in trie.Trie() && trie.Trie()[p].claims != []
      ensures trie.TakeoverOf(p).Some?
    {
      assert ClaimsAt(trie.Trie(), p) != [];
      if p !in taken {
        assert !ChangesHands(trie.base.nodes, trie.Trie(), p);
        TakeoverKnown(trie.fRequireTakeoverHeights, trie.cacheTakeoverHeights, trie.base.nodes, p);
      }
    }
  }

  lemma HeightsInTrie(v: TrieView, w: TrieView)
    requires Closes(v, w) && v.heights == map[] && Lays(w.base, w.cache)
    ensures w.heights.Keys <= w.Trie().Keys
  {
    hide Lays, Shown, HashesHold, Controls;
    ShownClosed(w.base, w.cache);
  }

  /** What the end of a block does to the ledger and to the trie: exactly the claims that are
      as old as claims get go; exactly those leave the queue that are due, or whose name is
      taken over; and taken over are exactly the names that another id controls, or nothing,
      once what is due has come and what has expired is gone. */
  ghost predicate Ends(b: Tree, t: Tree, supports: map<Name, seq<SupportValue>>, last: Ledger, end: Ledger,
      undo: BlockUndo, mid: Tree, taken: set<Name>, height: int, lifetime: int)
  {
    && Recorded(last, end, undo.inserts, undo.expiries, height)
    && (forall k :: k in end.claims <==> k in last.claims && last.claims[k].nHeight + lifetime != height)
    && (forall k :: k in end.due <==> k in last.due && last.due[k] != height && k.0 !in taken)
    && InTrieThen(mid, Expired(Ripened(last, height), height, lifetime)) && FrontsIn(mid, supports)
    && TakenOver(b, mid, t, taken) && AllTaken(b, mid, taken) && AllTaken(b, t, taken)
    && HeightsNoted(b, true, map[], undo.heights, taken)
  }

  /** Every name that ends with claims has the block's height as its takeover height if it was
      taken over, and else the one it had. */
  ghost predicate Stands(b: Tree, heights: map<Name, int>, t: Tree, taken: set<Name>, height: int)
  {
    forall n :: ClaimsAt(t, n) != [] ==>
      if n in taken then TakeoverIn(true, heights, b, n) == Some(height)
      else n in b && TakeoverIn(true, heights, b, n) == Some(b[n].nHeightOfLastTakeover)
  }

  /** The same of the base itself, once it is written. */
  ghost predicate StandsInBase(b: Tree, w: Tree, taken: set<Name>, height: int)
  {
    forall n :: n in w && w[n].claims != [] ==>
      if n in taken then w[n].nHeightOfLastTakeover == height
      else n in b && w[n].nHeightOfLastTakeover == b[n].nHeightOfLastTakeover
  }

  lemma AllStand(b: Tree, heights: map<Name, int>, t: Tree, taken: set<Name>, height: int)
    requires AllTaken(b, t, taken)
    requires forall n :: n in taken && ClaimsAt(t, n) != [] ==> TakeoverIn(true, heights, b, n) == Some(height)
    requires forall n :: n !in taken ==> TakeoverIn(true, heights, b, n) == TakeoverIn(true, map[], b, n)
    ensures Stands(b, heights, t, taken, height)
  {
    forall n | ClaimsAt(t, n) != [] && n !in taken
      ensures n in b && TakeoverIn(true, heights, b, n) == Some(b[n].nHeightOfLastTakeover)
    {
      assert !ChangesHands(b, t, n);
    }
  }

  lemma StandsWritten(heights: map<Name, int>, b: Tree, t: Tree, w: Tree, taken: set<Name>, height: int)
    requires Stands(b, heights, t, taken, height) && SameContent(t, w) && HeightsWritten(b, heights, w)
    ensures StandsInBase(b, w, taken, height)
  {
    forall n | n in w && w[n].claims != []
      ensures if n in taken then w[n].nHeightOfLastTakeover == height
              else n in b && w[n].nHeightOfLastTakeover == b[n].nHeightOfLastTakeover
    {
      assert ClaimsAt(t, n) == w[n].claims;
    }
  }

  lemma EndsWritten(b: Tree, t: Tree, w: Tree, supports: map<Name, seq<SupportValue>>, last: Ledger, end: Ledger,
      undo: BlockUndo, mid: Tree, taken: set<Name>, height: int, lifetime: int)
    requires Ends(b, t, supports, last, end, undo, mid, taken, height, lifetime) && SameContent(t, w)
    ensures Ends(b, w, supports, last, end, undo, mid, taken, height, lifetime)
  {
    hide Recorded, InTrieThen, FrontsIn, HeightsNoted;
    forall n
      ensures ClaimsAt(w, n) == ClaimsAt(t, n)
    {
    }
  }

  /** What is known when all transactions of a block are applied and its queues worked off. */
  ghost predicate BlockDone(c: ClaimQueueCache, m: Holdings)
    reads c, c.trie, c.trie.base
  {
    && c.Valid() && Lists(c.ledger, m) && UniqueHoldings(m) && Controls(c.Snapshot())
    && Aged(c.ledger, c.nCurrentHeight)
    && c.trie.HashValid() && c.trie.HeightsKnown()
    && c.trie.cacheTakeoverHeights.Keys <= c.trie.Trie().Keys
  }

  /** A trie that lost its last name is marked. */
  ghost predicate EmptiedMarked(trie: ClaimTrieCache)
    reads trie, trie.base
  {
    && [] in trie.base.nodes && [] in trie.Trie()
    && (trie.Trie()[[]].Empty() ==> trie.base.nodes[[]].Empty() || trie.dirtyHashes != {})
  }

  lemma SomeName(t: Tree) returns (n: Name)
    requires Closed(t) && Pruned(t) && [] in t && !t[[]].Empty()
    ensures ClaimsAt(t, n) != []
  {
    hide Closed, Pruned;
    if t[[]].claims != [] {
      return [];
    }
    var c :| c in t[[]].children;
    assert Child([], c) in t by { ChildThere(t, [], c); }
    NodesArePrefixes(t, Child([], c));
    n :| n in t && t[n].claims != [] && Child([], c) <= n;
  }

  lemma ChildThere(t: Tree, p: Name, c: Byte)
    requires Closed(t) && p in t && c in t[p].children
    ensures Child(p, c) in t
  {
  }

  lemma NoNames(t: Tree, n: Name)
    requires Closed(t) && [] in t && t[[]].Empty()
    ensures ClaimsAt(t, n) == []
  {
    if n in t && n != [] {
      LivePrefix(t, n, 1);
    }
  }

  lemma MarksEmptied(trie: ClaimTrieCache, taken: set<Name>)
    requires Closed(trie.base.nodes) && Pruned(trie.base.nodes) && Lays(trie.base.nodes, trie.cache)
    requires [] in trie.base.nodes && AllTaken(trie.base.nodes, trie.Trie(), taken)
    requires forall n :: n in taken ==> Prefixes(n) <= trie.dirtyHashes
    ensures EmptiedMarked(trie)
  {
    hide Closed, Pruned, Lays, Shown, ClaimsAt;
    ShownClosed(trie.base.nodes, trie.cache);
    if !trie.base.nodes[[]].Empty() && trie.Trie()[[]].Empty() {
      var n := SomeName(trie.base.nodes);
      NoNames(trie.Trie(), n);
      assert n[..0] == [] && [] in Prefixes(n);
    }
  }

  method CloseBlock(c: ClaimQueueCache, ghost m: Holdings, spends: seq<Option<int>>)
    returns (ok: bool, undo: BlockUndo, ghost mid: Tree, ghost taken: set<Name>)
    requires Running(c, m) && c.trie.cacheTakeoverHeights == map[] && Usable(c.trie.base, c.trie.heap)
    requires c.trie.fRequireTakeoverHeights
    modifies c, c.trie
    ensures ok && c.nCurrentHeight == old(c.nCurrentHeight) + 1 && c.trie.cacheHashes == old(c.trie.cacheHashes)
    ensures BlockDone(c, Unexpired(m, old(c.nCurrentHeight), c.Lifetime())) && undo.spends == spends
    ensures Ends(c.trie.base.nodes, c.trie.Trie(), c.trie.base.supports, old(c.ledger), c.ledger, undo, mid, taken,
                 old(c.nCurrentHeight), c.Lifetime())
    ensures Stands(c.trie.base.nodes, c.trie.cacheTakeoverHeights, c.trie.Trie(), taken, old(c.nCurrentHeight))
    ensures OnlyStamped(map[], c.trie.cacheTakeoverHeights, old(c.nCurrentHeight))
    ensures EmptiedMarked(c.trie)
  {
    hide Tracks, Watches, HashesHold, Controls, Closes, Lists, UniqueHoldings, Recorded, AllTaken, HeightsNoted,
        Unexpired, ClaimQueueCache.Valid, ClaimTrieCache.HeightsKnown, ClaimTrieCache.Trie, TakeoverIn, ClaimsAt,
        Stands, InTrieThen, FrontsIn, TakenOver, Aged, Prefixes, OnlyStamped;
    ghost var start, height, v := c.ledger, c.nCurrentHeight, c.Snapshot();
    var insertUndo, expireUndo, takeoverHeightUndo;
    BooksInPlace(c);
    ok, insertUndo, expireUndo, takeoverHeightUndo, taken, mid := c.IncrementBlock();
    undo := BlockUndo(spends, insertUndo, expireUndo, takeoverHeightUndo);
    BlockLists(start, c.ledger, m, insertUndo, expireUndo, height, c.Lifetime());
    BlockAges(start, c.ledger, insertUndo, expireUndo, height, c.Lifetime());
    HeightsKnownAfter(c.trie, taken, height);
    AllStand(c.trie.base.nodes, c.trie.cacheTakeoverHeights, c.trie.Trie(), taken, height);
    ClosedViews(c, v);
    RootThere(c);
    MarksEmptied(c.trie, taken);
  }

  lemma RootThere(c: ClaimQueueCache)
    requires c.Valid() && Usable(c.trie.base, c.trie.heap)
    ensures [] in c.trie.base.nodes && Lays(c.trie.base.nodes, c.trie.cache)
    ensures Closed(c.trie.base.nodes) && Pruned(c.trie.base.nodes)
  {
    hide Lays, Shown, IsMakeHeap, Holds, InTime, Pruned, ClaimQueueCache.HeightsPassed;
  }

  lemma ClosedViews(c: ClaimQueueCache, v: TrieView)
    requires c.Valid() && Closes(v, c.Snapshot()) && HashesHold(v) && Controls(v) && v.heights == map[]
    ensures c.trie.HashValid() && Controls(c.Snapshot()) && c.trie.cacheTakeoverHeights.Keys <= c.trie.Trie().Keys
    ensures c.trie.cacheHashes == v.hashes
  {
    hide Controls, HashInv, HeightsIn, Holds, InTime, IsMakeHeap, Pruned, Closed, Lays, ClaimQueueCache.HeightsPassed;
    HeightsInTrie(v, c.Snapshot());
    c.TrieIsShown();
  }

  /** The root hash of a block, from scratch unless the trie is empty. */
  method HashBlock(c: ClaimQueueCache, ghost m: Holdings) returns (rootHash: Digest)
    requires BlockDone(c, m) && c.trie.cacheHashes == map[]
    modifies c.trie`cacheHashes, c.trie`dirtyHashes
    ensures BlockDone(c, m) && c.trie.cacheHashes.Keys <= c.trie.Trie().Keys
    ensures c.trie.Trie() == old(c.trie.Trie()) && c.trie.Heights() == old(c.trie.Heights())
    ensures c.trie.cacheTakeoverHeights == old(c.trie.cacheTakeoverHeights)
    ensures Closed(c.trie.Trie()) && [] in c.trie.Trie()
    ensures !c.trie.Trie()[[]].Empty() ==> rootHash == RootHash(c.trie.base.hash, c.trie.Heights(), c.trie.Trie())
    ensures [] in c.trie.base.nodes && c.trie.Trie()[[]].Empty() ==>
              && c.trie.EmptyRootHash() == old(c.trie.EmptyRootHash())
              && rootHash == if c.trie.Empty() then EMPTY_TRIE_HASH else c.trie.EmptyRootHash()
  {
    hide Holds, InTime, Lists, UniqueHoldings, Controls, IsMakeHeap, Closed, Pruned, Lays, Shown, HashInv, RootHash,
        HeightsIn, TakeoverIn, NoneAfter;
    ShownClosed(c.trie.base.nodes, c.trie.cache);
    rootHash := c.trie.GetMerkleHash();
    SameControls(c.Snapshot(), old(c.Snapshot()));
  }

  lemma SameControls(v: TrieView, w: TrieView)
    requires w.base == v.base && w.cache == v.cache && w.supports == v.supports
    ensures Controls(v) <==> Controls(w)
  {
    hide Controls;
    ControlsOther(v, w);
  }

  lemma FrontsAfterFlush(t: Tree, u: Tree, supports: map<Name, seq<SupportValue>>)
    requires FrontsIn(t, supports) && SameContent(t, u)
    ensures FrontsIn(u, supports)
  {
    hide UniqueClaims, FrontControls;
    forall n
      ensures ClaimsAt(u, n) == ClaimsAt(t, n)
    {
    }
  }

  lemma HeightsAfterFlush(b: Tree, heights: map<Name, int>, w: Tree, before: int)
    requires HeightsWritten(b, heights, w) && OnlyStamped(map[], heights, before)
    requires forall n :: n in b ==> b[n].nHeightOfLastTakeover <= before
    requires 0 <= before
    ensures forall n :: n in w ==> w[n].nHeightOfLastTakeover <= before
  {
  }

  lemma RootAfterFlush(h: HashFn, tk: Name -> int, t: Tree, u: Tree)
    requires Closed(t) && Closed(u) && [] in t && SameContent(t, u) && HashesRight(h, tk, u)
    requires HashesRight(h, HeightsIn(true, map[], u), u)
    ensures [] in u && (u[[]].Empty() <==> t[[]].Empty())
        && RootHash(h, tk, t) == RootHash(h, HeightsIn(true, map[], u), u)
  {
    hide Closed, NodeHash, HeightsIn;
    ContentHash(h, tk, t, u, []);
  }

  /** A block ends with everything written to the base. */
  method EndBlock(c: ClaimQueueCache, ghost m: Holdings, ghost before: int, ghost taken: set<Name>) returns (ok: bool)
    requires BlockDone(c, m) && c.trie.cacheHashes.Keys <= c.trie.Trie().Keys && c.trie.fRequireTakeoverHeights
    requires Usable(c.trie.base, c.trie.heap) && before == c.trie.base.nCurrentHeight <= c.nCurrentHeight
    requires Stands(c.trie.base.nodes, c.trie.cacheTakeoverHeights, c.trie.Trie(), taken, before)
    requires OnlyStamped(map[], c.trie.cacheTakeoverHeights, before)
    modifies c, c.trie, c.trie.base
    ensures ok && BaseInOrder(c.trie.base, c.trie.heap, old(c.ledger), m)
        && c.trie.base.nCurrentHeight == old(c.nCurrentHeight)
    ensures forall p :: p in c.trie.base.nodes ==> c.trie.base.nodes[p].nHeightOfLastTakeover <= before
    ensures c.trie.base.supports == old(c.trie.base.supports) && SameContent(old(c.trie.Trie()), c.trie.base.nodes)
    ensures HashesRight(c.trie.base.hash, old(c.trie.Heights()), c.trie.base.nodes)
    ensures StandsInBase(old(c.trie.base.nodes), c.trie.base.nodes, taken, before)
    ensures [] in old(c.trie.base.nodes) && [] in old(c.trie.Trie()) && old(c.trie.Trie())[[]].Empty() ==>
              [] in c.trie.base.nodes && c.trie.base.nodes[[]].hash == old(c.trie.EmptyRootHash())
  {
    hide Holds, InTime, Lists, UniqueHoldings, Controls, Closed, Pruned, Lays, Shown, HashInv, HashesRight, HeightsIn,
        TakeoverIn, NoneAfter, HeightsWritten, SameContent, FrontsIn, ClaimTrieCache.HeightsKnown, IsMakeHeap,
        ClaimTrieCache.Trie, Stands, StandsInBase, Aged;
    ghost var t, b, heights := c.trie.Trie(), c.trie.base.nodes, c.trie.cacheTakeoverHeights;
    c.TrieIsShown();
    FrontsOf(c.Snapshot());
    ok := c.Flush();
    FrontsAfterFlush(t, c.trie.base.nodes, c.trie.base.supports);
    HeightsAfterFlush(b, heights, c.trie.base.nodes, before);
    StandsWritten(heights, b, t, c.trie.base.nodes, taken, before);
    TrieFits(c.trie);
  }

  lemma TrieFits(trie: ClaimTrieCache)
    requires trie.Valid() && trie.Trie() == trie.base.nodes
    ensures Closed(trie.base.nodes) && Pruned(trie.base.nodes)
  {
    hide Closed, Pruned, Lays, Shown, IsMakeHeap;
  }

  /** The hash of an empty trie is one, unless it is what the base had as the hash of its root
      already, and then the base was empty too; and the base keeps one or the other. */
  ghost predicate EmptyHashes(b: Tree, w: Tree, rootHash: Digest)
  {
    && [] in b && [] in w
    && (w[[]].Empty() ==>
          && (rootHash == EMPTY_TRIE_HASH || (b[[]].Empty() && rootHash == b[[]].hash))
          && (w[[]].hash == EMPTY_TRIE_HASH || (b[[]].Empty() && w[[]].hash == b[[]].hash)))
  }

  lemma ContentEmpty(t: Tree, u: Tree)
    requires SameContent(t, u) && [] in t
    ensures [] in u && (u[[]].Empty() <==> t[[]].Empty())
  {
  }

  /** The second half: what was done is hashed and written. */
  method WriteBlock(c: ClaimQueueCache, ghost m: Holdings, ghost before: int, ghost taken: set<Name>)
    returns (ok: bool, rootHash: Digest)
    requires BlockDone(c, m) && c.trie.cacheHashes == map[] && c.trie.fRequireTakeoverHeights && EmptiedMarked(c.trie)
    requires Usable(c.trie.base, c.trie.heap) && before == c.trie.base.nCurrentHeight <= c.nCurrentHeight
    requires Stands(c.trie.base.nodes, c.trie.cacheTakeoverHeights, c.trie.Trie(), taken, before)
    requires OnlyStamped(map[], c.trie.cacheTakeoverHeights, before)
    modifies c, c.trie, c.trie.base
    ensures ok && BaseInOrder(c.trie.base, c.trie.heap, old(c.ledger), m)
        && c.trie.base.nCurrentHeight == old(c.nCurrentHeight)
    ensures forall p :: p in c.trie.base.nodes ==> c.trie.base.nodes[p].nHeightOfLastTakeover <= before
    ensures c.trie.base.supports == old(c.trie.base.supports) && SameContent(old(c.trie.Trie()), c.trie.base.nodes)
    ensures StandsInBase(old(c.trie.base.nodes), c.trie.base.nodes, taken, before)
    ensures Closed(c.trie.base.nodes) && [] in c.trie.base.nodes
    ensures !c.trie.base.nodes[[]].Empty() ==>
              rootHash == RootHash(c.trie.base.hash, HeightsIn(true, map[], c.trie.base.nodes), c.trie.base.nodes)
    ensures EmptyHashes(old(c.trie.base.nodes), c.trie.base.nodes, rootHash)
  {
    hide Stands, StandsInBase, BaseInOrder, BlockDone, Closed, RootHash, HeightsIn, ClaimTrieCache.Trie, SameContent,
        HashesRight, Usable;
    rootHash := HashBlock(c, m);
    ghost var t, tk, base := c.trie.Trie(), c.trie.Heights(), c.trie.base;
    ok := EndBlock(c, m, before, taken);
    NodesFit(base, c.trie.heap, old(c.ledger), m);
    ContentEmpty(t, base.nodes);
    RootAfterFlush(base.hash, tk, t, base.nodes);
  }

  /** A block is applied, hashed and written. Spends that find nothing are passed over. */
  method ConnectBlock(base: ClaimTrie, heap: seq<ClaimValue> -> seq<ClaimValue>, txs: seq<Tx>, ghost l: Ledger,
      ghost m: Holdings)
    returns (ok: bool, rootHash: Digest, undo: BlockUndo, ghost trail: Trail)
    requires BaseInOrder(base, heap, l, m) && ProperTxs(m, txs, base.nCurrentHeight)
    modifies base
    ensures ok && base.nCurrentHeight == old(base.nCurrentHeight) + 1 && base.supports == old(base.supports)
    ensures BaseInOrder(base, heap, trail.end, AfterBlock(m, txs, old(base.nCurrentHeight), base.nExpirationTime))
    ensures Closed(base.nodes) && [] in base.nodes
    ensures !base.nodes[[]].Empty() ==> rootHash == RootHash(base.hash, HeightsIn(true, map[], base.nodes), base.nodes)
    ensures EmptyHashes(old(base.nodes), base.nodes, rootHash)
    ensures Connected(l, old(base.nodes), base.nodes, base.supports, txs, undo, trail, old(base.nCurrentHeight),
                      base.nExpirationTime)
    ensures 0 < base.nProportionalDelayFactor
        && Delays(old(base.nodes), trail.ledgers, txs, old(base.nCurrentHeight), base.nProportionalDelayFactor)
    ensures forall n :: FrontId(old(base.nodes), n).Some? && FrontId(trail.mid, n).Some? ==>
              (n in trail.taken <==> FrontId(old(base.nodes), n) != FrontId(trail.mid, n))
    ensures forall n :: FrontId(old(base.nodes), n).Some? != FrontId(trail.mid, n).Some? ==> n in trail.taken
  {
    hide FrontId, Delays, Stands, StandsInBase, Ends, Follows, BaseInOrder, Running, BlockDone, ProperTxs, AfterTxs,
        Unexpired, Closed, RootHash, HeightsIn, ClaimTrieCache.Trie, SameContent, Usable, EmptiedMarked, EmptyHashes,
        UniqueIds, OnlyStamped;
    IsUsable(base, heap, l, m);
    var c := BeginBlock(base, heap, l, m);
    ghost var height, b := base.nCurrentHeight, base.nodes;
    ghost var ledgers, mid, taken;
    var spends;
    spends, ledgers := ApplyTxs(c, txs, m);
    ghost var last := c.ledger;
    RunningUnique(c, AfterTxs(m, txs, height));
    ok, undo, mid, taken := CloseBlock(c, AfterTxs(m, txs, base.nCurrentHeight), spends);
    trail := Trail(ledgers, mid, taken, c.ledger);
    ghost var t := c.trie.Trie();
    ok, rootHash := WriteBlock(c, AfterBlock(m, txs, base.nCurrentHeight, base.nExpirationTime), height, taken);
    EndsWritten(b, t, base.nodes, base.supports, last, trail.end, undo, mid, taken, height, base.nExpirationTime);
    EndsByFront(b, base.nodes, base.supports, last, trail.end, undo, mid, taken, height, base.nExpirationTime);
  }

  lemma EndsByFront(b: Tree, t: Tree, supports: map<Name, seq<SupportValue>>, last: Ledger, end: Ledger,
      undo: BlockUndo, mid: Tree, taken: set<Name>, height: int, lifetime: int)
    requires Ends(b, t, supports, last, end, undo, mid, taken, height, lifetime)
    ensures forall n :: FrontId(b, n).Some? && FrontId(mid, n).Some? ==>
              (n in taken <==> FrontId(b, n) != FrontId(mid, n))
    ensures forall n :: FrontId(b, n).Some? != FrontId(mid, n).Some? ==> n in taken
  {
    hide InTrieThen, TakenOver, AllTaken, Recorded, FrontsIn, HeightsNoted, ClaimsAt, FrontId;
    TakenByFront(b, mid, t, taken);
  }

  /** A block led from one base to another: its transactions follow each other from the ledger
      before, its end did what it has to, and the takeover heights are those that stand. */
  ghost predicate Connected(l: Ledger, b: Tree, w: Tree, supports: map<Name, seq<SupportValue>>, txs: seq<Tx>,
      undo: BlockUndo, trail: Trail, height: int, lifetime: int)
  {
    && Follows(trail.ledgers, txs, undo.spends, height, lifetime) && trail.ledgers[0] == l
    && UniqueIds(trail.ledgers[|txs|])
    && Ends(b, w, supports, trail.ledgers[|txs|], trail.end, undo, trail.mid, trail.taken, height, lifetime)
    && StandsInBase(b, w, trail.taken, height)
    && (forall p :: p in w ==> w[p].nHeightOfLastTakeover <= height)
  }

  lemma IsUsable(base: ClaimTrie, heap: seq<ClaimValue> -> seq<ClaimValue>, l: Ledger, m: Holdings)
    requires BaseInOrder(base, heap, l, m)
    ensures Usable(base, heap)
  {
  }

  lemma NodesFit(base: ClaimTrie, heap: seq<ClaimValue> -> seq<ClaimValue>, l: Ledger, m: Holdings)
    requires BaseInOrder(base, heap, l, m)
    ensures Closed(base.nodes) && HashesRight(base.hash, HeightsIn(true, map[], base.nodes), base.nodes)
  {
    hide Closed, HashesRight, HeightsIn, Holds, InTime, Lists, UniqueHoldings, FrontsIn, IsMakeHeap, Pruned;
  }

  // ---------- a chain of blocks ----------

  predicate ZeroOrOne(hash: Digest) { hash == NULL_DIGEST || hash == EMPTY_TRIE_HASH }

  /** The hash of an empty root is zero, as in a new trie, or one. */
  predicate RootKnown(base: ClaimTrie)
    reads base
  {
    [] in base.nodes && (base.nodes[[]].Empty() ==> ZeroOrOne(base.nodes[[]].hash))
  }

  /** A whole chain, block after block. */
  method ConnectBlocks(base: ClaimTrie, heap: seq<ClaimValue> -> seq<ClaimValue>, blocks: seq<seq<Tx>>, ghost l: Ledger,
      ghost m: Holdings)
    returns (ok: bool, rootHash: Digest, ghost after: Ledger)
    requires BaseInOrder(base, heap, l, m) && ProperBlocks(m, blocks, base.nCurrentHeight, base.nExpirationTime)
    modifies base
    ensures ok && base.nCurrentHeight == old(base.nCurrentHeight) + |blocks|
    ensures BaseInOrder(base, heap, after, AfterBlocks(m, blocks, old(base.nCurrentHeight), base.nExpirationTime))
    ensures Closed(base.nodes)
    ensures blocks != [] && [] in base.nodes && !base.nodes[[]].Empty() ==>
              rootHash == RootHash(base.hash, HeightsIn(true, map[], base.nodes), base.nodes)
    ensures old(RootKnown(base)) ==> RootKnown(base) && (blocks != [] && base.nodes[[]].Empty() ==> ZeroOrOne(rootHash))
  {
    hide BaseInOrder, ProperTxs, AfterBlock, AfterBlocks, Closed, RootHash, HeightsIn, HashesRight, Connected;
    ghost var height, lifetime := base.nCurrentHeight, base.nExpirationTime;
    ok, after, rootHash := true, l, NULL_DIGEST;
    NodesFit(base, heap, l, m);
    NoBlocks(m, blocks, height, lifetime);
    for i := 0 to |blocks|
      invariant ok && base.nCurrentHeight == height + i && Closed(base.nodes)
      invariant BaseInOrder(base, heap, after, AfterBlocks(m, blocks[..i], height, lifetime))
      invariant i > 0 && [] in base.nodes && !base.nodes[[]].Empty() ==>
                  rootHash == RootHash(base.hash, HeightsIn(true, map[], base.nodes), base.nodes)
      invariant old(RootKnown(base)) ==> RootKnown(base) && (i > 0 && base.nodes[[]].Empty() ==> ZeroOrOne(rootHash))
    {
      ClaimHoldings.NextBlock(m, blocks, height, lifetime, i);
      var undo;
      ghost var trail;
      ok, rootHash, undo, trail := ConnectBlock(base, heap, blocks[i], after,
          AfterBlocks(m, blocks[..i], height, lifetime));
      after := trail.end;
    }
    assert blocks[..|blocks|] == blocks;
  }

  lemma NoBlocks(m: Holdings, blocks: seq<seq<Tx>>, height: int, lifetime: int)
    ensures AfterBlocks(m, blocks[..0], height, lifetime) == m
  {
  }

  lemma NewBaseInOrder(base: ClaimTrie, heap: seq<ClaimValue> -> seq<ClaimValue>)
    requires IsMakeHeap(heap) && MAX_DELAY <= base.nExpirationTime && 0 < base.nProportionalDelayFactor
    requires base.nodes == map[[] := NEW_NODE] && Closed(base.nodes) && Pruned(base.nodes) && base.nCurrentHeight == 1
    requires base.queueRows == map[] && base.queueNameRows == map[] && base.expirationRows == map[]
    ensures BaseInOrder(base, heap, Ledger(map[], map[]), map[])
  {
    hide IsMakeHeap, Closed, Pruned, NodeHash, UniqueClaims, HeightsIn;
    NothingHeld(BooksOf(base), base.nExpirationTime);
    forall n
      ensures ClaimsAt(base.nodes, n) == []
    {
    }
  }

  lemma NothingHeld(b: Books, lifetime: int)
    requires b.rows == map[] && b.nameRows == map[] && b.expiries == map[] && b.trie == map[[] := NEW_NODE]
    ensures Holds(b, Ledger(map[], map[]), lifetime)
  {
    var l := Ledger(map[], map[]);
    forall n
      ensures ClaimBag(ClaimsAt(b.trie, n)) == multiset(TrieSet(l, n))
    {
      assert TrieSet(l, n) == {};
    }
    forall h
      ensures RowSet(l, h) == {} && ExpirySet(l, lifetime, h) == {}
    {
    }
    forall n
      ensures NameSet(l, n) == {}
    {
    }
  }

  /** A claim is in the trie of a base. */
  ghost predicate InBaseTrie(base: ClaimTrie, k: Key)
    reads base
  {
    FindOutPoint(ClaimsAt(base.nodes, k.0), k.1) < |ClaimsAt(base.nodes, k.0)|
  }

  ghost function ClaimInBase(base: ClaimTrie, k: Key): Holding
    requires InBaseTrie(base, k)
    reads base
  {
    HoldingOf(ClaimsAt(base.nodes, k.0)[FindOutPoint(ClaimsAt(base.nodes, k.0), k.1)])
  }

  /** A claim waits in the queues of a base. */
  ghost predicate InBaseQueue(base: ClaimTrie, k: Key)
    reads base
  {
    exists h :: (k.1, h) in At(base.queueNameRows, k.0)
  }

  lemma HeldOnce(base: ClaimTrie, heap: seq<ClaimValue> -> seq<ClaimValue>, l: Ledger, m: Holdings, k: Key)
    requires BaseInOrder(base, heap, l, m)
    ensures (k in m <==> InBaseTrie(base, k) || InBaseQueue(base, k)) && !(InBaseTrie(base, k) && InBaseQueue(base, k))
    ensures InBaseTrie(base, k) ==> k in m && ClaimInBase(base, k) == m[k]
  {
    hide Holds, Usable, HashesRight, HeightsIn, UniqueHoldings, FrontsIn, InTime, ClaimsAt, FindOutPoint, At;
    OnePlace(BooksOf(base), l, base.nExpirationTime, k);
    InTrie(BooksOf(base), l, base.nExpirationTime, k);
    if InBaseTrie(base, k) {
      var c := ClaimsAt(base.nodes, k.0)[FindOutPoint(ClaimsAt(base.nodes, k.0), k.1)];
      assert HoldingOf(Plain(c)) == HoldingOf(c);
    }
  }

  lemma FrontOfEach(base: ClaimTrie, heap: seq<ClaimValue> -> seq<ClaimValue>, l: Ledger, m: Holdings, n: Name)
    requires BaseInOrder(base, heap, l, m)
    ensures FrontControls(ClaimsAt(base.nodes, n), if n in base.supports then base.supports[n] else [])
  {
    hide Holds, Usable, HashesRight, HeightsIn, InTime, ClaimsAt, FrontControls, UniqueClaims, UniqueIds, Lists,
        UniqueHoldings;
    UniqueListed(l, m);
    UniqueInTrie(BooksOf(base), l, base.nExpirationTime, n);
  }

  /** Any chain of blocks on a new trie. Every claim that was added and neither spent nor
      expired is in exactly one place, the trie or the queue, as it was added, and no other is
      anywhere; the front claim of every name controls; the trie passes its consistency check,
      and the last root hash is the one computed from scratch, or, for an empty trie, zero or
      one. */
  method ConnectFromStart(hash: HashFn, heap: seq<ClaimValue> -> seq<ClaimValue>, nExpirationTime: int,
                          nProportionalDelayFactor: int, blocks: seq<seq<Tx>>)
    returns (base: ClaimTrie, ok: bool, rootHash: Digest, consistent: bool)
    requires IsMakeHeap(heap) && MAX_DELAY <= nExpirationTime && 0 < nProportionalDelayFactor
    requires ProperBlocks(map[], blocks, 1, nExpirationTime)
    ensures ok && consistent && base.nCurrentHeight == 1 + |blocks|
    ensures forall k ::
        k in AfterBlocks(map[], blocks, 1, nExpirationTime) <==> InBaseTrie(base, k) || InBaseQueue(base, k)
    ensures forall k :: !(InBaseTrie(base, k) && InBaseQueue(base, k))
    ensures forall k ::
        InBaseTrie(base, k) ==> ClaimInBase(base, k) == AfterBlocks(map[], blocks, 1, nExpirationTime)[k]
    ensures forall n :: FrontControls(ClaimsAt(base.nodes, n), if n in base.supports then base.supports[n] else [])
    ensures Closed(base.nodes)
    ensures [] in base.nodes && (blocks == [] || base.nodes[[]].Empty() || rootHash
              == RootHash(base.hash, HeightsIn(true, map[], base.nodes), base.nodes))
    ensures blocks != [] && base.nodes[[]].Empty() ==> ZeroOrOne(rootHash)
  {
    hide BaseInOrder, ProperBlocks, AfterBlocks, Closed, RootHash, HeightsIn, HashesRight, InBaseTrie, InBaseQueue,
        ClaimInBase, Pruned, IsMakeHeap, ClaimsAt, FindOutPoint, FrontControls, ConsistentBelow;
    base := new ClaimTrie(hash, nExpirationTime, nProportionalDelayFactor);
    NewBaseInOrder(base, heap);
    ghost var after;
    ok, rootHash, after := ConnectBlocks(base, heap, blocks, Ledger(map[], map[]), map[]);
    ghost var m := AfterBlocks(map[], blocks, 1, nExpirationTime);
    forall k
      ensures (k in m <==> InBaseTrie(base, k) || InBaseQueue(base, k))
          && !(InBaseTrie(base, k) && InBaseQueue(base, k))
      ensures InBaseTrie(base, k) ==> k in m && ClaimInBase(base, k) == m[k]
    {
      HeldOnce(base, heap, after, m, k);
    }
    forall n
      ensures FrontControls(ClaimsAt(base.nodes, n), if n in base.supports then base.supports[n] else [])
    {
      FrontOfEach(base, heap, after, m, n);
    }
    ConsistentBase(base, heap, after, m);
    consistent := base.CheckConsistency();
  }

  lemma ConsistentBase(base: ClaimTrie, heap: seq<ClaimValue> -> seq<ClaimValue>, l: Ledger, m: Holdings)
    requires BaseInOrder(base, heap, l, m)
    ensures Closed(base.nodes) && (base.Empty() || ConsistentBelow(base.hash, base.nodes, []))
  {
    hide Closed, HashesRight, HeightsIn, Holds, InTime, Lists, UniqueHoldings, FrontsIn, IsMakeHeap, Pruned,
        ConsistentBelow;
    if [] in base.nodes {
      OwnHeightsRight(base.hash, true, base.nodes);
    }
  }
}
