/** Blocks on one name, from a new trie on: a claim that comes first, one that waits and wins the
    name when it is due, and one that wins it early, which undoing does not restore. */
module ClaimBlockCases {
  import opened ClaimTypes
  import opened NameTree
  import opened PathOps
  import opened Flushing
  import opened ClaimMap
  import opened TrieHash
  import opened ClaimLedger
  import opened ClaimMoves
  import opened ClaimUndo
  import opened ClaimQueues
  import opened ClaimTries
  import opened ClaimTrieCaches
  import opened ClaimTracks
  import opened ClaimBlocks
  import opened ClaimHoldings
  import opened ClaimTrails
  import opened ClaimDelays
  import opened ClaimChains
  import opened ClaimDisconnects

  // ---------- what a block does, part by part ----------

  lemma EndParts(b: Tree, t: Tree, supports: map<Name, seq<SupportValue>>, last: Ledger, end: Ledger, undo: BlockUndo,
      mid: Tree, taken: set<Name>, height: int, lifetime: int)
    requires Ends(b, t, supports, last, end, undo, mid, taken, height, lifetime)
    ensures InTrieThen(mid, Expired(Ripened(last, height), height, lifetime)) && FrontsIn(mid, supports)
    ensures Recorded(last, end, undo.inserts, undo.expiries, height)
    ensures HeightsNoted(b, true, map[], undo.heights, taken)
    ensures forall k :: k in end.claims <==> k in last.claims && last.claims[k].nHeight + lifetime != height
    ensures forall k :: k in end.due <==> k in last.due && last.due[k] != height && k.0 !in taken
  {
    hide InTrieThen, TakenOver, AllTaken, Recorded, FrontsIn, HeightsNoted;
  }

  lemma ConnectedParts(l: Ledger, b: Tree, w: Tree, supports: map<Name, seq<SupportValue>>, txs: seq<Tx>,
      undo: BlockUndo, trail: Trail, height: int, lifetime: int)
    requires Connected(l, b, w, supports, txs, undo, trail, height, lifetime)
    ensures |trail.ledgers| == |txs| + 1 && trail.ledgers[0] == l && StandsInBase(b, w, trail.taken, height)
    ensures Ends(b, w, supports, trail.ledgers[|txs|], trail.end, undo, trail.mid, trail.taken, height, lifetime)
    ensures |undo.spends| == |txs| && UniqueIds(trail.ledgers[|txs|])
    ensures forall i :: 0 <= i < |txs| ==> Steps(trail.ledgers[i], txs[i], undo.spends[i], trail.ledgers[i + 1], height)
  {
    hide Ends, StandsInBase, Steps, Sound, UniqueIds;
  }

  lemma LedgerKeys(base: ClaimTrie, heap: seq<ClaimValue> -> seq<ClaimValue>, l: Ledger, m: Holdings)
    requires BaseInOrder(base, heap, l, m)
    ensures l.claims.Keys == m.Keys && (forall k :: k in m ==> HoldingOf(l.claims[k]) == m[k]) && WellFormed(l)
    ensures InTrieThen(base.nodes, l) && FrontsIn(base.nodes, base.supports)
  {
    hide Usable, RowsHold, NamesHold, ExpiriesHold, TrieHolds, InTime, HashesRight, HeightsIn, FrontsIn, UniqueHoldings,
        Aged;
    assert forall k :: k in l.claims.Keys <==> k in m.Keys;
  }

  // ---------- one name and the claim that came first ----------

  /** A base at some height, on which one name holds the claim of the first block in its trie,
      and all other claims wait for it. */
  ghost predicate Stage(base: ClaimTrie, heap: seq<ClaimValue> -> seq<ClaimValue>, l: Ledger, m: Holdings, name: Name,
      a: OutPoint, height: int)
    reads base
  {
    && BaseInOrder(base, heap, l, m) && base.nCurrentHeight == height && base.nProportionalDelayFactor == 1
    && base.nExpirationTime == MAX_DELAY && base.supports == map[] && FrontId(base.nodes, name) == Some(1)
    && name in base.nodes && base.nodes[name].nHeightOfLastTakeover == 1 && OneInTrie(l, m, name, a)
  }

  ghost predicate OneInTrie(l: Ledger, m: Holdings, name: Name, a: OutPoint)
  {
    && (name, a) in m && m[(name, a)] == Holding(1, 10, 1)
    && l.due.Keys == m.Keys - {(name, a)}
    && (forall k :: k in m ==> k.0 == name && 1 <= m[k].nHeight)
  }

  /** The front claim of a name with one claim in the trie. */
  lemma OnlyFront(t: Tree, l: Ledger, k: Key)
    requires InTrieThen(t, l) && k in l.claims && k !in l.due
    requires forall j :: j in l.claims && j !in l.due && j.0 == k.0 ==> j == k
    ensures FrontId(t, k.0) == Some(l.claims[k].claimId)
  {
    hide InTrieThen, ClaimsAt;
    InTree(t, l, k);
    var front := ClaimsAt(t, k.0)[0];
    FoundInTree(t, l, (k.0, front.outPoint), 0);
    assert Plain(front).claimId == front.claimId;
  }

  lemma NoneLarger(claims: seq<ClaimValue>)
    requires FrontControls(claims, [])
    ensures forall j :: 1 <= j < |claims| ==> claims[0].nAmount >= claims[j].nAmount
  {
    forall j | 1 <= j < |claims|
      ensures claims[0].nAmount >= claims[j].nAmount
    {
      assert Outranks(claims[0], claims[j], []);
    }
  }

  /** Without supports the largest claim is in front. */
  lemma LargerFront(t: Tree, supports: map<Name, seq<SupportValue>>, l: Ledger, k: Key)
    requires InTrieThen(t, l) && FrontsIn(t, supports) && supports == map[] && UniqueIds(l)
    requires k in l.claims && k !in l.due
    requires forall i :: i in l.claims && i !in l.due && i.0 == k.0 && i != k ==>
        l.claims[i].nAmount < l.claims[k].nAmount
    ensures FrontId(t, k.0) == Some(l.claims[k].claimId)
  {
    hide InTrieThen, ClaimsAt, UniqueIds, UniqueClaims;
    InTree(t, l, k);
    UniqueInTree(t, l, k.0);
    var claims := ClaimsAt(t, k.0);
    var i := FindOutPoint(claims, k.1);
    FoundInTree(t, l, (k.0, claims[0].outPoint), 0);
    FoundInTree(t, l, (k.0, claims[i].outPoint), i);
    assert Plain(claims[0]).nAmount == claims[0].nAmount && Plain(claims[i]).nAmount == claims[i].nAmount;
    assert Plain(claims[0]).claimId == claims[0].claimId;
    NoneLarger(claims);
  }

  lemma SameTakeover(b: Tree, w: Tree, taken: set<Name>, height: int, name: Name)
    requires StandsInBase(b, w, taken, height) && FrontId(w, name).Some?
    ensures name in w && if name in taken then w[name].nHeightOfLastTakeover == height
                         else name in b && w[name].nHeightOfLastTakeover == b[name].nHeightOfLastTakeover
  {
  }

  lemma NothingExpires(m: Holdings, height: int)
    requires forall k :: k in m ==> m[k].nHeight + MAX_DELAY != height
    ensures Unexpired(m, height, MAX_DELAY) == m
  {
  }

  /** No block, or one addition. */
  lemma OneTx(m: Holdings, tx: Tx, height: int)
    ensures AfterTxs(m, [tx], height) == AfterTx(m, tx, height)
    ensures Proper(m, tx) ==> ProperTxs(m, [tx], height)
  {
    assert [tx][..0] == [];
  }

  // ---------- the first block ----------

  /** What the first claim to a new trie leads to. */
  lemma FirstOne(l: Ledger, tx: Tx, spend: Option<int>, last: Ledger, end: Ledger, undo: BlockUndo, b: Tree,
      w: Tree, supports: map<Name, seq<SupportValue>>, mid: Tree, taken: set<Name>)
    requires b == map[[] := NEW_NODE] && l == Ledger(map[], map[]) && tx.AddClaim?
    requires Steps(l, tx, spend, last, 1) && Waits(b, l, tx, last, 1, 1)
    requires Ends(b, w, supports, last, end, undo, mid, taken, 1, MAX_DELAY)
    requires FrontId(b, tx.name).Some? != FrontId(mid, tx.name).Some? ==> tx.name in taken
    ensures end.due == map[] && tx.name in taken
  {
    hide Ends, InTrieThen, DelayIn;
    EndParts(b, w, supports, last, end, undo, mid, taken, 1, MAX_DELAY);
    assert DelayIn(b, l, tx.name, tx.claimId, 1, 1) == 0 by { assert ClaimsAt(b, tx.name) == []; NoWait(b, l, tx); }
    assert last.due == map[tx.Key() := 1];
    OnlyFront(mid, Expired(Ripened(last, 1), 1, MAX_DELAY), tx.Key());
    assert tx.Key() == (tx.name, tx.outPoint);
    assert forall k :: k !in end.due;
  }

  lemma NoWait(b: Tree, l: Ledger, tx: Tx)
    requires ClaimsAt(b, tx.name) == [] && tx.AddClaim?
    ensures DelayIn(b, l, tx.name, tx.claimId, 1, 1) == 0
  {
    hide ClaimsAt, EmptiedInside;
  }

  lemma FirstHeld(tx: Tx)
    requires tx == AddClaim(tx.name, tx.outPoint, 1, 10)
    ensures Proper(map[], tx) && AfterTx(map[], tx, 1) == map[(tx.name, tx.outPoint) := Holding(1, 10, 1)]
    ensures AfterBlock(map[], [tx], 1, MAX_DELAY) == AfterTx(map[], tx, 1)
  {
    OneTx(map[], tx, 1);
    NothingExpires(AfterTx(map[], tx, 1), 1);
  }

  /** A new trie, and a block that gives a name its first claim. */
  method FirstBlock(hash: HashFn, heap: seq<ClaimValue> -> seq<ClaimValue>, name: Name, a: OutPoint)
    returns (base: ClaimTrie, rootHash: Digest, ghost l: Ledger, ghost m: Holdings)
    requires IsMakeHeap(heap)
    ensures fresh(base) && base.hash == hash && Stage(base, heap, l, m, name, a, 2) && m.Keys == {(name, a)}
    ensures Closed(base.nodes) && rootHash == RootHash(hash, HeightsIn(true, map[], base.nodes), base.nodes)
  {
    hide BaseInOrder, IsMakeHeap, Connected, AfterBlock, ProperTxs, Ends, StandsInBase, Closed, RootHash, HeightsIn,
        EmptyHashes, FrontId, Steps, Waits, Pruned, InTrieThen, FrontsIn, UniqueIds, AfterTx;
    base := new ClaimTrie(hash, MAX_DELAY, 1);
    NewBaseInOrder(base, heap);
    l, m := Ledger(map[], map[]), map[];
    ghost var b, k := base.nodes, (name, a);
    var tx := AddClaim(name, a, 1, 10);
    FirstHeld(tx);
    OneTx(m, tx, 1);
    var ok, undo;
    ghost var trail;
    ok, rootHash, undo, trail := ConnectBlock(base, heap, [tx], l, m);
    ConnectedParts(l, b, base.nodes, base.supports, [tx], undo, trail, 1, MAX_DELAY);
    assert Waits(b, trail.ledgers[0], tx, trail.ledgers[1], 1, 1);
    FirstOne(l, tx, undo.spends[0], trail.ledgers[1], trail.end, undo, b, base.nodes, base.supports, trail.mid,
        trail.taken);
    l, m := trail.end, AfterTx(map[], tx, 1);
    LedgerKeys(base, heap, l, m);
    assert k in m.Keys && forall j :: j in l.claims.Keys ==> j == k;
    OnlyFront(base.nodes, l, k);
    SameTakeover(b, base.nodes, trail.taken, 1, name);
    RootHolds(base.nodes, name);
    assert m.Keys - {k} == {};
  }

  lemma RootHolds(t: Tree, name: Name)
    requires Closed(t) && FrontId(t, name).Some?
    ensures [] in t && !t[[]].Empty()
  {
    if name != [] {
      assert Live(t, name);
      LiveHasRoot(t, name);
    }
  }

  lemma {:induction false} LiveHasRoot(t: Tree, name: Name)
    requires Live(t, name) && name != []
    ensures [] in t && t[[]].children != {}
    decreases |name|
  {
    if |name| > 1 {
      LiveHasRoot(t, Parent(name));
    }
  }

  // ---------- blocks after which the claim in the trie still controls ----------

  /** A new claim has to wait as many blocks as the name was held without a break. */
  lemma WaitsAsLong(b: Tree, l: Ledger, m: Holdings, tx: Tx, spend: Option<int>, last: Ledger, name: Name, a: OutPoint,
      height: int)
    requires Steps(l, tx, spend, last, height) && Waits(b, l, tx, last, height, 1) && tx.AddClaim? && tx.name == name
    requires FrontId(b, name) == Some(1) && tx.claimId != 1 && b[name].nHeightOfLastTakeover == 1
    requires OneInTrie(l, m, name, a) && l.claims.Keys == m.Keys && 2 <= height <= 100
    ensures last.due == l.due[tx.Key() := height + height - 1]
    ensures last.claims.Keys == l.claims.Keys + {tx.Key()} && last.claims[(name, a)] == l.claims[(name, a)]
    ensures tx.Key() != (name, a) && last.claims[tx.Key()].nHeight == height
  {
    assert (name, a) in m.Keys && (name, a) in l.claims && (name, a) !in l.due.Keys;
    assert !EmptiedInside(l, name);
    assert DelayIn(b, l, name, tx.claimId, height, 1) == height - 1;
  }

  /** What it leads to when nothing is due at the height of the block. */
  lemma StaysFirst(l: Ledger, m: Holdings, last: Ledger, end: Ledger, undo: BlockUndo, b: Tree, w: Tree,
      supports: map<Name, seq<SupportValue>>, mid: Tree, taken: set<Name>, name: Name, a: OutPoint, height: int)
    requires Ends(b, w, supports, last, end, undo, mid, taken, height, MAX_DELAY) && height <= 100
    requires FrontId(b, name) == Some(1) && FrontId(mid, name).Some? ==>
        (name in taken <==> FrontId(b, name) != FrontId(mid, name))
    requires FrontId(b, name) == Some(1)
    requires (name, a) in last.claims && last.claims[(name, a)].claimId == 1 && last.claims[(name, a)].nHeight > 0
    requires last.due.Keys == last.claims.Keys - {(name, a)} && forall k :: k in last.due ==> k.0 == name
    requires forall k :: k in last.due ==> last.due[k] != height
    ensures name !in taken && end.due == last.due
  {
    hide Ends, InTrieThen, Undoing, Recorded;
    EndParts(b, w, supports, last, end, undo, mid, taken, height, MAX_DELAY);
    var r := Expired(Ripened(last, height), height, MAX_DELAY);
    assert forall j :: j in last.claims.Keys && j != (name, a) ==> j in last.due.Keys;
    assert (name, a) !in last.due.Keys;
    OnlyFront(mid, r, (name, a));
    SameDue(last, end, undo, height);
    assert end.due == last.due;
  }

  lemma SameDue(last: Ledger, end: Ledger, undo: BlockUndo, height: int)
    requires Recorded(last, end, undo.inserts, undo.expiries, height)
    ensures forall k :: k in end.due ==> k in last.due && end.due[k] == last.due[k]
  {
  }

  /** A block that is empty or adds one claim, and at whose height nothing is due. */
  method Grow(base: ClaimTrie, heap: seq<ClaimValue> -> seq<ClaimValue>, txs: seq<Tx>, ghost l: Ledger,
      ghost m: Holdings, name: Name, a: OutPoint, ghost height: int) returns (ghost end: Ledger, ghost held: Holdings)
    requires Stage(base, heap, l, m, name, a, height) && 2 <= height <= 100
    requires |txs| <= 1 && forall i :: 0 <= i < |txs| ==> txs[i].AddClaim? && txs[i].name == name && Proper(m, txs[i])
    requires forall k :: k in l.due ==> l.due[k] != height
    modifies base
    ensures Stage(base, heap, end, held, name, a, height + 1) && held == AfterTxs(m, txs, height)
    ensures end.due == if txs == [] then l.due else l.due[txs[0].Key() := height + height - 1]
  {
    hide BaseInOrder, Connected, AfterBlock, ProperTxs, Ends, StandsInBase, Closed, RootHash, HeightsIn, EmptyHashes,
        FrontId, Steps, Waits, InTrieThen, FrontsIn, UniqueIds, Unexpired, OneInTrie, Proper;
    ghost var b, n := base.nodes, |txs|;
    GrowProper(m, txs, name, a, height, l);
    LedgerKeys(base, heap, l, m);
    held := AfterTxs(m, txs, height);
    var ok, rootHash, undo;
    ghost var trail;
    ok, rootHash, undo, trail := ConnectBlock(base, heap, txs, l, m);
    end := trail.end;
    ConnectedParts(l, b, base.nodes, base.supports, txs, undo, trail, height, MAX_DELAY);
    ghost var last := trail.ledgers[n];
    if n == 1 {
      assert Waits(b, trail.ledgers[0], txs[0], trail.ledgers[1], height, 1);
      TxApart(m, txs[0], name, a);
      WaitsAsLong(b, l, m, txs[0], undo.spends[0], last, name, a, height);
    }
    GrowLast(l, m, last, txs, name, a, height);
    StaysFirst(l, m, last, end, undo, b, base.nodes, base.supports, trail.mid, trail.taken, name, a, height);
    GrowHeld(l, m, txs, name, a, height);
    LedgerKeys(base, heap, end, held);
    GrowEnd(last, end, held, name, a);
    OnlyFront(base.nodes, end, (name, a));
    SameTakeover(b, base.nodes, trail.taken, height, name);
  }

  lemma TxApart(m: Holdings, tx: Tx, name: Name, a: OutPoint)
    requires Proper(m, tx) && tx.AddClaim? && tx.name == name && (name, a) in m && m[(name, a)] == Holding(1, 10, 1)
    ensures tx.claimId != 1
  {
  }

  lemma GrowProper(m: Holdings, txs: seq<Tx>, name: Name, a: OutPoint, height: int, l: Ledger)
    requires |txs| <= 1 && forall i :: 0 <= i < |txs| ==> Proper(m, txs[i])
    requires OneInTrie(l, m, name, a)
    ensures ProperTxs(m, txs, height) && (name, a) in m && m[(name, a)] == Holding(1, 10, 1)
  {
    if |txs| == 1 {
      OneTx(m, txs[0], height);
      assert txs == [txs[0]];
    }
  }

  lemma GrowLast(l: Ledger, m: Holdings, last: Ledger, txs: seq<Tx>, name: Name, a: OutPoint, height: int)
    requires OneInTrie(l, m, name, a) && l.claims.Keys == m.Keys && forall k ::
        k in m ==> HoldingOf(l.claims[k]) == m[k]
    requires |txs| <= 1 && 2 <= height && forall k :: k in l.due ==> l.due[k] != height
    requires if txs == [] then last == l
             else
               var k := txs[0].Key();
               && k.0 == name && k != (name, a) && last.due == l.due[k := height + height - 1]
               && last.claims.Keys == l.claims.Keys + {k} && last.claims[(name, a)] == l.claims[(name, a)]
    ensures (name, a) in last.claims && last.claims[(name, a)].claimId == 1 && last.claims[(name, a)].nHeight == 1
    ensures last.due.Keys == last.claims.Keys - {(name, a)}
    ensures forall k :: k in last.due ==> k.0 == name && last.due[k] != height
  {
    assert (name, a) in m.Keys && HoldingOf(l.claims[(name, a)]) == Holding(1, 10, 1);
    assert forall k :: k in l.due.Keys ==> k in m.Keys;
  }

  lemma GrowHeld(l: Ledger, m: Holdings, txs: seq<Tx>, name: Name, a: OutPoint, height: int)
    requires OneInTrie(l, m, name, a) && |txs| <= 1 && 2 <= height <= 100
    requires forall i :: 0 <= i < |txs| ==> txs[i].AddClaim? && txs[i].name == name && Proper(m, txs[i])
    ensures var held := AfterTxs(m, txs, height);
            && AfterBlock(m, txs, height, MAX_DELAY) == held
            && held.Keys == m.Keys + (if txs == [] then {} else {txs[0].Key()})
            && (name, a) in held && held[(name, a)] == Holding(1, 10, 1)
            && forall k :: k in held ==> k.0 == name && 1 <= held[k].nHeight
  {
    if |txs| == 1 {
      OneTx(m, txs[0], height);
      assert txs == [txs[0]];
    }
    NothingExpires(AfterTxs(m, txs, height), height);
  }

  lemma GrowEnd(last: Ledger, end: Ledger, held: Holdings, name: Name, a: OutPoint)
    requires end.due == last.due && last.due.Keys == last.claims.Keys - {(name, a)}
    requires last.claims.Keys == held.Keys == end.claims.Keys
    requires (name, a) in held && held[(name, a)] == Holding(1, 10, 1)
    requires forall k :: k in held ==> k.0 == name && 1 <= held[k].nHeight
    ensures OneInTrie(end, held, name, a) && (name, a) in end.claims && (name, a) !in end.due
    ensures forall j :: j in end.claims && j !in end.due ==> j == (name, a)
  {
    assert forall j :: j in end.claims.Keys && j != (name, a) ==> j in last.due.Keys;
    assert (name, a) in end.claims.Keys && (name, a) !in last.due.Keys;
  }
  // ---------- a claim that wins the name when it is due ----------

  /** Three claims: the one in the trie, a larger one due at 5, and one that waits longer. */
  ghost predicate Contested(l: Ledger, m: Holdings, name: Name, a: OutPoint, b: OutPoint, c: OutPoint)
  {
    && m.Keys == {(name, a), (name, b), (name, c)} && l.claims.Keys == m.Keys
    && (forall k :: k in m ==> HoldingOf(l.claims[k]) == m[k])
    && m[(name, a)] == Holding(1, 10, 1) && m[(name, b)] == Holding(2, 20, 3) && m[(name, c)] == Holding(3, 5, 4)
    && l.due == map[(name, b) := 5, (name, c) := 7]
  }

  lemma ContestedParts(l: Ledger, m: Holdings, name: Name, a: OutPoint, b: OutPoint, c: OutPoint)
    requires Contested(l, m, name, a, b, c) && a != b && a != c && b != c
    ensures (name, a) in l.claims && (name, b) in l.claims && (name, c) in l.claims
    ensures HoldingOf(l.claims[(name, a)]) == Holding(1, 10, 1) && (name, a) !in l.due
    ensures HoldingOf(l.claims[(name, b)]) == Holding(2, 20, 3) && l.due[(name, b)] == 5
    ensures HoldingOf(l.claims[(name, c)]) == Holding(3, 5, 4) && l.due[(name, c)] == 7
    ensures forall k :: k in l.claims ==> k == (name, a) || k == (name, b) || k == (name, c)
  {
    assert (name, a) in m.Keys && (name, b) in m.Keys && (name, c) in m.Keys;
    assert forall k :: k in l.claims.Keys ==> k in m.Keys;
  }

  lemma WonInTrie(l: Ledger, m: Holdings, mid: Tree, supports: map<Name, seq<SupportValue>>, name: Name, a: OutPoint,
      b: OutPoint, c: OutPoint)
    requires Contested(l, m, name, a, b, c) && a != b && a != c && b != c && supports == map[] && UniqueIds(l)
    requires InTrieThen(mid, Expired(Ripened(l, 5), 5, MAX_DELAY)) && FrontsIn(mid, supports)
    ensures FrontId(mid, name) == Some(2)
  {
    hide InTrieThen, FrontsIn, UniqueIds, FrontId;
    ContestedParts(l, m, name, a, b, c);
    UniqueKept(l, 5, MAX_DELAY);
    hide Contested;
    LargerFront(mid, supports, Expired(Ripened(l, 5), 5, MAX_DELAY), (name, b));
  }

  /** The larger claim enters the trie and controls; the name changes hands, and what still
      waited for it enters too. */
  lemma WonWhenDue(l: Ledger, m: Holdings, end: Ledger, undo: BlockUndo, base: Tree, w: Tree,
      supports: map<Name, seq<SupportValue>>, mid: Tree, taken: set<Name>, name: Name, a: OutPoint, b: OutPoint,
      c: OutPoint)
    requires Contested(l, m, name, a, b, c) && a != b && a != c && b != c && supports == map[] && UniqueIds(l)
    requires Ends(base, w, supports, l, end, undo, mid, taken, 5, MAX_DELAY)
    requires FrontId(base, name) == Some(1) && name in base && base[name].nHeightOfLastTakeover == 1
    requires FrontId(mid, name).Some? ==> (name in taken <==> FrontId(base, name) != FrontId(mid, name))
    ensures name in taken && end.due == map[] && end.claims.Keys == l.claims.Keys
    ensures (name, 1) in undo.heights && InsertUndo(name, c, 7) in undo.inserts
  {
    hide Ends, InTrieThen, FrontsIn, Recorded, HeightsNoted, UniqueIds, FrontId, Expired, Ripened;
    EndParts(base, w, supports, l, end, undo, mid, taken, 5, MAX_DELAY);
    ContestedParts(l, m, name, a, b, c);
    WonInTrie(l, m, mid, supports, name, a, b, c);
    assert end.due == map[];
    NotedHeight(base, undo.heights, taken, name);
    NotedInsert(l, end, undo, (name, c));
  }

  lemma UniqueKept(l: Ledger, height: int, lifetime: int)
    requires UniqueIds(l)
    ensures UniqueIds(Expired(Ripened(l, height), height, lifetime))
  {
  }

  lemma NotedHeight(b: Tree, heights: seq<(Name, int)>, taken: set<Name>, name: Name)
    requires HeightsNoted(b, true, map[], heights, taken) && name in taken && FrontId(b, name).Some?
    ensures (name, b[name].nHeightOfLastTakeover) in heights
  {
  }

  lemma NotedInsert(l: Ledger, end: Ledger, undo: BlockUndo, k: Key)
    requires Recorded(l, end, undo.inserts, undo.expiries, 5) && k in l.due && k !in end.due && k in l.claims
    ensures InsertUndo(k.0, k.1, l.due[k]) in undo.inserts
  {
    assert InsertKey(InsertUndo(k.0, k.1, l.due[k])) == k;
  }

  /** After that block the larger claim is in front. */
  lemma WonInBase(t: Tree, supports: map<Name, seq<SupportValue>>, l: Ledger, end: Ledger, m: Holdings, name: Name,
      a: OutPoint, b: OutPoint, c: OutPoint)
    requires Contested(l, m, name, a, b, c) && a != b && a != c && b != c && supports == map[]
    requires InTrieThen(t, end) && FrontsIn(t, supports) && UniqueIds(end)
    requires end.due == map[] && end.claims.Keys == m.Keys && forall k :: k in m ==> HoldingOf(end.claims[k]) == m[k]
    ensures FrontId(t, name) == Some(2)
  {
    hide InTrieThen, FrontsIn, UniqueIds;
    ContestedParts(l, m, name, a, b, c);
    assert (name, b) in m.Keys && forall k :: k in end.claims.Keys ==> k in m.Keys;
    LargerFront(t, supports, end, (name, b));
  }

  lemma UniqueHeld(base: ClaimTrie, heap: seq<ClaimValue> -> seq<ClaimValue>, l: Ledger, m: Holdings)
    requires BaseInOrder(base, heap, l, m)
    ensures UniqueIds(l)
  {
    hide Usable, Holds, InTime, Aged, HashesRight, HeightsIn, FrontsIn;
    UniqueListed(l, m);
  }

  lemma ContestedNothingExpires(m: Holdings)
    requires forall k :: k in m ==> 1 <= m[k].nHeight
    ensures AfterBlock(m, [], 5, MAX_DELAY) == m && ProperTxs(m, [], 5)
  {
    NothingExpires(m, 5);
  }

  /** A larger claim matures at height 5, without any transaction: it takes the name over from
      the one that controlled it since height 1, and a third one that would have been due at 7
      comes along. What undoes that is recorded. */
  method TakenWhenDue(hash: HashFn, heap: seq<ClaimValue> -> seq<ClaimValue>, name: Name, a: OutPoint, b: OutPoint,
      c: OutPoint)
    returns (front: int, takeover: int, waiting: nat, undo: BlockUndo)
    requires IsMakeHeap(heap) && a != b && a != c && b != c
    ensures front == 2 && takeover == 5 && waiting == 0
    ensures (name, 1) in undo.heights && InsertUndo(name, c, 7) in undo.inserts
  {
    hide BaseInOrder, Connected, AfterBlock, ProperTxs, Ends, StandsInBase, Closed, RootHash, HeightsIn, EmptyHashes,
        Steps, Waits, InTrieThen, FrontsIn, UniqueIds, OneInTrie, Proper, Holds, IsMakeHeap, HeightsNoted, Recorded;
    ghost var l, m;
    var base, rootHash;
    base, rootHash, l, m := FirstBlock(hash, heap, name, a);
    l, m := ThreeClaims(base, heap, name, a, b, c, l, m);
    ghost var t := base.nodes;
    UniqueHeld(base, heap, l, m);
    ContestedNothingExpires(m);
    var ok;
    ghost var trail;
    ok, rootHash, undo, trail := ConnectBlock(base, heap, [], l, m);
    ConnectedParts(l, t, base.nodes, base.supports, [], undo, trail, 5, MAX_DELAY);
    WonWhenDue(l, m, trail.end, undo, t, base.nodes, base.supports, trail.mid, trail.taken, name, a, b, c);
    LedgerKeys(base, heap, trail.end, m);
    UniqueHeld(base, heap, trail.end, m);
    WonInBase(base.nodes, base.supports, l, trail.end, m, name, a, b, c);
    SameTakeover(t, base.nodes, trail.taken, 5, name);
    front, takeover := base.nodes[name].claims[0].claimId, base.nodes[name].nHeightOfLastTakeover;
    waiting := |At(base.queueNameRows, name)|;
    NoneWaiting(base, heap, trail.end, m, name);
  }

  lemma NoneWaiting(base: ClaimTrie, heap: seq<ClaimValue> -> seq<ClaimValue>, l: Ledger, m: Holdings, name: Name)
    requires BaseInOrder(base, heap, l, m) && l.due == map[]
    ensures At(base.queueNameRows, name) == []
  {
    hide Usable, Holds, InTime, Aged, HashesRight, HeightsIn, FrontsIn, Lists, UniqueHoldings, At;
    if At(base.queueNameRows, name) != [] {
      NameEntry(BooksOf(base), l, base.nExpirationTime, name, 0);
    }
  }

  /** The blocks up to height 5. */
  method ThreeClaims(base: ClaimTrie, heap: seq<ClaimValue> -> seq<ClaimValue>, name: Name, a: OutPoint, b: OutPoint,
      c: OutPoint, ghost l0: Ledger, ghost m0: Holdings) returns (ghost l: Ledger, ghost m: Holdings)
    requires Stage(base, heap, l0, m0, name, a, 2) && m0.Keys == {(name, a)} && a != b && a != c && b != c
    modifies base
    ensures Stage(base, heap, l, m, name, a, 5) && Contested(l, m, name, a, b, c)
    ensures forall k :: k in m ==> 1 <= m[k].nHeight
  {
    hide BaseInOrder, FrontId;
    l, m := TwoClaims(base, heap, name, a, b, 20, l0, m0);
    var tx := AddClaim(name, c, 3, 5);
    assert (name, a) in m.Keys && (name, b) in m.Keys && forall k :: k in m.Keys ==> m[k].claimId != 3;
    OneTx(m, tx, 4);
    l, m := Grow(base, heap, [tx], l, m, name, a, 4);
    LedgerKeys(base, heap, l, m);
  }

  /** The blocks up to height 4: an empty one, and one that adds a second claim. */
  method TwoClaims(base: ClaimTrie, heap: seq<ClaimValue> -> seq<ClaimValue>, name: Name, a: OutPoint, b: OutPoint,
      nAmount: int, ghost l0: Ledger, ghost m0: Holdings) returns (ghost l: Ledger, ghost m: Holdings)
    requires Stage(base, heap, l0, m0, name, a, 2) && m0.Keys == {(name, a)} && a != b
    modifies base
    ensures Stage(base, heap, l, m, name, a, 4) && m.Keys == {(name, a), (name, b)} && l.due == map[(name, b) := 5]
    ensures m[(name, a)] == Holding(1, 10, 1) && m[(name, b)] == Holding(2, nAmount, 3)
  {
    hide BaseInOrder, FrontId;
    assert l0.due.Keys == {};
    l, m := Grow(base, heap, [], l0, m0, name, a, 2);
    var tx := AddClaim(name, b, 2, nAmount);
    assert forall k :: k in m.Keys ==> k == (name, a);
    OneTx(m, tx, 3);
    l, m := Grow(base, heap, [tx], l, m, name, a, 3);
  }

  // ---------- the block that is taken back ----------

  lemma ProperSpend(m: Holdings, tx: Tx, k: Key)
    requires tx.SpendClaim? && tx.Key() == k && k in m
    requires m[k] == Holding(tx.claimId, tx.nAmount, tx.nHeight)
    ensures ProperTxs(m, [tx], 4) && NewOutPoints(m, [tx])
  {
    assert [tx][..0] == [];
  }

  /** The claim in the trie is spent, so the one that waits takes the name before its height. */
  lemma PromotedEarly(l: Ledger, b: Tree, w: Tree, supports: map<Name, seq<SupportValue>>, tx: Tx, undo: BlockUndo,
      trail: Trail, m: Holdings, k: Key)
    requires Connected(l, b, w, supports, [tx], undo, trail, 4, MAX_DELAY) && FrontId(b, tx.name).Some?
    requires FrontId(b, tx.name).Some? != FrontId(trail.mid, tx.name).Some? ==> tx.name in trail.taken
    requires tx.SpendClaim? && k.0 == tx.name && k in m && k in l.claims
    requires l.claims.Keys == {tx.Key(), k} && k != tx.Key() && l.due == map[k := 5]
    requires NewOutPoints(m, [tx])
    ensures InsertUndo(k.0, k.1, 5) in undo.inserts
  {
    hide NewOutPoints, Ends, StandsInBase, Follows, InTrieThen, Recorded, ClaimsAt, Sound, Steps;
    ConnectedParts(l, b, w, supports, [tx], undo, trail, 4, MAX_DELAY);
    var last := trail.ledgers[1];
    EndParts(b, w, supports, last, trail.end, undo, trail.mid, trail.taken, 4, MAX_DELAY);
    AfterSpend(l, tx, undo.spends[0], last, k);
    EmptyInTree(trail.mid, Expired(Ripened(last, 4), 4, MAX_DELAY), tx.name);
    HeldPromotion(trail.ledgers, [tx], undo.spends, m, trail.end, undo.inserts, undo.expiries, 4, MAX_DELAY, k);
  }

  lemma AfterSpend(l: Ledger, tx: Tx, spend: Option<int>, last: Ledger, k: Key)
    requires Steps(l, tx, spend, last, 4) && tx.SpendClaim?
    requires l.claims.Keys == {tx.Key(), k} && k != tx.Key() && l.due == map[k := 5]
    ensures k in last.due && last.due[k] == 5
    ensures forall j :: j in Expired(Ripened(last, 4), 4, MAX_DELAY).claims ==>
              j in Expired(Ripened(last, 4), 4, MAX_DELAY).due
  {
    assert k in l.due;
    assert forall j :: j in last.claims ==> j in l.claims.Keys && j != tx.Key();
  }

  lemma BackAt(l: Ledger, back: Ledger, inserts: seq<InsertUndo>, k: Key)
    requires Redated(l, back, inserts, 4) && InsertUndo(k.0, k.1, 5) in inserts && k in l.claims
    ensures k in back.claims && back.claims[k].nValidAtHeight == 4 && back.due == l.due
  {
    assert k in back.claims.Keys;
    assert InsertKey(InsertUndo(k.0, k.1, 5)) == k;
    assert LeftQueue(inserts, k);
  }

  /** A base at height 4 on which a second claim waits for height 5. */
  ghost predicate Waiting(base: ClaimTrie, heap: seq<ClaimValue> -> seq<ClaimValue>, l: Ledger, m: Holdings, name: Name,
      a: OutPoint, b: OutPoint)
    reads base
  {
    && Stage(base, heap, l, m, name, a, 4) && m.Keys == {(name, a), (name, b)} && l.due == map[(name, b) := 5]
  }

  lemma TwoHeld(base: ClaimTrie, heap: seq<ClaimValue> -> seq<ClaimValue>, l: Ledger, m: Holdings, name: Name,
      a: OutPoint, b: OutPoint)
    requires Waiting(base, heap, l, m, name, a, b)
    ensures (name, a) in m && (name, b) in m && l.claims.Keys == {(name, a), (name, b)} && (name, b) in l.claims
  {
    hide BaseInOrder, ClaimsAt;
    LedgerKeys(base, heap, l, m);
    assert (name, a) in m.Keys && (name, b) in m.Keys && (name, b) in l.claims.Keys;
  }

  /** The fourth block spends the claim in the trie, and is taken back. */
  method FourthBlockAndBack(base: ClaimTrie, heap: seq<ClaimValue> -> seq<ClaimValue>, name: Name, a: OutPoint,
      b: OutPoint, ghost l: Ledger, ghost m: Holdings) returns (ghost back: Ledger)
    requires a != b && Waiting(base, heap, l, m, name, a, b)
    modifies base
    ensures Holds(BooksOf(base), back, base.nExpirationTime) && back.due == map[(name, b) := 5]
    ensures (name, b) in back.claims && back.claims[(name, b)].nValidAtHeight == 4
  {
    hide BaseInOrder, Connected, WasInOrder, ProperTxs, NewOutPoints, AfterBlock, Holds, Lists, SameClaims,
        SameTakeovers, Closed, RootHash, HeightsIn, HashesRight, UniqueIds, Redated, ClaimsAt;
    ghost var t, k := base.nodes, (name, b);
    var tx := SpendClaim(name, a, 1, 10, 1);
    TwoHeld(base, heap, l, m, name, a, b);
    ProperSpend(m, tx, (name, a));
    WasSo(base, heap, l, m);
    OrderUnique(base, heap, l, m);
    var ok, rootHash, undo;
    ghost var trail;
    ok, rootHash, undo, trail := ConnectBlock(base, heap, [tx], l, m);
    PromotedEarly(l, t, base.nodes, base.supports, tx, undo, trail, m, k);
    ok, back := DisconnectBlock(base, heap, [tx], undo, l, m, AfterBlock(m, [tx], 4, MAX_DELAY), t, trail);
    BackAt(l, back, undo.inserts, k);
  }

  /** The height that a queued claim is listed for under its name. */
  method ReadDue(base: ClaimTrie, name: Name, outPoint: OutPoint, ghost l: Ledger) returns (row: int)
    requires Holds(BooksOf(base), l, base.nExpirationTime) && (name, outPoint) in l.due
    ensures row == l.due[(name, outPoint)]
  {
    hide Holds, At;
    ghost var b, k := BooksOf(base), (name, outPoint);
    QueuedEntry(b, l, base.nExpirationTime, k);
    var listed := At(base.queueNameRows, name);
    var i := 0;
    while i < |listed| && listed[i].0 != outPoint
      invariant i <= |listed| && forall j :: 0 <= j < i ==> listed[j].0 != outPoint
    {
      i := i + 1;
    }
    NameEntry(b, l, base.nExpirationTime, name, i);
    row := listed[i].1;
  }

  /** The height from which a claim in some row says that it is valid. */
  method ReadValid(base: ClaimTrie, row: int, name: Name, outPoint: OutPoint, ghost l: Ledger)
    returns (nValidAtHeight: int)
    requires Holds(BooksOf(base), l, base.nExpirationTime)
    requires (name, outPoint) in l.due && l.due[(name, outPoint)] == row && (name, outPoint) in l.claims
    ensures nValidAtHeight == l.claims[(name, outPoint)].nValidAtHeight
  {
    hide Holds, At;
    ghost var b, k := BooksOf(base), (name, outPoint);
    QueuedEntry(b, l, base.nExpirationTime, k);
    var listed := At(base.queueRows, row);
    var i := FindQueued(listed, name, outPoint, None);
    RowEntry(b, l, base.nExpirationTime, row, i);
    nValidAtHeight := listed[i].claim.nValidAtHeight;
    assert Plain(listed[i].claim).nValidAtHeight == nValidAtHeight;
  }

  /** Four blocks from a new trie on: a claim to a name, an empty block, a second claim that has
      to wait for height 5, and the spending of the first, which promotes the second at height 4.
      When that last block is taken back, the claim waits for height 5 again, but says that it
      is valid from height 4 on. */
  method EarlyPromotion(hash: HashFn, heap: seq<ClaimValue> -> seq<ClaimValue>, name: Name, a: OutPoint, b: OutPoint)
    returns (row: int, nValidAtHeight: int)
    requires IsMakeHeap(heap) && a != b
    ensures row == 5 && nValidAtHeight == 4
  {
    hide BaseInOrder, Holds, IsMakeHeap, ClaimsAt;
    ghost var l, m;
    var base, rootHash;
    base, rootHash, l, m := FirstBlock(hash, heap, name, a);
    l, m := TwoClaims(base, heap, name, a, b, 5, l, m);
    l := FourthBlockAndBack(base, heap, name, a, b, l, m);
    row := ReadDue(base, name, b, l);
    nValidAtHeight := ReadValid(base, row, name, b, l);
  }
}
