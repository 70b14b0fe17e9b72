/** How a ledger goes through the transactions of a block, and back again. */
module ClaimTrails {
  import opened ClaimTypes
  import opened NameTree
  import opened PathOps
  import opened ClaimMap
  import opened ClaimLedger
  import opened ClaimMoves
  import opened ClaimUndo
  import opened ClaimHoldings

  /** What is stored with a block to take it back: for each spend that found its claim the
      height at which that was valid, and what the end of the block recorded. */
  datatype BlockUndo = BlockUndo(
    spends: seq<Option<int>>,
    inserts: seq<InsertUndo>,
    expiries: seq<QueueEntry>,
    heights: seq<(Name, int)>)

  /** What a block went through: the ledgers between its transactions, the trie once what is due
      has come and what has expired is gone, the names taken over, and the ledger at the end. */
  datatype Trail = Trail(ledgers: seq<Ledger>, mid: Tree, taken: set<Name>, end: Ledger)

  /** Every claim was made by now and is valid no earlier than that; those in the trie are
      valid by now. */
  ghost predicate Aged(l: Ledger, height: int)
  {
    forall k :: k in l.claims ==>
      && 0 < l.claims[k].nHeight <= l.claims[k].nValidAtHeight && l.claims[k].nHeight <= height
      && (k !in l.due ==> l.claims[k].nValidAtHeight < height)
  }

  // ---------- the transactions ----------

  /** One transaction: an addition queues its claim, a spend takes one out if it is there. */
  ghost predicate Steps(l: Ledger, tx: Tx, spend: Option<int>, l': Ledger, height: int)
  {
    var k := tx.Key();
    match tx
    case AddClaim(_, _, _, _) =>
      && k !in l.claims && k in l'.claims && k in l'.due && l'.claims[k].nHeight == height
      && l' == Enqueued(l, k, l'.claims[k], l'.due[k])
    case SpendClaim(_, _, claimId, nAmount, nHeight) =>
      && l' == Gone(l, k)
      && spend == (if k in l.claims then Some(l.claims[k].nValidAtHeight) else None)
      && (k in l.claims ==> HoldingOf(l.claims[k]) == Holding(claimId, nAmount, nHeight))
  }

  /** The ledgers before and after each transaction. */
  ghost predicate Follows(ledgers: seq<Ledger>, txs: seq<Tx>, spends: seq<Option<int>>, height: int, lifetime: int)
  {
    && |ledgers| == |txs| + 1 && |spends| == |txs|
    && (forall i :: 0 <= i < |ledgers| ==> Sound(ledgers[i], height, lifetime))
    && (forall i :: 0 <= i < |txs| ==> Steps(ledgers[i], txs[i], spends[i], ledgers[i + 1], height))
  }

  ghost predicate Sound(l: Ledger, height: int, lifetime: int)
  {
    WellFormed(l) && InTime(l, height, lifetime) && Aged(l, height)
  }

  lemma FollowsOn(ledgers: seq<Ledger>, txs: seq<Tx>, spends: seq<Option<int>>, l: Ledger, tx: Tx, spend: Option<int>,
      l': Ledger, height: int, lifetime: int)
    requires Follows(ledgers, txs, spends, height, lifetime) && ledgers[|txs|] == l
    requires Steps(l, tx, spend, l', height) && Sound(l', height, lifetime)
    ensures Follows(ledgers + [l'], txs + [tx], spends + [spend], height, lifetime)
  {
    hide Sound, Steps;
  }

  /** A new output has not been there before, neither held nor named by an earlier transaction
      of the block. */
  predicate NewOutPoints(m: Holdings, txs: seq<Tx>)
  {
    forall i :: 0 <= i < |txs| && txs[i].AddClaim? ==>
      txs[i].Key() !in m && forall j :: 0 <= j < i ==> txs[j].Key() != txs[i].Key()
  }

  /** What was spent does not come back within the block. */
  lemma {:induction false} StaysGone(ledgers: seq<Ledger>, txs: seq<Tx>, spends: seq<Option<int>>, m: Holdings,
      height: int, lifetime: int, i: nat, j: nat, k: Key)
    requires Follows(ledgers, txs, spends, height, lifetime) && NewOutPoints(m, txs)
    requires i < j <= |txs| && txs[i].SpendClaim? && txs[i].Key() == k
    ensures k !in ledgers[j].claims && k !in ledgers[j].due
    decreases j
  {
    hide InTime, Aged;
    assert Steps(ledgers[j - 1], txs[j - 1], spends[j - 1], ledgers[j], height);
    assert Sound(ledgers[j], height, lifetime);
    if i + 1 < j {
      StaysGone(ledgers, txs, spends, m, height, lifetime, i, j - 1, k);
      assert txs[j - 1].AddClaim? ==> txs[j - 1].Key() != k;
    }
  }

  /** What was held before the block and still is, is as it was. */
  lemma {:induction false} StillHeld(ledgers: seq<Ledger>, txs: seq<Tx>, spends: seq<Option<int>>, m: Holdings,
      height: int, lifetime: int, i: nat, k: Key)
    requires Follows(ledgers, txs, spends, height, lifetime) && NewOutPoints(m, txs)
    requires i <= |txs| && k in m && k in ledgers[i].claims
    ensures k in ledgers[0].claims && ledgers[i].claims[k] == ledgers[0].claims[k]
    ensures k in ledgers[i].due <==> k in ledgers[0].due
    ensures k in ledgers[i].due ==> ledgers[i].due[k] == ledgers[0].due[k]
    decreases i
  {
    hide InTime, Aged;
    if i > 0 {
      assert Steps(ledgers[i - 1], txs[i - 1], spends[i - 1], ledgers[i], height);
      assert txs[i - 1].AddClaim? ==> txs[i - 1].Key() != k;
      StillHeld(ledgers, txs, spends, m, height, lifetime, i - 1, k);
    }
  }

  // ---------- the way back ----------

  /** A ledger of the block, but with the heights that the claims were given that left the
      queue at its end. */
  ghost function Altered(l: Ledger, last: Ledger, end: Ledger, height: int): Ledger
  {
    Ledger(map k | k in l.claims ::
             if k in l.due && k in last.due && k !in end.due then l.claims[k].(nValidAtHeight := height)
             else l.claims[k],
           l.due)
  }

  lemma AlteredLast(last: Ledger, end: Ledger, height: int)
    ensures Altered(last, last, end, height) == Rewound(last, end, height)
  {
  }

  lemma AlteredAdd(l: Ledger, tx: Tx, spend: Option<int>, l': Ledger, last: Ledger, end: Ledger, height: int)
    requires WellFormed(l) && Steps(l, tx, spend, l', height) && tx.AddClaim?
    ensures var k := tx.Key(); var r := Altered(l', last, end, height);
            && k in r.claims && r.claims[k].nHeight == height && Gone(r, k) == Altered(l, last, end, height)
  {
    var k, r := tx.Key(), Altered(l', last, end, height);
    assert r.due - {k} == l.due;
    assert Gone(r, k).claims == Altered(l, last, end, height).claims;
  }

  /** The claim that a spend took out, as its output and the stored height give it. */
  function Spent(tx: Tx, nValidAtHeight: int): ClaimValue
    requires tx.SpendClaim?
  {
    ClaimValue(tx.outPoint, tx.claimId, tx.nAmount, 0, tx.nHeight, nValidAtHeight)
  }

  /** Entering the claim again is what the spend undoes. */
  lemma SpendUndone(l: Ledger, k: Key, c: ClaimValue, l': Ledger, last: Ledger, end: Ledger, height: int)
    requires k in l.claims && Plain(c) == l.claims[k] && l' == Gone(l, k) && k !in last.due
    requires if c.nValidAtHeight < height then k !in l.due else k in l.due && l.due[k] == c.nValidAtHeight
    ensures var r := Altered(l', last, end, height);
            Altered(l, last, end, height)
                == if c.nValidAtHeight < height then Entered(r, k, c) else Enqueued(r, k, c, c.nValidAtHeight)
  {
    var r, s := Altered(l', last, end, height), Altered(l, last, end, height);
    var u := if c.nValidAtHeight < height then Entered(r, k, c) else Enqueued(r, k, c, c.nValidAtHeight);
    assert u.due == s.due;
    assert u.claims == s.claims;
  }

  lemma AlteredSpend(l: Ledger, tx: Tx, spend: Option<int>, l': Ledger, last: Ledger, end: Ledger, height: int,
      lifetime: int)
    requires Sound(l, height, lifetime) && Steps(l, tx, spend, l', height) && tx.SpendClaim?
    requires tx.Key() !in last.due
    ensures var k := tx.Key(); var r := Altered(l', last, end, height);
            && k !in r.claims
            && (spend == None ==> r == Altered(l, last, end, height))
            && (spend.Some? ==> var v := spend.value;
                  && 0 < v && tx.nHeight <= v
                  && Altered(l, last, end, height)
                      == if v < height then Entered(r, k, Spent(tx, v)) else Enqueued(r, k, Spent(tx, v), v))
  {
    var k, r, s := tx.Key(), Altered(l', last, end, height), Altered(l, last, end, height);
    assert k == (tx.name, tx.outPoint);
    if k in l.claims {
      var v := l.claims[k].nValidAtHeight;
      var c := Spent(tx, v);
      assert Plain(c) == l.claims[k] by { assert Plain(l.claims[k]) == l.claims[k]; }
      SpendUndone(l, k, c, l', last, end, height);
    } else {
      assert l.claims - {k} == l.claims && l.due - {k} == l.due;
    }
  }

  /** A claim that was held before the block and left the queue at its end was due then as it
      had been. */
  lemma HeldPromotion(ledgers: seq<Ledger>, txs: seq<Tx>, spends: seq<Option<int>>, m: Holdings, end: Ledger,
      inserts: seq<InsertUndo>, expiries: seq<QueueEntry>, height: int, lifetime: int, k: Key)
    requires Follows(ledgers, txs, spends, height, lifetime) && NewOutPoints(m, txs)
    requires Recorded(ledgers[|txs|], end, inserts, expiries, height) && k in m
    requires k in ledgers[|txs|].due && k !in end.due
    ensures k in ledgers[0].due && k in ledgers[0].claims
    ensures ledgers[0].due[k] == ledgers[|txs|].due[k] == ledgers[0].claims[k].nValidAtHeight
    ensures InsertUndo(k.0, k.1, ledgers[0].due[k]) in inserts
  {
    hide Aged;
    assert Sound(ledgers[0], height, lifetime) && Sound(ledgers[|txs|], height, lifetime);
    StillHeld(ledgers, txs, spends, m, height, lifetime, |txs|, k);
    assert InsertKey(InsertUndo(k.0, k.1, ledgers[0].due[k])) == k;
  }

  lemma Inserted(last: Ledger, end: Ledger, inserts: seq<InsertUndo>, expiries: seq<QueueEntry>, height: int,
      u: InsertUndo)
    requires Recorded(last, end, inserts, expiries, height) && u in inserts
    ensures InsertKey(u) in last.due && InsertKey(u) !in end.due && u.nHeight == last.due[InsertKey(u)]
  {
  }

  /** Claims keep the height from which they are valid exactly if no held one was early. */
  lemma NoneEarly(ledgers: seq<Ledger>, txs: seq<Tx>, spends: seq<Option<int>>, m: Holdings, end: Ledger,
      inserts: seq<InsertUndo>, expiries: seq<QueueEntry>, height: int, lifetime: int)
    requires Follows(ledgers, txs, spends, height, lifetime) && NewOutPoints(m, txs)
    requires Recorded(ledgers[|txs|], end, inserts, expiries, height)
    requires forall k :: k in ledgers[0].claims ==> k in m
    requires forall u :: u in inserts && InsertKey(u) in m ==> u.nHeight == height
    ensures Unmoved(ledgers[0], ledgers[|txs|], end, height)
  {
    var l, last := ledgers[0], ledgers[|txs|];
    hide Follows, NewOutPoints, Recorded, Unmoved;
    forall k | k in l.claims && k in l.due && k in last.due && k !in end.due
      ensures l.claims[k].nValidAtHeight == height
    {
      HeldPromotion(ledgers, txs, spends, m, end, inserts, expiries, height, lifetime, k);
      assert InsertKey(InsertUndo(k.0, k.1, l.due[k])) == k;
    }
    UnmovedIf(l, last, end, height);
  }

  lemma SomeEarly(ledgers: seq<Ledger>, txs: seq<Tx>, spends: seq<Option<int>>, m: Holdings, end: Ledger,
      inserts: seq<InsertUndo>, expiries: seq<QueueEntry>, height: int, lifetime: int, u: InsertUndo)
    requires Follows(ledgers, txs, spends, height, lifetime) && NewOutPoints(m, txs)
    requires Recorded(ledgers[|txs|], end, inserts, expiries, height)
    requires Unmoved(ledgers[0], ledgers[|txs|], end, height) && u in inserts && InsertKey(u) in m
    ensures u.nHeight == height
  {
    hide Steps, Sound, NewOutPoints, Recorded;
    Inserted(ledgers[|txs|], end, inserts, expiries, height, u);
    HeldPromotion(ledgers, txs, spends, m, end, inserts, expiries, height, lifetime, InsertKey(u));
  }

  lemma AlteredLists(l: Ledger, m: Holdings, last: Ledger, end: Ledger, height: int)
    requires Lists(l, m)
    ensures Lists(Altered(l, last, end, height), m) && Altered(l, last, end, height).due == l.due
  {
  }

  /** Taking the block back leads to the same claims, at the same places, and they are the same
      but for the heights of those that were promoted early. */
  lemma AlteredFirst(ledgers: seq<Ledger>, txs: seq<Tx>, spends: seq<Option<int>>, m: Holdings, end: Ledger,
      inserts: seq<InsertUndo>, expiries: seq<QueueEntry>, height: int, lifetime: int)
    requires Follows(ledgers, txs, spends, height, lifetime) && NewOutPoints(m, txs) && Lists(ledgers[0], m)
    requires Recorded(ledgers[|txs|], end, inserts, expiries, height)
    ensures var r := Altered(ledgers[0], ledgers[|txs|], end, height);
            && Lists(r, m) && r.due == ledgers[0].due
            && (r == ledgers[0] <==> forall u :: u in inserts && InsertKey(u) in m ==> u.nHeight == height)
  {
    var l, last := ledgers[0], ledgers[|txs|];
    SameOnlyIf(l, last, end, height);
    AlteredLists(l, m, last, end, height);
    hide Follows, NewOutPoints, Recorded, Altered, Unmoved;
    if forall u :: u in inserts && InsertKey(u) in m ==> u.nHeight == height {
      NoneEarly(ledgers, txs, spends, m, end, inserts, expiries, height, lifetime);
    }
    if Unmoved(l, last, end, height) {
      forall u | u in inserts && InsertKey(u) in m
        ensures u.nHeight == height
      {
        SomeEarly(ledgers, txs, spends, m, end, inserts, expiries, height, lifetime, u);
      }
    }
  }

  /** Only the ledger of before is in time. */
  lemma AlteredInTime(ledgers: seq<Ledger>, txs: seq<Tx>, spends: seq<Option<int>>, end: Ledger, height: int,
      lifetime: int)
    requires Follows(ledgers, txs, spends, height, lifetime)
    requires InTime(Altered(ledgers[0], ledgers[|txs|], end, height), height, lifetime)
    ensures Altered(ledgers[0], ledgers[|txs|], end, height) == ledgers[0]
  {
    var l, last := ledgers[0], ledgers[|txs|];
    var r := Altered(l, last, end, height);
    assert Sound(l, height, lifetime);
    SameOnlyIf(l, last, end, height);
    forall k | k in l.claims && k in l.due && k in last.due && k !in end.due
      ensures l.claims[k].nValidAtHeight == height
    {
      assert r.due[k] == r.claims[k].nValidAtHeight;
    }
  }

  /** Exactly the claims that left the queue have the height of the block. */
  ghost predicate Redated(l: Ledger, back: Ledger, inserts: seq<InsertUndo>, height: int)
  {
    && back.claims.Keys == l.claims.Keys && back.due == l.due
    && forall k :: k in l.claims ==>
         back.claims[k] == if LeftQueue(inserts, k) then l.claims[k].(nValidAtHeight := height) else l.claims[k]
  }

  predicate LeftQueue(inserts: seq<InsertUndo>, k: Key)
  {
    exists i :: 0 <= i < |inserts| && InsertKey(inserts[i]) == k
  }

  lemma AlteredRedated(ledgers: seq<Ledger>, txs: seq<Tx>, spends: seq<Option<int>>, m: Holdings, end: Ledger,
      inserts: seq<InsertUndo>, expiries: seq<QueueEntry>, height: int, lifetime: int)
    requires Follows(ledgers, txs, spends, height, lifetime) && NewOutPoints(m, txs) && Lists(ledgers[0], m)
    requires Recorded(ledgers[|txs|], end, inserts, expiries, height)
    ensures Redated(ledgers[0], Altered(ledgers[0], ledgers[|txs|], end, height), inserts, height)
  {
    var l, last := ledgers[0], ledgers[|txs|];
    hide Follows, NewOutPoints, Recorded;
    forall k | k in l.claims
      ensures LeftQueue(inserts, k) <==> k in l.due && k in last.due && k !in end.due
    {
      if LeftQueue(inserts, k) {
        var i :| 0 <= i < |inserts| && InsertKey(inserts[i]) == k;
        Inserted(last, end, inserts, expiries, height, inserts[i]);
        HeldPromotion(ledgers, txs, spends, m, end, inserts, expiries, height, lifetime, k);
      }
      if k in last.due && k !in end.due {
        HeldPromotion(ledgers, txs, spends, m, end, inserts, expiries, height, lifetime, k);
        assert InsertKey(InsertUndo(k.0, k.1, l.due[k])) == k;
      }
    }
    assert Altered(l, last, end, height).claims.Keys == l.claims.Keys;
  }

  /** Every claim that left the queue says that it is valid from the given height on. */
  ghost predicate Unmoved(l: Ledger, last: Ledger, end: Ledger, height: int)
  {
    forall k :: k in l.claims && k in l.due && k in last.due && k !in end.due ==> l.claims[k].nValidAtHeight == height
  }

  lemma UnmovedIf(l: Ledger, last: Ledger, end: Ledger, height: int)
    requires forall k ::
        k in l.claims && k in l.due && k in last.due && k !in end.due ==> l.claims[k].nValidAtHeight == height
    ensures Unmoved(l, last, end, height)
  {
  }

  lemma SameOnlyIf(l: Ledger, last: Ledger, end: Ledger, height: int)
    ensures Altered(l, last, end, height) == l <==> Unmoved(l, last, end, height)
  {
    var r := Altered(l, last, end, height);
    if Unmoved(l, last, end, height) {
      assert r.claims == l.claims;
    } else {
      var k :| k in l.claims && k in l.due && k in last.due && k !in end.due && l.claims[k].nValidAtHeight != height;
      assert r.claims[k] != l.claims[k];
    }
  }
}
