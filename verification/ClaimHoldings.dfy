/** Which claims a chain of blocks leaves, as a plain map: what is added, less what is spent
    and what expires. */
module ClaimHoldings {
  import opened ClaimTypes
  import opened NameTree
  import opened PathOps
  import opened ClaimLedger

  datatype Tx =
    | AddClaim(name: Name, outPoint: OutPoint, claimId: int, nAmount: int)
    | SpendClaim(name: Name, outPoint: OutPoint, claimId: int, nAmount: int, nHeight: int)
  {
    function Key(): Key { (name, outPoint) }
  }

  datatype Holding = Holding(claimId: int, nAmount: int, nHeight: int)

  type Holdings = map<Key, Holding>

  function AfterTx(m: Holdings, tx: Tx, height: int): Holdings
  {
    match tx
    case AddClaim(name, outPoint, claimId, nAmount) => m[tx.Key() := Holding(claimId, nAmount, height)]
    case SpendClaim(_, _, _, _, _) => m - {tx.Key()}
  }

  function AfterTxs(m: Holdings, txs: seq<Tx>, height: int): Holdings
  {
    if txs == [] then m else AfterTx(AfterTxs(m, txs[..|txs| - 1], height), txs[|txs| - 1], height)
  }

  /** Without what is as old as claims get. */
  function Unexpired(m: Holdings, height: int, lifetime: int): Holdings
  {
    map k | k in m && m[k].nHeight + lifetime != height :: m[k]
  }

  /** A block at some height: its transactions, and then what expires. */
  function AfterBlock(m: Holdings, txs: seq<Tx>, height: int, lifetime: int): Holdings
  {
    Unexpired(AfterTxs(m, txs, height), height, lifetime)
  }

  /** A chain of blocks from some height on. */
  function AfterBlocks(m: Holdings, blocks: seq<seq<Tx>>, height: int, lifetime: int): Holdings
  {
    if blocks == [] then m
    else AfterBlock(AfterBlocks(m, blocks[..|blocks| - 1], height, lifetime), blocks[|blocks| - 1],
        height + |blocks| - 1, lifetime)
  }

  /** A new claim brings an outpoint and, for its name, an id that nothing has; who spends a
      claim knows the output with its height. Spending what is not held is allowed. */
  predicate Proper(m: Holdings, tx: Tx)
  {
    match tx
    case AddClaim(name, outPoint, claimId, _) =>
      tx.Key() !in m && forall k :: k in m && k.0 == name ==> m[k].claimId != claimId
    case SpendClaim(_, _, claimId, nAmount, nHeight) =>
      tx.Key() in m ==> m[tx.Key()] == Holding(claimId, nAmount, nHeight)
  }

  predicate ProperTxs(m: Holdings, txs: seq<Tx>, height: int)
  {
    forall i :: 0 <= i < |txs| ==> Proper(AfterTxs(m, txs[..i], height), txs[i])
  }

  predicate ProperBlocks(m: Holdings, blocks: seq<seq<Tx>>, height: int, lifetime: int)
  {
    forall i :: 0 <= i < |blocks| ==> ProperTxs(AfterBlocks(m, blocks[..i], height, lifetime), blocks[i], height + i)
  }

  predicate UniqueHoldings(m: Holdings)
  {
    forall j, k :: j in m && k in m && j.0 == k.0 && j != k ==> m[j].claimId != m[k].claimId
  }

  function HoldingOf(c: ClaimValue): Holding { Holding(c.claimId, c.nAmount, c.nHeight) }

  /** The ledger has the claims of the plain map. */
  ghost predicate Lists(l: Ledger, m: Holdings)
  {
    && (forall k :: k in l.claims <==> k in m)
    && (forall k :: k in m ==> HoldingOf(l.claims[k]) == m[k])
  }

  lemma UniqueListed(l: Ledger, m: Holdings)
    requires Lists(l, m) && UniqueHoldings(m)
    ensures UniqueIds(l)
  {
    forall j, k | j in l.claims && k in l.claims && j.0 == k.0 && j != k
      ensures l.claims[j].claimId != l.claims[k].claimId
    {
      assert m[j].claimId != m[k].claimId;
    }
  }

  lemma AddLists(l: Ledger, m: Holdings, tx: Tx, height: int, c: ClaimValue, due: int)
    requires Lists(l, m) && UniqueHoldings(m) && tx.AddClaim? && Proper(m, tx)
    requires HoldingOf(c) == Holding(tx.claimId, tx.nAmount, height)
    ensures Lists(Enqueued(l, tx.Key(), c, due), AfterTx(m, tx, height)) && UniqueHoldings(AfterTx(m, tx, height))
  {
  }

  lemma SpendLists(l: Ledger, m: Holdings, tx: Tx, height: int)
    requires Lists(l, m) && UniqueHoldings(m) && tx.SpendClaim?
    ensures Lists(Gone(l, tx.Key()), AfterTx(m, tx, height)) && UniqueHoldings(AfterTx(m, tx, height))
  {
  }

  lemma NextTx(m: Holdings, txs: seq<Tx>, height: int, i: nat)
    requires i < |txs|
    ensures AfterTxs(m, txs[..i + 1], height) == AfterTx(AfterTxs(m, txs[..i], height), txs[i], height)
  {
    assert txs[..i + 1][..i] == txs[..i];
  }

  lemma NextBlock(m: Holdings, blocks: seq<seq<Tx>>, height: int, lifetime: int, i: nat)
    requires i < |blocks|
    ensures AfterBlocks(m, blocks[..i + 1], height, lifetime)
            == AfterBlock(AfterBlocks(m, blocks[..i], height, lifetime), blocks[i], height + i, lifetime)
  {
    assert blocks[..i + 1][..i] == blocks[..i];
  }

  // ---------- what is held in the end ----------

  /** The last transaction about a key. */
  predicate LastAbout(txs: seq<Tx>, j: nat, k: Key)
  {
    j < |txs| && txs[j].Key() == k && forall i :: j < i < |txs| ==> txs[i].Key() != k
  }

  predicate NoneAbout(txs: seq<Tx>, k: Key)
  {
    forall i :: 0 <= i < |txs| ==> txs[i].Key() != k
  }

  /** The last transaction about a key in a chain of blocks is in block i, at place j, and adds. */
  predicate AddedLast(blocks: seq<seq<Tx>>, i: nat, j: nat, k: Key)
  {
    && i < |blocks| && LastAbout(blocks[i], j, k) && blocks[i][j].AddClaim?
    && forall b :: i < b < |blocks| ==> NoneAbout(blocks[b], k)
  }

  lemma {:induction false} Untouched(m: Holdings, txs: seq<Tx>, height: int, k: Key)
    requires NoneAbout(txs, k)
    ensures k in AfterTxs(m, txs, height) <==> k in m
    ensures k in m ==> AfterTxs(m, txs, height)[k] == m[k]
  {
    if txs != [] {
      Untouched(m, txs[..|txs| - 1], height, k);
    }
  }

  lemma {:induction false} Decided(m: Holdings, txs: seq<Tx>, height: int, j: nat, k: Key)
    requires LastAbout(txs, j, k)
    ensures k in AfterTxs(m, txs, height) <==> txs[j].AddClaim?
    ensures txs[j].AddClaim? ==>
              AfterTxs(m, txs, height)[k] == Holding(txs[j].claimId, txs[j].nAmount, height)
  {
    var last := |txs| - 1;
    if j < last {
      assert LastAbout(txs[..last], j, k);
      Decided(m, txs[..last], height, j, k);
    }
  }

  lemma {:induction false} SomeLast(txs: seq<Tx>, k: Key) returns (j: nat)
    requires !NoneAbout(txs, k)
    ensures LastAbout(txs, j, k)
  {
    var last := |txs| - 1;
    if txs[last].Key() == k {
      j := last;
    } else {
      j := SomeLast(txs[..last], k);
    }
  }

  /** What an added claim is held as after a chain of blocks. */
  lemma {:induction false} AddedIsHeld(blocks: seq<seq<Tx>>, lifetime: int, i: nat, j: nat, k: Key)
    requires 0 <= lifetime && AddedLast(blocks, i, j, k)
    ensures k in AfterBlocks(map[], blocks, 1, lifetime) <==> |blocks| < 1 + i + lifetime
    ensures k in AfterBlocks(map[], blocks, 1, lifetime) ==>
              AfterBlocks(map[], blocks, 1, lifetime)[k]
              == Holding(blocks[i][j].claimId, blocks[i][j].nAmount, 1 + i)
    decreases |blocks|
  {
    var last := |blocks| - 1;
    var m := AfterBlocks(map[], blocks[..last], 1, lifetime);
    if i == last {
      Decided(m, blocks[i], 1 + last, j, k);
    } else {
      assert AddedLast(blocks[..last], i, j, k) by {
        assert forall b :: i < b < last ==> blocks[..last][b] == blocks[b];
      }
      AddedIsHeld(blocks[..last], lifetime, i, j, k);
      assert NoneAbout(blocks[last], k);
      Untouched(m, blocks[last], 1 + last, k);
    }
  }

  lemma {:induction false} HeldWasAdded(blocks: seq<seq<Tx>>, lifetime: int, k: Key) returns (i: nat, j: nat)
    requires k in AfterBlocks(map[], blocks, 1, lifetime)
    ensures AddedLast(blocks, i, j, k)
    decreases |blocks|
  {
    var last := |blocks| - 1;
    var m := AfterBlocks(map[], blocks[..last], 1, lifetime);
    if NoneAbout(blocks[last], k) {
      Untouched(m, blocks[last], 1 + last, k);
      i, j := HeldWasAdded(blocks[..last], lifetime, k);
      assert forall b :: i < b < last ==> blocks[..last][b] == blocks[b];
    } else {
      i := last;
      j := SomeLast(blocks[last], k);
      Decided(m, blocks[last], 1 + last, j, k);
    }
  }

  /** After a chain of blocks from a new trie a claim is held exactly if the last transaction
      about it added it, and no block has come yet whose height is the one of the addition and
      the lifetime together. */
  lemma HeldExactly(blocks: seq<seq<Tx>>, lifetime: int, k: Key)
    requires 0 <= lifetime
    ensures k in AfterBlocks(map[], blocks, 1, lifetime)
        <==> exists i: nat, j: nat :: AddedLast(blocks, i, j, k) && |blocks| < 1 + i + lifetime
  {
    if k in AfterBlocks(map[], blocks, 1, lifetime) {
      var i, j := HeldWasAdded(blocks, lifetime, k);
      AddedIsHeld(blocks, lifetime, i, j, k);
    }
    if i: nat, j: nat :| AddedLast(blocks, i, j, k) && |blocks| < 1 + i + lifetime {
      AddedIsHeld(blocks, lifetime, i, j, k);
    }
  }
}
