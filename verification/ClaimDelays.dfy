/** How long a claim that a block adds has to wait, by the base that the block starts from. */
module ClaimDelays {
  import opened ClaimTypes
  import opened NameTree
  import opened PathOps
  import opened Overlay
  import opened ClaimMap
  import opened ClaimLedger
  import opened ClaimMoves
  import opened ClaimUndo
  import opened ClaimHoldings
  import opened ClaimTrails

  /** A name has no claim in the trie any more, but is still a node there: it is the root, or a
      longer name holds a claim. */
  ghost predicate EmptiedInside(l: Ledger, name: Name)
  {
    && (forall k :: k in l.claims && k.0 == name ==> k in l.due)
    && (name == [] || exists k :: k in l.claims && k !in l.due && name < k.0)
  }

  /** The blocks that a claim with some id has to wait: none if the name had no claim when the
      block began or that id controlled it, nor if the block took its last claim and left the
      node; else in proportion to the blocks since the last takeover, but 4032 at most. */
  ghost function DelayIn(b: Tree, l: Ledger, name: Name, claimId: int, height: int, factor: int): int
    requires factor > 0
  {
    if ClaimsAt(b, name) == [] || ClaimsAt(b, name)[0].claimId == claimId || EmptiedInside(l, name) then 0
    else
      var delay := (height - b[name].nHeightOfLastTakeover) / factor;
      if delay > 4032 then 4032 else delay
  }

  /** An addition is due after its delay. */
  ghost predicate Waits(b: Tree, l: Ledger, tx: Tx, l': Ledger, height: int, factor: int)
    requires factor > 0
  {
    tx.AddClaim? ==>
      tx.Key() in l'.due && l'.due[tx.Key()] == height + DelayIn(b, l, tx.name, tx.claimId, height, factor)
  }

  ghost predicate Delays(b: Tree, ledgers: seq<Ledger>, txs: seq<Tx>, height: int, factor: int)
    requires factor > 0
  {
    |ledgers| == |txs| + 1
    && forall i :: 0 <= i < |txs| ==> Waits(b, ledgers[i], txs[i], ledgers[i + 1], height, factor)
  }

  lemma DelaysOn(b: Tree, ledgers: seq<Ledger>, txs: seq<Tx>, l: Ledger, tx: Tx, l': Ledger, height: int, factor: int)
    requires factor > 0 && Delays(b, ledgers, txs, height, factor) && ledgers[|txs|] == l
    requires Waits(b, l, tx, l', height, factor)
    ensures Delays(b, ledgers + [l'], txs + [tx], height, factor)
  {
    hide Waits;
  }

  // ---------- what the cache shows ----------

  lemma EmptyInTree(t: Tree, l: Ledger, name: Name)
    requires InTrieThen(t, l)
    ensures ClaimsAt(t, name) == [] <==> forall k :: k in l.claims && k.0 == name ==> k in l.due
  {
    hide InTrieThen, ClaimsAt;
    if ClaimsAt(t, name) != [] {
      FoundInTree(t, l, (name, ClaimsAt(t, name)[0].outPoint), 0);
    }
    forall k | k in l.claims && k.0 == name && ClaimsAt(t, name) == []
      ensures k in l.due
    {
      InTree(t, l, k);
    }
  }

  /** A node without claims is there exactly if a longer name holds one. */
  lemma NodeInTree(t: Tree, l: Ledger, name: Name)
    requires InTrieThen(t, l) && Closed(t) && Pruned(t) && ClaimsAt(t, name) == []
    ensures name in t <==> name == [] || exists k :: k in l.claims && k !in l.due && name < k.0
  {
    hide InTrieThen, Closed, Pruned;
    NodesArePrefixes(t, name);
    if q :| q in t && t[q].claims != [] && name <= q {
      var k := (q, t[q].claims[0].outPoint);
      FoundInTree(t, l, k, 0);
      assert q != name && q[..|name|] == name;
    }
    if k :| k in l.claims && k !in l.due && name < k.0 {
      InTree(t, l, k);
      assert k.0 in t && t[k.0].claims != [];
    }
  }

  lemma ShownNode(b: Tree, cache: Tree, name: Name)
    requires Lays(b, cache) && name in b && b[name].claims != []
    ensures name in cache && cache[name].claims == []
        <==> name in Shown(b, cache) && ClaimsAt(Shown(b, cache), name) == []
  {
    hide Closed, Linked, Live;
  }

  /** The copy in the cache has no claims exactly if the block emptied the name within. */
  lemma CopyEmptied(b: Tree, cache: Tree, l: Ledger, name: Name)
    requires Lays(b, cache) && Closed(Shown(b, cache)) && Pruned(Shown(b, cache)) && InTrieThen(Shown(b, cache), l)
    requires name in b && b[name].claims != []
    ensures name in cache && cache[name].claims == [] <==> EmptiedInside(l, name)
  {
    hide Lays, Closed, Pruned, InTrieThen, Shown;
    var t := Shown(b, cache);
    ShownNode(b, cache, name);
    EmptyInTree(t, l, name);
    if ClaimsAt(t, name) == [] {
      NodeInTree(t, l, name);
    }
  }

  // ---------- the first claim added to a name ----------

  /** No transaction so far is about the name. */
  predicate Unused(txs: seq<Tx>, i: nat, name: Name)
    requires i <= |txs|
  {
    forall j :: 0 <= j < i ==> txs[j].name != name
  }

  lemma {:induction false} StillWhole(ledgers: seq<Ledger>, txs: seq<Tx>, spends: seq<Option<int>>, height: int,
      lifetime: int, i: nat, name: Name)
    requires Follows(ledgers, txs, spends, height, lifetime) && i <= |txs| && Unused(txs, i, name)
    ensures forall k: Key :: k.0 == name ==> (k in ledgers[i].claims <==> k in ledgers[0].claims)
    ensures forall k: Key :: k.0 == name ==> (k in ledgers[i].due <==> k in ledgers[0].due)
    decreases i
  {
    hide Sound;
    if i > 0 {
      StillWhole(ledgers, txs, spends, height, lifetime, i - 1, name);
      assert Steps(ledgers[i - 1], txs[i - 1], spends[i - 1], ledgers[i], height);
      assert txs[i - 1].Key().0 == txs[i - 1].name;
    }
  }

  /** The first claim that a block adds to a name it has not touched is due after the blocks
      since the takeover that the base has for the name, in proportion, and 4032 at most; at
      once if the name had no claim, or one with the same id in front. */
  lemma FirstAdded(b: Tree, ledgers: seq<Ledger>, txs: seq<Tx>, spends: seq<Option<int>>, height: int, lifetime: int,
      factor: int, i: nat)
    requires factor > 0 && Follows(ledgers, txs, spends, height, lifetime) && Delays(b, ledgers, txs, height, factor)
    requires InTrieThen(b, ledgers[0])
    requires i < |txs| && txs[i].AddClaim? && Unused(txs, i, txs[i].name)
    ensures txs[i].Key() in ledgers[i + 1].due
    ensures var name := txs[i].name; var due := ledgers[i + 1].due[txs[i].Key()];
            if ClaimsAt(b, name) == [] || ClaimsAt(b, name)[0].claimId == txs[i].claimId then due == height
            else
              var blocks := height - b[name].nHeightOfLastTakeover;
              due == height + if blocks / factor > 4032 then 4032 else blocks / factor
  {
    hide Follows, InTrieThen, Steps;
    var name := txs[i].name;
    StillWhole(ledgers, txs, spends, height, lifetime, i, name);
    EmptyInTree(b, ledgers[0], name);
    assert Waits(b, ledgers[i], txs[i], ledgers[i + 1], height, factor);
    if ClaimsAt(b, name) != [] {
      var k :| k in ledgers[0].claims && k.0 == name && k !in ledgers[0].due;
      assert k in ledgers[i].claims && k !in ledgers[i].due;
      assert !EmptiedInside(ledgers[i], name);
    }
  }
}
