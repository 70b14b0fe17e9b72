/** What a block does to the ledger, what it records about it, and where that record leads
    back to. */
module ClaimUndo {
  import opened ClaimTypes
  import opened NameTree
  import opened PathOps
  import opened ClaimLedger
  import opened ClaimMoves

  datatype InsertUndo = InsertUndo(name: Name, outPoint: OutPoint, nHeight: int)

  function InsertKey(u: InsertUndo): Key
  {
    (u.name, u.outPoint)
  }

  function EntryKey(e: QueueEntry): Key
  {
    (e.name, e.claim.outPoint)
  }

  /** At a height, nothing overdue waits: neither to mature nor to expire. A queued claim is
      due when it becomes valid, and does not expire before. */
  ghost predicate InTime(l: Ledger, height: int, lifetime: int)
  {
    && (forall k :: k in l.due ==> k in l.claims && height <= l.due[k] <= l.claims[k].nHeight + lifetime)
    && (forall k :: k in l.due ==> k in l.claims && l.due[k] == l.claims[k].nValidAtHeight)
    && (forall k :: k in l.claims ==> height <= l.claims[k].nHeight + lifetime)
  }

  /** No row below the current height holds anything. */
  lemma NothingOverdue(b: Books, l: Ledger, height: int, lifetime: int, h: int)
    requires Holds(b, l, lifetime) && InTime(l, height, lifetime) && h < height
    ensures At(b.rows, h) == [] && At(b.expiries, h) == []
  {
    hide Holds, At;
    if At(b.rows, h) != [] {
      RowEntry(b, l, lifetime, h, 0);
    }
    if At(b.expiries, h) != [] {
      ExpiryEntry(b, l, lifetime, h, 0);
    }
  }

  /** Undo data that leads from one ledger to another: the expired claims have to come back,
      and the inserted ones to go back into the queue at the recorded heights. */
  ghost predicate Undoing(goal: Ledger, l: Ledger, inserts: seq<InsertUndo>, expiries: seq<QueueEntry>)
  {
    && (forall k :: k in l.due ==> k in goal.due && l.due[k] == goal.due[k])
    && (forall k :: k in l.claims ==> k in goal.claims && l.claims[k] == goal.claims[k])
    && (forall u ::
        u in inserts <==> InsertKey(u) in goal.due && InsertKey(u) !in l.due && u.nHeight == goal.due[InsertKey(u)])
    && (forall k :: k in goal.claims && k !in l.claims ==> exists e :: e in expiries && EntryKey(e) == k)
    && (forall e :: e in expiries ==> EntryKey(e) in goal.claims && EntryKey(e) !in l.claims
                                      && Plain(e.claim) == goal.claims[EntryKey(e)])
    && (forall i, j :: 0 <= i < j < |inserts| ==> InsertKey(inserts[i]) != InsertKey(inserts[j]))
    && (forall i, j :: 0 <= i < j < |expiries| ==> EntryKey(expiries[i]) != EntryKey(expiries[j]))
  }

  /** The ledger of the block start, but for the heights the claims that left the queue
      were given. */
  ghost function Rewound(start: Ledger, l: Ledger, height: int): Ledger
  {
    Ledger(map k | k in start.claims ::
             if k in start.due && k !in l.due then start.claims[k].(nValidAtHeight := height) else start.claims[k],
           start.due)
  }

  ghost predicate Recorded(start: Ledger, l: Ledger, inserts: seq<InsertUndo>, expiries: seq<QueueEntry>, height: int)
  {
    Undoing(Rewound(start, l, height), l, inserts, expiries)
  }

  // ---------- what a block does to the ledger ----------

  /** The claims that are due have left the queue. */
  ghost function Ripened(l: Ledger, height: int): Ledger
  {
    Ledger(l.claims, map k | k in l.due && l.due[k] != height :: l.due[k])
  }

  /** The claims whose time is up are gone. */
  ghost function Expired(l: Ledger, height: int, lifetime: int): Ledger
  {
    Ledger(map k | k in l.claims && l.claims[k].nHeight + lifetime != height :: l.claims[k], l.due)
  }

  ghost predicate Ripening(start: Ledger, l: Ledger, height: int)
  {
    && l.claims == start.claims
    && (forall k :: k in l.due ==> k in start.due && l.due[k] == start.due[k])
    && (forall k :: k in start.due && start.due[k] != height ==> k in l.due)
  }

  ghost predicate Expiring(start: Ledger, l: Ledger, height: int, lifetime: int)
  {
    && l.due == start.due
    && (forall k :: k in l.claims ==> k in start.claims && l.claims[k] == start.claims[k])
    && (forall k :: k in start.claims && start.claims[k].nHeight + lifetime != height ==> k in l.claims)
  }

  /** No claim of these names waits any more; all others still do. */
  ghost predicate Drained(start: Ledger, l: Ledger, names: set<Name>)
  {
    && l.claims.Keys == start.claims.Keys
    && (forall k :: k in l.due <==> k in start.due && k.0 !in names)
    && (forall k :: k in l.due ==> l.due[k] == start.due[k])
  }

  ghost predicate Draining(start: Ledger, l: Ledger, name: Name)
  {
    && l.claims.Keys == start.claims.Keys
    && (forall k :: k in l.due ==> k in start.due && l.due[k] == start.due[k])
    && (forall k :: k in start.due && k.0 != name ==> k in l.due)
  }

  // ---------- recording ----------

  lemma NothingRecorded(l: Ledger, height: int)
    ensures Recorded(l, l, [], [], height)
  {
  }

  lemma RecordPromotion(start: Ledger, l: Ledger, inserts: seq<InsertUndo>, expiries: seq<QueueEntry>, height: int,
      k: Key)
    requires Recorded(start, l, inserts, expiries, height) && k in l.due && k in l.claims
    ensures Recorded(start, Promoted(l, k, height), inserts + [InsertUndo(k.0, k.1, l.due[k])], expiries, height)
  {
    var m := Promoted(l, k, height);
    var g, g' := Rewound(start, l, height), Rewound(start, m, height);
    var inserts' := inserts + [InsertUndo(k.0, k.1, l.due[k])];
    assert forall j ::
        j != k ==> (j in g.claims <==> j in g'.claims) && (j in g.claims ==> g.claims[j] == g'.claims[j]);
    forall u
      ensures u in inserts' <==> InsertKey(u) in g'.due && InsertKey(u) !in m.due && u.nHeight == g'.due[InsertKey(u)]
    {
      assert InsertKey(u) == k ==> u.name == k.0 && u.outPoint == k.1;
      assert u in inserts' <==> u in inserts || u == InsertUndo(k.0, k.1, l.due[k]);
    }
    assert forall u :: u in inserts ==> InsertKey(u) != k;
  }

  lemma RecordExpiry(start: Ledger, l: Ledger, inserts: seq<InsertUndo>, expiries: seq<QueueEntry>, height: int,
                     k: Key, claim: ClaimValue)
    requires Recorded(start, l, inserts, expiries, height) && k in l.claims && k !in l.due
    requires claim.outPoint == k.1 && Plain(claim) == l.claims[k]
    ensures Recorded(start, Gone(l, k), inserts, expiries + [QueueEntry(k.0, claim)], height)
  {
    var m := Gone(l, k);
    var e := QueueEntry(k.0, claim);
    var expiries' := expiries + [e];
    assert m.due == l.due;
    assert Rewound(start, m, height) == Rewound(start, l, height);
    assert EntryKey(e) == k;
    assert forall x :: x in expiries' <==> x in expiries || x == e;
    assert e in expiries';
  }

  // ---------- undoing ----------

  lemma UndoExpiry(goal: Ledger, l: Ledger, inserts: seq<InsertUndo>, expiries: seq<QueueEntry>)
    requires Undoing(goal, l, inserts, expiries) && expiries != []
    ensures EntryKey(expiries[0]) !in l.claims
    ensures Undoing(goal, Entered(l, EntryKey(expiries[0]), expiries[0].claim), inserts, expiries[1..])
  {
    var e := expiries[0];
    assert e in expiries;
    var m := Entered(l, EntryKey(e), e.claim);
    assert forall x :: x in expiries <==> x == e || x in expiries[1..];
    assert forall x :: x in expiries[1..] ==> EntryKey(x) != EntryKey(e);
  }

  lemma UndoInsert(goal: Ledger, l: Ledger, inserts: seq<InsertUndo>)
    requires Undoing(goal, l, inserts, []) && inserts != [] && goal.due.Keys <= goal.claims.Keys
    ensures InsertKey(inserts[0]) in l.claims && InsertKey(inserts[0]) !in l.due
    ensures Undoing(goal, Requeued(l, InsertKey(inserts[0]), inserts[0].nHeight), inserts[1..], [])
  {
    var u := inserts[0];
    assert u in inserts;
    var m := Requeued(l, InsertKey(u), u.nHeight);
    forall x
      ensures x in inserts[1..]
          <==> InsertKey(x) in goal.due && InsertKey(x) !in m.due && x.nHeight == goal.due[InsertKey(x)]
    {
      assert x in inserts <==> x == u || x in inserts[1..];
      assert x in inserts[1..] ==> InsertKey(x) != InsertKey(u);
      assert InsertKey(x) == InsertKey(u) && x.nHeight == u.nHeight ==> x == u;
    }
  }

  lemma AllUndone(goal: Ledger, l: Ledger)
    requires Undoing(goal, l, [], [])
    ensures l == goal
  {
    forall k | k in goal.due
      ensures k in l.due
    {
      var u := InsertUndo(k.0, k.1, goal.due[k]);
      assert InsertKey(u) == k;

    }
    assert l.due.Keys == goal.due.Keys && l.claims.Keys == goal.claims.Keys;
    assert l.due == goal.due && l.claims == goal.claims;
  }

  /** The undo data leads back to the ledger of the block start exactly when no claim left
      the queue before it was due. */
  lemma RewoundExactly(start: Ledger, l: Ledger, inserts: seq<InsertUndo>, expiries: seq<QueueEntry>, height: int,
      lifetime: int)
    requires InTime(start, height, lifetime) && Recorded(start, l, inserts, expiries, height)
    ensures Rewound(start, l, height) == start <==> forall u :: u in inserts ==> u.nHeight == height
  {
    var g := Rewound(start, l, height);
    if forall u :: u in inserts ==> u.nHeight == height {
      forall k | k in start.due && k !in l.due
        ensures start.claims[k].(nValidAtHeight := height) == start.claims[k]
      {
        var u := InsertUndo(k.0, k.1, start.due[k]);
        assert InsertKey(u) == k && u in inserts;
      }
      assert g.claims == start.claims;
    }
    if g == start {
      forall u | u in inserts
        ensures u.nHeight == height
      {
        var k := InsertKey(u);
        assert start.claims[k].(nValidAtHeight := height) == g.claims[k] == start.claims[k];
      }
    }
  }
}
