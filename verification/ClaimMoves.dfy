/** The moves a claim makes between the queues and the trie, and how the queues are read. */
module ClaimMoves {
  import opened ClaimTypes
  import opened NameTree
  import opened PathOps
  import opened ClaimMap
  import opened ClaimLedger

  // ---------- one entry more or less in one row ----------

  ghost predicate Gains<K(!new), V>(m: map<K, seq<V>>, m': map<K, seq<V>>, at: K, v: V)
  {
    forall x :: multiset(At(m', x)) == multiset(At(m, x)) + (if x == at then multiset{v} else multiset{})
  }

  ghost predicate RowsGain(m: Rows, m': Rows, at: int, e: QueueEntry)
  {
    forall h ::
        multiset(PlainRow(At(m', h))) == multiset(PlainRow(At(m, h))) + (if h == at then multiset{e} else multiset{})
  }

  ghost predicate TrieGains(t: Tree, t': Tree, name: Name, c: ClaimValue)
  {
    forall n ::
        ClaimBag(ClaimsAt(t', n)) == ClaimBag(ClaimsAt(t, n)) + (if n == name then multiset{Plain(c)} else multiset{})
  }

  lemma PlainAppend(row: seq<QueueEntry>, e: QueueEntry)
    ensures PlainRow(row + [e]) == PlainRow(row) + [QueueEntry(e.name, Plain(e.claim))]
  {
    assert (row + [e])[..|row|] == row;
  }

  lemma PlainWithoutEntry(row: seq<QueueEntry>, i: nat)
    requires i < |row|
    ensures multiset(PlainRow(row))
        == multiset(PlainRow(row[..i] + row[i + 1..])) + multiset{QueueEntry(row[i].name, Plain(row[i].claim))}
  {
    hide PlainRow;
    PlainParts(row, i);
    BagWithout(PlainRow(row), i);
  }

  lemma PlainParts(row: seq<QueueEntry>, i: nat)
    requires i < |row|
    ensures PlainRow(row[..i] + row[i + 1..]) == PlainRow(row)[..i] + PlainRow(row)[i + 1..]
  {
    hide PlainRow;
    var rest := row[..i] + row[i + 1..];
    var a, p := PlainRow(rest), PlainRow(row);
    assert |a| == |p| - 1;
    forall j | 0 <= j < |a|
      ensures a[j] == (p[..i] + p[i + 1..])[j]
    {
      if j < i {
        assert rest[j] == row[j];
      } else {
        assert rest[j] == row[j + 1];
      }
    }
    assert a == p[..i] + p[i + 1..];
  }

  lemma AppendRow(m: Rows, h: int, e: QueueEntry)
    ensures RowsGain(m, m[h := At(m, h) + [e]], h, QueueEntry(e.name, Plain(e.claim)))
  {
    hide PlainRow;
    PlainAppend(At(m, h), e);
  }

  lemma EraseRow(m: Rows, h: int, i: nat)
    requires i < |At(m, h)|
    ensures RowsGain(m[h := At(m, h)[..i] + At(m, h)[i + 1..]], m, h,
        QueueEntry(At(m, h)[i].name, Plain(At(m, h)[i].claim)))
  {
    hide PlainRow;
    PlainWithoutEntry(At(m, h), i);
  }

  lemma Append<K(!new), V>(m: map<K, seq<V>>, x: K, v: V)
    ensures Gains(m, m[x := At(m, x) + [v]], x, v)
  {
  }

  lemma Erase<K(!new), V>(m: map<K, seq<V>>, x: K, i: nat)
    requires i < |At(m, x)|
    ensures Gains(m[x := At(m, x)[..i] + At(m, x)[i + 1..]], m, x, At(m, x)[i])
  {
    BagWithout(At(m, x), i);
  }

  // ---------- what the ledger then has to say ----------

  lemma RowsMoved(r: Rows, r': Rows, l: Ledger, m: Ledger, k: Key)
    requires WellFormed(l) && WellFormed(m)
    requires if k in l.due then k !in m.due && RowsGain(r', r, l.due[k], QueueEntry(k.0, l.claims[k]))
             else if k in m.due then RowsGain(r, r', m.due[k], QueueEntry(k.0, m.claims[k]))
             else r == r'
    ensures RowsMove(r, r', l, m, k)
  {
    hide WellFormed, PlainRow, At;
  }

  lemma NamesMoved(r: NameRows, r': NameRows, l: Ledger, m: Ledger, k: Key)
    requires if k in l.due then k !in m.due && Gains(r', r, k.0, (k.1, l.due[k]))
             else if k in m.due then Gains(r, r', k.0, (k.1, m.due[k]))
             else r == r'
    ensures NamesMove(r, r', l, m, k)
  {
    hide At;
  }

  lemma ExpiriesMoved(r: Expiries, r': Expiries, l: Ledger, m: Ledger, lifetime: int, k: Key)
    requires if k in l.claims && k !in m.claims then Gains(r', r, l.claims[k].nHeight + lifetime, k)
             else if k !in l.claims && k in m.claims then Gains(r, r', m.claims[k].nHeight + lifetime, k)
             else r == r' && (k in l.claims ==> l.claims[k].nHeight == m.claims[k].nHeight)
    requires ExpiriesHold(r, l, lifetime)
    ensures ExpiriesMove(r, r', l, m, lifetime, k)
  {
    hide At, ExpirySet;
    forall e
      ensures multiset(At(r', e))
          == multiset(At(r, e)) - multiset(ExpiryPart(l, lifetime, k, e)) + multiset(ExpiryPart(m, lifetime, k, e))
    {
      if k in l.claims && k in m.claims {
        ExpiryListed(r, l, lifetime, k, e);
      }
    }
  }

  lemma ExpiryListed(r: Expiries, l: Ledger, lifetime: int, k: Key, e: int)
    requires ExpiriesHold(r, l, lifetime)
    ensures multiset(ExpiryPart(l, lifetime, k, e)) <= multiset(At(r, e))
  {
    assert ExpiryPart(l, lifetime, k, e) <= ExpirySet(l, lifetime, e);
  }

  lemma TrieMoved(t: Tree, t': Tree, l: Ledger, m: Ledger, k: Key)
    requires WellFormed(l) && WellFormed(m)
    requires if k in l.claims && k !in l.due then !(k in m.claims && k !in m.due) && TrieGains(t', t, k.0, l.claims[k])
             else if k in m.claims && k !in m.due then TrieGains(t, t', k.0, m.claims[k])
             else t == t'
    ensures TrieMoves(t, t', l, m, k)
  {
    hide ClaimsAt, ClaimBag;
    forall n
      ensures ClaimBag(ClaimsAt(t', n))
          == ClaimBag(ClaimsAt(t, n)) - multiset(TriePart(l, k, n)) + multiset(TriePart(m, k, n))
    {
    }
  }

  // ---------- the moves ----------

  lemma HoldsEnqueued(b: Books, b': Books, l: Ledger, lifetime: int, k: Key, c: ClaimValue, h: int)
    requires Holds(b, l, lifetime) && k !in l.claims && c.outPoint == k.1 && b'.trie == b.trie
    requires RowsGain(b.rows, b'.rows, h, QueueEntry(k.0, Plain(c))) && Gains(b.nameRows, b'.nameRows, k.0, (k.1, h))
    requires Gains(b.expiries, b'.expiries, c.nHeight + lifetime, k)
    ensures Holds(b', Enqueued(l, k, c, h), lifetime)
  {
    hide RowsHold, NamesHold, TrieHolds, ExpiriesHold, RowsGain, Gains, RowsMove, NamesMove, ExpiriesMove, TrieMoves;
    var m := Enqueued(l, k, c, h);
    RowsMoved(b.rows, b'.rows, l, m, k);
    NamesMoved(b.nameRows, b'.nameRows, l, m, k);
    ExpiriesMoved(b.expiries, b'.expiries, l, m, lifetime, k);
    TrieMoved(b.trie, b'.trie, l, m, k);
    HoldsAfter(b, b', l, m, lifetime, k);
  }

  lemma HoldsEntered(b: Books, b': Books, l: Ledger, lifetime: int, k: Key, c: ClaimValue)
    requires Holds(b, l, lifetime) && k !in l.claims && c.outPoint == k.1 && b'.rows == b.rows
        && b'.nameRows == b.nameRows
    requires TrieGains(b.trie, b'.trie, k.0, Plain(c)) && Gains(b.expiries, b'.expiries, c.nHeight + lifetime, k)
    ensures Holds(b', Entered(l, k, c), lifetime)
  {
    hide RowsHold, NamesHold, TrieHolds, ExpiriesHold, TrieGains, Gains, RowsMove, NamesMove, ExpiriesMove, TrieMoves;
    var m := Entered(l, k, c);
    RowsMoved(b.rows, b'.rows, l, m, k);
    NamesMoved(b.nameRows, b'.nameRows, l, m, k);
    ExpiriesMoved(b.expiries, b'.expiries, l, m, lifetime, k);
    TrieMoved(b.trie, b'.trie, l, m, k);
    HoldsAfter(b, b', l, m, lifetime, k);
  }

  /** Out of the queue for good: spent before it was due. */
  lemma HoldsSpentFromQueue(b: Books, b': Books, l: Ledger, lifetime: int, k: Key)
    requires Holds(b, l, lifetime) && k in l.due && k in l.claims && b'.trie == b.trie
    requires RowsGain(b'.rows, b.rows, l.due[k], QueueEntry(k.0, l.claims[k]))
        && Gains(b'.nameRows, b.nameRows, k.0, (k.1, l.due[k]))
    requires Gains(b'.expiries, b.expiries, l.claims[k].nHeight + lifetime, k)
    ensures Holds(b', Gone(l, k), lifetime)
  {
    hide RowsHold, NamesHold, TrieHolds, ExpiriesHold, RowsGain, Gains, RowsMove, NamesMove, ExpiriesMove, TrieMoves;
    var m := Gone(l, k);
    RowsMoved(b.rows, b'.rows, l, m, k);
    NamesMoved(b.nameRows, b'.nameRows, l, m, k);
    ExpiriesMoved(b.expiries, b'.expiries, l, m, lifetime, k);
    TrieMoved(b.trie, b'.trie, l, m, k);
    HoldsAfter(b, b', l, m, lifetime, k);
  }

  /** Out of the trie for good: spent, or expired. */
  lemma HoldsSpentFromTrie(b: Books, b': Books, l: Ledger, lifetime: int, k: Key)
    requires Holds(b, l, lifetime) && k in l.claims && k !in l.due && b'.rows == b.rows && b'.nameRows == b.nameRows
    requires TrieGains(b'.trie, b.trie, k.0, l.claims[k])
        && Gains(b'.expiries, b.expiries, l.claims[k].nHeight + lifetime, k)
    ensures Holds(b', Gone(l, k), lifetime)
  {
    hide RowsHold, NamesHold, TrieHolds, ExpiriesHold, TrieGains, Gains, RowsMove, NamesMove, ExpiriesMove, TrieMoves;
    var m := Gone(l, k);
    RowsMoved(b.rows, b'.rows, l, m, k);
    NamesMoved(b.nameRows, b'.nameRows, l, m, k);
    ExpiriesMoved(b.expiries, b'.expiries, l, m, lifetime, k);
    TrieMoved(b.trie, b'.trie, l, m, k);
    HoldsAfter(b, b', l, m, lifetime, k);
  }

  /** Into the trie from the queue, valid from some height on. */
  ghost function Promoted(l: Ledger, k: Key, height: int): Ledger
    requires k in l.claims
  {
    Ledger(l.claims[k := l.claims[k].(nValidAtHeight := height)], l.due - {k})
  }

  lemma HoldsPromoted(b: Books, b': Books, l: Ledger, lifetime: int, k: Key, height: int)
    requires Holds(b, l, lifetime) && k in l.due && k in l.claims && b'.expiries == b.expiries
    requires RowsGain(b'.rows, b.rows, l.due[k], QueueEntry(k.0, l.claims[k]))
        && Gains(b'.nameRows, b.nameRows, k.0, (k.1, l.due[k]))
    requires TrieGains(b.trie, b'.trie, k.0, l.claims[k].(nValidAtHeight := height))
    ensures Holds(b', Promoted(l, k, height), lifetime)
  {
    hide RowsHold, NamesHold, TrieHolds, ExpiriesHold, TrieGains, RowsGain, Gains, RowsMove, NamesMove, ExpiriesMove,
        TrieMoves;
    var m := Promoted(l, k, height);
    RowsMoved(b.rows, b'.rows, l, m, k);
    NamesMoved(b.nameRows, b'.nameRows, l, m, k);
    ExpiriesMoved(b.expiries, b'.expiries, l, m, lifetime, k);
    TrieMoved(b.trie, b'.trie, l, m, k);
    HoldsAfter(b, b', l, m, lifetime, k);
  }

  lemma HoldsRequeued(b: Books, b': Books, l: Ledger, lifetime: int, k: Key, h: int)
    requires Holds(b, l, lifetime) && k in l.claims && k !in l.due && b'.expiries == b.expiries
    requires RowsGain(b.rows, b'.rows, h, QueueEntry(k.0, l.claims[k])) && Gains(b.nameRows, b'.nameRows, k.0, (k.1, h))
    requires TrieGains(b'.trie, b.trie, k.0, l.claims[k])
    ensures Holds(b', Requeued(l, k, h), lifetime)
  {
    hide RowsHold, NamesHold, TrieHolds, ExpiriesHold, TrieGains, RowsGain, Gains, RowsMove, NamesMove, ExpiriesMove,
        TrieMoves;
    var m := Requeued(l, k, h);
    RowsMoved(b.rows, b'.rows, l, m, k);
    NamesMoved(b.nameRows, b'.nameRows, l, m, k);
    ExpiriesMoved(b.expiries, b'.expiries, l, m, lifetime, k);
    TrieMoved(b.trie, b'.trie, l, m, k);
    HoldsAfter(b, b', l, m, lifetime, k);
  }

  // ---------- reading the rows ----------

  lemma RowEntry(b: Books, l: Ledger, lifetime: int, h: int, i: nat)
    requires Holds(b, l, lifetime) && i < |At(b.rows, h)|
    ensures var e := At(b.rows, h)[i]; var k := (e.name, e.claim.outPoint);
            k in l.due && l.due[k] == h && k in l.claims && l.claims[k] == Plain(e.claim)
  {
    hide NamesHold, ExpiriesHold, TrieHolds, At;
    var e := At(b.rows, h)[i];
    assert PlainRow(At(b.rows, h))[i] in multiset(PlainRow(At(b.rows, h)));
    assert QueueEntry(e.name, Plain(e.claim)) in RowSet(l, h);
    var k :| k in l.due && l.due[k] == h && QueueEntry(e.name, Plain(e.claim)) == QueueEntry(k.0, l.claims[k]);
    assert k.1 == l.claims[k].outPoint == Plain(e.claim).outPoint;
    assert k == (e.name, e.claim.outPoint);
  }

  lemma QueuedEntry(b: Books, l: Ledger, lifetime: int, k: Key)
    requires Holds(b, l, lifetime) && k in l.due
    ensures k in l.claims
    ensures exists i ::
        0 <= i < |At(b.rows, l.due[k])| && At(b.rows, l.due[k])[i].name == k.0
          && At(b.rows, l.due[k])[i].claim.outPoint == k.1
    ensures (k.1, l.due[k]) in At(b.nameRows, k.0)
  {
    hide ExpiriesHold, TrieHolds, At;
    var row := At(b.rows, l.due[k]);
    assert QueueEntry(k.0, l.claims[k]) in RowSet(l, l.due[k]);
    assert QueueEntry(k.0, l.claims[k]) in multiset(PlainRow(row));
    var i :| 0 <= i < |row| && PlainRow(row)[i] == QueueEntry(k.0, l.claims[k]);
    assert row[i].name == k.0 && Plain(row[i].claim) == l.claims[k];
    assert Plain(row[i].claim).outPoint == row[i].claim.outPoint;
    assert (k.1, l.due[k]) in NameSet(l, k.0);
    assert (k.1, l.due[k]) in multiset(At(b.nameRows, k.0));
  }

  lemma NameEntry(b: Books, l: Ledger, lifetime: int, name: Name, i: nat)
    requires Holds(b, l, lifetime) && i < |At(b.nameRows, name)|
    ensures var (op, h) := At(b.nameRows, name)[i];
            (name, op) in l.due && l.due[(name, op)] == h && (name, op) in l.claims
  {
    hide RowsHold, ExpiriesHold, TrieHolds, At;
    var e := At(b.nameRows, name)[i];
    assert e in multiset(At(b.nameRows, name));
    assert e in NameSet(l, name);
    var k :| k in l.due && k.0 == name && e == (k.1, l.due[k]);
    assert k == (name, e.0);
  }

  lemma ExpiryEntry(b: Books, l: Ledger, lifetime: int, e: int, i: nat)
    requires Holds(b, l, lifetime) && i < |At(b.expiries, e)|
    ensures At(b.expiries, e)[i] in l.claims && l.claims[At(b.expiries, e)[i]].nHeight + lifetime == e
  {
    hide RowsHold, NamesHold, TrieHolds, At;
    assert At(b.expiries, e)[i] in multiset(At(b.expiries, e));
    assert At(b.expiries, e)[i] in ExpirySet(l, lifetime, e);
  }

  lemma Expires(b: Books, l: Ledger, lifetime: int, k: Key)
    requires Holds(b, l, lifetime) && k in l.claims
    ensures k in At(b.expiries, l.claims[k].nHeight + lifetime)
  {
    hide RowsHold, NamesHold, TrieHolds, At;
    assert k in ExpirySet(l, lifetime, l.claims[k].nHeight + lifetime);
    assert k in multiset(At(b.expiries, l.claims[k].nHeight + lifetime));
  }

  /** What is found in the trie is what the ledger has there. */
  lemma FoundInTree(t: Tree, l: Ledger, k: Key, i: nat)
    requires InTrieThen(t, l) && i < |ClaimsAt(t, k.0)| && ClaimsAt(t, k.0)[i].outPoint == k.1
    ensures k in l.claims && k !in l.due && Plain(ClaimsAt(t, k.0)[i]) == l.claims[k]
  {
    var claims := ClaimsAt(t, k.0);
    InClaimBag(claims, Plain(claims[i]));
    assert Plain(claims[i]) in TrieSet(l, k.0);
    var j :| j in l.claims && j !in l.due && j.0 == k.0 && Plain(claims[i]) == l.claims[j];
    assert Plain(claims[i]).outPoint == k.1;
    assert j == (j.0, j.1) && k == (k.0, k.1);
  }

  lemma FoundInTrie(b: Books, l: Ledger, lifetime: int, k: Key, i: nat)
    requires Holds(b, l, lifetime) && i < |ClaimsAt(b.trie, k.0)| && ClaimsAt(b.trie, k.0)[i].outPoint == k.1
    ensures k in l.claims && k !in l.due && Plain(ClaimsAt(b.trie, k.0)[i]) == l.claims[k]
  {
    hide RowsHold, NamesHold, ExpiriesHold, TrieHolds;
    FoundInTree(b.trie, l, k, i);
  }

  /** A claim the ledger has in the trie is found there, and no other is. */
  lemma InTree(t: Tree, l: Ledger, k: Key)
    requires InTrieThen(t, l)
    ensures var claims := ClaimsAt(t, k.0); var i := FindOutPoint(claims, k.1);
            && (i < |claims| <==> k in l.claims && k !in l.due)
            && (i < |claims| ==> Plain(claims[i]) == l.claims[k])
  {
    hide ClaimBag;
    var claims := ClaimsAt(t, k.0);
    var i := FindOutPoint(claims, k.1);
    HasOutPoint(claims, k.1);
    if k in l.claims && k !in l.due {
      assert l.claims[k] in TrieSet(l, k.0);
      assert l.claims[k] in ClaimBag(claims);
    }
    if i < |claims| {
      FoundInTree(t, l, k, i);
    }
  }

  lemma InTrie(b: Books, l: Ledger, lifetime: int, k: Key)
    requires Holds(b, l, lifetime)
    ensures var claims := ClaimsAt(b.trie, k.0); var i := FindOutPoint(claims, k.1);
            && (i < |claims| <==> k in l.claims && k !in l.due)
            && (i < |claims| ==> Plain(claims[i]) == l.claims[k])
  {
    hide RowsHold, NamesHold, ExpiriesHold, TrieHolds, FindOutPoint, ClaimsAt;
    InTree(b.trie, l, k);
  }

  /** Where no two claims of a name share an id, the trie's claims of a name are unique. */
  lemma UniqueInTree(t: Tree, l: Ledger, name: Name)
    requires InTrieThen(t, l) && UniqueIds(l)
    ensures UniqueClaims(ClaimsAt(t, name))
  {
    hide InTrieThen, ClaimsAt;
    var claims := ClaimsAt(t, name);
    forall i, j | 0 <= i < j < |claims|
      ensures claims[i].claimId != claims[j].claimId && claims[i].outPoint != claims[j].outPoint
    {
      DistinctInTree(t, l, name, i, j);
      FoundInTree(t, l, (name, claims[i].outPoint), i);
      FoundInTree(t, l, (name, claims[j].outPoint), j);
      assert Plain(claims[i]).claimId == claims[i].claimId && Plain(claims[j]).claimId == claims[j].claimId;
    }
  }

  lemma UniqueInTrie(b: Books, l: Ledger, lifetime: int, name: Name)
    requires Holds(b, l, lifetime) && UniqueIds(l)
    ensures UniqueClaims(ClaimsAt(b.trie, name))
  {
    hide RowsHold, NamesHold, ExpiriesHold, TrieHolds, ClaimsAt, UniqueIds, UniqueClaims;
    UniqueInTree(b.trie, l, name);
  }

  lemma DistinctInTree(t: Tree, l: Ledger, name: Name, i: nat, j: nat)
    requires InTrieThen(t, l) && i < j < |ClaimsAt(t, name)|
    ensures ClaimsAt(t, name)[i].outPoint != ClaimsAt(t, name)[j].outPoint
  {
    hide ClaimsAt;
    var claims := ClaimsAt(t, name);
    NotTwice(PlainClaims(claims), TrieSet(l, name), i, j);
    if claims[i].outPoint == claims[j].outPoint {
      FoundInTree(t, l, (name, claims[i].outPoint), i);
      FoundInTree(t, l, (name, claims[j].outPoint), j);
      assert false;
    }
  }

  // ---------- what the books say ----------

  /** The index by height and the index by name list the same claims at the same heights,
      each once. */
  lemma IndexesAgree(b: Books, l: Ledger, lifetime: int, k: Key, h: int)
    requires Holds(b, l, lifetime)
    ensures (k.1, h) in At(b.nameRows, k.0) <==> exists e ::
        e in At(b.rows, h) && e.name == k.0 && e.claim.outPoint == k.1
    ensures multiset(At(b.nameRows, k.0))[(k.1, h)] <= 1
    ensures forall i, j :: 0 <= i < j < |At(b.rows, h)| ==>
              At(b.rows, h)[i].name != At(b.rows, h)[j].name
              || At(b.rows, h)[i].claim.outPoint != At(b.rows, h)[j].claim.outPoint
  {
    hide Holds, At;
    if (k.1, h) in At(b.nameRows, k.0) {
      var i :| 0 <= i < |At(b.nameRows, k.0)| && At(b.nameRows, k.0)[i] == (k.1, h);
      NameEntry(b, l, lifetime, k.0, i);
      assert (k.0, k.1) == k;
      QueuedEntry(b, l, lifetime, k);
    }
    if e :| e in At(b.rows, h) && e.name == k.0 && e.claim.outPoint == k.1 {
      var i :| 0 <= i < |At(b.rows, h)| && At(b.rows, h)[i] == e;
      RowEntry(b, l, lifetime, h, i);
      assert (k.0, k.1) == k;
      QueuedEntry(b, l, lifetime, k);
    }
    ListedOnce(b, l, lifetime, k, h);
    EntriesDiffer(b, l, lifetime, h);
  }

  lemma ListedOnce(b: Books, l: Ledger, lifetime: int, k: Key, h: int)
    requires Holds(b, l, lifetime)
    ensures multiset(At(b.nameRows, k.0))[(k.1, h)] <= 1
  {
    hide RowsHold, ExpiriesHold, TrieHolds, At, NameSet;
    assert multiset(NameSet(l, k.0))[(k.1, h)] <= 1;
  }

  lemma EntriesDiffer(b: Books, l: Ledger, lifetime: int, h: int)
    requires Holds(b, l, lifetime)
    ensures forall i, j :: 0 <= i < j < |At(b.rows, h)| ==>
              At(b.rows, h)[i].name != At(b.rows, h)[j].name
              || At(b.rows, h)[i].claim.outPoint != At(b.rows, h)[j].claim.outPoint
  {
    hide NamesHold, ExpiriesHold, TrieHolds, At, PlainRow;
    var row := At(b.rows, h);
    forall i, j | 0 <= i < j < |row|
      ensures row[i].name != row[j].name || row[i].claim.outPoint != row[j].claim.outPoint
    {
      RowEntry(b, l, lifetime, h, i);
      RowEntry(b, l, lifetime, h, j);
      NotTwice(PlainRow(row), RowSet(l, h), i, j);
    }
  }

  /** A row that lists a set lists nothing twice. */
  lemma NotTwice<T>(row: seq<T>, listed: set<T>, i: nat, j: nat)
    requires multiset(row) == multiset(listed) && i < j < |row|
    ensures row[i] != row[j]
  {
    CountsTwice(row, i, j);
    assert multiset(listed)[row[j]] <= 1;
  }

  lemma CountsTwice<T>(row: seq<T>, i: nat, j: nat)
    requires i < j < |row|
    ensures row[i] == row[j] ==> 2 <= multiset(row)[row[j]]
  {
    BagWithout(row, j);
    assert (row[..j] + row[j + 1..])[i] == row[i];
    assert row[i] in multiset(row[..j] + row[j + 1..]);
  }

  /** Every claim is in exactly one place. */
  lemma OnePlace(b: Books, l: Ledger, lifetime: int, k: Key)
    requires Holds(b, l, lifetime)
    ensures var inTrie := FindOutPoint(ClaimsAt(b.trie, k.0), k.1) < |ClaimsAt(b.trie, k.0)|;
            && (k in l.claims <==> inTrie || exists h :: (k.1, h) in At(b.nameRows, k.0))
            && !(inTrie && exists h :: (k.1, h) in At(b.nameRows, k.0))
  {
    hide Holds, At, FindOutPoint, ClaimsAt;
    InTrie(b, l, lifetime, k);
    InQueue(b, l, lifetime, k);
    if k in l.due {
      QueuedEntry(b, l, lifetime, k);
    }
  }

  lemma InQueue(b: Books, l: Ledger, lifetime: int, k: Key)
    requires Holds(b, l, lifetime)
    ensures (exists h :: (k.1, h) in At(b.nameRows, k.0)) <==> k in l.due
  {
    hide Holds, At;
    if k in l.due {
      QueuedEntry(b, l, lifetime, k);
      var h := l.due[k];
      assert (k.1, h) in At(b.nameRows, k.0);
    }
    forall h | (k.1, h) in At(b.nameRows, k.0)
      ensures k in l.due
    {
      NamedIsDue(b, l, lifetime, k, h);
    }
  }

  lemma NamedIsDue(b: Books, l: Ledger, lifetime: int, k: Key, h: int)
    requires Holds(b, l, lifetime) && (k.1, h) in At(b.nameRows, k.0)
    ensures k in l.due && l.due[k] == h
  {
    hide Holds, At;
    var i :| 0 <= i < |At(b.nameRows, k.0)| && At(b.nameRows, k.0)[i] == (k.1, h);
    NameEntry(b, l, lifetime, k.0, i);
    assert (k.0, k.1) == k;
  }

  /** Books that hold for the same ledger have the same rows, up to the order in each. */
  lemma SameBooks(b: Books, c: Books, l: Ledger, lifetime: int)
    requires Holds(b, l, lifetime) && Holds(c, l, lifetime)
    ensures forall h :: multiset(PlainRow(At(b.rows, h))) == multiset(PlainRow(At(c.rows, h)))
    ensures forall n :: multiset(At(b.nameRows, n)) == multiset(At(c.nameRows, n))
    ensures forall e :: multiset(At(b.expiries, e)) == multiset(At(c.expiries, e))
    ensures forall n :: ClaimBag(ClaimsAt(b.trie, n)) == ClaimBag(ClaimsAt(c.trie, n))
  {
    hide PlainRow, At, ClaimsAt, ClaimBag, WellFormed, RowSet, NameSet, ExpirySet, TrieSet;
  }
}
