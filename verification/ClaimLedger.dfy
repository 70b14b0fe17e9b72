/** Where every claim is: in the trie, or in the queue for some height. The queues are kept
    as rows by height, by name and by expiration height; each row lists a set of claims that
    the ledger determines. */
module ClaimLedger {
  import opened ClaimTypes
  import opened NameTree
  import opened PathOps
  import opened ClaimMap

  type Key = (Name, OutPoint)

  datatype QueueEntry = QueueEntry(name: Name, claim: ClaimValue)

  /** Every claim, and for the queued ones the height they are due at. */
  datatype Ledger = Ledger(claims: map<Key, ClaimValue>, due: map<Key, int>)

  ghost predicate WellFormed(l: Ledger)
  {
    && l.due.Keys <= l.claims.Keys
    && forall k :: k in l.claims ==> l.claims[k].outPoint == k.1 && Plain(l.claims[k]) == l.claims[k]
  }

  /** No two claims of a name share an id. */
  ghost predicate UniqueIds(l: Ledger)
  {
    forall j, k :: j in l.claims && k in l.claims && j.0 == k.0 && j != k ==> l.claims[j].claimId != l.claims[k].claimId
  }

  function At<K, V>(m: map<K, seq<V>>, k: K): seq<V>
  {
    if k in m then m[k] else []
  }

  // ---------- what each row lists ----------

  ghost function RowSet(l: Ledger, h: int): set<QueueEntry>
    requires WellFormed(l)
  {
    set k | k in l.due && l.due[k] == h :: QueueEntry(k.0, l.claims[k])
  }

  ghost function NameSet(l: Ledger, name: Name): set<(OutPoint, int)>
  {
    set k | k in l.due && k.0 == name :: (k.1, l.due[k])
  }

  ghost function ExpirySet(l: Ledger, lifetime: int, e: int): set<Key>
  {
    set k | k in l.claims && l.claims[k].nHeight + lifetime == e
  }

  ghost function TrieSet(l: Ledger, name: Name): set<ClaimValue>
    requires WellFormed(l)
  {
    set k | k in l.claims && k !in l.due && k.0 == name :: l.claims[k]
  }

  function PlainRow(row: seq<QueueEntry>): (r: seq<QueueEntry>)
    ensures |r| == |row|
    ensures forall i :: 0 <= i < |row| ==> r[i] == QueueEntry(row[i].name, Plain(row[i].claim))
  {
    if row == [] then []
        else PlainRow(row[..|row| - 1]) + [QueueEntry(row[|row| - 1].name, Plain(row[|row| - 1].claim))]
  }

  ghost predicate RowsHold(rows: map<int, seq<QueueEntry>>, l: Ledger)
    requires WellFormed(l)
  {
    forall h :: multiset(PlainRow(At(rows, h))) == multiset(RowSet(l, h))
  }

  ghost predicate NamesHold(nameRows: map<Name, seq<(OutPoint, int)>>, l: Ledger)
  {
    forall name :: multiset(At(nameRows, name)) == multiset(NameSet(l, name))
  }

  ghost predicate ExpiriesHold(expiries: map<int, seq<Key>>, l: Ledger, lifetime: int)
  {
    forall e :: multiset(At(expiries, e)) == multiset(ExpirySet(l, lifetime, e))
  }

  ghost predicate TrieHolds(t: Tree, l: Ledger)
    requires WellFormed(l)
  {
    forall name :: ClaimBag(ClaimsAt(t, name)) == multiset(TrieSet(l, name))
  }

  /** The trie holds the claims of the ledger that do not wait. */
  ghost predicate InTrieThen(t: Tree, l: Ledger)
  {
    WellFormed(l) && TrieHolds(t, l)
  }

  // ---------- moves of one claim ----------

  ghost function Enqueued(l: Ledger, k: Key, c: ClaimValue, h: int): Ledger
  {
    Ledger(l.claims[k := Plain(c)], l.due[k := h])
  }

  /** Straight into the trie. */
  ghost function Entered(l: Ledger, k: Key, c: ClaimValue): Ledger
  {
    Ledger(l.claims[k := Plain(c)], l.due)
  }

  ghost function Gone(l: Ledger, k: Key): Ledger
  {
    Ledger(l.claims - {k}, l.due - {k})
  }

  /** From the trie back into the queue. */
  ghost function Requeued(l: Ledger, k: Key, h: int): Ledger
  {
    Ledger(l.claims, l.due[k := h])
  }

  // ---------- what a move of one claim changes in each row ----------

  ghost predicate SameBut(l: Ledger, m: Ledger, k: Key)
  {
    && (forall j :: j != k ==> (j in l.claims <==> j in m.claims) && (j in l.due <==> j in m.due))
    && (forall j :: j != k && j in l.claims ==> l.claims[j] == m.claims[j])
    && (forall j :: j != k && j in l.due ==> l.due[j] == m.due[j])
  }

  /** What one key adds to each row. */
  ghost function RowPart(l: Ledger, k: Key, h: int): set<QueueEntry>
    requires WellFormed(l)
  {
    if k in l.due && l.due[k] == h then {QueueEntry(k.0, l.claims[k])} else {}
  }

  ghost function NamePart(l: Ledger, k: Key, name: Name): set<(OutPoint, int)>
  {
    if k in l.due && k.0 == name then {(k.1, l.due[k])} else {}
  }

  ghost function ExpiryPart(l: Ledger, lifetime: int, k: Key, e: int): set<Key>
  {
    if k in l.claims && l.claims[k].nHeight + lifetime == e then {k} else {}
  }

  ghost function TriePart(l: Ledger, k: Key, name: Name): set<ClaimValue>
    requires WellFormed(l)
  {
    if k in l.claims && k !in l.due && k.0 == name then {l.claims[k]} else {}
  }

  lemma BagExchange<T>(a: set<T>, b: set<T>, rest: set<T>, x: set<T>, y: set<T>)
    requires a == rest + x && b == rest + y && rest !! x && rest !! y
    ensures x <= a
    ensures multiset(b) == multiset(a) - multiset(x) + multiset(y)
  {
  }

  lemma RowChange(l: Ledger, m: Ledger, k: Key, h: int)
    requires WellFormed(l) && WellFormed(m) && SameBut(l, m, k)
    ensures RowPart(l, k, h) <= RowSet(l, h)
    ensures multiset(RowSet(m, h)) == multiset(RowSet(l, h)) - multiset(RowPart(l, k, h)) + multiset(RowPart(m, k, h))
  {
    var rest := set j | j in l.due && j != k && l.due[j] == h :: QueueEntry(j.0, l.claims[j]);
    var rest' := set j | j in m.due && j != k && m.due[j] == h :: QueueEntry(j.0, m.claims[j]);
    assert rest == rest';
    RowRest(l, k, h);
    RowRest(m, k, h);
    BagExchange(RowSet(l, h), RowSet(m, h), rest, RowPart(l, k, h), RowPart(m, k, h));
  }

  lemma RowRest(l: Ledger, k: Key, h: int)
    requires WellFormed(l)
    ensures var rest := set j | j in l.due && j != k && l.due[j] == h :: QueueEntry(j.0, l.claims[j]);
            RowSet(l, h) == rest + RowPart(l, k, h) && rest !! RowPart(l, k, h)
  {
  }

  lemma NameChange(l: Ledger, m: Ledger, k: Key, name: Name)
    requires WellFormed(l) && WellFormed(m) && SameBut(l, m, k)
    ensures NamePart(l, k, name) <= NameSet(l, name)
    ensures multiset(NameSet(m, name))
        == multiset(NameSet(l, name)) - multiset(NamePart(l, k, name)) + multiset(NamePart(m, k, name))
  {
    var rest := set j | j in l.due && j != k && j.0 == name :: (j.1, l.due[j]);
    var rest' := set j | j in m.due && j != k && j.0 == name :: (j.1, m.due[j]);
    assert rest == rest';
    NameRest(l, k, name);
    NameRest(m, k, name);
    BagExchange(NameSet(l, name), NameSet(m, name), rest, NamePart(l, k, name), NamePart(m, k, name));
  }

  lemma NameRest(l: Ledger, k: Key, name: Name)
    ensures var rest := set j | j in l.due && j != k && j.0 == name :: (j.1, l.due[j]);
            NameSet(l, name) == rest + NamePart(l, k, name) && rest !! NamePart(l, k, name)
  {
  }

  lemma ExpiryChange(l: Ledger, m: Ledger, lifetime: int, k: Key, e: int)
    requires SameBut(l, m, k)
    ensures ExpiryPart(l, lifetime, k, e) <= ExpirySet(l, lifetime, e)
    ensures multiset(ExpirySet(m, lifetime, e))
            == multiset(ExpirySet(l, lifetime, e)) - multiset(ExpiryPart(l, lifetime, k, e))
                + multiset(ExpiryPart(m, lifetime, k, e))
  {
    var rest := set j | j in l.claims && j != k && l.claims[j].nHeight + lifetime == e;
    BagExchange(ExpirySet(l, lifetime, e), ExpirySet(m, lifetime, e), rest, ExpiryPart(l, lifetime, k, e),
        ExpiryPart(m, lifetime, k, e));
  }

  lemma TrieChange(l: Ledger, m: Ledger, k: Key, name: Name)
    requires WellFormed(l) && WellFormed(m) && SameBut(l, m, k)
    ensures TriePart(l, k, name) <= TrieSet(l, name)
    ensures multiset(TrieSet(m, name))
        == multiset(TrieSet(l, name)) - multiset(TriePart(l, k, name)) + multiset(TriePart(m, k, name))
  {
    var rest := set j | j in l.claims && j !in l.due && j != k && j.0 == name :: l.claims[j];
    var rest' := set j | j in m.claims && j !in m.due && j != k && j.0 == name :: m.claims[j];
    assert rest == rest';
    TrieRest(l, k, name);
    TrieRest(m, k, name);
    BagExchange(TrieSet(l, name), TrieSet(m, name), rest, TriePart(l, k, name), TriePart(m, k, name));
  }

  lemma TrieRest(l: Ledger, k: Key, name: Name)
    requires WellFormed(l)
    ensures var rest := set j | j in l.claims && j !in l.due && j != k && j.0 == name :: l.claims[j];
            TrieSet(l, name) == rest + TriePart(l, k, name) && rest !! TriePart(l, k, name)
  {
  }

  type Rows = map<int, seq<QueueEntry>>
  type NameRows = map<Name, seq<(OutPoint, int)>>
  type Expiries = map<int, seq<Key>>

  /** The queues and the trie. */
  datatype Books = Books(rows: Rows, nameRows: NameRows, expiries: Expiries, trie: Tree)

  /** All rows and the trie list what the ledger says, nothing more and nothing twice. */
  ghost predicate Holds(b: Books, l: Ledger, lifetime: int)
  {
    && WellFormed(l)
    && RowsHold(b.rows, l)
    && NamesHold(b.nameRows, l)
    && ExpiriesHold(b.expiries, l, lifetime)
    && TrieHolds(b.trie, l)
  }

  // ---------- how the rows have to change when one claim moves ----------

  ghost predicate RowsMove(r: Rows, r': Rows, l: Ledger, m: Ledger, k: Key)
    requires WellFormed(l) && WellFormed(m)
  {
    forall h :: multiset(PlainRow(At(r', h)))
                == multiset(PlainRow(At(r, h))) - multiset(RowPart(l, k, h)) + multiset(RowPart(m, k, h))
  }

  ghost predicate NamesMove(r: NameRows, r': NameRows, l: Ledger, m: Ledger, k: Key)
  {
    forall n :: multiset(At(r', n)) == multiset(At(r, n)) - multiset(NamePart(l, k, n)) + multiset(NamePart(m, k, n))
  }

  ghost predicate ExpiriesMove(r: Expiries, r': Expiries, l: Ledger, m: Ledger, lifetime: int, k: Key)
  {
    forall e :: multiset(At(r', e))
                == multiset(At(r, e)) - multiset(ExpiryPart(l, lifetime, k, e))
                    + multiset(ExpiryPart(m, lifetime, k, e))
  }

  ghost predicate TrieMoves(t: Tree, t': Tree, l: Ledger, m: Ledger, k: Key)
    requires WellFormed(l) && WellFormed(m)
  {
    forall n :: ClaimBag(ClaimsAt(t', n))
                == ClaimBag(ClaimsAt(t, n)) - multiset(TriePart(l, k, n)) + multiset(TriePart(m, k, n))
  }

  lemma HoldsAfter(b: Books, b': Books, l: Ledger, m: Ledger, lifetime: int, k: Key)
    requires Holds(b, l, lifetime) && WellFormed(m) && SameBut(l, m, k)
    requires RowsMove(b.rows, b'.rows, l, m, k) && NamesMove(b.nameRows, b'.nameRows, l, m, k)
    requires ExpiriesMove(b.expiries, b'.expiries, l, m, lifetime, k) && TrieMoves(b.trie, b'.trie, l, m, k)
    ensures Holds(b', m, lifetime)
  {
    hide WellFormed, SameBut, RowSet, NameSet, ExpirySet, TrieSet, RowPart, NamePart, ExpiryPart, TriePart, PlainRow,
        At, ClaimsAt, ClaimBag;
    forall h
      ensures multiset(PlainRow(At(b'.rows, h))) == multiset(RowSet(m, h))
    {
      RowChange(l, m, k, h);
    }
    forall n
      ensures multiset(At(b'.nameRows, n)) == multiset(NameSet(m, n))
    {
      NameChange(l, m, k, n);
    }
    forall n
      ensures ClaimBag(ClaimsAt(b'.trie, n)) == multiset(TrieSet(m, n))
    {
      TrieChange(l, m, k, n);
    }
    forall e
      ensures multiset(At(b'.expiries, e)) == multiset(ExpirySet(m, lifetime, e))
    {
      ExpiryChange(l, m, lifetime, k, e);
    }
  }
}
