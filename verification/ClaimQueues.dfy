/** The queues as the cache keeps them: rows loaded from the base when first touched, and
    what claims entering and leaving the trie mean for the books. */
module ClaimQueues {
  import opened ClaimTypes
  import opened NameTree
  import opened PathOps
  import opened ClaimMap
  import opened ClaimLedger
  import opened ClaimMoves

  /** The cached rows with one more loaded from the base, or made. */
  function Loaded<K, V>(b: map<K, seq<V>>, c: map<K, seq<V>>, k: K, createIfNotExists: bool): map<K, seq<V>>
  {
    if k in c then c else if k in b then c[k := b[k]] else if createIfNotExists then c[k := []] else c
  }

  lemma LoadedRow<K, V>(b: map<K, seq<V>>, c: map<K, seq<V>>, k: K, create: bool)
    ensures var d := Loaded(b, c, k, create);
            && (k in d ==> d[k] == At(b + c, k))
            && (k !in d ==> !create && At(b + c, k) == [])
            && (k in b + c ==> k in d)
            && b + d == if create then (b + c)[k := At(b + c, k)] else b + c
  {
    var d := Loaded(b, c, k, create);
    if create {
      assert b + d == (b + c)[k := At(b + c, k)];
    } else {
      assert b + d == b + c;
    }
  }

  lemma RowThere<K(!new), V>(m: map<K, seq<V>>, k: K, x: V)
    ensures x in At(m, k) ==> k in m
  {
  }

  lemma SetRow<K, V>(b: map<K, seq<V>>, c: map<K, seq<V>>, k: K, row: seq<V>)
    ensures b + c[k := row] == (b + c)[k := row]
  {
    assert b + c[k := row] == (b + c)[k := row];
  }

  lemma AtSet<K(!new), V>(m: map<K, seq<V>>, k: K, row: seq<V>)
    ensures At(m[k := row], k) == row
    ensures forall x :: x != k ==> At(m[k := row], x) == At(m, x)
  {
  }

  lemma SetSame<K, V>(m: map<K, seq<V>>, k: K, row: seq<V>)
    requires k in m && m[k] == row
    ensures m[k := row] == m
  {
  }

  lemma SetTwice<K, V>(m: map<K, seq<V>>, k: K, row: seq<V>, again: seq<V>)
    ensures m[k := row][k := again] == m[k := again]
  {
  }

  method IndexOf<T(==)>(row: seq<T>, x: T) returns (i: nat)
    ensures i <= |row|
    ensures i < |row| ==> row[i] == x
    ensures i == |row| ==> x !in row
  {
    i := 0;
    while i < |row| && row[i] != x
      invariant i <= |row| && forall j :: 0 <= j < i ==> row[j] != x
    {
      i := i + 1;
    }
  }

  method FindNamed(row: seq<(OutPoint, int)>, outPoint: OutPoint) returns (i: nat)
    ensures i <= |row|
    ensures i < |row| ==> row[i].0 == outPoint
    ensures i == |row| ==> forall e :: e in row ==> e.0 != outPoint
  {
    i := 0;
    while i < |row| && row[i].0 != outPoint
      invariant i <= |row| && forall j :: 0 <= j < i ==> row[j].0 != outPoint
    {
      i := i + 1;
    }
  }

  /** The entry of a claim in a row, at a certain height if one is given. */
  method FindQueued(row: seq<QueueEntry>, name: Name, outPoint: OutPoint, nHeight: Option<int>) returns (i: nat)
    ensures i <= |row|
    ensures i < |row| ==> row[i].name == name && row[i].claim.outPoint == outPoint
                          && (nHeight.Some? ==> row[i].claim.nValidAtHeight == nHeight.value)
    ensures i == |row| ==> forall e :: e in row ==>
              !(e.name == name && e.claim.outPoint == outPoint
                  && (nHeight.Some? ==> e.claim.nValidAtHeight == nHeight.value))
  {
    i := 0;
    while i < |row| && !(row[i].name == name && row[i].claim.outPoint == outPoint
                         && (nHeight.Some? ==> row[i].claim.nValidAtHeight == nHeight.value))
      invariant i <= |row|
      invariant forall j :: 0 <= j < i ==> !(row[j].name == name && row[j].claim.outPoint == outPoint
                                             && (nHeight.Some? ==> row[j].claim.nValidAtHeight == nHeight.value))
    {
      i := i + 1;
    }
  }

  // ---------- what the trie gains and loses ----------

  lemma InsertGains(heap: seq<ClaimValue> -> seq<ClaimValue>, supports: seq<SupportValue>, t: Tree, name: Name,
      claim: ClaimValue)
    requires IsMakeHeap(heap) && Closed(t)
    ensures TrieGains(t, AfterInsert(heap, supports, t, name, claim), name, Plain(claim))
  {
    hide IsMakeHeap, Closed, Inserted, ClaimsAt, Grown, ClaimBag;
    var grown := Grown(heap, ClaimsAt(t, name), claim, supports);
    GrownBag(heap, ClaimsAt(t, name), claim, supports);
    forall n
      ensures ClaimsAt(AfterInsert(heap, supports, t, name, claim), n) == if n == name then grown else ClaimsAt(t, n)
    {
      InsertedAt(t, name, grown, n);
    }
  }

  lemma InsertOthers(heap: seq<ClaimValue> -> seq<ClaimValue>, supports: seq<SupportValue>, t: Tree, name: Name,
      claim: ClaimValue)
    requires Closed(t)
    ensures forall n :: n != name ==> ClaimsAt(AfterInsert(heap, supports, t, name, claim), n) == ClaimsAt(t, n)
  {
    hide Closed, Inserted, ClaimsAt, Grown;
    forall n | n != name
      ensures ClaimsAt(AfterInsert(heap, supports, t, name, claim), n) == ClaimsAt(t, n)
    {
      InsertedAt(t, name, Grown(heap, ClaimsAt(t, name), claim, supports), n);
    }
  }

  /** A removal that finds the claim takes it out; one that does not takes nothing. */
  lemma OneBack<T>(bag: multiset<T>, x: T)
    requires x in bag
    ensures bag - multiset{x} + multiset{x} == bag
  {
  }

  lemma RemoveLoses(heap: seq<ClaimValue> -> seq<ClaimValue>, supports: seq<SupportValue>, t: Tree, name: Name,
      outPoint: OutPoint)
    requires IsMakeHeap(heap) && Closed(t)
    ensures var before := ClaimsAt(t, name); var k := FindOutPoint(before, outPoint);
            var after := AfterRemove(heap, supports, t, name, outPoint);
            if k < |before| then TrieGains(after, t, name, Plain(before[k]))
            else forall n :: ClaimBag(ClaimsAt(after, n)) == ClaimBag(ClaimsAt(t, n))
  {
    hide IsMakeHeap, Closed, AfterRemove, ClaimsAt, Shrunk, ClaimBag, FindOutPoint;
    var before, after := ClaimsAt(t, name), AfterRemove(heap, supports, t, name, outPoint);
    var k := FindOutPoint(before, outPoint);
    RemovedOf(heap, supports, t, name, outPoint);
    ShrunkBag(heap, before, outPoint, supports);
    if k < |before| {
      HasOutPoint(before, outPoint);
      OneBack(ClaimBag(before), Plain(before[k]));
      forall n
        ensures ClaimBag(ClaimsAt(t, n))
            == ClaimBag(ClaimsAt(after, n)) + (if n == name then multiset{Plain(before[k])} else multiset{})
      {
      }
    }
  }

  lemma RemovedOf(heap: seq<ClaimValue> -> seq<ClaimValue>, supports: seq<SupportValue>, t: Tree, name: Name,
      outPoint: OutPoint)
    requires IsMakeHeap(heap) && Closed(t)
    ensures forall n :: ClaimsAt(AfterRemove(heap, supports, t, name, outPoint), n)
                        == if n == name then Shrunk(heap, ClaimsAt(t, name), outPoint, supports) else ClaimsAt(t, n)
  {
    hide IsMakeHeap, Closed, AfterRemove, ClaimsAt, Shrunk;
    var env := Env(heap, map[name := supports]);
    forall n
      ensures ClaimsAt(AfterRemove(heap, supports, t, name, outPoint), n)
              == if n == name then Shrunk(heap, ClaimsAt(t, name), outPoint, supports) else ClaimsAt(t, n)
    {
      AfterRemoveAt(env, t, name, outPoint, n);
    }
  }

  /** The same claims in another order are the same books. */
  lemma HoldsReordered(b: Books, b': Books, l: Ledger, lifetime: int)
    requires Holds(b, l, lifetime) && b'.rows == b.rows && b'.nameRows == b.nameRows && b'.expiries == b.expiries
    requires forall n :: ClaimBag(ClaimsAt(b'.trie, n)) == ClaimBag(ClaimsAt(b.trie, n))
    ensures Holds(b', l, lifetime)
  {
    hide WellFormed, RowsHold, NamesHold, ExpiriesHold, ClaimsAt, ClaimBag;
  }

  // ---------- names whose front claim changes ----------

  function Front(claims: seq<ClaimValue>): Option<ClaimValue>
  {
    if claims == [] then None else Some(Plain(claims[0]))
  }

  /** Every name with another front claim than in the base is noted. */
  ghost predicate Watched(b: Tree, t: Tree, names: set<Name>)
  {
    forall n :: n in names || Front(ClaimsAt(b, n)) == Front(ClaimsAt(t, n))
  }

  lemma InsertWatched(heap: seq<ClaimValue> -> seq<ClaimValue>, supports: seq<SupportValue>, b: Tree, t: Tree,
      names: set<Name>, name: Name, claim: ClaimValue)
    requires Closed(t) && Watched(b, t, names)
    ensures var u := AfterInsert(heap, supports, t, name, claim);
            Watched(b, u, names + if TopChanged(ClaimsAt(t, name), ClaimsAt(u, name)) then {name} else {})
  {
    hide Closed, Inserted, ClaimsAt, Grown;
    var grown := Grown(heap, ClaimsAt(t, name), claim, supports);
    forall n
      ensures ClaimsAt(AfterInsert(heap, supports, t, name, claim), n) == if n == name then grown else ClaimsAt(t, n)
    {
      InsertedAt(t, name, grown, n);
    }
  }

  lemma RemoveWatched(heap: seq<ClaimValue> -> seq<ClaimValue>, supports: seq<SupportValue>, b: Tree, t: Tree,
      names: set<Name>, name: Name, outPoint: OutPoint)
    requires IsMakeHeap(heap) && Closed(t) && Watched(b, t, names)
    requires FindOutPoint(ClaimsAt(t, name), outPoint) < |ClaimsAt(t, name)|
    ensures var u := AfterRemove(heap, supports, t, name, outPoint);
            Watched(b, u, names + if TopChanged(ClaimsAt(t, name), ClaimsAt(u, name)) then {name} else {})
  {
    hide IsMakeHeap, Closed, AfterRemove, ClaimsAt, Shrunk, FindOutPoint;
    RemovedOf(heap, supports, t, name, outPoint);
  }

  // ---------- the queue entry of a claim ----------

  /** A claim found in its name row and then in the row of its height is the queued one. */
  lemma QueueFound(b: Books, l: Ledger, lifetime: int, k: Key, j: nat, i: nat)
    requires Holds(b, l, lifetime) && j < |At(b.nameRows, k.0)| && At(b.nameRows, k.0)[j].0 == k.1
    requires i < |At(b.rows, At(b.nameRows, k.0)[j].1)|
    requires var e := At(b.rows, At(b.nameRows, k.0)[j].1)[i]; e.name == k.0 && e.claim.outPoint == k.1
    ensures k in l.due && k in l.claims && l.due[k] == At(b.nameRows, k.0)[j].1
    ensures Plain(At(b.rows, l.due[k])[i].claim) == l.claims[k]
  {
    hide Holds, At;
    NameEntry(b, l, lifetime, k.0, j);
    RowEntry(b, l, lifetime, At(b.nameRows, k.0)[j].1, i);
  }
}
