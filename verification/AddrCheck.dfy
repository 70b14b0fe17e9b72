/** The consistency check of the address manager, what it decides, and the list of addresses
    it hands out. */
module AddrCheck {
  import opened AddrState
  import opened Sizes

  // ---------- what the check decides ----------

  /** What is checked of one entry. Looking up an address that is not there makes it 0. */
  predicate EntryPasses(info: Infos, addr: Addrs, random: seq<int>, id: int)
    requires id in info
  {
    var i := info[id];
    && (if i.fInTried then i.nLastSuccess != 0 && i.nRefCount == 0 else 1 <= i.nRefCount <= NEW_BUCKETS_PER_ADDRESS)
    && (if i.address.service.ip in addr then addr[i.address.service.ip] else 0) == id
    && 0 <= i.nRandomPos < |random| && random[i.nRandomPos] == id
    && 0 <= i.nLastTry && 0 <= i.nLastSuccess
  }

  ghost function TriedIds(info: Infos): set<int>
  {
    set id | id in info && info[id].fInTried
  }

  ghost function NewIds(info: Infos): set<int>
  {
    set id | id in info && !info[id].fInTried
  }

  ghost predicate RefsExact(info: Infos, news: Slots)
  {
    forall id :: id in info && !info[id].fInTried ==> info[id].nRefCount == |SlotsOf(news, id)|
  }

  ghost predicate Passes(env: Env, nKey: int, info: Infos, addr: Addrs, random: seq<int>, news: Slots, tried: Slots,
                         nTried: int, nNew: int)
  {
    && |random| == nTried + nNew
    && (forall id :: id in info ==> EntryPasses(info, addr, random, id))
    && |TriedIds(info)| == nTried && |NewIds(info)| == nNew
    && TriedMatches(env, nKey, info, tried)
    && NewPlaced(env, nKey, info, news) && RefsExact(info, news)
    && nKey != 0
  }

  // ---------- sizes ----------

  predicate Least(ids: set<int>, n: int)
  {
    n in ids && forall id :: id in ids ==> n <= id
  }

  lemma SomeId(ids: set<int>)
    ensures ids == {} || exists x :: x in ids
  {
    if forall x :: x !in ids {
      assert ids == {};
    }
  }

  lemma {:induction false} LeastId(ids: set<int>) returns (n: int)
    requires ids != {}
    ensures Least(ids, n)
    decreases |ids|
  {
    SomeId(ids);
    var x :| x in ids;
    var rest := ids - {x};
    assert ids == rest + {x};
    n := x;
    if rest != {} {
      var least := LeastId(rest);
      n := if least <= x then least else x;
    }
  }

  lemma RandomSize(info: Infos, random: seq<int>)
    requires RandomMatches(info, random)
    ensures |random| == |info|
  {
    DistinctSize(random);
    forall x
      ensures x in random <==> x in info
    {
      if x in info {
        assert random[info[x].nRandomPos] == x;
      }
    }
    assert (set x | x in random) == info.Keys;
    assert |info.Keys| == |info|;
  }

  /** Tried entries and tried slots are as many. */
  lemma TriedSize(env: Env, nKey: int, info: Infos, tried: Slots)
    requires TriedMatches(env, nKey, info, tried)
    ensures |TriedIds(info)| == |tried|
  {
    hide TriedSlot;
    ValuesSize(tried);
    forall id
      ensures id in TriedIds(info) <==> id in tried.Values
    {
      if id in TriedIds(info) {
        assert TriedSlot(env, nKey, info[id]) in tried;
      }
    }
    assert TriedIds(info) == tried.Values;
  }

  lemma IdsSplit(info: Infos)
    ensures |TriedIds(info)| + |NewIds(info)| == |info|
  {
    assert TriedIds(info) + NewIds(info) == info.Keys && TriedIds(info) !! NewIds(info);
    assert |info.Keys| == |info|;
  }

  // ---------- consistent states pass, and states that pass are consistent ----------

  lemma ConsistentPasses(env: Env, nKey: int, nIdCount: int, info: Infos, addr: Addrs, random: seq<int>, news: Slots,
                         tried: Slots, nTried: int, nNew: int)
    requires Consistent(env, nKey, nIdCount, info, addr, random, news, tried, {}) && nKey != 0
    requires Counted(info, tried, {}, nTried, nNew)
    ensures Passes(env, nKey, info, addr, random, news, tried, nTried, nNew)
  {
    hide TriedSlot, GetBucketPosition, SlotsOf;
    RandomSize(info, random);
    TriedSize(env, nKey, info, tried);
    IdsSplit(info);
    TriedUnreferenced(env, nKey, info, news);
  }

  lemma TriedUnreferenced(env: Env, nKey: int, info: Infos, news: Slots)
    requires NewPlaced(env, nKey, info, news)
    ensures forall id :: id in info && info[id].fInTried ==> |SlotsOf(news, id)| == 0
  {
    hide GetBucketPosition;
    forall id | id in info && info[id].fInTried
      ensures |SlotsOf(news, id)| == 0
    {
      assert SlotsOf(news, id) == {};
    }
  }

  /** A state that passes is consistent, as long as ids are below the id counter, and the
      address map has no address too many or too few. */
  lemma PassesConsistent(env: Env, nKey: int, nIdCount: int, info: Infos, addr: Addrs, random: seq<int>, news: Slots,
                         tried: Slots, nTried: int, nNew: int)
    requires Passes(env, nKey, info, addr, random, news, tried, nTried, nNew)
    requires 0 <= nIdCount && forall id :: id in info ==> 0 <= id < nIdCount
    requires forall a :: a in addr <==> exists id :: id in info && info[id].address.service.ip == a
    ensures Consistent(env, nKey, nIdCount, info, addr, random, news, tried, {})
        && Counted(info, tried, {}, nTried, nNew)
  {
    hide TriedSlot, GetBucketPosition, SlotsOf;
    TriedSize(env, nKey, info, tried);
    IdsSplit(info);
    TriedUnreferenced(env, nKey, info, news);
    PlacesFill(info, addr, random);
    assert AddrsMatch(info, addr);
  }

  lemma PlacesFill(info: Infos, addr: Addrs, random: seq<int>)
    requires |random| == |info| && forall id :: id in info ==> EntryPasses(info, addr, random, id)
    ensures RandomMatches(info, random)
  {
    var places := map id | id in info :: info[id].nRandomPos;
    assert places.Keys == info.Keys && |places.Keys| == |places| && |info.Keys| == |info|;
    assert forall k :: k in places ==> places[k] in Range(|random|);
    assert forall j, k :: j in places && k in places && j != k ==> places[j] != places[k];
    ReachesAll(places, Range(|random|));
    forall i | 0 <= i < |random|
      ensures random[i] in info && info[random[i]].nRandomPos == i
    {
      assert i in places.Values;
      var id := KeyOf(places, i);
      assert random[info[id].nRandomPos] == id;
    }
  }

  // ---------- scanning a table ----------

  /** Every address gives the same id, where one that is not there gives 0. */
  ghost predicate SameLookups(a: Addrs, b: Addrs)
  {
    forall ip :: (if ip in a then a[ip] else 0) == (if ip in b then b[ip] else 0)
  }

  lemma EntriesFound(info: Infos, before: Addrs, after: Addrs, random: seq<int>)
    requires SameLookups(before, after)
    requires forall id :: id in info ==> EntryPasses(info, before, random, id) && info[id].address.service.ip in after
    ensures forall id :: id in info ==>
              info[id].address.service.ip in after && after[info[id].address.service.ip] == id
  {
    forall id | id in info
      ensures info[id].address.service.ip in after && after[info[id].address.service.ip] == id
    {
      assert EntryPasses(info, before, random, id);
    }
  }

  ghost function NewRefs(info: Infos): map<int, int>
  {
    map id | id in info && !info[id].fInTried :: info[id].nRefCount
  }

  lemma Collected(info: Infos, setTried: set<int>, mapNew: map<int, int>)
    requires forall id :: id in setTried <==> id in info && info[id].fInTried
    requires forall id :: id in mapNew <==> id in info && !info[id].fInTried
    requires forall id :: id in mapNew ==> mapNew[id] == info[id].nRefCount
    ensures setTried == TriedIds(info) && mapNew == NewRefs(info)
  {
    assert forall id :: id in setTried <==> id in TriedIds(info);
    assert forall id :: id in mapNew <==> id in NewRefs(info);
    assert forall id :: id in mapNew ==> mapNew[id] == NewRefs(info)[id];
  }

  /** The slots before a position. */
  ghost function Prior(slots: Slots, bucket: int, position: int): Slots
  {
    map s | s in slots && (s.0 < bucket || (s.0 == bucket && s.1 < position)) :: slots[s]
  }

  lemma PriorNext(slots: Slots, bucket: int, position: int)
    ensures Prior(slots, bucket, position + 1)
            == if (bucket, position) in slots
                then Prior(slots, bucket, position)[(bucket, position) := slots[(bucket, position)]]
               else Prior(slots, bucket, position)
    ensures (bucket, position) !in Prior(slots, bucket, position)
  {
    var s := (bucket, position);
    forall r | r in slots && r.0 == bucket && r.1 == position
      ensures r == s
    {
    }
    var a, b := Prior(slots, bucket, position + 1), Prior(slots, bucket, position);
    if s in slots {
      assert a == b[s := slots[s]];
    } else {
      assert a == b;
    }
  }

  lemma PriorRow(slots: Slots, bucket: int)
    requires forall s :: s in slots ==> 0 <= s.0 && 0 <= s.1 < BUCKET_SIZE
    ensures Prior(slots, bucket, BUCKET_SIZE) == Prior(slots, bucket + 1, 0)
  {
  }

  lemma PriorAll(slots: Slots, buckets: int)
    requires forall s :: s in slots ==> 0 <= s.0 < buckets
    ensures Prior(slots, buckets, 0) == slots
  {
  }

  /** The slots scanned are right, and what is left are the tried entries not met yet. */
  ghost predicate TriedScanned(env: Env, nKey: int, info: Infos, done: Slots, left: set<int>)
  {
    && (forall s :: s in done ==> done[s] in info && info[done[s]].fInTried && TriedSlot(env, nKey, info[done[s]]) == s)
    && (forall id :: id in left <==> id in info && info[id].fInTried && forall s :: s in done ==> done[s] != id)
  }

  lemma NothingScanned(env: Env, nKey: int, info: Infos, slots: Slots)
    requires forall s :: s in slots ==> 0 <= s.0 && 0 <= s.1
    ensures TriedScanned(env, nKey, info, Prior(slots, 0, 0), TriedIds(info))
  {
  }

  /** One more slot. A table that goes wrong there does not match. */
  lemma ScanTried(env: Env, nKey: int, info: Infos, slots: Slots, n: int, i: int, left: set<int>, id: int)
    requires TriedScanned(env, nKey, info, Prior(slots, n, i), left) && ((n, i) in slots ==> slots[(n, i)] == id)
    ensures (n, i) !in slots ==> TriedScanned(env, nKey, info, Prior(slots, n, i + 1), left)
    ensures (n, i) in slots && id !in left ==> !TriedMatches(env, nKey, info, slots)
    ensures id in left ==> id in info
    ensures (n, i) in slots && id in left && TriedSlot(env, nKey, info[id]) != (n, i)
        ==> !TriedMatches(env, nKey, info, slots)
    ensures (n, i) in slots && id in left && TriedSlot(env, nKey, info[id]) == (n, i) ==>
              TriedScanned(env, nKey, info, Prior(slots, n, i + 1), left - {id})
  {
    hide TriedSlot, Prior;
    PriorNext(slots, n, i);
    if (n, i) in slots {
      PriorPart(slots, n, i);
      if id !in left && id in info && info[id].fInTried {
        var s :| s in Prior(slots, n, i) && Prior(slots, n, i)[s] == id;
        assert TriedSlot(env, nKey, info[id]) == s;
      }
      if id in left && TriedSlot(env, nKey, info[id]) == (n, i) {
        ScannedOne(env, nKey, info, Prior(slots, n, i), (n, i), left, id);
      }
    }
  }

  lemma ScannedOne(env: Env, nKey: int, info: Infos, done: Slots, s: Slot, left: set<int>, id: int)
    requires TriedScanned(env, nKey, info, done, left) && s !in done && id in left && id in info
        && TriedSlot(env, nKey, info[id]) == s
    ensures TriedScanned(env, nKey, info, done[s := id], left - {id})
  {
    hide TriedSlot;
    var more := done[s := id];
    forall j
      ensures j in left - {id} <==> j in info && info[j].fInTried && forall r :: r in more ==> more[r] != j
    {
      assert j in left - {id} <==> j in left && j != id;
      assert more[s] == id;
      if j in left - {id} {
        assert forall r :: r in more ==> r == s || r in done;
      } else if j != id && j in info && info[j].fInTried {
        var r :| r in done && done[r] == j;
        assert r in more && more[r] == j;
      }
    }
  }

  lemma PriorPart(slots: Slots, bucket: int, position: int)
    ensures forall s ::
        s in Prior(slots, bucket, position) ==> s in slots && slots[s] == Prior(slots, bucket, position)[s]
  {
  }

  lemma ScannedTried(env: Env, nKey: int, info: Infos, slots: Slots, left: set<int>)
    requires TriedScanned(env, nKey, info, slots, left)
    ensures TriedMatches(env, nKey, info, slots) <==> left == {}
  {
    hide TriedSlot;
    if TriedMatches(env, nKey, info, slots) {
      assert forall id :: id !in left;
    }
    if left == {} {
      forall id | id in info && info[id].fInTried
        ensures TriedSlot(env, nKey, info[id]) in slots && slots[TriedSlot(env, nKey, info[id])] == id
      {
        assert id !in left;
        var s :| s in slots && slots[s] == id;
      }
    }
  }

  /** The slots scanned are right, no entry has more than its count, and what is left are the
      references not met yet. */
  ghost predicate NewScanned(env: Env, nKey: int, info: Infos, done: Slots, left: map<int, int>)
  {
    && NewPlaced(env, nKey, info, done)
    && (forall id :: id in info && !info[id].fInTried ==> |SlotsOf(done, id)| <= info[id].nRefCount)
    && (forall id :: id in left <==> id in info && !info[id].fInTried && |SlotsOf(done, id)| < info[id].nRefCount)
    && (forall id :: id in left ==> left[id] == info[id].nRefCount - |SlotsOf(done, id)|)
  }

  lemma NoReferenceScanned(env: Env, nKey: int, info: Infos, slots: Slots)
    requires forall s :: s in slots ==> 0 <= s.0 && 0 <= s.1
    requires forall id :: id in info && !info[id].fInTried ==> info[id].nRefCount >= 1
    ensures NewScanned(env, nKey, info, Prior(slots, 0, 0), NewRefs(info))
  {
    hide GetBucketPosition;
    assert Prior(slots, 0, 0) == map[];
    assert forall id :: SlotsOf(map[], id) == {};
  }

  function OneLess(left: map<int, int>, id: int): map<int, int>
    requires id in left
  {
    if left[id] - 1 == 0 then left - {id} else left[id := left[id] - 1]
  }

  /** One more slot. A table that goes wrong there is not the right one. */
  lemma ScanNew(env: Env, nKey: int, info: Infos, slots: Slots, n: int, i: int, left: map<int, int>, id: int)
    requires NewScanned(env, nKey, info, Prior(slots, n, i), left) && ((n, i) in slots ==> slots[(n, i)] == id)
    requires 0 <= n < NEW_BUCKET_COUNT
    ensures (n, i) !in slots ==> NewScanned(env, nKey, info, Prior(slots, n, i + 1), left)
    ensures (n, i) in slots && id !in left ==> !(NewPlaced(env, nKey, info, slots) && RefsExact(info, slots))
    ensures id in left ==> id in info
    ensures (n, i) in slots && id in left && GetBucketPosition(env, nKey, info[id], true, n) != i
        ==> !NewPlaced(env, nKey, info, slots)
    ensures (n, i) in slots && id in left && GetBucketPosition(env, nKey, info[id], true, n) == i ==>
              NewScanned(env, nKey, info, Prior(slots, n, i + 1), OneLess(left, id))
  {
    hide GetBucketPosition, Prior, SlotsOf;
    PriorNext(slots, n, i);
    if (n, i) in slots {
      ScanNewSlot(env, nKey, info, slots, n, i, left, id);
    }
  }

  lemma ScanNewSlot(env: Env, nKey: int, info: Infos, slots: Slots, n: int, i: int, left: map<int, int>, id: int)
    requires NewScanned(env, nKey, info, Prior(slots, n, i), left) && (n, i) in slots && slots[(n, i)] == id
    requires 0 <= n < NEW_BUCKET_COUNT
    ensures id !in left ==> !(NewPlaced(env, nKey, info, slots) && RefsExact(info, slots))
    ensures id in left ==> id in info
    ensures id in left && GetBucketPosition(env, nKey, info[id], true, n) != i ==> !NewPlaced(env, nKey, info, slots)
    ensures id in left && GetBucketPosition(env, nKey, info[id], true, n) == i ==>
              NewScanned(env, nKey, info, Prior(slots, n, i)[(n, i) := id], OneLess(left, id))
  {
    hide GetBucketPosition, Prior, SlotsOf;
    PriorNext(slots, n, i);
    var done := Prior(slots, n, i);
    if id in left && GetBucketPosition(env, nKey, info[id], true, n) == i {
      ReferenceScanned(env, nKey, info, done, (n, i), left, id);
    }
    if id !in left && id in info && !info[id].fInTried {
      SlotTaken(done, (n, i), id, id);
      MoreSlots(slots, n, i, id);
    }
  }

  lemma MoreSlots(slots: Slots, n: int, i: int, id: int)
    ensures |SlotsOf(Prior(slots, n, i + 1), id)| <= |SlotsOf(slots, id)|
  {
    SubsetSize(SlotsOf(Prior(slots, n, i + 1), id), SlotsOf(slots, id));
  }

  lemma ReferenceScanned(env: Env, nKey: int, info: Infos, done: Slots, s: Slot, left: map<int, int>, id: int)
    requires NewScanned(env, nKey, info, done, left) && s !in done && id in left && id in info
    requires 0 <= s.0 < NEW_BUCKET_COUNT && s.1 == GetBucketPosition(env, nKey, info[id], true, s.0)
    ensures NewScanned(env, nKey, info, done[s := id], OneLess(left, id))
  {
    hide GetBucketPosition, SlotsOf;
    forall j
      ensures |SlotsOf(done[s := id], j)| == |SlotsOf(done, j)| + if id == j then 1 else 0
    {
      SlotTaken(done, s, id, j);
    }
    var less := OneLess(left, id);
    assert forall j :: j != id ==> (j in less <==> j in left) && (j in left ==> less[j] == left[j]);
  }

  lemma ScannedNew(env: Env, nKey: int, info: Infos, slots: Slots, left: map<int, int>)
    requires NewScanned(env, nKey, info, slots, left)
    ensures NewPlaced(env, nKey, info, slots) && RefsExact(info, slots) <==> left == map[]
  {
    hide GetBucketPosition, SlotsOf;
    if RefsExact(info, slots) {
      assert forall id :: id !in left;
    }
    if left == map[] {
      assert forall id :: id !in left;
    }
  }

  lemma AllAddressed(env: Env, nKey: int, nIdCount: int, info: Infos, addr: Addrs, random: seq<int>, news: Slots,
      tried: Slots, loose: set<int>)
    requires Consistent(env, nKey, nIdCount, info, addr, random, news, tried, loose)
    ensures forall id :: id in info ==> info[id].address.service.ip in addr
  {
    hide RandomMatches, TriedMatches, NewPlaced, RefsMatch, TimesOk;
  }

  lemma RefsPositive(info: Infos, addr: Addrs, random: seq<int>)
    requires forall id :: id in info ==> EntryPasses(info, addr, random, id)
    ensures forall id :: id in info && !info[id].fInTried ==> info[id].nRefCount >= 1
  {
  }

  lemma NewRefsSize(info: Infos)
    ensures |NewRefs(info)| == |NewIds(info)|
  {
    assert forall id :: id in NewRefs(info) <==> id in NewIds(info);
    assert NewRefs(info).Keys == NewIds(info);
    assert |NewRefs(info).Keys| == |NewRefs(info)|;
  }
}
