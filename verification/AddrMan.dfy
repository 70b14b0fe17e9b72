/** The address manager: two bucket tables, an id map, an address map, a shuffled vector and
    counters, all updated together. */
module AddrManager {
  import opened AddrCheck
  import opened AddrDisk
  import opened AddrRestore
  import opened AddrState
  import opened AddrSteps

  /** A bucket table holds the ids of a slot map, and -1 elsewhere. */
  ghost predicate Mirrors(table: array2<int>, slots: Slots, buckets: int)
    reads table
  {
    && table.Length0 == buckets && table.Length1 == BUCKET_SIZE
    && (forall s :: s in slots ==> 0 <= s.0 < buckets && 0 <= s.1 < BUCKET_SIZE)
    && (forall b, p :: 0 <= b < buckets && 0 <= p < BUCKET_SIZE ==>
          table[b, p] == if (b, p) in slots then slots[(b, p)] else -1)
    && (forall s :: s in slots ==> slots[s] != -1)
  }

  method SetCell(table: array2<int>, b: int, p: int, id: int, ghost slots: Slots, buckets: int)
      returns (ghost after: Slots)
    requires Mirrors(table, slots, buckets) && 0 <= b < buckets && 0 <= p < BUCKET_SIZE
    modifies table
    ensures after == if id == -1 then slots - {(b, p)} else slots[(b, p) := id]
    ensures Mirrors(table, after, buckets)
  {
    table[b, p] := id;
    after := if id == -1 then slots - {(b, p)} else slots[(b, p) := id];
  }

  lemma CellOf(table: array2<int>, slots: Slots, buckets: int, b: int, p: int)
    requires Mirrors(table, slots, buckets) && 0 <= b < buckets && 0 <= p < BUCKET_SIZE
    ensures b < table.Length0 && p < table.Length1
    ensures (b, p) in slots <==> table[b, p] != -1
    ensures (b, p) in slots ==> table[b, p] == slots[(b, p)]
  {
  }

  lemma MirrorsBounds(table: array2<int>, slots: Slots, buckets: int)
    requires Mirrors(table, slots, buckets)
    ensures forall s :: s in slots ==> 0 <= s.0 < buckets && 0 <= s.1 < BUCKET_SIZE && slots[s] != -1
  {
  }

  lemma MirrorsRange(table: array2<int>, slots: Slots, buckets: int)
    requires Mirrors(table, slots, buckets)
    ensures forall s :: s in slots ==> s.0 < buckets
  {
  }

  method EmptyTable(table: array2<int>, buckets: int)
    requires 0 <= buckets && table.Length0 == buckets && table.Length1 == BUCKET_SIZE
    modifies table
    ensures Mirrors(table, map[], buckets)
  {
    for bucket := 0 to buckets
      invariant forall b, p :: 0 <= b < bucket && 0 <= p < BUCKET_SIZE ==> table[b, p] == -1
    {
      for entry := 0 to BUCKET_SIZE
        invariant forall b, p :: 0 <= b < bucket && 0 <= p < BUCKET_SIZE ==> table[b, p] == -1
        invariant forall p :: 0 <= p < entry ==> table[bucket, p] == -1
      {
        table[bucket, entry] := -1;
      }
    }
  }

  class AddrMan {
    const env: Env
    var nKey: int
    var nIdCount: int
    var mapInfo: Infos
    var mapAddr: Addrs
    var vRandom: seq<int>
    var nTried: int
    const vvTried: array2<int>
    var nNew: int
    const vvNew: array2<int>
    ghost var tried: Slots
    ghost var news: Slots

    ghost predicate Shaped()
      reads this, vvTried, vvNew
    {
      vvTried != vvNew && Mirrors(vvTried, tried, TRIED_BUCKET_COUNT) && Mirrors(vvNew, news, NEW_BUCKET_COUNT)
    }

    /** All indexes agree but for loose entries. */
    ghost predicate Agrees(loose: set<int>)
      reads this
    {
      Consistent(env, nKey, nIdCount, mapInfo, mapAddr, vRandom, news, tried, loose)
    }

    ghost predicate Valid()
      reads this, vvTried, vvNew
    {
      Shaped() && Agrees({}) && Counted(mapInfo, tried, {}, nTried, nNew)
    }

    constructor (env: Env, nRandomKey: int)
      ensures this.env == env && nKey == nRandomKey && Valid() && fresh(vvTried) && fresh(vvNew)
      ensures mapInfo == map[] && mapAddr == map[] && news == map[] && tried == map[] && nIdCount == 0
    {
      this.env, mapInfo, mapAddr := env, map[], map[];
      vvTried := new int[TRIED_BUCKET_COUNT, BUCKET_SIZE];
      vvNew := new int[NEW_BUCKET_COUNT, BUCKET_SIZE];
      new;
      Clear(nRandomKey);
    }

    /** The tables have their fixed sizes. */
    ghost predicate Dimensioned()
    {
      && vvTried != vvNew
      && vvTried.Length0 == TRIED_BUCKET_COUNT && vvTried.Length1 == BUCKET_SIZE
      && vvNew.Length0 == NEW_BUCKET_COUNT && vvNew.Length1 == BUCKET_SIZE
    }

    /** Empties the tables, the vector and the counters, and takes a new key. The id map and the
        address map are left alone. */
    method Clear(nRandomKey: int)
      requires Dimensioned()
      modifies this`vRandom, this`nKey, this`nIdCount, this`nTried, this`nNew, this`tried, this`news, vvTried, vvNew
      ensures Shaped() && news == map[] && tried == map[] && vRandom == []
      ensures nKey == nRandomKey && nIdCount == 0 && nTried == 0 && nNew == 0
    {
      vRandom := [];
      nKey := nRandomKey;
      EmptyTable(vvNew, NEW_BUCKET_COUNT);
      EmptyTable(vvTried, TRIED_BUCKET_COUNT);
      nIdCount, nTried, nNew, tried, news := 0, 0, 0, map[], map[];
    }

    function Find(addr: NetAddr): (nId: int)
      reads this
      ensures addr in mapAddr ==> nId == mapAddr[addr]
      ensures addr !in mapAddr ==> nId == -1
    {
      if addr in mapAddr then mapAddr[addr] else -1
    }

    method Create(addr: Address, source: NetAddr, ghost loose: set<int>) returns (nId: int)
      requires Agrees(loose) && addr.service.ip !in mapAddr
      modifies this`nIdCount, this`mapInfo, this`mapAddr, this`vRandom
      ensures nId == old(nIdCount) && nId !in old(mapInfo) && Agrees(With(loose, nId))
      ensures mapInfo == old(mapInfo)[nId := NewInfo(addr, source).(nRandomPos := |old(vRandom)|)]
      ensures mapAddr == old(mapAddr)[addr.service.ip := nId]
    {
      hide Consistent, With;
      Created(env, nKey, nIdCount, mapInfo, mapAddr, vRandom, news, tried, loose,
              NewInfo(addr, source).(nRandomPos := |vRandom|));
      nId := nIdCount;
      nIdCount := nIdCount + 1;
      mapInfo := mapInfo[nId := NewInfo(addr, source)];
      mapAddr := mapAddr[addr.service.ip := nId];
      mapInfo := mapInfo[nId := mapInfo[nId].(nRandomPos := |vRandom|)];
      assert mapInfo == old(mapInfo)[nId := NewInfo(addr, source).(nRandomPos := |vRandom|)];
      vRandom := vRandom + [nId];
    }

    /** Exchanges two places of the vector. */
    method SwapRandom(nRndPos1: nat, nRndPos2: nat)
      requires RandomMatches(mapInfo, vRandom) && nRndPos1 < |vRandom| && nRndPos2 < |vRandom|
      modifies this`mapInfo, this`vRandom
      ensures RandomMatches(mapInfo, vRandom) && vRandom == Swapped(old(vRandom), nRndPos1, nRndPos2)
      ensures Reshuffled(old(mapInfo), mapInfo)
    {
      if nRndPos1 == nRndPos2 {
        return;
      }
      SwappedRandom(mapInfo, vRandom, nRndPos1, nRndPos2);
      hide RandomMatches;
      var nId1, nId2 := vRandom[nRndPos1], vRandom[nRndPos2];
      mapInfo := mapInfo[nId1 := mapInfo[nId1].(nRandomPos := nRndPos2)];
      mapInfo := mapInfo[nId2 := mapInfo[nId2].(nRandomPos := nRndPos1)];
      vRandom := vRandom[nRndPos1 := nId2];
      vRandom := vRandom[nRndPos2 := nId1];
    }

    /** The same, where all indexes agree. */
    method Shuffle(nRndPos1: nat, nRndPos2: nat, ghost loose: set<int>)
      requires Agrees(loose) && nRndPos1 < |vRandom| && nRndPos2 < |vRandom|
      modifies this`mapInfo, this`vRandom
      ensures Agrees(loose) && vRandom == Swapped(old(vRandom), nRndPos1, nRndPos2)
      ensures Reshuffled(old(mapInfo), mapInfo)
    {
      hide TriedMatches, NewPlaced, RefsMatch, AddrsMatch, TimesOk, RandomMatches, Swapped;
      ghost var info, random := mapInfo, vRandom;
      SwapRandom(nRndPos1, nRndPos2);
      ReplacedPlaces(env, nKey, nIdCount, info, mapInfo, mapAddr, random, vRandom, news, tried, loose);
    }

    /** Forgets an entry. */
    method Delete(nId: int, ghost before: Infos) returns (ghost mid: Infos)
      requires RandomMatches(mapInfo, vRandom) && nId in mapInfo && before == mapInfo
      modifies this`mapInfo, this`mapAddr, this`vRandom, this`nNew
      ensures nId in mid && Reshuffled(before, mid) && mapInfo == mid - {nId} && nNew == old(nNew) - 1
      ensures mapAddr == old(mapAddr) - {mid[nId].address.service.ip}
      ensures |vRandom| == |old(vRandom)| - 1 && RandomMatches(mid, vRandom + [nId]) && RandomMatches(mapInfo, vRandom)
    {
      SwapRandom(mapInfo[nId].nRandomPos, |vRandom| - 1);
      mid := mapInfo;
      assert vRandom[..|vRandom| - 1] + [nId] == vRandom;
      LastOut(mapInfo, vRandom, nId);
      hide RandomMatches, Reshuffled;
      vRandom := vRandom[..|vRandom| - 1];
      mapAddr := mapAddr - {mapInfo[nId].address.service.ip};
      mapInfo := mapInfo - {nId};
      nNew := nNew - 1;
    }

    /** Forgets a loose entry, which the counter of new entries still includes. The counter may
        be ahead for another loose entry as well. */
    method Forget(nId: int, ghost loose: set<int>, ghost ahead: int)
      requires Agrees(With(loose, nId)) && nId !in loose && nId in mapInfo
      requires Counted(mapInfo, tried, With(loose, nId), nTried, nNew - ahead - 1)
      modifies this`mapInfo, this`mapAddr, this`vRandom, this`nNew
      ensures Agrees(loose) && Counted(mapInfo, tried, loose, nTried, nNew - ahead)
      ensures Forgotten(old(mapInfo), mapInfo, nId) && nNew == old(nNew) - 1
    {
      hide AddrsMatch, TriedMatches, NewPlaced, RefsMatch, TimesOk, RandomMatches, With, Reshuffled, Forgotten, Counted;
      ghost var before, addr, random := mapInfo, mapAddr, vRandom;
      ghost var mid := Delete(nId, mapInfo);
      ReplacedPlaces(env, nKey, nIdCount, before, mid, addr, random, vRandom + [nId], news, tried, With(loose, nId));
      ForgottenNow(before, mid, nId);
      CountedForgotten(before, mid, tried, loose, nTried, nNew - ahead, nId);
      Deleted(env, nKey, nIdCount, mid, addr, vRandom + [nId], news, tried, loose, nId);
      assert (vRandom + [nId])[..|vRandom|] == vRandom;
    }

    /** Takes one slot of the new table from the entry that holds it. */
    method Unreference(nId: int, nUBucket: int, nUBucketPos: int, ghost loose: set<int>)
      requires Shaped() && Agrees(loose) && Holder(news, (nUBucket, nUBucketPos), nId)
      requires 0 <= nUBucket < NEW_BUCKET_COUNT && 0 <= nUBucketPos < BUCKET_SIZE
      modifies this`mapInfo, this`news, vvNew
      ensures Shaped() && nId in old(mapInfo) && nId !in loose && old(mapInfo)[nId].nRefCount >= 1
      ensures mapInfo == old(mapInfo)[nId := old(mapInfo)[nId].(nRefCount := old(mapInfo)[nId].nRefCount - 1)]
      ensures news == old(news) - {(nUBucket, nUBucketPos)}
      ensures mapInfo[nId].nRefCount == 0 ==> Agrees(With(loose, nId))
      ensures mapInfo[nId].nRefCount != 0 ==> Agrees(loose)
    {
      hide Consistent, With, Mirrors;
      Unreferenced(env, nKey, nIdCount, mapInfo, mapAddr, vRandom, news, tried, loose, (nUBucket, nUBucketPos));
      mapInfo := mapInfo[nId := mapInfo[nId].(nRefCount := mapInfo[nId].nRefCount - 1)];
      news := SetCell(vvNew, nUBucket, nUBucketPos, -1, news, NEW_BUCKET_COUNT);
    }

    /** Takes a slot from the entry that holds it, and forgets the entry if that was its last. */
    method DropReference(nIdDelete: int, nUBucket: int, nUBucketPos: int, ghost loose: set<int>, ghost ahead: int)
      requires Shaped() && Agrees(loose) && Counted(mapInfo, tried, loose, nTried, nNew - ahead)
      requires Holder(news, (nUBucket, nUBucketPos), nIdDelete)
      requires 0 <= nUBucket < NEW_BUCKET_COUNT && 0 <= nUBucketPos < BUCKET_SIZE
      modifies this`mapInfo, this`mapAddr, this`vRandom, this`nNew, this`news, vvNew
      ensures Shaped() && Agrees(loose) && Counted(mapInfo, tried, loose, nTried, nNew - ahead)
      ensures news == old(news) - {(nUBucket, nUBucketPos)}
      ensures LosesSlot(old(mapInfo), mapInfo, old(news), (nUBucket, nUBucketPos))
    {
      hide Consistent, With, Mirrors, LosesSlot, Counted, Holder, Forgotten, AddrMan.Shaped;
      ghost var before, slots, s := mapInfo, news, (nUBucket, nUBucketPos);
      HolderKnown(env, nKey, nIdCount, mapInfo, mapAddr, vRandom, news, tried, loose, s, nIdDelete);
      CountedEntry(mapInfo, tried, loose, nTried, nNew - ahead, nIdDelete,
                   mapInfo[nIdDelete].(nRefCount := mapInfo[nIdDelete].nRefCount - 1));
      Unreference(nIdDelete, nUBucket, nUBucketPos, loose);
      if mapInfo[nIdDelete].nRefCount == 0 {
        ForgetUnreferenced(nIdDelete, loose, ahead, before, slots, s);
      } else {
        LosesOne(before, mapInfo, slots, s, nIdDelete);
      }
    }

    /** Forgets an entry that has just lost its last slot. */
    method ForgetUnreferenced(nId: int, ghost loose: set<int>, ghost ahead: int, ghost before: Infos,
        ghost slots: Slots, ghost s: Slot)
      requires Agrees(With(loose, nId)) && nId !in loose && Counted(mapInfo, tried, loose, nTried, nNew - ahead)
      requires nId in mapInfo && mapInfo[nId].nRefCount == 0 && Holder(slots, s, nId) && nId in before
      requires mapInfo == before[nId := before[nId].(nRefCount := before[nId].nRefCount - 1)]
      modifies this`mapInfo, this`mapAddr, this`vRandom, this`nNew
      ensures Agrees(loose) && Counted(mapInfo, tried, loose, nTried, nNew - ahead)
          && LosesSlot(before, mapInfo, slots, s)
      ensures old(Shaped()) ==> Shaped()
    {
      hide Consistent, With, Mirrors, LosesSlot, Counted, Holder, Forgotten;
      ghost var mid := mapInfo;
      CountedLoose(mapInfo, tried, loose, nTried, nNew - ahead, nId);
      Forget(nId, loose, ahead);
      LosesAll(before, mid, mapInfo, slots, s, nId);
    }

    /** Empties a slot of the new table. */
    method ClearNew(nUBucket: int, nUBucketPos: int, ghost loose: set<int>, ghost ahead: int)
      requires Shaped() && Agrees(loose) && Counted(mapInfo, tried, loose, nTried, nNew - ahead)
      requires 0 <= nUBucket < NEW_BUCKET_COUNT && 0 <= nUBucketPos < BUCKET_SIZE
      modifies this`mapInfo, this`mapAddr, this`vRandom, this`nNew, this`news, vvNew
      ensures Shaped() && Agrees(loose) && Counted(mapInfo, tried, loose, nTried, nNew - ahead)
      ensures news == old(news) - {(nUBucket, nUBucketPos)}
      ensures LosesSlot(old(mapInfo), mapInfo, old(news), (nUBucket, nUBucketPos))
    {
      hide Consistent, With, Mirrors, LosesSlot, Counted;
      CellOf(vvNew, news, NEW_BUCKET_COUNT, nUBucket, nUBucketPos);
      if vvNew[nUBucket, nUBucketPos] == -1 {
        LosesNothing(mapInfo, news, (nUBucket, nUBucketPos));
        return;
      }
      DropReference(vvNew[nUBucket, nUBucketPos], nUBucket, nUBucketPos, loose, ahead);
    }

    /** Takes all its new slots from an entry. */
    method ClearFromNew(nId: int)
      requires Shaped() && Agrees({}) && nId in mapInfo && !mapInfo[nId].fInTried
      modifies this`mapInfo, this`news, vvNew
      ensures Shaped() && mapInfo == old(mapInfo)[nId := old(mapInfo)[nId].(nRefCount := 0)]
      ensures Agrees(With({}, nId))
      ensures Cleared(old(news), news, nId, NEW_BUCKET_COUNT)
    {
      hide Consistent, With, Mirrors, Cleared, GetBucketPosition;
      ghost var slots, before := news, mapInfo;
      NothingCleared(env, nKey, nIdCount, mapInfo, mapAddr, vRandom, news, tried, nId);
      for bucket := 0 to NEW_BUCKET_COUNT
        invariant Shaped() && nId in mapInfo
            && mapInfo == before[nId := before[nId].(nRefCount := mapInfo[nId].nRefCount)]
        invariant Agrees(if mapInfo[nId].nRefCount == 0 then With({}, nId) else {})
        invariant Cleared(slots, news, nId, bucket)
      {
        var pos := GetBucketPosition(env, nKey, mapInfo[nId], true, bucket);
        CellOf(vvNew, news, NEW_BUCKET_COUNT, bucket, pos);
        ghost var loose := if mapInfo[nId].nRefCount == 0 then With({}, nId) else {};
        ClearedNext(env, nKey, nIdCount, mapInfo, mapAddr, vRandom, slots, news, tried, loose, nId, bucket);
        if vvNew[bucket, pos] == nId {
          Unreference(nId, bucket, pos, {});
        }
      }
      AllCleared(env, nKey, nIdCount, mapInfo, mapAddr, vRandom, slots, news, tried,
                 if mapInfo[nId].nRefCount == 0 then With({}, nId) else {}, nId);
    }

    /** Gives a free slot of the new table to an untried entry. */
    method Reference(nId: int, nUBucket: int, nUBucketPos: int, ghost wide: set<int>, ghost loose: set<int>)
      requires Shaped() && Agrees(wide) && (nUBucket, nUBucketPos) !in news
      requires nId !in loose && (wide == loose || wide == With(loose, nId))
      requires nId in mapInfo && !mapInfo[nId].fInTried && mapInfo[nId].nRefCount < NEW_BUCKETS_PER_ADDRESS
      requires 0 <= nUBucket < NEW_BUCKET_COUNT
          && nUBucketPos == GetBucketPosition(env, nKey, mapInfo[nId], true, nUBucket)
      modifies this`mapInfo, this`news, vvNew
      ensures Shaped() && Agrees(loose) && news == old(news)[(nUBucket, nUBucketPos) := nId]
      ensures mapInfo == old(mapInfo)[nId := old(mapInfo)[nId].(nRefCount := old(mapInfo)[nId].nRefCount + 1)]
    {
      hide Consistent, With, Mirrors, GetBucketPosition;
      Referenced(env, nKey, nIdCount, mapInfo, mapAddr, vRandom, news, tried, wide, loose, (nUBucket, nUBucketPos),
          nId);
      IdsCount(env, nKey, nIdCount, mapInfo, mapAddr, vRandom, news, tried, wide, nId);
      mapInfo := mapInfo[nId := mapInfo[nId].(nRefCount := mapInfo[nId].nRefCount + 1)];
      news := SetCell(vvNew, nUBucket, nUBucketPos, nId, news, NEW_BUCKET_COUNT);
    }

    /** Empties a tried slot. */
    method Untry(nKBucket: int, nKBucketPos: int, ghost loose: set<int>) returns (nIdEvict: int)
      requires Shaped() && Agrees(loose) && (nKBucket, nKBucketPos) in tried
          && Counted(mapInfo, tried, loose, nTried, nNew)
      requires 0 <= nKBucket < TRIED_BUCKET_COUNT && 0 <= nKBucketPos < BUCKET_SIZE
      modifies this`mapInfo, this`tried, this`nTried, vvTried
      ensures Shaped() && nIdEvict == old(tried)[(nKBucket, nKBucketPos)] && nIdEvict in old(mapInfo)
          && nIdEvict !in loose
      ensures Agrees(With(loose, nIdEvict)) && Counted(mapInfo, tried, With(loose, nIdEvict), nTried, nNew)
      ensures tried == old(tried) - {(nKBucket, nKBucketPos)} && old(mapInfo)[nIdEvict].nRefCount == 0
      ensures mapInfo == old(mapInfo)[nIdEvict := old(mapInfo)[nIdEvict].(fInTried := false)]
    {
      hide Consistent, With, Mirrors, Counted;
      CellOf(vvTried, tried, TRIED_BUCKET_COUNT, nKBucket, nKBucketPos);
      nIdEvict := vvTried[nKBucket, nKBucketPos];
      Untried(env, nKey, nIdCount, mapInfo, mapAddr, vRandom, news, tried, loose, (nKBucket, nKBucketPos));
      CountedUntried(mapInfo, tried, loose, nTried, nNew, (nKBucket, nKBucketPos));
      CountedEntry(mapInfo, tried - {(nKBucket, nKBucketPos)}, With(loose, nIdEvict), nTried - 1, nNew, nIdEvict,
                   mapInfo[nIdEvict].(fInTried := false));
      mapInfo := mapInfo[nIdEvict := mapInfo[nIdEvict].(fInTried := false)];
      tried := SetCell(vvTried, nKBucket, nKBucketPos, -1, tried, TRIED_BUCKET_COUNT);
      nTried := nTried - 1;
    }

    /** Enters a loose entry into the new table, at its own slot, over whatever is there. */
    method Renew(nIdEvict: int, ghost loose: set<int>) returns (ghost cleared: Infos)
      requires Shaped() && nIdEvict !in loose && Agrees(With(loose, nIdEvict)) && nIdEvict in mapInfo
      requires Counted(mapInfo, tried, With(loose, nIdEvict), nTried, nNew)
      modifies this`mapInfo, this`mapAddr, this`vRandom, this`nNew, this`news, vvNew
      ensures Shaped() && Agrees(loose) && Counted(mapInfo, tried, loose, nTried, nNew)
      ensures Renewed(env, nKey, old(mapInfo), cleared, mapInfo, old(news), news, nIdEvict)
    {
      hide Consistent, With, Mirrors, Counted, GetBucketPosition, LosesSlot, SlotFor, Holder, GetNewBucket;
      var nUBucket, nUBucketPos := ClearOwnSlot(nIdEvict, loose);
      cleared := mapInfo;
      ReferenceLoose(nIdEvict, nUBucket, nUBucketPos, loose);
    }

    /** Gives a free slot to a loose entry and counts it as new. */
    method ReferenceLoose(nId: int, nUBucket: int, nUBucketPos: int, ghost loose: set<int>)
      requires Shaped() && nId !in loose && Agrees(With(loose, nId)) && (nUBucket, nUBucketPos) !in news
      requires nId in mapInfo && !mapInfo[nId].fInTried && mapInfo[nId].nRefCount == 0
      requires 0 <= nUBucket < NEW_BUCKET_COUNT
          && nUBucketPos == GetBucketPosition(env, nKey, mapInfo[nId], true, nUBucket)
      requires Counted(mapInfo, tried, With(loose, nId), nTried, nNew)
      modifies this`mapInfo, this`news, this`nNew, vvNew
      ensures Shaped() && Agrees(loose) && news == old(news)[(nUBucket, nUBucketPos) := nId]
      ensures mapInfo == old(mapInfo)[nId := old(mapInfo)[nId].(nRefCount := old(mapInfo)[nId].nRefCount + 1)]
      ensures Counted(mapInfo, tried, loose, nTried, nNew)
    {
      hide Consistent, With, Mirrors, Counted, GetBucketPosition;
      CountedEntry(mapInfo, tried, With(loose, nId), nTried, nNew, nId,
          mapInfo[nId].(nRefCount := mapInfo[nId].nRefCount + 1));
      Reference(nId, nUBucket, nUBucketPos, With(loose, nId), loose);
      CountedReferenced(mapInfo, tried, loose, nTried, nNew, nId);
      nNew := nNew + 1;
    }

    /** Clears the new slot that is a loose entry's own. */
    method ClearOwnSlot(nId: int, ghost loose: set<int>) returns (nUBucket: int, nUBucketPos: int)
      requires Shaped() && Agrees(With(loose, nId)) && nId in mapInfo
          && Counted(mapInfo, tried, With(loose, nId), nTried, nNew)
      modifies this`mapInfo, this`mapAddr, this`vRandom, this`nNew, this`news, vvNew
      ensures Shaped() && Agrees(With(loose, nId)) && Counted(mapInfo, tried, With(loose, nId), nTried, nNew)
      ensures (nUBucket, nUBucketPos) == SlotFor(env, nKey, old(mapInfo)[nId], old(mapInfo)[nId].source)
          && 0 <= nUBucket < NEW_BUCKET_COUNT
      ensures LosesSlot(old(mapInfo), mapInfo, old(news), (nUBucket, nUBucketPos))
      ensures !Holder(old(news), (nUBucket, nUBucketPos), nId) && news == old(news) - {(nUBucket, nUBucketPos)}
      ensures nId in mapInfo && !mapInfo[nId].fInTried && mapInfo[nId].nRefCount == 0
      ensures nUBucketPos == GetBucketPosition(env, nKey, mapInfo[nId], true, nUBucket)
    {
      hide Consistent, With, Mirrors, Counted, GetBucketPosition, GetNewBucket, LosesSlot, SameButPlace, TriedSlot;
      ghost var mid, slots := mapInfo, news;
      nUBucket := GetNewBucket(env, nKey, mapInfo[nId], mapInfo[nId].source);
      nUBucketPos := GetBucketPosition(env, nKey, mapInfo[nId], true, nUBucket);
      LooseHoldsNothing(env, nKey, nIdCount, mapInfo, mapAddr, vRandom, news, tried, loose, nId);
      ClearNew(nUBucket, nUBucketPos, With(loose, nId), 0);
      StillThere(env, nKey, mid, mapInfo, slots, (nUBucket, nUBucketPos), nId);
    }

    /** Moves the entry in a tried slot back into the new table, over whatever is there. */
    method Evict(nKBucket: int, nKBucketPos: int, ghost loose: set<int>) returns (nIdEvict: int)
      requires Shaped() && Agrees(loose) && (nKBucket, nKBucketPos) in tried
          && Counted(mapInfo, tried, loose, nTried, nNew)
      requires 0 <= nKBucket < TRIED_BUCKET_COUNT && 0 <= nKBucketPos < BUCKET_SIZE
      modifies this, vvTried, vvNew
      ensures nKey == old(nKey) && nIdCount == old(nIdCount)
      ensures Shaped() && Agrees(loose) && Counted(mapInfo, tried, loose, nTried, nNew)
      ensures tried == old(tried) - {(nKBucket, nKBucketPos)} && nIdEvict == old(tried)[(nKBucket, nKBucketPos)]
      ensures Evicted(env, nKey, old(mapInfo), mapInfo, old(news), news, nIdEvict)
    {
      hide Consistent, With, Mirrors, Counted, SlotFor, LosesSlot, SameButPlace;
      ghost var before, slots := mapInfo, news;
      nIdEvict := Untry(nKBucket, nKBucketPos, loose);
      ghost var mid := mapInfo;
      ghost var cleared := Renew(nIdEvict, loose);
      EvictedAll(env, nKey, before, mid, cleared, mapInfo, slots, news, nIdEvict);
    }

    /** Moves an untried entry that was reached to the tried table. */
    method MakeTried(nId: int)
      requires Valid() && nId in mapInfo && !mapInfo[nId].fInTried && mapInfo[nId].nLastSuccess > 0
      modifies this, vvTried, vvNew
      ensures Valid() && nKey == old(nKey) && nIdCount == old(nIdCount)
      ensures MovedToTried(env, nKey, nId, old(mapInfo), mapInfo, old(tried), tried, old(news), news)
    {
      hide Consistent, With, Mirrors, Counted, GetTriedBucket, GetBucketPosition, Cleared, Evicted, SameButPlace,
          MovedToTried;
      ghost var before, slots, triedSlots := mapInfo, news, tried;
      MirrorsRange(vvNew, news, NEW_BUCKET_COUNT);
      CountedEntry(mapInfo, tried, {}, nTried, nNew, nId, mapInfo[nId].(nRefCount := 0));
      ClearFromNew(nId);
      nNew := nNew - 1;
      CountedTaken(mapInfo, tried, nTried, nNew, nId);
      ClearedIsWithout(slots, news, nId);
      var nKBucket := GetTriedBucket(env, nKey, mapInfo[nId]);
      var nKBucketPos := GetBucketPosition(env, nKey, mapInfo[nId], false, nKBucket);
      ghost var mid := mapInfo;
      MakeRoom(nKBucket, nKBucketPos, nId);
      ghost var roomy := mapInfo;
      PlaceOnly(roomy[nId], mid[nId]);
      SamePlaceSameSlots(env, nKey, roomy[nId], mid[nId]);
      SetTried(nId, nKBucket, nKBucketPos);
      MovedAll(env, nKey, nId, before, mid, roomy, mapInfo, triedSlots, tried, slots, news);
    }

    /** Frees a tried slot for an entry that is in no table. */
    method MakeRoom(nKBucket: int, nKBucketPos: int, nId: int)
      requires Shaped() && Agrees(With({}, nId)) && nId in mapInfo
          && Counted(mapInfo, tried, With({}, nId), nTried, nNew)
      requires (nKBucket, nKBucketPos) == TriedSlot(env, nKey, mapInfo[nId])
      modifies this, vvTried, vvNew
      ensures nKey == old(nKey) && nIdCount == old(nIdCount)
      ensures Shaped() && Agrees(With({}, nId)) && Counted(mapInfo, tried, With({}, nId), nTried, nNew)
      ensures tried == old(tried) - {(nKBucket, nKBucketPos)}
      ensures nId in mapInfo && SameButPlace(mapInfo[nId], old(mapInfo)[nId])
      ensures RoomMade(env, nKey, nId, old(mapInfo), mapInfo, old(tried), old(news), news)
    {
      hide Consistent, With, Mirrors, Counted, GetTriedBucket, GetBucketPosition, Evicted, SameButPlace;
      ghost var mid, freed, triedSlots, s := mapInfo, news, tried, (nKBucket, nKBucketPos);
      CellOf(vvTried, tried, TRIED_BUCKET_COUNT, nKBucket, nKBucketPos);
      LooseHoldsNothing(env, nKey, nIdCount, mapInfo, mapAddr, vRandom, news, tried, {}, nId);
      if vvTried[nKBucket, nKBucketPos] != -1 {
        TriedNotLoose(env, nKey, nIdCount, mapInfo, mapAddr, vRandom, news, tried, {}, s, nId);
        var nIdEvict := Evict(nKBucket, nKBucketPos, With({}, nId));
        EvictedOthers(env, nKey, mid, mapInfo, freed, news, nIdEvict, nId);
        return;
      }
      SamePlaceOnly(mapInfo[nId]);
      assert tried - {s} == tried;
    }

    /** Enters a loose entry into its free tried slot. */
    method SetTried(nId: int, nKBucket: int, nKBucketPos: int)
      requires Shaped() && Agrees(With({}, nId)) && nId in mapInfo
          && Counted(mapInfo, tried, With({}, nId), nTried, nNew)
      requires (nKBucket, nKBucketPos) == TriedSlot(env, nKey, mapInfo[nId]) && (nKBucket, nKBucketPos) !in tried
      requires mapInfo[nId].nLastSuccess > 0
      modifies this`mapInfo, this`tried, this`nTried, vvTried
      ensures Valid() && tried == old(tried)[(nKBucket, nKBucketPos) := nId]
      ensures mapInfo == old(mapInfo)[nId := old(mapInfo)[nId].(fInTried := true)]
    {
      hide Consistent, With, Mirrors, Counted, TriedSlot;
      AddrState.Tried(env, nKey, nIdCount, mapInfo, mapAddr, vRandom, news, tried, {}, nId);
      IdsCount(env, nKey, nIdCount, mapInfo, mapAddr, vRandom, news, tried, With({}, nId), nId);
      SlotRange(env, nKey, mapInfo[nId]);
      CountedTried(mapInfo, tried, nTried, nNew, (nKBucket, nKBucketPos), nId);
      CountedEntry(mapInfo, tried[(nKBucket, nKBucketPos) := nId], {}, nTried + 1, nNew, nId,
          mapInfo[nId].(fInTried := true));
      tried := SetCell(vvTried, nKBucket, nKBucketPos, nId, tried, TRIED_BUCKET_COUNT);
      nTried := nTried + 1;
      mapInfo := mapInfo[nId := mapInfo[nId].(fInTried := true)];
    }

    // ---------- operations ----------

    /** Looks for a bucket the entry is in, starting anywhere. */
    method FindNewBucket(nId: int, nRnd: int) returns (nUBucket: int)
      requires Shaped() && nId in mapInfo && 0 <= nId && 0 <= nRnd < NEW_BUCKET_COUNT
          && NewPlaced(env, nKey, mapInfo, news)
      ensures nUBucket == -1 <==> SlotsOf(news, nId) == {}
    {
      hide GetBucketPosition, Mirrors;
      for n := 0 to NEW_BUCKET_COUNT
        invariant forall s :: s in news && news[s] == nId ==> !InTurn(nRnd, n, s.0)
      {
        var nB := (n + nRnd) % NEW_BUCKET_COUNT;
        var nBpos := GetBucketPosition(env, nKey, mapInfo[nId], true, nB);
        CellOf(vvNew, news, NEW_BUCKET_COUNT, nB, nBpos);
        TurnNext(nRnd, n);
        if vvNew[nB, nBpos] == nId {
          assert (nB, nBpos) in SlotsOf(news, nId);
          return nB;
        }
      }
      AllTurns(nRnd);
      assert SlotsOf(news, nId) == {};
      return -1;
    }

    /** Replaces the statistics of an entry. */
    method Update(nId: int, entry: AddrInfo)
      requires Valid() && nId in mapInfo && SameStanding(mapInfo[nId], entry)
      modifies this`mapInfo
      ensures Valid() && mapInfo == old(mapInfo)[nId := entry]
    {
      hide Consistent, With, Mirrors, Counted, SameStanding;
      Updated(env, nKey, nIdCount, mapInfo, mapAddr, vRandom, news, tried, {}, nId, entry);
      CountedEntry(mapInfo, tried, {}, nTried, nNew, nId, entry);
      mapInfo := mapInfo[nId := entry];
    }

    /** Whether exactly this service, port included, is known. */
    function Known(addr: Service): bool
      reads this
    {
      addr.ip in mapAddr && mapAddr[addr.ip] in mapInfo && mapInfo[mapAddr[addr.ip]].address.service == addr
    }

    /** Notes that a service was reached. An untried entry then moves to the tried table. */
    method Good_(addr: Service, nTime: int, nRnd: int)
      requires Valid() && 0 < nTime && 0 <= nRnd < NEW_BUCKET_COUNT
      modifies this, vvTried, vvNew
      ensures Valid() && nKey == old(nKey)
      ensures !old(Known(addr)) ==> mapInfo == old(mapInfo) && tried == old(tried) && news == old(news)
      ensures old(Known(addr)) ==>
                var id := old(mapAddr[addr.ip]);
                var reached := old(mapInfo)[id].(nLastSuccess := nTime, nLastTry := nTime, nAttempts := 0);
                if reached.fInTried
                    then mapInfo == old(mapInfo)[id := reached] && tried == old(tried) && news == old(news)
                else MovedToTried(env, nKey, id, old(mapInfo)[id := reached], mapInfo, old(tried), tried, old(news),
                    news)
    {
      hide Consistent, With, Mirrors, Counted, MovedToTried;
      AddrKnown(env, nKey, nIdCount, mapInfo, mapAddr, vRandom, news, tried, {});
      var nId := Find(addr.ip);
      if nId == -1 {
        return;
      }
      if mapInfo[nId].address.service != addr {
        return;
      }
      Update(nId, mapInfo[nId].(nLastSuccess := nTime, nLastTry := nTime, nAttempts := 0));
      if mapInfo[nId].fInTried {
        return;
      }
      UntriedHasSlot(env, nKey, nIdCount, mapInfo, mapAddr, vRandom, news, tried, nId);
      var nUBucket := FindNewBucket(nId, nRnd);
      if nUBucket == -1 {
        return;
      }
      MakeTried(nId);
    }

    /** Notes an attempt to connect. */
    method Attempt_(addr: Service, nTime: int)
      requires Valid() && 0 <= nTime
      modifies this`mapInfo
      ensures Valid()
      ensures mapInfo == if !old(Known(addr)) then old(mapInfo) else
                var id := mapAddr[addr.ip]; var info := old(mapInfo)[id];
                old(mapInfo)[id := info.(nLastTry := nTime, nAttempts := info.nAttempts + 1)]
    {
      hide Consistent, With, Mirrors, Counted;
      AddrKnown(env, nKey, nIdCount, mapInfo, mapAddr, vRandom, news, tried, {});
      var nId := Find(addr.ip);
      if nId == -1 {
        return;
      }
      if mapInfo[nId].address.service != addr {
        return;
      }
      Update(nId, mapInfo[nId].(nLastTry := nTime, nAttempts := mapInfo[nId].nAttempts + 1));
    }

    /** Notes that a service is connected, twenty minutes apart at least. */
    method Connected_(addr: Service, nTime: int)
      requires Valid()
      modifies this`mapInfo
      ensures Valid()
      ensures mapInfo == if !old(Known(addr)) || nTime - old(mapInfo[mapAddr[addr.ip]].address.nTime) <= 20 * 60
          then old(mapInfo) else
                var id := mapAddr[addr.ip]; var info := old(mapInfo)[id];
                old(mapInfo)[id := info.(address := info.address.(nTime := nTime))]
    {
      hide Consistent, With, Mirrors, Counted;
      AddrKnown(env, nKey, nIdCount, mapInfo, mapAddr, vRandom, news, tried, {});
      var nId := Find(addr.ip);
      if nId == -1 {
        return;
      }
      if mapInfo[nId].address.service != addr {
        return;
      }
      var nUpdateInterval := 20 * 60;
      if nTime - mapInfo[nId].address.nTime > nUpdateInterval {
        Update(nId, mapInfo[nId].(address := mapInfo[nId].address.(nTime := nTime)));
      }
    }

    // ---------- adding ----------

    /** Gives an entry the slot of a source, if that is free or its holder can be displaced.
        An entry without references that does not get one is forgotten. */
    method PlaceNew(nId: int, source: NetAddr, nNow: int)
      requires Shaped() && nId in mapInfo && !mapInfo[nId].fInTried && mapInfo[nId].nRefCount < NEW_BUCKETS_PER_ADDRESS
      requires mapInfo[nId].nRefCount == 0
          ==> Agrees(With({}, nId)) && Counted(mapInfo, tried, With({}, nId), nTried, nNew - 1)
      requires mapInfo[nId].nRefCount != 0 ==> Agrees({}) && Counted(mapInfo, tried, {}, nTried, nNew)
      modifies this`mapInfo, this`mapAddr, this`vRandom, this`nNew, this`news, vvNew
      ensures Valid()
      ensures var b := GetNewBucket(env, nKey, old(mapInfo)[nId], source);
              var s := (b, GetBucketPosition(env, nKey, old(mapInfo)[nId], true, b));
              PlacedNew(old(mapInfo), mapInfo, old(news), news, nId, s, nNow)
    {
      hide Consistent, With, Mirrors, Counted, GetBucketPosition, GetNewBucket, PlacedNew, LosesSlot, IsTerrible, Fit;
      ghost var before, slots := mapInfo, news;
      ghost var loose := if mapInfo[nId].nRefCount == 0 then With({}, nId) else {};
      var nUBucket := GetNewBucket(env, nKey, mapInfo[nId], source);
      var nUBucketPos := GetBucketPosition(env, nKey, mapInfo[nId], true, nUBucket);
      ghost var s := (nUBucket, nUBucketPos);
      CellOf(vvNew, news, NEW_BUCKET_COUNT, nUBucket, nUBucketPos);
      IdsCount(env, nKey, nIdCount, mapInfo, mapAddr, vRandom, news, tried, loose, nId);
      RefsKnown(env, nKey, nIdCount, mapInfo, mapAddr, vRandom, news, tried, loose, s, nId);
      if vvNew[nUBucket, nUBucketPos] != nId {
        var fInsert := vvNew[nUBucket, nUBucketPos] == -1;
        if !fInsert {
          var infoExisting := mapInfo[vvNew[nUBucket, nUBucketPos]];
          TerribleIsUnfit(infoExisting, nNow);
          if IsTerrible(infoExisting, nNow) || (infoExisting.nRefCount > 1 && mapInfo[nId].nRefCount == 0) {
            fInsert := true;
          }
        }
        if fInsert {
          Displace(nId, nUBucket, nUBucketPos, loose, if mapInfo[nId].nRefCount == 0 then 1 else 0);
        } else if mapInfo[nId].nRefCount == 0 {
          Forget(nId, {}, 0);
        }
      }
      PlacedAll(before, mapInfo, slots, news, nId, s, nNow);
    }

    /** Empties a slot and gives it to another entry, which may be loose, but counted as new. */
    method Displace(nId: int, nUBucket: int, nUBucketPos: int, ghost wide: set<int>, ghost ahead: int)
      requires Shaped() && nId in mapInfo && !mapInfo[nId].fInTried && mapInfo[nId].nRefCount < NEW_BUCKETS_PER_ADDRESS
      requires (wide == {} && ahead == 0) || (wide == With({}, nId) && ahead == 1)
      requires Agrees(wide) && Counted(mapInfo, tried, wide, nTried, nNew - ahead)
      requires 0 <= nUBucket < NEW_BUCKET_COUNT
          && nUBucketPos == GetBucketPosition(env, nKey, mapInfo[nId], true, nUBucket)
      requires !Holder(news, (nUBucket, nUBucketPos), nId)
      modifies this`mapInfo, this`mapAddr, this`vRandom, this`nNew, this`news, vvNew
      ensures Valid() && news == old(news)[(nUBucket, nUBucketPos) := nId]
      ensures Displaced(old(mapInfo), mapInfo, old(news), (nUBucket, nUBucketPos), nId)
    {
      hide Consistent, With, Mirrors, Counted, GetBucketPosition, LosesSlot, TriedSlot, Holder, Displaced, SameButPlace;
      ghost var before, slots, s := mapInfo, news, (nUBucket, nUBucketPos);
      ClearNew(nUBucket, nUBucketPos, wide, ahead);
      StillThere(env, nKey, before, mapInfo, slots, s, nId);
      ghost var cleared := mapInfo;
      CountedPlaced(mapInfo, tried, wide, nTried, nNew, ahead, nId,
          mapInfo[nId].(nRefCount := mapInfo[nId].nRefCount + 1));
      Reference(nId, nUBucket, nUBucketPos, wide, {});
      DisplacedAll(before, cleared, mapInfo, slots, s, nId);
    }

    /** Updates a known entry; says whether another reference should be tried for it. */
    method Refresh(nId: int, addr: Address, nTimePenalty: int, nNow: int, nRnd: nat) returns (more: bool)
      requires Valid() && nId in mapInfo
      modifies this`mapInfo
      ensures Valid() && mapInfo == old(mapInfo)[nId := Refreshed(old(mapInfo)[nId], addr, nTimePenalty, nNow)]
      ensures more <==> Wanted(mapInfo[nId], addr, nRnd)
    {
      hide Consistent, Mirrors, Counted;
      AddrKnown(env, nKey, nIdCount, mapInfo, mapAddr, vRandom, news, tried, {});
      RefsBounded(env, nKey, nIdCount, mapInfo, mapAddr, vRandom, news, tried, nId);
      var info := mapInfo[nId];
      var fCurrentlyOnline := nNow - addr.nTime < 24 * 60 * 60;
      var nUpdateInterval := if fCurrentlyOnline then 60 * 60 else 24 * 60 * 60;
      if addr.nTime != 0
          && (info.address.nTime == 0 || info.address.nTime < addr.nTime - nUpdateInterval - nTimePenalty) {
        info := info.(address := info.address.(nTime := NotBefore(addr.nTime - nTimePenalty)));
      }
      info := info.(address := info.address.(nServices := info.address.nServices + addr.nServices));
      Update(nId, info);
      if addr.nTime == 0 || (info.address.nTime != 0 && addr.nTime <= info.address.nTime) {
        return false;
      }
      if info.fInTried {
        return false;
      }
      if info.nRefCount == NEW_BUCKETS_PER_ADDRESS {
        return false;
      }
      var nFactor := 1;
      for n := 0 to info.nRefCount
        invariant nFactor == TwoTo(n)
      {
        nFactor := nFactor * 2;
      }
      if nFactor > 1 && nRnd % nFactor != 0 {
        return false;
      }
      return true;
    }

    /** A new entry, counted as new but without any reference yet. */
    method CreateNew(addr: Address, source: NetAddr, nTimePenalty: int) returns (nId: int)
      requires Valid() && addr.service.ip !in mapAddr
      modifies this`nIdCount, this`mapInfo, this`mapAddr, this`vRandom, this`nNew
      ensures Shaped() && nId == old(nIdCount) && nId !in old(mapInfo)
      ensures Agrees(With({}, nId)) && Counted(mapInfo, tried, With({}, nId), nTried, nNew - 1)
      ensures mapInfo == old(mapInfo)[nId := Fresh(addr, source, nTimePenalty, |old(vRandom)|)]
      ensures mapAddr == old(mapAddr)[addr.service.ip := nId]
    {
      hide Consistent, With, Mirrors, Counted;
      CountedNew(mapInfo, tried, nTried, nNew, nIdCount, Fresh(addr, source, nTimePenalty, |vRandom|));
      ghost var before := mapInfo;
      nId := Create(addr, source, {});
      var info := mapInfo[nId].(address := addr.(nTime := NotBefore(addr.nTime - nTimePenalty)));
      Updated(env, nKey, nIdCount, mapInfo, mapAddr, vRandom, news, tried, With({}, nId), nId, info);
      TwiceSet(before, nId, mapInfo[nId], info);
      mapInfo := mapInfo[nId := info];
      nNew := nNew + 1;
    }

    /** Hears of an address from a source. Random is whether a known entry is to have another slot: the
        random number drawn below n is the remainder by n of a given one. A new entry needs a slot at once,
            or is forgotten
        again, though it is reported as new even then. */
    method Add_(addr: Address, source: NetAddr, nTimePenalty: int, nNow: int, nRnd: nat) returns (fNew: bool)
      requires Valid()
      modifies this, vvNew
      ensures Valid() && nKey == old(nKey) && tried == old(tried)
      ensures fNew <==> env.routable(addr.service.ip) && addr.service.ip !in old(mapAddr)
      ensures !env.routable(addr.service.ip) ==> mapInfo == old(mapInfo) && news == old(news)
      ensures fNew ==> var entry := Fresh(addr, source, nTimePenalty, |old(vRandom)|);
                PlacedNew(old(mapInfo)[old(nIdCount) := entry], mapInfo, old(news), news, old(nIdCount),
                          SlotFor(env, nKey, entry, source), nNow)
      ensures env.routable(addr.service.ip) && addr.service.ip in old(mapAddr) ==>
                var id := old(mapAddr)[addr.service.ip];
                && id in old(mapInfo)
                && var mid := old(mapInfo)[id := Refreshed(old(mapInfo)[id], addr, nTimePenalty, nNow)];
                if Wanted(mid[id], addr, nRnd)
                  then PlacedNew(mid, mapInfo, old(news), news, id, SlotFor(env, nKey, mid[id], source), nNow)
                else mapInfo == mid && news == old(news)
    {
      hide Consistent, With, Mirrors, Counted, PlacedNew, GetBucketPosition, GetNewBucket;
      fNew := false;
      if !env.routable(addr.service.ip) {
        return false;
      }
      AddrKnown(env, nKey, nIdCount, mapInfo, mapAddr, vRandom, news, tried, {});
      var nId := Find(addr.service.ip);
      if nId != -1 {
        var more := Refresh(nId, addr, nTimePenalty, nNow, nRnd);
        if !more {
          return false;
        }
        RefsBounded(env, nKey, nIdCount, mapInfo, mapAddr, vRandom, news, tried, nId);
      } else {
        nId := CreateNew(addr, source, nTimePenalty);
        fNew := true;
      }
      PlaceNew(nId, source, nNow);
    }

    /** Hands out addresses from a random sample of the entries, leaving out the terrible
        ones. Before it hands out as many as it may it has gone through all entries. */
    method GetAddr_(nNow: int) returns (vAddr: seq<Address>, ghost n: nat)
      requires Valid()
      modifies this`mapInfo, this`vRandom
      ensures Valid() && Reshuffled(old(mapInfo), mapInfo) && multiset(vRandom) == multiset(old(vRandom))
      ensures n <= |vRandom| && (forall i :: 0 <= i < |vRandom| ==> vRandom[i] in old(mapInfo))
      ensures vAddr == Listed(old(mapInfo), vRandom[..n], nNow)
      ensures forall i :: 0 <= i < n ==>
                (old(mapInfo)[vRandom[i]].address in vAddr <==> Fit(old(mapInfo)[vRandom[i]], nNow))
      ensures var most := 23 * |vRandom| / 100;
              var nNodes := if most > 2500 then 2500 else most;
              |vAddr| <= nNodes && (|vAddr| == nNodes || n == |vRandom|)
    {
      hide Consistent, Mirrors, Counted, Reshuffled, IsTerrible, Fit;
      AllListed(env, nKey, nIdCount, mapInfo, mapAddr, vRandom, news, tried, {});
      ReshuffledSelf(mapInfo);
      var nNodes := GETADDR_MAX_PCT * |vRandom| / 100;
      if nNodes > GETADDR_MAX {
        nNodes := GETADDR_MAX;
      }
      vAddr, n := [], 0;
      var k := 0;
      while k < |vRandom|
        invariant Valid() && Reshuffled(old(mapInfo), mapInfo) && multiset(vRandom) == multiset(old(vRandom))
        invariant |vRandom| == |old(vRandom)| && 0 <= k == n <= |vRandom| && |vAddr| <= nNodes
        invariant HandedOut(old(mapInfo), vRandom, n, nNow, vAddr)
      {
        if |vAddr| >= nNodes {
          break;
        }
        vAddr := HandOut(k, vAddr, nNow, old(mapInfo));
        k, n := k + 1, n + 1;
      }
      forall i | 0 <= i < n
        ensures old(mapInfo)[vRandom[i]].address in vAddr <==> Fit(old(mapInfo)[vRandom[i]], nNow)
      {
        ListedIfFit(env, nKey, nIdCount, old(mapInfo), old(mapAddr), old(vRandom), old(news), old(tried), vRandom[..n],
            nNow, i);
      }
    }

    /** One step of the sampling. */
    method HandOut(n: nat, vAddrIn: seq<Address>, nNow: int, ghost before: Infos) returns (vAddr: seq<Address>)
      requires Valid() && n < |vRandom| && Reshuffled(before, mapInfo)
      requires HandedOut(before, vRandom, n, nNow, vAddrIn)
      modifies this`mapInfo, this`vRandom
      ensures Valid() && Reshuffled(before, mapInfo) && multiset(vRandom) == multiset(old(vRandom))
          && |vRandom| == |old(vRandom)|
      ensures HandedOut(before, vRandom, n + 1, nNow, vAddr) && |vAddr| <= |vAddrIn| + 1
    {
      hide Consistent, Mirrors, Counted, Reshuffled, IsTerrible, Fit, Listed;
      ghost var random, info := vRandom, mapInfo;
      var nRndPos :| n <= nRndPos < |vRandom|;
      SwapKeeps(vRandom, n, nRndPos);
      Shuffle(n, nRndPos, {});
      ReshuffledTwice(before, info, mapInfo);
      CountedReshuffled(info, mapInfo, tried, {}, nTried, nNew);
      AllListed(env, nKey, nIdCount, mapInfo, mapAddr, vRandom, news, tried, {});
      ListedNext(before, random, vRandom, n, nNow);
      ReshuffledEntry(before, mapInfo, vRandom[n], nNow);
      vAddr := vAddrIn;
      TerribleIsUnfit(mapInfo[vRandom[n]], nNow);
      if !IsTerrible(mapInfo[vRandom[n]], nNow) {
        vAddr := vAddr + [mapInfo[vRandom[n]].address];
      }
    }

    // ---------- the consistency check ----------

    /** Checks every entry, and collects the tried ones and the references of the others. */
    method CheckEntries() returns (err: int, setTried: set<int>, mapNew: map<int, int>)
      modifies this`mapAddr
      ensures err == 0 <==> forall id :: id in mapInfo ==> EntryPasses(mapInfo, old(mapAddr), vRandom, id)
      ensures err == 0 ==> setTried == TriedIds(mapInfo) && mapNew == NewRefs(mapInfo)
      ensures (forall id :: id in mapInfo ==> mapInfo[id].address.service.ip in old(mapAddr))
          ==> mapAddr == old(mapAddr)
      ensures err == 0 ==> forall id :: id in mapInfo ==> mapInfo[id].address.service.ip in mapAddr
      ensures SameLookups(old(mapAddr), mapAddr)
    {
      hide EntryPasses;
      setTried, mapNew := {}, map[];
      var rest := mapInfo.Keys;
      while rest != {}
        invariant rest <= mapInfo.Keys
        invariant forall id :: id in mapInfo && id !in rest ==>
                    EntryPasses(mapInfo, old(mapAddr), vRandom, id) && mapInfo[id].address.service.ip in mapAddr
        invariant forall id :: id in setTried <==> id in mapInfo && id !in rest && mapInfo[id].fInTried
        invariant forall id :: id in mapNew <==> id in mapInfo && id !in rest && !mapInfo[id].fInTried
        invariant forall id :: id in mapNew ==> mapNew[id] == mapInfo[id].nRefCount
        invariant SameLookups(old(mapAddr), mapAddr)
        invariant (forall id :: id in mapInfo ==> mapInfo[id].address.service.ip in old(mapAddr))
            ==> mapAddr == old(mapAddr)
        decreases |rest|
      {
        ghost var least := LeastId(rest);
        var n :| n in rest && Least(rest, n);
        var code := CheckEntry(n, old(mapAddr));
        if code != 0 {
          return code, setTried, mapNew;
        }
        if mapInfo[n].fInTried {
          setTried := setTried + {n};
        } else {
          mapNew := mapNew[n := mapInfo[n].nRefCount];
        }
        rest := rest - {n};
      }
      Collected(mapInfo, setTried, mapNew);
      return 0, setTried, mapNew;
    }

    method CheckEntry(n: int, ghost addr: Addrs) returns (err: int)
      requires n in mapInfo && SameLookups(addr, mapAddr)
      modifies this`mapAddr
      ensures err == 0 <==> EntryPasses(mapInfo, addr, vRandom, n)
      ensures SameLookups(addr, mapAddr) && (mapInfo[n].address.service.ip in old(mapAddr) ==> mapAddr == old(mapAddr))
      ensures old(mapAddr).Keys <= mapAddr.Keys && (err == 0 ==> mapInfo[n].address.service.ip in mapAddr)
    {
      var info := mapInfo[n];
      if info.fInTried {
        if info.nLastSuccess == 0 {
          return -1;
        }
        if info.nRefCount != 0 {
          return -2;
        }
      } else {
        if info.nRefCount < 0 || info.nRefCount > NEW_BUCKETS_PER_ADDRESS {
          return -3;
        }
        if info.nRefCount == 0 {
          return -4;
        }
      }
      if info.address.service.ip !in mapAddr {
        mapAddr := mapAddr[info.address.service.ip := 0];
      }
      if mapAddr[info.address.service.ip] != n {
        return -5;
      }
      if info.nRandomPos < 0 || info.nRandomPos >= |vRandom| || vRandom[info.nRandomPos] != n {
        return -14;
      }
      if info.nLastTry < 0 {
        return -6;
      }
      if info.nLastSuccess < 0 {
        return -8;
      }
      return 0;
    }

    /** Checks the tried table against the tried entries. */
    method CheckTriedTable(setTriedIn: set<int>) returns (err: int)
      requires Shaped() && setTriedIn == TriedIds(mapInfo)
      ensures err == 0 <==> TriedMatches(env, nKey, mapInfo, tried)
    {
      hide TriedSlot, Mirrors, TriedMatches, TriedIds;
      var setTried := setTriedIn;
      MirrorsBounds(vvTried, tried, TRIED_BUCKET_COUNT);
      NothingScanned(env, nKey, mapInfo, tried);
      for n := 0 to TRIED_BUCKET_COUNT
        invariant TriedScanned(env, nKey, mapInfo, Prior(tried, n, 0), setTried)
      {
        for i := 0 to BUCKET_SIZE
          invariant TriedScanned(env, nKey, mapInfo, Prior(tried, n, i), setTried)
        {
          CellOf(vvTried, tried, TRIED_BUCKET_COUNT, n, i);
          ScanTried(env, nKey, mapInfo, tried, n, i, setTried, vvTried[n, i]);
          if vvTried[n, i] != -1 {
            var id := vvTried[n, i];
            if id !in setTried {
              return -11;
            }
            AtSlot(env, nKey, mapInfo[id], n, i);
            if GetTriedBucket(env, nKey, mapInfo[id]) != n {
              return -17;
            }
            if GetBucketPosition(env, nKey, mapInfo[id], false, n) != i {
              return -18;
            }
            setTried := setTried - {id};
          }
        }
        PriorRow(tried, n);
      }
      PriorAll(tried, TRIED_BUCKET_COUNT);
      ScannedTried(env, nKey, mapInfo, tried, setTried);
      if setTried != {} {
        return -13;
      }
      return 0;
    }

    /** Checks the new table against the references of the new entries. */
    method CheckNewTable(mapNewIn: map<int, int>) returns (err: int)
      requires Shaped() && mapNewIn == NewRefs(mapInfo)
      requires forall id :: id in mapInfo && !mapInfo[id].fInTried ==> mapInfo[id].nRefCount >= 1
      ensures err == 0 <==> NewPlaced(env, nKey, mapInfo, news) && RefsExact(mapInfo, news)
    {
      hide GetBucketPosition, Mirrors, NewPlaced, RefsExact, NewRefs, NewScanned, Prior;
      var mapNew := mapNewIn;
      MirrorsBounds(vvNew, news, NEW_BUCKET_COUNT);
      NoReferenceScanned(env, nKey, mapInfo, news);
      for n := 0 to NEW_BUCKET_COUNT
        invariant NewScanned(env, nKey, mapInfo, Prior(news, n, 0), mapNew)
      {
        for i := 0 to BUCKET_SIZE
          invariant NewScanned(env, nKey, mapInfo, Prior(news, n, i), mapNew)
        {
          CellOf(vvNew, news, NEW_BUCKET_COUNT, n, i);
          ScanNew(env, nKey, mapInfo, news, n, i, mapNew, vvNew[n, i]);
          if vvNew[n, i] != -1 {
            var id := vvNew[n, i];
            if id !in mapNew {
              return -12;
            }
            if GetBucketPosition(env, nKey, mapInfo[id], true, n) != i {
              return -19;
            }
            mapNew := OneLess(mapNew, id);
          }
        }
        PriorRow(news, n);
      }
      PriorAll(news, NEW_BUCKET_COUNT);
      ScannedNew(env, nKey, mapInfo, news, mapNew);
      if mapNew != map[] {
        return -15;
      }
      return 0;
    }

    /** The whole check. It decides Passes, whatever state it is run on, as long as the tables
        have their shape and ids are below the counter. */
    method Check_() returns (err: int)
      requires Shaped()
      modifies this`mapAddr
      ensures err == 0 <==> Passes(env, nKey, mapInfo, old(mapAddr), vRandom, news, tried, nTried, nNew)
      ensures err == 0 ==> forall id :: id in mapInfo ==>
                mapInfo[id].address.service.ip in mapAddr && mapAddr[mapInfo[id].address.service.ip] == id
      ensures old(Valid()) && nKey != 0 ==> err == 0 && Valid() && mapAddr == old(mapAddr)
    {
      hide Mirrors, TriedMatches, NewPlaced, RefsExact, NewRefs, TriedIds, NewIds, EntryPasses, Consistent, Counted;
      if Valid() && nKey != 0 {
        ConsistentPasses(env, nKey, nIdCount, mapInfo, mapAddr, vRandom, news, tried, nTried, nNew);
        AllAddressed(env, nKey, nIdCount, mapInfo, mapAddr, vRandom, news, tried, {});
      }
      if |vRandom| != nTried + nNew {
        return -7;
      }
      var setTried, mapNew;
      err, setTried, mapNew := CheckEntries();
      if err != 0 {
        return err;
      }
      EntriesFound(mapInfo, old(mapAddr), mapAddr, vRandom);
      RefsPositive(mapInfo, old(mapAddr), vRandom);
      NewRefsSize(mapInfo);
      if |setTried| != nTried {
        return -9;
      }
      if |mapNew| != nNew {
        return -10;
      }
      err := CheckTriedTable(setTried);
      if err != 0 {
        return err;
      }
      err := CheckNewTable(mapNew);
      if err != 0 {
        return err;
      }
      if nKey == 0 {
        return -16;
      }
      return 0;
    }

    // ---------- to disk ----------

    ghost function AsSaved(): Saved
      reads this
    {
      Saved(nKey, nIdCount, mapInfo, mapAddr, vRandom, news, tried, nTried, nNew)
    }

    /** Writes the entries of the new table. The counter is never exceeded. */
    method WriteNewEntries() returns (s: seq<Token>, mapUnkIds: map<int, int>)
      requires nIdCount >= 0 && |NewUpTo(mapInfo, nIdCount)| == nNew
      ensures s == Records(mapInfo, NewUpTo(mapInfo, nIdCount))
      ensures forall id ::
          id in mapInfo && 0 <= id < nIdCount ==> id in mapUnkIds && mapUnkIds[id] == AddrDisk.IndexOf(mapInfo, id)
    {
      hide NewUpTo, AddrDisk.IndexOf, Records;
      s, mapUnkIds := [], map[];
      var nIds := 0;
      NothingWritten(mapInfo);
      for id := 0 to nIdCount
        invariant s == Records(mapInfo, NewUpTo(mapInfo, id)) && nIds == |NewUpTo(mapInfo, id)|
        invariant forall j ::
            j in mapInfo && 0 <= j < id ==> j in mapUnkIds && mapUnkIds[j] == AddrDisk.IndexOf(mapInfo, j)
      {
        NewUpToNext(mapInfo, id, nIdCount);
        if id in mapInfo {
          mapUnkIds := mapUnkIds[id := nIds];
          var info := mapInfo[id];
          if info.nRefCount != 0 {
            assert nIds != nNew;
            s := s + [Record(ToDisk(info))];
            nIds := nIds + 1;
          }
        }
      }
    }

    /** Writes the tried entries. */
    method WriteTriedEntries() returns (s: seq<Token>)
      requires nIdCount >= 0 && |TriedUpTo(mapInfo, nIdCount)| == nTried
      ensures s == Records(mapInfo, TriedUpTo(mapInfo, nIdCount))
    {
      hide TriedUpTo, Records;
      s := [];
      var nIds := 0;
      NothingWritten(mapInfo);
      for id := 0 to nIdCount
        invariant s == Records(mapInfo, TriedUpTo(mapInfo, id)) && nIds == |TriedUpTo(mapInfo, id)|
      {
        TriedUpToNext(mapInfo, id, nIdCount);
        if id in mapInfo && mapInfo[id].fInTried {
          assert nIds != nTried;
          s := s + [Record(ToDisk(mapInfo[id]))];
          nIds := nIds + 1;
        }
      }
    }

    method CountBucket(bucket: int) returns (nSize: nat)
      requires Shaped() && 0 <= bucket < NEW_BUCKET_COUNT
      ensures nSize == |RowFrom(mapInfo, news, bucket, 0)|
    {
      hide Mirrors, RowFrom;
      nSize := 0;
      for i := 0 to BUCKET_SIZE
        invariant nSize + |RowFrom(mapInfo, news, bucket, i)| == |RowFrom(mapInfo, news, bucket, 0)|
      {
        CellOf(vvNew, news, NEW_BUCKET_COUNT, bucket, i);
        RowNext(mapInfo, news, bucket, i, []);
        if vvNew[bucket, i] != -1 {
          nSize := nSize + 1;
        }
      }
      RowNext(mapInfo, news, bucket, BUCKET_SIZE, []);
    }

    /** Writes one bucket row: its size, then the numbers of its entries. */
    method WriteBucket(bucket: int, mapUnkIds: map<int, int>) returns (s: seq<Token>)
      requires Shaped() && 0 <= bucket < NEW_BUCKET_COUNT
      requires forall t ::
          t in news ==> news[t] in mapUnkIds && mapUnkIds[news[t]] == AddrDisk.IndexOf(mapInfo, news[t])
      ensures s == [Num(|RowFrom(mapInfo, news, bucket, 0)|)] + RowFrom(mapInfo, news, bucket, 0)
    {
      hide Mirrors, AddrDisk.IndexOf, RowFrom;
      var nSize := CountBucket(bucket);
      s := [Num(nSize)];
      ghost var all := s + RowFrom(mapInfo, news, bucket, 0);
      for i := 0 to BUCKET_SIZE
        invariant s + RowFrom(mapInfo, news, bucket, i) == all
      {
        CellOf(vvNew, news, NEW_BUCKET_COUNT, bucket, i);
        RowNext(mapInfo, news, bucket, i, s);
        if vvNew[bucket, i] != -1 {
          var nIndex := mapUnkIds[vvNew[bucket, i]];
          s := s + [Num(nIndex)];
        }
      }
      RowNext(mapInfo, news, bucket, BUCKET_SIZE, s);
    }

    method Serialize() returns (s: seq<Token>)
      requires Valid()
      ensures nIdCount >= 0 && s == Encoded(AsSaved())
    {
      hide Mirrors, Consistent, Counted, NewUpTo, TriedUpTo, AddrDisk.IndexOf, RowFrom, BucketsFrom, Records;
      ghost var v := AsSaved();
      MirrorsBounds(vvNew, news, NEW_BUCKET_COUNT);
      SoundRefs(env, v);
      RecordCounts(env, v);
      SlotsKnown(env, nKey, nIdCount, mapInfo, mapAddr, vRandom, news, tried, {});
      s := Header(nKey, nNew, nTried);
      var newEntries, mapUnkIds := WriteNewEntries();
      var triedEntries := WriteTriedEntries();
      s := s + newEntries + triedEntries;
      for bucket := 0 to NEW_BUCKET_COUNT
        invariant s + BucketsFrom(mapInfo, news, bucket) == Encoded(v)
      {
        var row := WriteBucket(bucket, mapUnkIds);
        BucketWritten(mapInfo, news, bucket, s);
        s := s + row;
      }
      BucketsEnd(mapInfo, news, s);
    }

    // ---------- from disk ----------

    /** Enters an entry as it was read, under a new id. */
    method Load(nId: int, info: AddrInfo)
      requires RandomMatches(mapInfo, vRandom) && nId !in mapInfo
      modifies this`mapInfo, this`mapAddr, this`vRandom
      ensures RandomMatches(mapInfo, vRandom) && vRandom == old(vRandom) + [nId]
      ensures mapInfo == old(mapInfo)[nId := info.(nRandomPos := |old(vRandom)|)]
      ensures mapAddr == old(mapAddr)[info.address.service.ip := nId]
    {
      mapInfo := mapInfo[nId := info.(nRandomPos := |vRandom|)];
      mapAddr := mapAddr[info.address.service.ip := nId];
      vRandom := vRandom + [nId];
    }

    /** Gives an entry a free slot of the new table, whatever else the state is. */
    method LoadSlot(nId: int, bucket: int, position: int)
      requires Shaped() && RandomMatches(mapInfo, vRandom) && nId in mapInfo && nId != -1
      requires 0 <= bucket < NEW_BUCKET_COUNT && 0 <= position < BUCKET_SIZE
      modifies this`mapInfo, this`news, vvNew
      ensures Shaped() && RandomMatches(mapInfo, vRandom) && news == old(news)[(bucket, position) := nId]
      ensures mapInfo == old(mapInfo)[nId := old(mapInfo)[nId].(nRefCount := old(mapInfo)[nId].nRefCount + 1)]
    {
      hide Mirrors;
      mapInfo := mapInfo[nId := mapInfo[nId].(nRefCount := mapInfo[nId].nRefCount + 1)];
      news := SetCell(vvNew, bucket, position, nId, news, NEW_BUCKET_COUNT);
    }

    /** Reads the entries of the new table. Where the bucket rows that follow cannot be used
        they get one slot each at once, if it is free. */
    method ReadNewEntries(s: seq<Token>, start: nat, usable: bool, ghost v: Saved, ghost good: bool)
        returns (ok: bool, pos: nat)
      requires Shaped() && mapInfo == map[] && mapAddr == map[] && vRandom == [] && news == map[]
      requires good
          ==> usable && Sound(env, v) && v.nIdCount >= 0 && nKey == v.nKey && nNew == |NewUpTo(v.info, v.nIdCount)|
      requires good ==> start + nNew <= |s|
                        && forall j ::
                            0 <= j < nNew ==> s[start + j] == Record(ToDisk(v.info[NewUpTo(v.info, v.nIdCount)[j]]))
      modifies this`mapInfo, this`mapAddr, this`vRandom, this`news, vvNew
      ensures Shaped() && RandomMatches(mapInfo, vRandom)
      ensures forall id :: id in mapInfo ==> 0 <= id < nNew
      ensures ok ==> pos == start + (if nNew < 0 then 0 else nNew) && forall id :: 0 <= id < nNew ==> id in mapInfo
      ensures good ==> ok && news == map[] && NewLoaded(env, v, nNew, mapInfo, mapAddr, vRandom)
    {
      hide Mirrors, NewUpTo, TriedUpTo, NewLoaded, Sound, ToDisk, FromDisk, GetBucketPosition, GetNewBucket;
      pos := start;
      var n := 0;
      if good {
        NothingLoaded(env, v);
      }
      while n < nNew
        invariant 0 <= n && (n <= nNew || n == 0) && pos == start + n
        invariant Shaped() && RandomMatches(mapInfo, vRandom) && |vRandom| == n
        invariant forall id :: id in mapInfo <==> 0 <= id < n
        invariant good ==> news == map[] && NewLoaded(env, v, n, mapInfo, mapAddr, vRandom)
      {
        if good {
          assert s[start + n] == Record(ToDisk(v.info[NewUpTo(v.info, v.nIdCount)[n]]));
        }
        if !(pos < |s| && s[pos].Record?) {
          return false, pos;
        }
        var info := FromDisk(s[pos].info);
        if good {
          NewLoadedNext(env, v, n, mapInfo, mapAddr, vRandom, info.(nRandomPos := n));
        }
        Load(n, info);
        if !usable {
          var nUBucket := GetNewBucket(env, nKey, info, info.source);
          var nUBucketPos := GetBucketPosition(env, nKey, info, true, nUBucket);
          CellOf(vvNew, news, NEW_BUCKET_COUNT, nUBucket, nUBucketPos);
          if vvNew[nUBucket, nUBucketPos] == -1 {
            LoadSlot(n, nUBucket, nUBucketPos);
          }
        }
        n, pos := n + 1, pos + 1;
      }
      return true, pos;
    }

    /** Enters one tried entry, unless its slot is taken. */
    method LoadTried(info: AddrInfo) returns (lost: bool)
      requires Shaped() && RandomMatches(mapInfo, vRandom) && nIdCount >= 0 && nIdCount !in mapInfo
      modifies this`mapInfo, this`mapAddr, this`vRandom, this`nIdCount, this`tried, vvTried
      ensures Shaped() && RandomMatches(mapInfo, vRandom)
      ensures lost <==> TriedSlot(env, nKey, info) in old(tried)
      ensures lost ==> mapInfo == old(mapInfo) && nIdCount == old(nIdCount)
      ensures !lost ==>
                var id := old(nIdCount);
                && nIdCount == id + 1 && vRandom == old(vRandom) + [id]
                && mapInfo == old(mapInfo)[id := info.(nRandomPos := |old(vRandom)|, fInTried := true)]
                && mapAddr == old(mapAddr)[info.address.service.ip := id]
                && tried == old(tried)[TriedSlot(env, nKey, info) := id]
    {
      hide Mirrors, GetTriedBucket, GetBucketPosition;
      var nKBucket := GetTriedBucket(env, nKey, info);
      var nKBucketPos := GetBucketPosition(env, nKey, info, false, nKBucket);
      CellOf(vvTried, tried, TRIED_BUCKET_COUNT, nKBucket, nKBucketPos);
      lost := true;
      if vvTried[nKBucket, nKBucketPos] == -1 {
        Load(nIdCount, info.(fInTried := true));
        tried := SetCell(vvTried, nKBucket, nKBucketPos, nIdCount, tried, TRIED_BUCKET_COUNT);
        nIdCount := nIdCount + 1;
        lost := false;
      }
    }

    /** Reads the tried entries, and counts those that find their slot taken. */
    method ReadTriedEntries(s: seq<Token>, start: nat, ghost v: Saved, ghost good: bool)
        returns (ok: bool, pos: nat, nLost: nat)
      requires Shaped() && RandomMatches(mapInfo, vRandom) && nIdCount >= 0 && forall id ::
          id in mapInfo ==> 0 <= id < nIdCount
      requires good ==> Sound(env, v) && v.nIdCount >= 0 && nKey == v.nKey && news == map[]
                        && TriedLoaded(env, v, nIdCount, nIdCount, mapInfo, mapAddr, vRandom, tried)
                        && |Order(v)| == nIdCount + nTried && nTried >= 0
      requires good ==> start + nTried <= |s|
                        && forall j ::
                            nIdCount <= j < |Order(v)|
                            ==> s[start - nIdCount + j] == Record(ToDisk(v.info[Order(v)[j]]))
      modifies this`mapInfo, this`mapAddr, this`vRandom, this`nIdCount, this`tried, vvTried
      ensures Shaped() && RandomMatches(mapInfo, vRandom)
      ensures old(nIdCount) <= nIdCount && (forall id :: id in mapInfo ==> 0 <= id < nIdCount)
      ensures forall id :: id in old(mapInfo) ==> id in mapInfo && mapInfo[id] == old(mapInfo)[id]
      ensures good ==> ok && nLost == 0 && pos == start + nTried && nIdCount == |Order(v)|
                       && TriedLoaded(env, v, old(nIdCount), |Order(v)|, mapInfo, mapAddr, vRandom, tried)
    {
      hide Mirrors, NewUpTo, TriedUpTo, TriedLoaded, Sound, ToDisk, FromDisk, TriedSlot, Order, RandomMatches;
      ghost var m := nIdCount;
      pos, nLost := start, 0;
      var n := 0;
      while n < nTried
        invariant 0 <= n && (n <= nTried || n == 0) && pos == start + n && m <= nIdCount
        invariant Shaped() && RandomMatches(mapInfo, vRandom)
        invariant forall id :: id in mapInfo ==> 0 <= id < nIdCount
        invariant forall id :: id in old(mapInfo) ==> id in mapInfo && mapInfo[id] == old(mapInfo)[id]
        invariant good
            ==> nLost == 0 && nIdCount == m + n && TriedLoaded(env, v, m, nIdCount, mapInfo, mapAddr, vRandom, tried)
      {
        if good {
          assert s[start - m + nIdCount] == Record(ToDisk(v.info[Order(v)[nIdCount]]));
        }
        if !(pos < |s| && s[pos].Record?) {
          return false, pos, nLost;
        }
        var info := FromDisk(s[pos].info);
        if good {
          TriedFits(env, v, m, nIdCount, mapInfo, mapAddr, vRandom, tried, info);
        }
        var lost := LoadTried(info);
        if lost {
          nLost := nLost + 1;
        }
        n, pos := n + 1, pos + 1;
      }
      return true, pos, nLost;
    }

    /** Reads the number of one entry in a bucket row, and gives it its slot in that bucket. */
    method LoadReference(bucket: int, nIndex: int, usable: bool)
      requires Shaped() && RandomMatches(mapInfo, vRandom) && 0 <= bucket && (usable ==> bucket < NEW_BUCKET_COUNT)
      requires forall id :: 0 <= id < nNew ==> id in mapInfo
      modifies this`mapInfo, this`news, vvNew
      ensures Shaped() && RandomMatches(mapInfo, vRandom) && mapInfo.Keys == old(mapInfo).Keys
      ensures (0 <= nIndex < nNew && usable && nIndex in old(mapInfo)
          && old(mapInfo)[nIndex].nRefCount < NEW_BUCKETS_PER_ADDRESS
               && (bucket, GetBucketPosition(env, nKey, old(mapInfo)[nIndex], true, bucket)) !in old(news)) ==>
                && news == old(news)[(bucket,
                    GetBucketPosition(env, nKey, old(mapInfo)[nIndex], true, bucket)) := nIndex]
                && mapInfo
                    == old(mapInfo)[nIndex := old(mapInfo)[nIndex].(nRefCount := old(mapInfo)[nIndex].nRefCount + 1)]
    {
      hide Mirrors, GetBucketPosition, RandomMatches;
      if nIndex >= 0 && nIndex < nNew {
        var info := mapInfo[nIndex];
        var nUBucketPos := GetBucketPosition(env, nKey, info, true, bucket);
        if usable {
          CellOf(vvNew, news, NEW_BUCKET_COUNT, bucket, nUBucketPos);
          if vvNew[bucket, nUBucketPos] == -1 && info.nRefCount < NEW_BUCKETS_PER_ADDRESS {
            LoadSlot(nIndex, bucket, nUBucketPos);
          }
        }
      }
    }

    /** Reads one bucket row. */
    method ReadRow(s: seq<Token>, start: nat, bucket: int, usable: bool, ghost v: Saved, ghost good: bool)
        returns (ok: bool, pos: nat)
      requires Shaped() && RandomMatches(mapInfo, vRandom) && 0 <= bucket && (usable ==> bucket < NEW_BUCKET_COUNT)
      requires forall id :: 0 <= id < nNew ==> id in mapInfo
      requires good ==> usable && Sound(env, v) && v.nIdCount >= 0 && nKey == v.nKey
                        && RowsLoaded(env, v, nNew, mapInfo, mapAddr, vRandom, tried, news, Prior(v.news, bucket, 0))
                        && start <= |s| && s[start..] == BucketsFrom(v.info, v.news, bucket)
      modifies this`mapInfo, this`news, vvNew
      ensures Shaped() && RandomMatches(mapInfo, vRandom) && mapInfo.Keys == old(mapInfo).Keys
      ensures good ==> ok && pos <= |s| && s[pos..] == BucketsFrom(v.info, v.news, bucket + 1)
                       && RowsLoaded(env, v, nNew, mapInfo, mapAddr, vRandom, tried, news, Prior(v.news, bucket + 1, 0))
    {
      hide Mirrors, GetBucketPosition, RandomMatches, RowsLoaded, Sound, Prior, RowFrom, BucketsFrom, AddrDisk.IndexOf;
      pos := start;
      if good {
        BucketTokens(v.info, v.news, bucket, s, pos);
      }
      if !(pos < |s| && s[pos].Num?) {
        return false, pos;
      }
      var nSize := s[pos].n;
      pos := pos + 1;
      ghost var p := 0;
      var n := 0;
      while n < nSize
        invariant Shaped() && RandomMatches(mapInfo, vRandom) && mapInfo.Keys == old(mapInfo).Keys
            && 0 <= p <= BUCKET_SIZE
        invariant good
            ==> pos <= |s| && s[pos..] == RowFrom(v.info, v.news, bucket, p) + BucketsFrom(v.info, v.news, bucket + 1)
                           && nSize - n == |RowFrom(v.info, v.news, bucket, p)|
                           && RowsLoaded(env, v, nNew, mapInfo, mapAddr, vRandom, tried, news, Prior(v.news, bucket, p))
      {
        if good {
          p := NextReference(s, pos, bucket, v, p);
        }
        if !(pos < |s| && s[pos].Num?) {
          return false, pos;
        }
        LoadReference(bucket, s[pos].n, usable);
        n, pos := n + 1, pos + 1;
        p := if good then p + 1 else p;
      }
      if good {
        RowOver(env, v, nNew, mapInfo, mapAddr, vRandom, tried, news, bucket, p);
      }
      return true, pos;
    }

    /** What the next number in a row does. */
    ghost method NextReference(s: seq<Token>, pos: nat, bucket: int, v: Saved, p: int) returns (q: int)
      requires Sound(env, v) && v.nIdCount >= 0 && nKey == v.nKey && 0 <= bucket < NEW_BUCKET_COUNT
          && 0 <= p <= BUCKET_SIZE
      requires RowsLoaded(env, v, nNew, mapInfo, mapAddr, vRandom, tried, news, Prior(v.news, bucket, p))
      requires pos <= |s| && s[pos..] == RowFrom(v.info, v.news, bucket, p) + BucketsFrom(v.info, v.news, bucket + 1)
      requires |RowFrom(v.info, v.news, bucket, p)| > 0
      ensures p <= q < BUCKET_SIZE && pos < |s| && s[pos].Num? && 0 <= s[pos].n < nNew && s[pos].n in mapInfo
      ensures |RowFrom(v.info, v.news, bucket, p)| == 1 + |RowFrom(v.info, v.news, bucket, q + 1)|
      ensures s[pos + 1..] == RowFrom(v.info, v.news, bucket, q + 1) + BucketsFrom(v.info, v.news, bucket + 1)
      ensures var id := s[pos].n; var entry := mapInfo[id].(nRefCount := mapInfo[id].nRefCount + 1);
              && mapInfo[id].nRefCount < NEW_BUCKETS_PER_ADDRESS
              && (bucket, GetBucketPosition(env, nKey, mapInfo[id], true, bucket)) == (bucket, q)
                  && (bucket, q) !in news
              && RowsLoaded(env, v, nNew, mapInfo[id := entry], mapAddr, vRandom, tried, news[(bucket, q) := id],
                            Prior(v.news, bucket, q + 1))
    {
      hide GetBucketPosition, RowsLoaded, Sound, Prior, RowFrom, BucketsFrom, AddrDisk.IndexOf;
      q := RowSkip(env, v, nNew, mapInfo, mapAddr, vRandom, tried, news, bucket, p);
      RowToken(v.info, v.news, bucket, q, s, pos, BucketsFrom(v.info, v.news, bucket + 1));
      SlotToken(env, v, nNew, mapInfo, mapAddr, vRandom, tried, news, bucket, q);
      SlotLoaded(env, v, nNew, mapInfo, mapAddr, vRandom, tried, news, bucket, q, s[pos].n);
    }

    /** Reads all bucket rows. */
    method ReadRows(s: seq<Token>, start: nat, nUBuckets: int, usable: bool, ghost v: Saved, ghost good: bool)
        returns (ok: bool)
      requires Shaped() && RandomMatches(mapInfo, vRandom) && (usable ==> nUBuckets == NEW_BUCKET_COUNT)
      requires forall id :: 0 <= id < nNew ==> id in mapInfo
      requires good ==> usable && Sound(env, v) && v.nIdCount >= 0 && nKey == v.nKey
                        && RowsLoaded(env, v, nNew, mapInfo, mapAddr, vRandom, tried, news, Prior(v.news, 0, 0))
                        && start <= |s| && s[start..] == BucketsFrom(v.info, v.news, 0)
      modifies this`mapInfo, this`news, vvNew
      ensures Shaped() && RandomMatches(mapInfo, vRandom) && mapInfo.Keys == old(mapInfo).Keys
      ensures good ==> ok && RowsLoaded(env, v, nNew, mapInfo, mapAddr, vRandom, tried, news, v.news)
    {
      hide Mirrors, RandomMatches, RowsLoaded, Sound, Prior, BucketsFrom;
      var pos: nat := start;
      var bucket := 0;
      while bucket < nUBuckets
        invariant 0 <= bucket && (bucket <= nUBuckets || bucket == 0)
        invariant Shaped() && RandomMatches(mapInfo, vRandom) && mapInfo.Keys == old(mapInfo).Keys
        invariant good ==> pos <= |s| && s[pos..] == BucketsFrom(v.info, v.news, bucket)
                           && RowsLoaded(env, v, nNew, mapInfo, mapAddr, vRandom, tried, news, Prior(v.news, bucket, 0))
      {
        ok, pos := ReadRow(s, pos, bucket, usable, v, good);
        if !ok {
          return false;
        }
        bucket := bucket + 1;
      }
      if good {
        AllSlotsPrior(env, v);
      }
      return true;
    }

    /** Forgets the untried entries that have no slot, and counts them. */
    method Prune() returns (nLostUnk: nat)
      requires RandomMatches(mapInfo, vRandom) && nIdCount >= 0
      modifies this`mapInfo, this`mapAddr, this`vRandom, this`nNew
      ensures RandomMatches(mapInfo, vRandom)
      ensures LooseOf(old(mapInfo)) == {} ==>
                nLostUnk == 0 && mapInfo == old(mapInfo) && mapAddr == old(mapAddr) && vRandom == old(vRandom)
                    && nNew == old(nNew)
      ensures nNew == old(nNew) - nLostUnk
    {
      hide RandomMatches;
      nLostUnk := 0;
      for id := 0 to nIdCount
        invariant RandomMatches(mapInfo, vRandom) && nNew == old(nNew) - nLostUnk
        invariant LooseOf(old(mapInfo)) == {} ==>
                    nLostUnk == 0 && mapInfo == old(mapInfo) && mapAddr == old(mapAddr) && vRandom == old(vRandom)
      {
        if id in mapInfo && !mapInfo[id].fInTried && mapInfo[id].nRefCount == 0 {
          assert id in LooseOf(mapInfo);
          ghost var mid := Delete(id, mapInfo);
          nLostUnk := nLostUnk + 1;
        }
      }
    }

    /** Reads a manager into a fresh one. What was written by a sound manager comes back whole:
        nothing is lost, and all indexes agree again. */
    method Unserialize(s: seq<Token>, nRandomKey: int, ghost v: Saved) returns (ok: bool)
      requires Dimensioned() && mapInfo == map[] && mapAddr == map[]
      modifies this, vvTried, vvNew
      ensures Shaped() && RandomMatches(mapInfo, vRandom)
      ensures Sound(env, v) && v.nIdCount >= 0 && s == Encoded(v) ==> ok && Valid() && Restored(v, AsSaved())
      ensures |s| > 1 && s[1] != Num(32) ==> !ok
    {
      hide Mirrors, Sound, Encoded, Restored, RandomMatches, NewLoaded, TriedLoaded, RowsLoaded, Order, NewUpTo,
          TriedUpTo, Prior, BucketsFrom, Consistent, Counted, ToDisk;
      ghost var good := Sound(env, v) && v.nIdCount >= 0 && s == Encoded(v);
      Clear(nRandomKey);
      EmptyRandom(mapInfo, vRandom);
      if good {
        EncodedHeader(env, v, s);
      }
      if !(6 <= |s| && s[0].Num? && s[1] == Num(32) && s[2].Blob? && s[3].Num? && s[4].Num? && s[5].Num?) {
        return false;
      }
      var nVersion := s[0].n;
      nKey, nNew, nTried := s[2].key, s[3].n, s[4].n;
      var nUBuckets := if nVersion != 0 then Flip30(s[5].n) else s[5].n;
      var usable := nVersion == 1 && nUBuckets == NEW_BUCKET_COUNT;
      ok := LoadAll(s, nUBuckets, usable, v, good);
    }

    /** Reads everything after the header. */
    method LoadAll(s: seq<Token>, nUBuckets: int, usable: bool, ghost v: Saved, ghost good: bool) returns (ok: bool)
      requires Shaped() && mapInfo == map[] && mapAddr == map[] && vRandom == [] && news == map[] && tried == map[]
      requires nIdCount == 0 && RandomMatches(mapInfo, vRandom) && (usable ==> nUBuckets == NEW_BUCKET_COUNT)
      requires good
          ==> usable && Sound(env, v) && v.nIdCount >= 0 && nKey == v.nKey && nNew == v.nNew && nTried == v.nTried
                        && s == Encoded(v)
      modifies this, vvTried, vvNew
      ensures Shaped() && RandomMatches(mapInfo, vRandom)
      ensures good ==> ok && Valid() && Restored(v, AsSaved())
    {
      hide Mirrors, Sound, Encoded, Restored, RandomMatches, NewLoaded, TriedLoaded, RowsLoaded, Order, NewUpTo,
          TriedUpTo, Prior, BucketsFrom, Consistent, Counted, ToDisk;
      if good {
        EncodedSizes(env, v);
        EncodedNew(env, v, s);
        EncodedInOrder(env, v, s);
        EncodedRest(env, v, s);
      }
      var pos;
      ok, pos := ReadNewEntries(s, 6, usable, v, good);
      if !ok {
        return false;
      }
      nIdCount := if nNew < 0 then 0 else nNew;
      var nLost;
      if good {
        NoTriedLoaded(env, v, nNew, mapInfo, mapAddr, vRandom);
      }
      ok, pos, nLost := ReadTriedEntries(s, pos, v, good);
      if !ok {
        return false;
      }
      nTried := nTried - nLost;
      if good {
        NoRowsLoaded(env, v, nNew, mapInfo, mapAddr, vRandom, tried);
      }
      ok := ReadRows(s, pos, nUBuckets, usable, v, good);
      if !ok {
        return false;
      }
      if good {
        AllLoaded(env, v, nNew, mapInfo, mapAddr, vRandom, tried, news);
      }
      var nLostUnk := Prune();
      return true;
    }
  }
}
