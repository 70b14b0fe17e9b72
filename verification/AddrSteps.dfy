/** What one step of the address manager does to entries, slots and counters. */
module AddrSteps {
  import opened AddrState

  ghost predicate Holder(slots: Slots, s: Slot, id: int)
  {
    s in slots && slots[s] == id
  }

  /** The holder of a slot, if any, has one reference less, or is gone if it was its last;
      nothing else changes but places in the vector. */
  ghost predicate LosesSlot(before: Infos, after: Infos, slots: Slots, s: Slot)
  {
    && after.Keys <= before.Keys
    && (forall id :: id in before && !Holder(slots, s, id) ==> id in after && SameButPlace(after[id], before[id]))
    && (forall id :: id in before && Holder(slots, s, id) && before[id].nRefCount > 1 ==> id in after)
    && (forall id :: id in after && Holder(slots, s, id) ==>
          SameButPlace(after[id], before[id].(nRefCount := before[id].nRefCount - 1)))
  }

  lemma IdsCount(env: Env, nKey: int, nIdCount: int, info: Infos, addr: Addrs, random: seq<int>, news: Slots,
      tried: Slots, loose: set<int>, id: int)
    requires Consistent(env, nKey, nIdCount, info, addr, random, news, tried, loose) && id in info
    ensures id >= 0
  {
  }

  lemma LastOut(info: Infos, random: seq<int>, id: int)
    requires RandomMatches(info, random) && |random| > 0 && random[|random| - 1] == id
    ensures id in info && RandomMatches(info - {id}, random[..|random| - 1])
  {
  }

  lemma CountedForgotten(info: Infos, mid: Infos, tried: Slots, loose: set<int>, nTried: int, nNew: int, id: int)
    requires Counted(info, tried, With(loose, id), nTried, nNew) && id !in loose && id in info && Reshuffled(info, mid)
    ensures Counted(mid - {id}, tried, loose, nTried, nNew)
  {
    hide SameButPlace;
    assert |(mid - {id}).Keys| == |mid - {id}| && |info.Keys| == |info|;
    assert (mid - {id}).Keys == info.Keys - {id};
  }

  lemma HolderKnown(env: Env, nKey: int, nIdCount: int, info: Infos, addr: Addrs, random: seq<int>, news: Slots,
      tried: Slots, loose: set<int>, s: Slot, id: int)
    requires Consistent(env, nKey, nIdCount, info, addr, random, news, tried, loose) && Holder(news, s, id)
    ensures id in info
  {
  }

  lemma CountedUntried(info: Infos, tried: Slots, loose: set<int>, nTried: int, nNew: int, s: Slot)
    requires Counted(info, tried, loose, nTried, nNew) && s in tried && tried[s] !in loose
    ensures Counted(info, tried - {s}, With(loose, tried[s]), nTried - 1, nNew)
  {
    assert (tried - {s}).Keys == tried.Keys - {s};
    assert |(tried - {s}).Keys| == |tried - {s}| && |tried.Keys| == |tried|;
  }

  lemma LooseHoldsNothing(env: Env, nKey: int, nIdCount: int, info: Infos, addr: Addrs, random: seq<int>, news: Slots,
                          tried: Slots, loose: set<int>, id: int)
    requires Consistent(env, nKey, nIdCount, info, addr, random, news, tried, With(loose, id))
    ensures id in info && !info[id].fInTried && info[id].nRefCount == 0
    ensures forall s :: !Holder(news, s, id)
  {
    hide AddrsMatch, RandomMatches, TriedMatches, NewPlaced, TimesOk;
    assert forall s :: s in news && news[s] == id ==> s in SlotsOf(news, id);
  }

  /** An entry that did not hold the slot is untouched when it is emptied. */
  lemma StillThere(env: Env, nKey: int, before: Infos, after: Infos, slots: Slots, s: Slot, id: int)
    requires LosesSlot(before, after, slots, s) && id in before && !Holder(slots, s, id)
    ensures id in after && SameButPlace(after[id], before[id])
    ensures after[id].nRefCount == before[id].nRefCount && after[id].fInTried == before[id].fInTried
    ensures after[id].nLastSuccess == before[id].nLastSuccess
    ensures forall b ::
        GetBucketPosition(env, nKey, after[id], true, b) == GetBucketPosition(env, nKey, before[id], true, b)
    ensures TriedSlot(env, nKey, after[id]) == TriedSlot(env, nKey, before[id])
  {
    hide GetBucketPosition, TriedSlot;
    PlaceOnly(after[id], before[id]);
    SamePlaceSameSlots(env, nKey, after[id], before[id]);
  }

  lemma SamePlaceOnly(a: AddrInfo)
    ensures SameButPlace(a, a)
  {
  }

  lemma PlaceOnly(a: AddrInfo, b: AddrInfo)
    requires SameButPlace(a, b)
    ensures SamePlace(a, b) && a.nRefCount == b.nRefCount && a.fInTried == b.fInTried
        && a.nLastSuccess == b.nLastSuccess
    ensures a.nLastTry == b.nLastTry && a.nAttempts == b.nAttempts && a.address == b.address
  {
    var x, y := a.(nRandomPos := 0), b.(nRandomPos := 0);
    assert x.address == a.address && y.address == b.address && x.source == a.source && y.source == b.source;
    assert x.nRefCount == a.nRefCount && x.fInTried == a.fInTried && x.nLastSuccess == a.nLastSuccess;
    assert x.nLastTry == a.nLastTry && x.nAttempts == a.nAttempts;
  }

  lemma CountedReferenced(info: Infos, tried: Slots, loose: set<int>, nTried: int, nNew: int, id: int)
    requires Counted(info, tried, With(loose, id), nTried, nNew) && id !in loose
    ensures Counted(info, tried, loose, nTried, nNew + 1)
  {
  }

  function SlotFor(env: Env, nKey: int, info: AddrInfo, source: NetAddr): Slot
  {
    (GetNewBucket(env, nKey, info, source),
        GetBucketPosition(env, nKey, info, true, GetNewBucket(env, nKey, info, source)))
  }

  /** The evicted entry is untried again and holds the one new slot of its own source; what
      held that slot has one reference less, or is gone if it was its last. */
  ghost predicate Evicted(env: Env, nKey: int, before: Infos, after: Infos, slots: Slots, slots': Slots, id: int)
  {
    && id in before && id in after && after[id].address == before[id].address && after[id].source == before[id].source
    && !after[id].fInTried && after[id].nRefCount == 1
    && slots' == slots[SlotFor(env, nKey, before[id], before[id].source) := id]
    && LosesSlot(before - {id}, after - {id}, slots, SlotFor(env, nKey, before[id], before[id].source))
  }

  /** A loose entry took its own slot, which was cleared first. */
  ghost predicate Renewed(env: Env, nKey: int, before: Infos, cleared: Infos, after: Infos, slots: Slots, slots': Slots,
      id: int)
  {
    && id in before && id in cleared
    && LosesSlot(before, cleared, slots, SlotFor(env, nKey, before[id], before[id].source))
    && !Holder(slots, SlotFor(env, nKey, before[id], before[id].source), id)
    && slots' == (slots - {SlotFor(env, nKey, before[id], before[id].source)})[SlotFor(env, nKey, before[id],
        before[id].source) := id]
    && after == cleared[id := cleared[id].(nRefCount := cleared[id].nRefCount + 1)]
  }

  lemma EvictedAll(env: Env, nKey: int, before: Infos, mid: Infos, cleared: Infos, after: Infos, slots: Slots,
      slots': Slots, id: int)
    requires id in before && mid == before[id := before[id].(fInTried := false)] && before[id].nRefCount == 0
    requires Renewed(env, nKey, mid, cleared, after, slots, slots', id)
    ensures Evicted(env, nKey, before, after, slots, slots', id)
  {
    hide GetBucketPosition, GetNewBucket, SameButPlace;
    PlaceOnly(cleared[id], mid[id]);
    SameSlot(env, nKey, mid[id], before[id]);
    assert slots' == slots[SlotFor(env, nKey, before[id], before[id].source) := id];
    assert (after - {id}) == cleared - {id} && before - {id} == mid - {id};
  }

  lemma SameSlot(env: Env, nKey: int, a: AddrInfo, b: AddrInfo)
    requires SamePlace(a, b)
    ensures SlotFor(env, nKey, a, a.source) == SlotFor(env, nKey, b, b.source)
  {
  }

  /** The buckets looked at in the first n turns. */
  predicate InTurn(nRnd: int, n: int, bucket: int)
  {
    (nRnd <= bucket < nRnd + n) || (nRnd <= bucket + NEW_BUCKET_COUNT < nRnd + n)
  }

  lemma TurnNext(nRnd: int, n: int)
    requires 0 <= nRnd < NEW_BUCKET_COUNT && 0 <= n < NEW_BUCKET_COUNT
    ensures forall b :: 0 <= b < NEW_BUCKET_COUNT && InTurn(nRnd, n + 1, b) ==>
              InTurn(nRnd, n, b) || b == (n + nRnd) % NEW_BUCKET_COUNT
  {
    assert (n + nRnd) % NEW_BUCKET_COUNT == if n + nRnd < NEW_BUCKET_COUNT then n + nRnd
        else n + nRnd - NEW_BUCKET_COUNT;
  }

  lemma AllTurns(nRnd: int)
    requires 0 <= nRnd < NEW_BUCKET_COUNT
    ensures forall b :: 0 <= b < NEW_BUCKET_COUNT ==> InTurn(nRnd, NEW_BUCKET_COUNT, b)
  {
  }

  lemma AddrKnown(env: Env, nKey: int, nIdCount: int, info: Infos, addr: Addrs, random: seq<int>, news: Slots,
      tried: Slots, loose: set<int>)
    requires Consistent(env, nKey, nIdCount, info, addr, random, news, tried, loose)
    ensures forall a :: a in addr ==> addr[a] in info && addr[a] >= 0 && info[addr[a]].address.service.ip == a
    ensures forall id :: id in info ==> id >= 0 && info[id].nLastTry >= 0 && info[id].nLastSuccess >= 0
                                        && (info[id].fInTried ==> info[id].nLastSuccess > 0)
  {
    hide RandomMatches, TriedMatches, NewPlaced, RefsMatch;
  }

  lemma RefsBounded(env: Env, nKey: int, nIdCount: int, info: Infos, addr: Addrs, random: seq<int>, news: Slots,
      tried: Slots, id: int)
    requires Consistent(env, nKey, nIdCount, info, addr, random, news, tried, {}) && id in info
    ensures 0 <= info[id].nRefCount && (!info[id].fInTried ==> 1 <= info[id].nRefCount <= NEW_BUCKETS_PER_ADDRESS)
  {
    hide AddrsMatch, RandomMatches, TriedMatches, NewPlaced, TimesOk;
  }

  lemma UntriedHasSlot(env: Env, nKey: int, nIdCount: int, info: Infos, addr: Addrs, random: seq<int>, news: Slots,
                       tried: Slots, id: int)
    requires Consistent(env, nKey, nIdCount, info, addr, random, news, tried, {}) && id in info && !info[id].fInTried
    ensures SlotsOf(news, id) != {} && NewPlaced(env, nKey, info, news) && id >= 0
  {
    hide AddrsMatch, RandomMatches, TriedMatches, TimesOk;
  }

  /** An entry took a slot; what held it has one reference less or is gone; nothing else
      changed but places in the vector. */
  ghost predicate Displaced(before: Infos, after: Infos, slots: Slots, s: Slot, id: int)
  {
    && id in before && id in after
    && SameButPlace(after[id], before[id].(nRefCount := before[id].nRefCount + 1))
    && LosesSlot(before - {id}, after - {id}, slots, s)
  }

  lemma DisplacedAll(before: Infos, cleared: Infos, after: Infos, slots: Slots, s: Slot, id: int)
    requires LosesSlot(before, cleared, slots, s) && !Holder(slots, s, id) && id in before && id in cleared
    requires after == cleared[id := cleared[id].(nRefCount := cleared[id].nRefCount + 1)]
    ensures Displaced(before, after, slots, s, id) && (slots - {s})[s := id] == slots[s := id]
  {
    assert (slots - {s})[s := id] == slots[s := id];
    var x, y := cleared[id].(nRandomPos := 0), before[id].(nRandomPos := 0);
    assert after[id].(nRandomPos := 0) == x.(nRefCount := x.nRefCount + 1);
    assert before[id].(nRefCount := before[id].nRefCount + 1).(nRandomPos := 0) == y.(nRefCount := y.nRefCount + 1);
    hide SameButPlace;
    assert after - {id} == cleared - {id};
  }

  /** Whether an entry may take a slot from another one. */
  predicate MayTake(info: Infos, slots: Slots, id: int, s: Slot, nNow: int)
    requires id in info && (s in slots ==> slots[s] in info)
  {
    s in slots ==>
      slots[s] != id
      && (!Fit(info[slots[s]], nNow) || (info[slots[s]].nRefCount > 1 && info[id].nRefCount == 0))
  }

  /** What placing an entry at a slot comes to. */
  ghost predicate PlacedNew(before: Infos, after: Infos, slots: Slots, slots': Slots, id: int, s: Slot, nNow: int)
  {
    && id in before && (s in slots ==> slots[s] in before)
    && if MayTake(before, slots, id, s, nNow) then
         slots' == slots[s := id] && Displaced(before, after, slots, s, id)
       else
         slots' == slots && if before[id].nRefCount == 0 then Forgotten(before, after, id) else after == before
  }

  lemma RefsKnown(env: Env, nKey: int, nIdCount: int, info: Infos, addr: Addrs, random: seq<int>, news: Slots,
      tried: Slots, loose: set<int>, s: Slot, id: int)
    requires Consistent(env, nKey, nIdCount, info, addr, random, news, tried, loose) && id in info
    ensures s in news ==> news[s] in info && news[s] >= 0
    ensures Holder(news, s, id) ==> info[id].nRefCount >= 1
  {
    hide AddrsMatch, RandomMatches, TriedMatches, TimesOk;
    if Holder(news, s, id) {
      InSlots(news, s);
    }
  }

  lemma PlacedAll(before: Infos, after: Infos, slots: Slots, slots': Slots, id: int, s: Slot, nNow: int)
    requires id in before && (s in slots ==> slots[s] in before) && (Holder(slots, s, id) ==> before[id].nRefCount >= 1)
    requires if MayTake(before, slots, id, s, nNow)
        then slots' == slots[s := id] && Displaced(before, after, slots, s, id)
             else slots' == slots && if before[id].nRefCount == 0 then Forgotten(before, after, id) else after == before
    ensures PlacedNew(before, after, slots, slots', id, s, nNow)
  {
  }

  function NotBefore(nTime: int): int
  {
    if nTime < 0 then 0 else nTime
  }

  /** A known entry after news of it: services are added, and the time is moved on if the news
      is recent enough. */
  function Refreshed(info: AddrInfo, addr: Address, nTimePenalty: int, nNow: int): AddrInfo
  {
    var interval := if nNow - addr.nTime < 24 * 60 * 60 then 60 * 60 else 24 * 60 * 60;
    var moved := addr.nTime != 0
        && (info.address.nTime == 0 || info.address.nTime < addr.nTime - interval - nTimePenalty);
    info.(address := Address(info.address.service, info.address.nServices + addr.nServices,
                             if moved then NotBefore(addr.nTime - nTimePenalty) else info.address.nTime))
  }

  function TwoTo(n: int): (r: int)
    ensures r > 0
  {
    if n <= 0 then 1 else 2 * TwoTo(n - 1)
  }

  /** A known entry is to have another slot if there is news of it, it is not in the tried table,
      it has fewer than eight slots, and a random number is divisible by two to the number of
      slots it has. */
  predicate Wanted(info: AddrInfo, addr: Address, nRnd: nat)
  {
    && addr.nTime != 0 && (info.address.nTime == 0 || info.address.nTime < addr.nTime)
    && !info.fInTried && info.nRefCount != 8
    && nRnd % TwoTo(info.nRefCount) == 0
  }

  function Fresh(addr: Address, source: NetAddr, nTimePenalty: int, place: int): AddrInfo
  {
    NewInfo(addr.(nTime := NotBefore(addr.nTime - nTimePenalty)), source).(nRandomPos := place)
  }

  lemma TwiceSet(info: Infos, id: int, a: AddrInfo, b: AddrInfo)
    ensures info[id := a][id := b] == info[id := b]
  {
  }

  lemma CountedNew(info: Infos, tried: Slots, nTried: int, nNew: int, id: int, entry: AddrInfo)
    requires Counted(info, tried, {}, nTried, nNew)
    ensures id !in info ==> Counted(info[id := entry], tried, With({}, id), nTried, nNew)
  {
    if id !in info {
      assert info[id := entry].Keys == info.Keys + {id};
    }
  }

  function Without(slots: Slots, id: int): Slots
  {
    map s | s in slots && slots[s] != id :: slots[s]
  }

  lemma CountedTaken(info: Infos, tried: Slots, nTried: int, nNew: int, id: int)
    requires Counted(info, tried, {}, nTried, nNew + 1)
    ensures Counted(info, tried, With({}, id), nTried, nNew)
  {
  }

  lemma CountedTried(info: Infos, tried: Slots, nTried: int, nNew: int, s: Slot, id: int)
    requires Counted(info, tried, With({}, id), nTried, nNew) && s !in tried
    ensures Counted(info, tried[s := id], {}, nTried + 1, nNew)
  {
  }

  lemma AtSlot(env: Env, nKey: int, info: AddrInfo, n: int, i: int)
    ensures TriedSlot(env, nKey, info) == (n, i)
            <==> GetTriedBucket(env, nKey, info) == n && GetBucketPosition(env, nKey, info, false, n) == i
  {
  }

  lemma SlotRange(env: Env, nKey: int, info: AddrInfo)
    ensures 0 <= TriedSlot(env, nKey, info).0 < TRIED_BUCKET_COUNT && 0 <= TriedSlot(env, nKey, info).1 < BUCKET_SIZE
  {
  }

  lemma TriedNotLoose(env: Env, nKey: int, nIdCount: int, info: Infos, addr: Addrs, random: seq<int>, news: Slots,
                      tried: Slots, loose: set<int>, s: Slot, id: int)
    requires Consistent(env, nKey, nIdCount, info, addr, random, news, tried, With(loose, id)) && s in tried
    ensures tried[s] != id
  {
    assert info[tried[s]].fInTried;
    assert id in With(loose, id);
  }

  /** The tried slot of an entry is free: nothing was there, or what was there was evicted. */
  ghost predicate RoomMade(env: Env, nKey: int, id: int, before: Infos, after: Infos, tried: Slots, news: Slots,
      news': Slots)
    requires id in before
  {
    var s := TriedSlot(env, nKey, before[id]);
    if s in tried then Evicted(env, nKey, before - {id}, after - {id}, news, news', tried[s])
    else after - {id} == before - {id} && news' == news
  }

  /** What it means that an entry moved to the tried table. */
  ghost predicate MovedToTried(env: Env, nKey: int, id: int, before: Infos, after: Infos, tried: Slots, tried': Slots,
                               news: Slots, news': Slots)
  {
    && id in before && id in after
    && SameButPlace(after[id], before[id].(nRefCount := 0, fInTried := true))
    && tried' == tried[TriedSlot(env, nKey, before[id]) := id]
    && RoomMade(env, nKey, id, before, after, tried, Without(news, id), news')
  }

  lemma EvictedOthers(env: Env, nKey: int, before: Infos, after: Infos, slots: Slots, slots': Slots, evicted: int,
      id: int)
    requires Evicted(env, nKey, before, after, slots, slots', evicted) && id != evicted && id in before
    requires forall s :: !Holder(slots, s, id)
    ensures id in after && SameButPlace(after[id], before[id])
    ensures Evicted(env, nKey, before - {id}, after - {id}, slots, slots', evicted)
  {
    hide GetBucketPosition, GetNewBucket, SameButPlace;
    assert before - {id} - {evicted} == before - {evicted} - {id};
    assert after - {id} - {evicted} == after - {evicted} - {id};
  }

  lemma ClearedIsWithout(before: Slots, after: Slots, id: int)
    requires Cleared(before, after, id, NEW_BUCKET_COUNT)
    requires forall s :: s in before ==> s.0 < NEW_BUCKET_COUNT
    ensures after == Without(before, id)
  {
  }

  lemma MovedAll(env: Env, nKey: int, id: int, before: Infos, mid: Infos, roomy: Infos, after: Infos, tried: Slots,
      tried': Slots, news: Slots, news': Slots)
    requires id in before && mid == before[id := before[id].(nRefCount := 0)] && id in roomy
        && SameButPlace(roomy[id], mid[id])
    requires RoomMade(env, nKey, id, mid, roomy, tried, Without(news, id), news')
    requires after == roomy[id := roomy[id].(fInTried := true)]
    requires tried' == (tried - {TriedSlot(env, nKey, mid[id])})[TriedSlot(env, nKey, mid[id]) := id]
    ensures MovedToTried(env, nKey, id, before, after, tried, tried', news, news')
  {
    hide GetBucketPosition, GetTriedBucket, TriedSlot, Evicted;
    SamePlaceSameSlots(env, nKey, mid[id], before[id]);
    assert mid - {id} == before - {id} && after - {id} == roomy - {id};
    var x, y := roomy[id].(nRandomPos := 0), mid[id].(nRandomPos := 0);
    assert after[id].(nRandomPos := 0) == x.(fInTried := true);
    assert before[id].(nRefCount := 0, fInTried := true).(nRandomPos := 0) == y.(fInTried := true);
    assert tried' == tried[TriedSlot(env, nKey, before[id]) := id];
  }

  /** The slots an entry holds in buckets before a given one are free, all others as before. */
  ghost predicate Cleared(before: Slots, after: Slots, id: int, bucket: int)
  {
    && (forall s :: s in after <==> s in before && !(before[s] == id && s.0 < bucket))
    && (forall s :: s in after ==> after[s] == before[s])
  }

  lemma NothingCleared(env: Env, nKey: int, nIdCount: int, info: Infos, addr: Addrs, random: seq<int>, news: Slots,
      tried: Slots, id: int)
    requires Consistent(env, nKey, nIdCount, info, addr, random, news, tried, {}) && id in info
    ensures Cleared(news, news, id, 0)
    ensures id >= 0 && (info[id].nRefCount == 0 ==> info[id].fInTried)
  {
  }

  lemma ClearedNext(env: Env, nKey: int, nIdCount: int, info: Infos, addr: Addrs, random: seq<int>, before: Slots,
      news: Slots, tried: Slots, loose: set<int>, id: int, bucket: int)
    requires Consistent(env, nKey, nIdCount, info, addr, random, news, tried, loose) && id in info
    requires Cleared(before, news, id, bucket) && 0 <= bucket < NEW_BUCKET_COUNT
    ensures var s := (bucket, GetBucketPosition(env, nKey, info[id], true, bucket));
            if Holder(news, s, id) then
              info[id].nRefCount >= 1 && !info[id].fInTried && Cleared(before, news - {s}, id, bucket + 1)
            else Cleared(before, news, id, bucket + 1)
  {
    hide GetBucketPosition, AddrsMatch, RandomMatches, TriedMatches, TimesOk, SlotsOf;
    var s := (bucket, GetBucketPosition(env, nKey, info[id], true, bucket));
    if Holder(news, s, id) {
      InSlots(news, s);
    }
    forall r | r in news && news[r] == id && r.0 == bucket
      ensures r == s
    {
    }
  }

  lemma AllCleared(env: Env, nKey: int, nIdCount: int, info: Infos, addr: Addrs, random: seq<int>, before: Slots,
      news: Slots, tried: Slots, loose: set<int>, id: int)
    requires Consistent(env, nKey, nIdCount, info, addr, random, news, tried, loose) && id in info
    requires Cleared(before, news, id, NEW_BUCKET_COUNT)
    ensures info[id].nRefCount == 0
  {
    hide GetBucketPosition, AddrsMatch, RandomMatches, TriedMatches, TimesOk;
    assert SlotsOf(news, id) == {};
  }

  lemma LosesNothing(info: Infos, slots: Slots, s: Slot)
    requires s !in slots
    ensures slots - {s} == slots && LosesSlot(info, info, slots, s)
  {
  }

  lemma LosesOne(before: Infos, mid: Infos, slots: Slots, s: Slot, id: int)
    requires Holder(slots, s, id) && id in before
        && mid == before[id := before[id].(nRefCount := before[id].nRefCount - 1)]
    ensures LosesSlot(before, mid, slots, s)
  {
  }

  lemma ForgottenNow(before: Infos, mid: Infos, id: int)
    requires Reshuffled(before, mid) && id in before
    ensures id in mid && Forgotten(before, mid - {id}, id)
  {
    hide SameButPlace;
    assert (mid - {id}).Keys == mid.Keys - {id};
  }

  /** One entry is gone; the others changed in their place in the vector at most. */
  ghost predicate Forgotten(before: Infos, after: Infos, id: int)
  {
    && after.Keys == before.Keys - {id}
    && forall j :: j in after ==> SameButPlace(after[j], before[j])
  }

  lemma LosesAll(before: Infos, mid: Infos, after: Infos, slots: Slots, s: Slot, id: int)
    requires Holder(slots, s, id) && id in before
        && mid == before[id := before[id].(nRefCount := before[id].nRefCount - 1)]
    requires mid[id].nRefCount == 0 && Forgotten(mid, after, id)
    ensures LosesSlot(before, after, slots, s)
  {
    hide SameButPlace;
    assert forall j :: j in after <==> j in before && j != id;
    assert forall j :: j in after ==> mid[j] == before[j];
  }

  lemma CountedEntry(info: Infos, tried: Slots, loose: set<int>, nTried: int, nNew: int, id: int, entry: AddrInfo)
    requires Counted(info, tried, loose, nTried, nNew) && id in info
    ensures Counted(info[id := entry], tried, loose, nTried, nNew)
  {
  }

  lemma CountedPlaced(info: Infos, tried: Slots, wide: set<int>, nTried: int, nNew: int, ahead: int, id: int,
      entry: AddrInfo)
    requires (wide == {} && ahead == 0) || (wide == With({}, id) && ahead == 1)
    requires Counted(info, tried, wide, nTried, nNew - ahead) && id in info
    ensures Counted(info[id := entry], tried, {}, nTried, nNew)
  {
  }

  lemma CountedLoose(info: Infos, tried: Slots, loose: set<int>, nTried: int, nNew: int, id: int)
    requires Counted(info, tried, loose, nTried, nNew) && id !in loose
    ensures Counted(info, tried, With(loose, id), nTried, nNew - 1)
  {
  }

  // ---------- handing out addresses ----------

  /** The addresses of the entries worth handing out, in the order of the ids. */
  /** What was handed out are the addresses of the first entries that are not terrible. */
  ghost predicate HandedOut(info: Infos, random: seq<int>, n: nat, nNow: int, vAddr: seq<Address>)
  {
    && n <= |random| && (forall i :: 0 <= i < |random| ==> random[i] in info)
    && vAddr == Listed(info, random[..n], nNow)
  }

  function Listed(info: Infos, ids: seq<int>, nNow: int): (r: seq<Address>)
    requires forall i :: 0 <= i < |ids| ==> ids[i] in info
    ensures |r| <= |ids|
  {
    if ids == [] then []
    else
      var last := ids[|ids| - 1];
      Listed(info, ids[..|ids| - 1], nNow) + if Fit(info[last], nNow) then [info[last].address] else []
  }

  lemma ReshuffledTwice(a: Infos, b: Infos, c: Infos)
    requires Reshuffled(a, b) && Reshuffled(b, c)
    ensures Reshuffled(a, c)
  {
  }

  lemma ReshuffledEntry(a: Infos, b: Infos, id: int, nNow: int)
    requires Reshuffled(a, b) && id in a
    ensures id in b && b[id].address == a[id].address && (Fit(b[id], nNow) <==> Fit(a[id], nNow))
  {
    PlaceOnly(b[id], a[id]);
  }

  lemma ReshuffledSelf(a: Infos)
    ensures Reshuffled(a, a)
  {
  }

  lemma CountedReshuffled(info: Infos, after: Infos, tried: Slots, loose: set<int>, nTried: int, nNew: int)
    requires Counted(info, tried, loose, nTried, nNew) && Reshuffled(info, after)
    ensures Counted(after, tried, loose, nTried, nNew)
  {
    hide SameButPlace;
    assert |info.Keys| == |info| && |after.Keys| == |after|;
  }

  lemma AllListed(env: Env, nKey: int, nIdCount: int, info: Infos, addr: Addrs, random: seq<int>, news: Slots,
      tried: Slots, loose: set<int>)
    requires Consistent(env, nKey, nIdCount, info, addr, random, news, tried, loose)
    ensures forall i :: 0 <= i < |random| ==> random[i] in info
  {
    hide AddrsMatch, TriedMatches, NewPlaced, RefsMatch, TimesOk;
  }

  lemma ListedNext(info: Infos, random: seq<int>, random': seq<int>, n: nat, nNow: int)
    requires n < |random| == |random'| && random'[..n] == random[..n]
    requires (forall i :: 0 <= i < |random| ==> random[i] in info)
        && (forall i :: 0 <= i < |random'| ==> random'[i] in info)
    ensures Listed(info, random'[..n + 1], nNow)
            == Listed(info, random[..n], nNow) + if Fit(info[random'[n]], nNow) then [info[random'[n]].address]
                else []
  {
    assert random'[..n + 1][..n] == random'[..n];
  }

  /** Listed are the addresses of the entries that are fit. */
  lemma {:induction false} ListedAre(info: Infos, ids: seq<int>, nNow: int, a: Address)
    requires forall i :: 0 <= i < |ids| ==> ids[i] in info
    ensures a in Listed(info, ids, nNow)
        <==> exists i :: 0 <= i < |ids| && Fit(info[ids[i]], nNow) && info[ids[i]].address == a
  {
    hide Fit;
    if ids != [] {
      var last := |ids| - 1;
      ListedAre(info, ids[..last], nNow, a);
      if i :| 0 <= i < |ids| && Fit(info[ids[i]], nNow) && info[ids[i]].address == a {
        assert i < last ==> ids[..last][i] == ids[i];
      }
    }
  }

  /** So an entry's address is listed exactly if the entry is fit. */
  lemma ListedIfFit(env: Env, nKey: int, nIdCount: int, info: Infos, addr: Addrs, random: seq<int>, news: Slots,
      tried: Slots, ids: seq<int>, nNow: int, i: nat)
    requires Consistent(env, nKey, nIdCount, info, addr, random, news, tried, {})
    requires (forall j :: 0 <= j < |ids| ==> ids[j] in info) && i < |ids|
    ensures info[ids[i]].address in Listed(info, ids, nNow) <==> Fit(info[ids[i]], nNow)
  {
    hide Fit, Listed, Consistent;
    ListedAre(info, ids, nNow, info[ids[i]].address);
    if j :| 0 <= j < |ids| && Fit(info[ids[j]], nNow) && info[ids[j]].address == info[ids[i]].address {
      OneId(env, nKey, nIdCount, info, addr, random, news, tried, ids[i], ids[j]);
    }
  }

  lemma OneId(env: Env, nKey: int, nIdCount: int, info: Infos, addr: Addrs, random: seq<int>, news: Slots,
      tried: Slots, i: int, j: int)
    requires Consistent(env, nKey, nIdCount, info, addr, random, news, tried, {}) && i in info && j in info
    requires info[i].address == info[j].address
    ensures i == j
  {
    hide RandomMatches, TriedMatches, NewPlaced, RefsMatch, TimesOk;
    assert addr[info[i].address.service.ip] == i;
  }

  lemma UpdateBag(r: seq<int>, i: nat, x: int)
    requires i < |r|
    ensures multiset(r[i := x]) == multiset(r) - multiset{r[i]} + multiset{x} && r[i] in multiset(r)
  {
  }

  lemma ExchangeBag(m: multiset<int>, x: int, y: int)
    requires x in m
    ensures m - multiset{x} + multiset{y} - multiset{y} + multiset{x} == m
  {
  }

  lemma SwapKeeps(random: seq<int>, n: nat, j: nat)
    requires n <= j < |random|
    ensures Swapped(random, n, j)[..n] == random[..n] && multiset(Swapped(random, n, j)) == multiset(random)
  {
    var mid := random[n := random[j]];
    UpdateBag(random, n, random[j]);
    UpdateBag(mid, j, random[n]);
    ExchangeBag(multiset(random), random[n], random[j]);
    assert mid[j] == random[j];
  }
}
