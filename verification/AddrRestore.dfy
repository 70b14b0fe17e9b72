/** Reading an address manager back: what is rebuilt is what was written, with the entries
    numbered anew. */
module AddrRestore {
  import opened AddrCheck
  import opened AddrDisk
  import opened AddrState
  import opened AddrSteps
  import opened Sizes

  /** The old ids in the order of the new ones. */
  function Order(v: Saved): (r: seq<int>)
    requires v.nIdCount >= 0
    ensures forall i :: 0 <= i < |r| ==> r[i] in v.info
  {
    NewUpTo(v.info, v.nIdCount) + TriedUpTo(v.info, v.nIdCount)
  }

  lemma OrderDistinct(v: Saved)
    requires v.nIdCount >= 0 && RefsTell(v.info)
    ensures forall i, j :: 0 <= i < j < |Order(v)| ==> Order(v)[i] != Order(v)[j]
    ensures forall i :: 0 <= i < |NewUpTo(v.info, v.nIdCount)| ==> !v.info[Order(v)[i]].fInTried
    ensures forall i :: |NewUpTo(v.info, v.nIdCount)| <= i < |Order(v)| ==> v.info[Order(v)[i]].fInTried
  {
    hide NewUpTo, TriedUpTo;
  }

  /** The first n entries are there, as written. */
  ghost predicate Image(src: Infos, dst: Infos, order: seq<int>, n: int)
  {
    && 0 <= n <= |order|
    && (forall id :: id in dst <==> 0 <= id < n)
    && (forall j :: 0 <= j < n ==> order[j] in src && ToDisk(dst[j]) == ToDisk(src[order[j]]))
  }

  /** Addresses differ among the entries of a sound manager, and times are not negative. */
  lemma SoundEntries(env: Env, v: Saved)
    requires Sound(env, v)
    ensures v.nIdCount >= 0
    ensures forall i, j ::
        i in v.info && j in v.info && i != j ==> v.info[i].address.service.ip != v.info[j].address.service.ip
    ensures forall i ::
        i in v.info ==> v.info[i].nLastSuccess >= 0 && (v.info[i].fInTried ==> v.info[i].nLastSuccess > 0)
  {
    hide RandomMatches, TriedMatches, NewPlaced, RefsMatch;
  }

  // ---------- new entries ----------

  ghost predicate NewLoaded(env: Env, v: Saved, n: int, info: Infos, addr: Addrs, random: seq<int>)
    requires v.nIdCount >= 0
  {
    && 0 <= n <= |NewUpTo(v.info, v.nIdCount)|
    && Consistent(env, v.nKey, n, info, addr, random, map[], map[], Range(n))
    && Image(v.info, info, Order(v), n)
    && |random| == n
  }

  lemma NothingLoaded(env: Env, v: Saved)
    requires v.nIdCount >= 0
    ensures NewLoaded(env, v, 0, map[], map[], [])
  {
    hide TriedSlot, GetBucketPosition, NewUpTo, TriedUpTo;
    assert forall id :: SlotsOf(map[], id) == {};
  }

  /** An entry read after n others has an address none of them has. */
  lemma AddressIsNew(env: Env, v: Saved, n: int, info: Infos, addr: Addrs, random: seq<int>, news: Slots, tried: Slots,
                     loose: set<int>)
    requires Sound(env, v) && 0 <= v.nIdCount && n < |Order(v)| && Image(v.info, info, Order(v), n)
    requires Consistent(env, v.nKey, n, info, addr, random, news, tried, loose)
    ensures v.info[Order(v)[n]].address.service.ip !in addr
  {
    hide RandomMatches, TriedMatches, NewPlaced, RefsMatch, TimesOk, Order, Sound;
    SoundEntries(env, v);
    SoundRefs(env, v);
    OrderDistinct(v);
    var ip := v.info[Order(v)[n]].address.service.ip;
    forall a | a in addr
      ensures a != ip
    {
      var j := addr[a];
      assert j in info && info[j].address.service.ip == a;
      assert ToDisk(info[j]) == ToDisk(v.info[Order(v)[j]]);
      assert ToDisk(info[j]).address == info[j].address;
      assert Order(v)[j] != Order(v)[n];
    }
  }

  lemma ImageNext(src: Infos, dst: Infos, order: seq<int>, n: int, entry: AddrInfo)
    requires Image(src, dst, order, n) && n < |order| && order[n] in src && ToDisk(entry) == ToDisk(src[order[n]])
    ensures Image(src, dst[n := entry], order, n + 1)
  {
    hide ToDisk;
  }

  lemma NewLoadedNext(env: Env, v: Saved, n: int, info: Infos, addr: Addrs, random: seq<int>, entry: AddrInfo)
    requires Sound(env, v) && 0 <= v.nIdCount && NewLoaded(env, v, n, info, addr, random)
        && n < |NewUpTo(v.info, v.nIdCount)|
    requires entry == FromDisk(ToDisk(v.info[NewUpTo(v.info, v.nIdCount)[n]])).(nRandomPos := n)
    ensures NewLoaded(env, v, n + 1, info[n := entry], addr[entry.address.service.ip := n], random + [n])
  {
    hide Consistent, Sound, NewUpTo, TriedUpTo, Image;
    SoundEntries(env, v);
    AddressIsNew(env, v, n, info, addr, random, map[], map[], Range(n));
    assert Order(v)[n] == NewUpTo(v.info, v.nIdCount)[n];
    Created(env, v.nKey, n, info, addr, random, map[], map[], Range(n), entry);
    assert With(Range(n), n) == Range(n + 1);
    ImageNext(v.info, info, Order(v), n, entry);
  }

  // ---------- tried entries ----------

  /** The tried slots taken are those of the entries read, the m-th to the one before the k-th. */
  ghost predicate TriedImage(env: Env, v: Saved, m: int, k: int, tried: Slots)
    requires v.nIdCount >= 0
  {
    && m == |NewUpTo(v.info, v.nIdCount)| && m <= k <= |Order(v)|
    && (forall s :: s in tried ==> m <= tried[s] < k && s in v.tried && Order(v)[tried[s]] == v.tried[s])
    && (forall j :: m <= j < k ==> TriedSlot(env, v.nKey, v.info[Order(v)[j]]) in tried
                                   && tried[TriedSlot(env, v.nKey, v.info[Order(v)[j]])] == j)
  }

  ghost predicate TriedLoaded(env: Env, v: Saved, m: int, k: int, info: Infos, addr: Addrs, random: seq<int>,
      tried: Slots)
    requires v.nIdCount >= 0
  {
    && 0 <= m && TriedImage(env, v, m, k, tried)
    && Consistent(env, v.nKey, k, info, addr, random, map[], tried, Range(m))
    && Image(v.info, info, Order(v), k)
    && |random| == k && |tried| == k - m
  }

  lemma NoTriedLoaded(env: Env, v: Saved, m: int, info: Infos, addr: Addrs, random: seq<int>)
    requires v.nIdCount >= 0 && NewLoaded(env, v, m, info, addr, random) && m == |NewUpTo(v.info, v.nIdCount)|
    ensures TriedLoaded(env, v, m, m, info, addr, random, map[])
  {
    hide Consistent, Image, NewUpTo, TriedUpTo;
  }

  lemma TriedSlotFree(env: Env, v: Saved, m: int, k: int, tried: Slots)
    requires Sound(env, v) && 0 <= v.nIdCount && TriedImage(env, v, m, k, tried) && k < |Order(v)|
    ensures var s := TriedSlot(env, v.nKey, v.info[Order(v)[k]]);
            s !in tried && s in v.tried && v.tried[s] == Order(v)[k]
  {
    hide TriedSlot, NewUpTo, TriedUpTo, AddrsMatch, RandomMatches, NewPlaced, RefsMatch, TimesOk;
    SoundRefs(env, v);
    OrderDistinct(v);
    var s := TriedSlot(env, v.nKey, v.info[Order(v)[k]]);
    assert s in v.tried && v.tried[s] == Order(v)[k];
    forall t | t in tried
      ensures t != s
    {
      var j := tried[t];
      assert Order(v)[j] != Order(v)[k];
    }
  }

  lemma TriedImageNext(env: Env, v: Saved, m: int, k: int, tried: Slots)
    requires Sound(env, v) && 0 <= v.nIdCount && TriedImage(env, v, m, k, tried) && k < |Order(v)|
    ensures TriedImage(env, v, m, k + 1, tried[TriedSlot(env, v.nKey, v.info[Order(v)[k]]) := k])
  {
    hide TriedSlot, NewUpTo, TriedUpTo, Sound, Order;
    TriedSlotFree(env, v, m, k, tried);
  }

  lemma TriedConsistentNext(env: Env, nKey: int, n: int, info: Infos, addr: Addrs, random: seq<int>, tried: Slots,
      loose: set<int>, entry: AddrInfo)
    requires Consistent(env, nKey, n, info, addr, random, map[], tried, loose) && n !in loose
    requires entry.address.service.ip !in addr && entry.nRandomPos == |random| && entry.nRefCount == 0
        && !entry.fInTried
    requires entry.nLastTry >= 0 && entry.nLastSuccess > 0 && TriedSlot(env, nKey, entry) !in tried
    ensures Consistent(env, nKey, n + 1, info[n := entry.(fInTried := true)], addr[entry.address.service.ip := n],
        random + [n], map[], tried[TriedSlot(env, nKey, entry) := n], loose)
  {
    hide Consistent, TriedSlot;
    Created(env, nKey, n, info, addr, random, map[], tried, loose, entry);
    AddrState.Tried(env, nKey, n + 1, info[n := entry], addr[entry.address.service.ip := n], random + [n], map[], tried,
        loose, n);
    assert info[n := entry][n := entry.(fInTried := true)] == info[n := entry.(fInTried := true)];
  }

  lemma TriedLoadedNext(env: Env, v: Saved, m: int, k: int, info: Infos, addr: Addrs, random: seq<int>, tried: Slots,
      entry: AddrInfo)
    requires Sound(env, v) && 0 <= v.nIdCount && TriedLoaded(env, v, m, k, info, addr, random, tried) && k < |Order(v)|
    requires entry == FromDisk(ToDisk(v.info[Order(v)[k]])).(nRandomPos := k)
    ensures TriedSlot(env, v.nKey, entry) !in tried
    ensures TriedLoaded(env, v, m, k + 1, info[k := entry.(fInTried := true)], addr[entry.address.service.ip := k],
                        random + [k], tried[TriedSlot(env, v.nKey, entry) := k])
  {
    hide Consistent, Sound, NewUpTo, TriedUpTo, Image, TriedSlot, TriedImage, Order, ToDisk, FromDisk;
    TriedEntry(env, v, m, k, tried, entry);
    AddressIsNew(env, v, k, info, addr, random, map[], tried, Range(m));
    TriedConsistentNext(env, v.nKey, k, info, addr, random, tried, Range(m), entry);
    ImageNext(v.info, info, Order(v), k, entry.(fInTried := true));
    TriedImageNext(env, v, m, k, tried);
  }

  lemma TriedEntry(env: Env, v: Saved, m: int, k: int, tried: Slots, entry: AddrInfo)
    requires Sound(env, v) && 0 <= v.nIdCount && TriedImage(env, v, m, k, tried) && k < |Order(v)|
    requires entry == FromDisk(ToDisk(v.info[Order(v)[k]])).(nRandomPos := k)
    ensures TriedSlot(env, v.nKey, entry) == TriedSlot(env, v.nKey, v.info[Order(v)[k]])
        && TriedSlot(env, v.nKey, entry) !in tried
    ensures ToDisk(entry.(fInTried := true)) == ToDisk(v.info[Order(v)[k]])
    ensures entry.nLastSuccess > 0 && entry.nLastTry >= 0 && entry.nRefCount == 0 && !entry.fInTried
        && entry.nRandomPos == k
    ensures entry.address == v.info[Order(v)[k]].address && 0 <= m <= k
  {
    hide Consistent, Sound, NewUpTo, TriedUpTo, TriedSlot;
    SoundEntries(env, v);
    SoundRefs(env, v);
    OrderDistinct(v);
    TriedSlotFree(env, v, m, k, tried);
    SamePlaceSameSlots(env, v.nKey, entry, v.info[Order(v)[k]]);
  }

  /** The next tried record, read as it was written, fits. */
  lemma TriedFits(env: Env, v: Saved, m: int, k: int, info: Infos, addr: Addrs, random: seq<int>, tried: Slots,
      entry: AddrInfo)
    requires Sound(env, v) && 0 <= v.nIdCount && TriedLoaded(env, v, m, k, info, addr, random, tried) && k < |Order(v)|
    requires entry == FromDisk(ToDisk(v.info[Order(v)[k]]))
    ensures |random| == k && TriedSlot(env, v.nKey, entry) !in tried
    ensures TriedLoaded(env, v, m, k + 1, info[k := entry.(nRandomPos := k, fInTried := true)],
                        addr[entry.address.service.ip := k], random + [k], tried[TriedSlot(env, v.nKey, entry) := k])
  {
    hide Consistent, Sound, NewUpTo, TriedUpTo, Image, TriedSlot, TriedImage, Order, ToDisk;
    TriedLoadedNext(env, v, m, k, info, addr, random, tried, entry.(nRandomPos := k));
    SamePlaceSameSlots(env, v.nKey, entry, entry.(nRandomPos := k));
    assert entry.(nRandomPos := k).(fInTried := true) == entry.(nRandomPos := k, fInTried := true);
  }

  // ---------- slots of the new table ----------

  ghost function LooseOf(info: Infos): set<int>
  {
    set id | id in info && !info[id].fInTried && info[id].nRefCount == 0
  }

  /** The slots written so far are taken, each by the entry that had it. */
  ghost predicate NewImage(v: Saved, m: int, done: Slots, news: Slots)
    requires v.nIdCount >= 0
  {
    && 0 <= m <= |Order(v)|
    && (forall s :: s in news <==> s in done)
    && (forall s :: s in news ==> 0 <= news[s] < m && Order(v)[news[s]] == done[s])
  }

  /** All entries are there, and the slots up to some position. */
  ghost predicate RowsLoaded(env: Env, v: Saved, m: int, info: Infos, addr: Addrs, random: seq<int>, tried: Slots,
      news: Slots, done: Slots)
    requires v.nIdCount >= 0
  {
    && m == |NewUpTo(v.info, v.nIdCount)| && NewImage(v, m, done, news)
    && TriedImage(env, v, m, |Order(v)|, tried)
    && Consistent(env, v.nKey, |Order(v)|, info, addr, random, news, tried, LooseOf(info))
    && Image(v.info, info, Order(v), |Order(v)|)
    && (forall j :: j in info ==> (info[j].fInTried <==> m <= j))
    && |random| == |Order(v)| && |tried| == |Order(v)| - m
  }

  lemma NoRowsLoaded(env: Env, v: Saved, m: int, info: Infos, addr: Addrs, random: seq<int>, tried: Slots)
    requires v.nIdCount >= 0 && TriedLoaded(env, v, m, |Order(v)|, info, addr, random, tried)
    requires forall s :: s in v.news ==> 0 <= s.0 && 0 <= s.1
    ensures RowsLoaded(env, v, m, info, addr, random, tried, map[], Prior(v.news, 0, 0))
  {
    hide Consistent, NewUpTo, TriedUpTo, Order, Image, TriedImage, LooseOf;
    assert Prior(v.news, 0, 0) == map[];
    assert m == |NewUpTo(v.info, v.nIdCount)| <= |Order(v)| by {
      OrderSize(v);
      NoImage(env, v, m, tried);
    }
    LooseAreNew(env, v, m, info, addr, random, tried);
  }

  lemma NoImage(env: Env, v: Saved, m: int, tried: Slots)
    requires v.nIdCount >= 0 && TriedImage(env, v, m, |Order(v)|, tried)
    ensures m == |NewUpTo(v.info, v.nIdCount)|
  {
  }

  lemma LooseAreNew(env: Env, v: Saved, m: int, info: Infos, addr: Addrs, random: seq<int>, tried: Slots)
    requires v.nIdCount >= 0 && TriedLoaded(env, v, m, |Order(v)|, info, addr, random, tried)
    ensures Range(m) == LooseOf(info) && forall j :: j in info ==> (info[j].fInTried <==> m <= j)
  {
    hide TriedSlot, GetBucketPosition, NewUpTo, TriedUpTo, Order, AddrsMatch, RandomMatches, TimesOk, NewPlaced;
    forall j | j in info
      ensures info[j].fInTried <==> m <= j
    {
      assert j in Range(m) <==> j < m;
      if m <= j {
        assert TriedSlot(env, v.nKey, v.info[Order(v)[j]]) in tried;
      }
    }
    assert forall j :: j in Range(m) ==> j in info && info[j].nRefCount == 0;
    assert forall j :: j in info && !info[j].fInTried ==> j in Range(m);
    assert forall j :: j in Range(m) <==> j in LooseOf(info);
  }

  /** An entry has as many slots so far as the entry it was had among those written so far. */
  lemma SlotsSoFar(v: Saved, m: int, done: Slots, news: Slots, j: int)
    requires v.nIdCount >= 0 && RefsTell(v.info) && NewImage(v, m, done, news) && 0 <= j < m
    ensures SlotsOf(news, j) == SlotsOf(done, Order(v)[j])
  {
    hide NewUpTo, TriedUpTo, Order;
    OrderDistinct(v);
  }

  /** The token for a slot leads back to the entry that had the slot, at the same position. */
  lemma SlotToken(env: Env, v: Saved, m: int, info: Infos, addr: Addrs, random: seq<int>, tried: Slots, news: Slots,
      b: int, p: int)
    requires Sound(env, v) && 0 <= v.nIdCount && (b, p) in v.news
    requires RowsLoaded(env, v, m, info, addr, random, tried, news, Prior(v.news, b, p))
    ensures var id := IndexOf(v.info, v.news[(b, p)]);
            && 0 <= id < m && id in info && !info[id].fInTried && Order(v)[id] == v.news[(b, p)]
            && GetBucketPosition(env, v.nKey, info[id], true, b) == p && (b, p) !in news
            && info[id].nRefCount < NEW_BUCKETS_PER_ADDRESS
  {
    hide TriedSlot, GetBucketPosition, NewUpTo, TriedUpTo, AddrsMatch, RandomMatches, TimesOk, TriedMatches, TriedImage,
        IndexOf, Prior, SlotsOf;
    SoundRefs(env, v);
    var id := IndexOf(v.info, v.news[(b, p)]);
    NewUpToHas(v.info, v.nIdCount, v.news[(b, p)]);
    assert Order(v)[id] == v.news[(b, p)];
    PriorNext(v.news, b, p);
    SameDisk(info[id], v.info[Order(v)[id]]);
    SamePlaceSameSlots(env, v.nKey, info[id], v.info[Order(v)[id]]);
    SlotsSoFar(v, m, Prior(v.news, b, p), news, id);
    FewerSlots(v.news, b, p);
  }

  lemma SameDisk(a: AddrInfo, b: AddrInfo)
    requires ToDisk(a) == ToDisk(b)
    ensures SamePlace(a, b) && a.address == b.address
  {
    assert ToDisk(a).address == a.address && ToDisk(b).address == b.address;
    assert ToDisk(a).source == a.source && ToDisk(b).source == b.source;
  }

  lemma FewerSlots(slots: Slots, b: int, p: int)
    requires (b, p) in slots
    ensures |SlotsOf(Prior(slots, b, p), slots[(b, p)])| < |SlotsOf(slots, slots[(b, p)])|
  {
    hide Prior;
    PriorNext(slots, b, p);
    PriorPart(slots, b, p);
    var id := slots[(b, p)];
    assert (b, p) in SlotsOf(slots, id) && (b, p) !in SlotsOf(Prior(slots, b, p), id);
    SubsetSize(SlotsOf(Prior(slots, b, p), id), SlotsOf(slots, id) - {(b, p)});
  }

  lemma NewImageNext(v: Saved, m: int, done: Slots, news: Slots, s: Slot, id: int, owner: int)
    requires v.nIdCount >= 0 && NewImage(v, m, done, news) && 0 <= id < m && Order(v)[id] == owner
    ensures NewImage(v, m, done[s := owner], news[s := id])
  {
    hide Order;
  }

  /** The slot is given to its entry. */
  lemma SlotLoaded(env: Env, v: Saved, m: int, info: Infos, addr: Addrs, random: seq<int>, tried: Slots, news: Slots,
      b: int, p: int, id: int)
    requires Sound(env, v) && 0 <= v.nIdCount && (b, p) in v.news && 0 <= b < NEW_BUCKET_COUNT
    requires RowsLoaded(env, v, m, info, addr, random, tried, news, Prior(v.news, b, p))
        && id == IndexOf(v.info, v.news[(b, p)])
    ensures id in info
    ensures RowsLoaded(env, v, m, info[id := info[id].(nRefCount := info[id].nRefCount + 1)], addr, random, tried,
                       news[(b, p) := id], Prior(v.news, b, p + 1))
  {
    hide Consistent, Sound, NewUpTo, TriedUpTo, Order, Image, NewImage, TriedImage, IndexOf, GetBucketPosition,
        TriedSlot, Prior, LooseOf;
    SlotToken(env, v, m, info, addr, random, tried, news, b, p);
    PriorNext(v.news, b, p);
    var entry := info[id].(nRefCount := info[id].nRefCount + 1);
    LooseLess(env, v.nKey, |Order(v)|, info, addr, random, news, tried, id);
    Referenced(env, v.nKey, |Order(v)|, info, addr, random, news, tried, LooseOf(info), LooseOf(info[id := entry]),
        (b, p), id);
    ImageKept(v.info, info, Order(v), |Order(v)|, id, entry);
    NewImageNext(v, m, Prior(v.news, b, p), news, (b, p), id, v.news[(b, p)]);
  }

  lemma LooseLess(env: Env, nKey: int, nIdCount: int, info: Infos, addr: Addrs, random: seq<int>, news: Slots,
      tried: Slots, id: int)
    requires Consistent(env, nKey, nIdCount, info, addr, random, news, tried, LooseOf(info)) && id in info
        && !info[id].fInTried
    ensures var after := info[id := info[id].(nRefCount := info[id].nRefCount + 1)];
            id !in LooseOf(after) && (LooseOf(info) == LooseOf(after) || LooseOf(info) == With(LooseOf(after), id))
  {
    hide AddrsMatch, RandomMatches, TriedMatches, NewPlaced, TimesOk;
    var after := info[id := info[id].(nRefCount := info[id].nRefCount + 1)];
    assert info[id].nRefCount >= 0;
    assert forall j :: j in LooseOf(after) <==> j in LooseOf(info) && j != id;
    if id in LooseOf(info) {
      assert forall j :: j in LooseOf(info) <==> j in With(LooseOf(after), id);
    } else {
      assert forall j :: j in LooseOf(info) <==> j in LooseOf(after);
    }
  }

  lemma ImageKept(src: Infos, dst: Infos, order: seq<int>, n: int, id: int, entry: AddrInfo)
    requires Image(src, dst, order, n) && id in dst && entry == dst[id].(nRefCount := entry.nRefCount)
    ensures Image(src, dst[id := entry], order, n)
  {
    assert ToDisk(entry) == ToDisk(dst[id]);
    hide ToDisk;
  }

  lemma SlotSkipped(env: Env, v: Saved, m: int, info: Infos, addr: Addrs, random: seq<int>, tried: Slots, news: Slots,
      b: int, p: int)
    requires 0 <= v.nIdCount && (b, p) !in v.news
        && RowsLoaded(env, v, m, info, addr, random, tried, news, Prior(v.news, b, p))
    ensures RowsLoaded(env, v, m, info, addr, random, tried, news, Prior(v.news, b, p + 1))
  {
    hide Consistent, NewUpTo, TriedUpTo, Order, Image, NewImage, TriedImage, LooseOf, Prior;
    PriorNext(v.news, b, p);
  }

  /** The next slot of a row that was written. */
  lemma {:induction false} RowSkip(env: Env, v: Saved, m: int, info: Infos, addr: Addrs, random: seq<int>, tried: Slots,
                                   news: Slots, b: int, p: int) returns (q: int)
    requires 0 <= v.nIdCount && 0 <= p <= BUCKET_SIZE
    requires RowsLoaded(env, v, m, info, addr, random, tried, news, Prior(v.news, b, p))
    ensures p <= q <= BUCKET_SIZE && RowFrom(v.info, v.news, b, q) == RowFrom(v.info, v.news, b, p)
    ensures RowsLoaded(env, v, m, info, addr, random, tried, news, Prior(v.news, b, q))
    ensures if q < BUCKET_SIZE then (b, q) in v.news else RowFrom(v.info, v.news, b, q) == []
    decreases BUCKET_SIZE - p
  {
    hide RowsLoaded, RowFrom, Prior;
    RowNext(v.info, v.news, b, p, []);
    if p == BUCKET_SIZE || (b, p) in v.news {
      q := p;
    } else {
      SlotSkipped(env, v, m, info, addr, random, tried, news, b, p);
      q := RowSkip(env, v, m, info, addr, random, tried, news, b, p + 1);
    }
  }

  lemma BucketTokens(info: Infos, news: Slots, b: int, s: seq<Token>, pos: nat)
    requires 0 <= b < NEW_BUCKET_COUNT && pos <= |s| && s[pos..] == BucketsFrom(info, news, b)
    ensures pos < |s| && s[pos] == Num(|RowFrom(info, news, b, 0)|)
    ensures s[pos + 1..] == RowFrom(info, news, b, 0) + BucketsFrom(info, news, b + 1)
  {
    hide RowFrom;
    assert s[pos..][1..] == s[pos + 1..];
    assert s[pos..][0] == s[pos];
  }

  lemma HeadOf(s: seq<Token>, pos: nat, x: Token, tail: seq<Token>)
    requires pos <= |s| && s[pos..] == [x] + tail
    ensures pos < |s| && s[pos] == x && s[pos + 1..] == tail
  {
    assert s[pos..][0] == s[pos];
    assert s[pos..][1..] == s[pos + 1..];
  }

  lemma RowToken(info: Infos, news: Slots, b: int, q: int, s: seq<Token>, pos: nat, rest: seq<Token>)
    requires q < BUCKET_SIZE && (b, q) in news && pos <= |s| && s[pos..] == RowFrom(info, news, b, q) + rest
    ensures pos < |s| && s[pos] == Num(IndexOf(info, news[(b, q)]))
    ensures s[pos + 1..] == RowFrom(info, news, b, q + 1) + rest
    ensures |RowFrom(info, news, b, q)| == 1 + |RowFrom(info, news, b, q + 1)|
  {
    hide IndexOf, RowFrom;
    RowHead(info, news, b, q, rest);
    HeadOf(s, pos, Num(IndexOf(info, news[(b, q)])), RowFrom(info, news, b, q + 1) + rest);
  }

  lemma RowHead(info: Infos, news: Slots, b: int, q: int, rest: seq<Token>)
    requires q < BUCKET_SIZE && (b, q) in news
    ensures RowFrom(info, news, b, q) + rest
        == [Num(IndexOf(info, news[(b, q)]))] + (RowFrom(info, news, b, q + 1) + rest)
    ensures |RowFrom(info, news, b, q)| == 1 + |RowFrom(info, news, b, q + 1)|
  {
    hide IndexOf;
  }

  lemma RowOver(env: Env, v: Saved, m: int, info: Infos, addr: Addrs, random: seq<int>, tried: Slots, news: Slots,
      b: int, p: int)
    requires Sound(env, v) && 0 <= v.nIdCount && 0 <= p <= BUCKET_SIZE
    requires RowsLoaded(env, v, m, info, addr, random, tried, news, Prior(v.news, b, p))
        && |RowFrom(v.info, v.news, b, p)| == 0
    ensures RowsLoaded(env, v, m, info, addr, random, tried, news, Prior(v.news, b + 1, 0))
    ensures RowFrom(v.info, v.news, b, p) == []
  {
    hide RowsLoaded, RowFrom, Prior, Consistent, Counted;
    var q := RowSkip(env, v, m, info, addr, random, tried, news, b, p);
    RowNext(v.info, v.news, b, q, []);
    PriorRow(v.news, b);
  }

  lemma AllSlotsPrior(env: Env, v: Saved)
    requires Sound(env, v)
    ensures Prior(v.news, NEW_BUCKET_COUNT, 0) == v.news
  {
    hide Prior, Consistent, Counted;
    PriorAll(v.news, NEW_BUCKET_COUNT);
  }

  lemma EmptyRandom(info: Infos, random: seq<int>)
    requires info == map[] && random == []
    ensures RandomMatches(info, random)
  {
  }

  lemma EncodedHeader(env: Env, v: Saved, s: seq<Token>)
    requires Sound(env, v) && v.nIdCount >= 0 && s == Encoded(v)
    ensures 6 <= |s| && s[..6] == Header(v.nKey, v.nNew, v.nTried)
    ensures s[0] == Num(1) && s[1] == Num(32) && s[2] == Blob(v.nKey) && s[3] == Num(v.nNew) && s[4] == Num(v.nTried)
    ensures s[5].Num? && Flip30(s[5].n) == NEW_BUCKET_COUNT
  {
    hide Records, NewUpTo, TriedUpTo, BucketsFrom, Sound;
    Flip30Twice(NEW_BUCKET_COUNT);
  }

  lemma EncodedSizes(env: Env, v: Saved)
    requires Sound(env, v) && v.nIdCount >= 0
    ensures v.nNew == |NewUpTo(v.info, v.nIdCount)| && v.nTried == |TriedUpTo(v.info, v.nIdCount)|
    ensures |Order(v)| == v.nNew + v.nTried
    ensures forall s :: s in v.news ==> 0 <= s.0 && 0 <= s.1
  {
    hide NewUpTo, TriedUpTo, Consistent, Counted, Order;
    RecordCounts(env, v);
    OrderSize(v);
  }

  lemma EncodedIs(v: Saved, s: seq<Token>)
    requires v.nIdCount >= 0 && s == Encoded(v)
    ensures |Header(v.nKey, v.nNew, v.nTried)| == 6
    ensures s == Header(v.nKey, v.nNew, v.nTried) + Records(v.info, NewUpTo(v.info, v.nIdCount))
                 + Records(v.info, TriedUpTo(v.info, v.nIdCount)) + BucketsFrom(v.info, v.news, 0)
  {
    hide Records, NewUpTo, TriedUpTo, BucketsFrom;
  }

  lemma FourParts<T>(s: seq<T>, h: seq<T>, a: seq<T>, b: seq<T>, c: seq<T>, j: int)
    requires s == h + a + b + c
    ensures 0 <= j < |a| ==> s[|h| + j] == a[j]
    ensures 0 <= j < |b| ==> s[|h| + |a| + j] == b[j]
    ensures s[|h| + |a| + |b|..] == c
  {
  }

  lemma EncodedNew(env: Env, v: Saved, s: seq<Token>)
    requires Sound(env, v) && v.nIdCount >= 0 && s == Encoded(v)
    ensures v.nNew == |NewUpTo(v.info, v.nIdCount)| && 6 + v.nNew <= |s|
    ensures forall j :: 0 <= j < v.nNew ==> s[6 + j] == Record(ToDisk(v.info[NewUpTo(v.info, v.nIdCount)[j]]))
  {
    hide NewUpTo, TriedUpTo, BucketsFrom, Sound, ToDisk, Records, Encoded, Header;
    EncodedIs(v, s);
    EncodedSizes(env, v);
    var a, b := Records(v.info, NewUpTo(v.info, v.nIdCount)), Records(v.info, TriedUpTo(v.info, v.nIdCount));
    forall j | 0 <= j < v.nNew
      ensures s[6 + j] == Record(ToDisk(v.info[NewUpTo(v.info, v.nIdCount)[j]]))
    {
      FourParts(s, Header(v.nKey, v.nNew, v.nTried), a, b, BucketsFrom(v.info, v.news, 0), j);
    }
  }

  lemma EncodedTried(env: Env, v: Saved, s: seq<Token>)
    requires Sound(env, v) && v.nIdCount >= 0 && s == Encoded(v)
    ensures v.nTried == |TriedUpTo(v.info, v.nIdCount)| && 0 <= v.nNew && 6 + v.nNew + v.nTried <= |s|
    ensures forall i ::
        0 <= i < v.nTried ==> s[6 + v.nNew + i] == Record(ToDisk(v.info[TriedUpTo(v.info, v.nIdCount)[i]]))
  {
    hide NewUpTo, TriedUpTo, BucketsFrom, Sound, ToDisk, Records, Encoded, Header;
    EncodedIs(v, s);
    EncodedSizes(env, v);
    var a, b := Records(v.info, NewUpTo(v.info, v.nIdCount)), Records(v.info, TriedUpTo(v.info, v.nIdCount));
    forall i | 0 <= i < v.nTried
      ensures s[6 + v.nNew + i] == Record(ToDisk(v.info[TriedUpTo(v.info, v.nIdCount)[i]]))
    {
      FourParts(s, Header(v.nKey, v.nNew, v.nTried), a, b, BucketsFrom(v.info, v.news, 0), i);
    }
  }

  lemma EncodedInOrder(env: Env, v: Saved, s: seq<Token>)
    requires Sound(env, v) && v.nIdCount >= 0 && s == Encoded(v)
    ensures 6 + |Order(v)| <= |s| && 0 <= v.nNew && |Order(v)| == v.nNew + v.nTried
    ensures forall j :: v.nNew <= j < |Order(v)| ==> s[6 + j] == Record(ToDisk(v.info[Order(v)[j]]))
  {
    hide NewUpTo, TriedUpTo, Sound, Encoded, ToDisk;
    EncodedSizes(env, v);
    EncodedTried(env, v, s);
    forall j | v.nNew <= j < |Order(v)|
      ensures s[6 + j] == Record(ToDisk(v.info[Order(v)[j]]))
    {
      assert Order(v)[j] == TriedUpTo(v.info, v.nIdCount)[j - v.nNew];
      assert s[6 + v.nNew + (j - v.nNew)] == s[6 + j];
    }
  }

  lemma EncodedRest(env: Env, v: Saved, s: seq<Token>)
    requires Sound(env, v) && v.nIdCount >= 0 && s == Encoded(v)
    ensures 6 + |Order(v)| <= |s| && s[6 + |Order(v)|..] == BucketsFrom(v.info, v.news, 0)
  {
    hide NewUpTo, TriedUpTo, BucketsFrom, Sound, Records, Order, Encoded, Header;
    EncodedIs(v, s);
    EncodedSizes(env, v);
    var a, b := Records(v.info, NewUpTo(v.info, v.nIdCount)), Records(v.info, TriedUpTo(v.info, v.nIdCount));
    FourParts(s, Header(v.nKey, v.nNew, v.nTried), a, b, BucketsFrom(v.info, v.news, 0), 0);
  }

  // ---------- the end ----------

  /** What was read is what was written, entry by entry and slot by slot, up to the numbering. */
  ghost predicate Restored(v: Saved, w: Saved)
    requires v.nIdCount >= 0
  {
    && w.nKey == v.nKey && w.nNew == v.nNew && w.nTried == v.nTried
    && |Order(v)| == w.nIdCount == |v.info|
    && Image(v.info, w.info, Order(v), |Order(v)|)
    && (forall i, j :: 0 <= i < j < |Order(v)| ==> Order(v)[i] != Order(v)[j])
    && (forall j :: j in w.info ==> w.info[j].fInTried == v.info[Order(v)[j]].fInTried
                                    && w.info[j].nRefCount == v.info[Order(v)[j]].nRefCount)
    && w.news.Keys == v.news.Keys
        && (forall s :: s in w.news ==> w.news[s] in w.info && Order(v)[w.news[s]] == v.news[s])
    && w.tried.Keys == v.tried.Keys
        && (forall s :: s in w.tried ==> w.tried[s] in w.info && Order(v)[w.tried[s]] == v.tried[s])
  }

  lemma AllLoaded(env: Env, v: Saved, m: int, info: Infos, addr: Addrs, random: seq<int>, tried: Slots, news: Slots)
    requires Sound(env, v) && 0 <= v.nIdCount && RowsLoaded(env, v, m, info, addr, random, tried, news, v.news)
    ensures LooseOf(info) == {} && m == v.nNew && |tried| == v.nTried
    ensures Restored(v, Saved(v.nKey, |Order(v)|, info, addr, random, news, tried, v.nTried, v.nNew))
    ensures Consistent(env, v.nKey, |Order(v)|, info, addr, random, news, tried, {})
        && Counted(info, tried, {}, v.nTried, v.nNew)
  {
    hide Sound, RowsLoaded, Restored, Consistent, Counted, LooseOf, Order;
    AllCounted(env, v, m, info, addr, random, tried, news);
    AllRestored(env, v, m, info, addr, random, tried, news);
  }

  lemma AllCounted(env: Env, v: Saved, m: int, info: Infos, addr: Addrs, random: seq<int>, tried: Slots, news: Slots)
    requires Sound(env, v) && 0 <= v.nIdCount && RowsLoaded(env, v, m, info, addr, random, tried, news, v.news)
    ensures LooseOf(info) == {} && m == v.nNew && |tried| == v.nTried && |info| == |v.info| == |Order(v)|
    ensures Consistent(env, v.nKey, |Order(v)|, info, addr, random, news, tried, {})
        && Counted(info, tried, {}, v.nTried, v.nNew)
  {
    hide TriedSlot, GetBucketPosition, NewUpTo, TriedUpTo, Order, AddrsMatch, RandomMatches, TimesOk, NewPlaced,
        TriedMatches, RefsMatch;
    SoundTried(env, v);
    EncodedSizes(env, v);
    RefsRestored(env, v, m, info, addr, random, tried, news);
    RandomSize(info, random);
    TriedKeys(env, v, m, tried);
    assert forall j :: j !in LooseOf(info);
    assert LooseOf(info) == {};
  }

  lemma AllRestored(env: Env, v: Saved, m: int, info: Infos, addr: Addrs, random: seq<int>, tried: Slots, news: Slots)
    requires Sound(env, v) && 0 <= v.nIdCount && RowsLoaded(env, v, m, info, addr, random, tried, news, v.news)
    requires |Order(v)| == |v.info|
    ensures Restored(v, Saved(v.nKey, |Order(v)|, info, addr, random, news, tried, v.nTried, v.nNew))
  {
    hide Sound, RowsLoaded, Order;
    EntriesRestored(env, v, m, info, addr, random, tried, news);
    NewsRestored(env, v, m, info, addr, random, tried, news);
    TriedRestored(env, v, m, info, addr, random, tried, news);
  }

  lemma EntriesRestored(env: Env, v: Saved, m: int, info: Infos, addr: Addrs, random: seq<int>, tried: Slots,
      news: Slots)
    requires Sound(env, v) && 0 <= v.nIdCount && RowsLoaded(env, v, m, info, addr, random, tried, news, v.news)
    ensures Image(v.info, info, Order(v), |Order(v)|)
    ensures forall i, j :: 0 <= i < j < |Order(v)| ==> Order(v)[i] != Order(v)[j]
    ensures forall j :: j in info ==> info[j].fInTried == v.info[Order(v)[j]].fInTried
                                      && info[j].nRefCount == v.info[Order(v)[j]].nRefCount
  {
    hide TriedSlot, GetBucketPosition, NewUpTo, TriedUpTo, Order, AddrsMatch, RandomMatches, TimesOk, NewPlaced,
        TriedMatches, RefsMatch;
    SoundRefs(env, v);
    OrderDistinct(v);
    RefsRestored(env, v, m, info, addr, random, tried, news);
  }

  lemma NewsRestored(env: Env, v: Saved, m: int, info: Infos, addr: Addrs, random: seq<int>, tried: Slots, news: Slots)
    requires Sound(env, v) && 0 <= v.nIdCount && RowsLoaded(env, v, m, info, addr, random, tried, news, v.news)
    ensures news.Keys == v.news.Keys
    ensures forall s :: s in news ==> news[s] in info && 0 <= news[s] < |Order(v)| && Order(v)[news[s]] == v.news[s]
  {
    hide TriedSlot, GetBucketPosition, NewUpTo, TriedUpTo, Order, AddrsMatch, RandomMatches, TimesOk, NewPlaced,
        TriedMatches, RefsMatch;
  }

  lemma TriedRestored(env: Env, v: Saved, m: int, info: Infos, addr: Addrs, random: seq<int>, tried: Slots, news: Slots)
    requires Sound(env, v) && 0 <= v.nIdCount && RowsLoaded(env, v, m, info, addr, random, tried, news, v.news)
    ensures tried.Keys == v.tried.Keys
    ensures forall s ::
        s in tried ==> tried[s] in info && 0 <= tried[s] < |Order(v)| && Order(v)[tried[s]] == v.tried[s]
  {
    hide TriedSlot, GetBucketPosition, NewUpTo, TriedUpTo, Order, AddrsMatch, RandomMatches, TimesOk, NewPlaced,
        TriedMatches, RefsMatch;
    TriedKeys(env, v, m, tried);
  }

  lemma OrderSize(v: Saved)
    requires 0 <= v.nIdCount
    ensures |Order(v)| == |NewUpTo(v.info, v.nIdCount)| + |TriedUpTo(v.info, v.nIdCount)|
  {
  }

  lemma RefsRestored(env: Env, v: Saved, m: int, info: Infos, addr: Addrs, random: seq<int>, tried: Slots, news: Slots)
    requires Sound(env, v) && 0 <= v.nIdCount && RowsLoaded(env, v, m, info, addr, random, tried, news, v.news)
    ensures forall j ::
        j in info ==> info[j].nRefCount == v.info[Order(v)[j]].nRefCount && (j < m ==> info[j].nRefCount >= 1)
    ensures forall j :: j in info ==> info[j].fInTried == v.info[Order(v)[j]].fInTried
  {
    hide TriedSlot, GetBucketPosition, NewUpTo, TriedUpTo, Order, AddrsMatch, RandomMatches, TimesOk, TriedMatches,
        SlotsOf;
    SoundRefs(env, v);
    OrderDistinct(v);
    TriedUnreferenced(env, v.nKey, info, news);
    forall j | j in info
      ensures info[j].nRefCount == v.info[Order(v)[j]].nRefCount && (j < m ==> info[j].nRefCount >= 1)
    {
      if j < m {
        SlotsSoFar(v, m, v.news, news, j);
      }
    }
  }

  lemma TriedKeys(env: Env, v: Saved, m: int, tried: Slots)
    requires Sound(env, v) && 0 <= v.nIdCount && TriedImage(env, v, m, |Order(v)|, tried)
    ensures tried.Keys == v.tried.Keys
  {
    hide TriedSlot, NewUpTo, TriedUpTo, AddrsMatch, RandomMatches, NewPlaced, RefsMatch, TimesOk;
    forall s | s in v.tried
      ensures s in tried
    {
      var id := v.tried[s];
      TriedUpToHas(v.info, v.nIdCount, id);
      var i :| 0 <= i < |TriedUpTo(v.info, v.nIdCount)| && TriedUpTo(v.info, v.nIdCount)[i] == id;
      assert Order(v)[m + i] == id;
    }
  }
}
