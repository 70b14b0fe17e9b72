/** What the address manager stores, the consistency its indexes keep, and what each step on
    them does to it. */
module AddrState {

  const TRIED_BUCKETS_PER_GROUP := 8
  const TRIED_BUCKET_COUNT := 256
  const NEW_BUCKET_COUNT := 1024
  const BUCKET_SIZE := 64
  const NEW_BUCKETS_PER_SOURCE_GROUP := 64
  const NEW_BUCKETS_PER_ADDRESS := 8
  const HORIZON_DAYS := 30
  const RETRIES := 3
  const MAX_FAILURES := 10
  const MIN_FAIL_DAYS := 7
  const GETADDR_MAX_PCT := 23
  const GETADDR_MAX := 2500

  /** A network address without its port. */
  type NetAddr = seq<int>

  datatype Service = Service(ip: NetAddr, port: int)

  datatype Address = Address(service: Service, nServices: set<nat>, nTime: int)

  datatype AddrInfo = AddrInfo(
    address: Address,
    source: NetAddr,
    nLastTry: int,
    nLastSuccess: int,
    nAttempts: int,
    nRefCount: int,
    fInTried: bool,
    nRandomPos: int)

  function NewInfo(address: Address, source: NetAddr): AddrInfo
  {
    AddrInfo(address, source, 0, 0, 0, 0, false, -1)
  }

  // ---------- bucket selection ----------

  /** What is written into the hash that selects buckets. */
  datatype Item = Key(key: int) | Bytes(bytes: seq<int>) | Number(n: int) | Letter(c: char)

  /** The hash, the group an address belongs to, and which addresses are routable. */
  datatype Env = Env(cheapHash: seq<Item> -> nat, group: NetAddr -> seq<int>, routable: NetAddr -> bool)

  /** A bucket and a position in it. */
  type Slot = (int, int)

  function ServiceKey(s: Service): seq<int>
  {
    s.ip + [s.port / 256, s.port % 256]
  }

  function GetTriedBucket(env: Env, nKey: int, info: AddrInfo): (b: int)
    ensures 0 <= b < 256
  {
    var hash1 := env.cheapHash([Key(nKey), Bytes(ServiceKey(info.address.service))]);
    var hash2 := env.cheapHash([Key(nKey), Bytes(env.group(info.address.service.ip)),
        Number(hash1 % TRIED_BUCKETS_PER_GROUP)]);
    hash2 % TRIED_BUCKET_COUNT
  }

  function GetNewBucket(env: Env, nKey: int, info: AddrInfo, src: NetAddr): (b: int)
    ensures 0 <= b < 1024
  {
    var hash1 := env.cheapHash([Key(nKey), Bytes(env.group(info.address.service.ip)), Bytes(env.group(src))]);
    var hash2 := env.cheapHash([Key(nKey), Bytes(env.group(src)), Number(hash1 % NEW_BUCKETS_PER_SOURCE_GROUP)]);
    hash2 % NEW_BUCKET_COUNT
  }

  function GetBucketPosition(env: Env, nKey: int, info: AddrInfo, fNew: bool, nBucket: int): (p: int)
    ensures 0 <= p < 64
  {
    env.cheapHash([Key(nKey), Letter(if fNew then 'N' else 'K'), Number(nBucket),
        Bytes(ServiceKey(info.address.service))])
    % BUCKET_SIZE
  }

  /** The addresses of one group share a few tried buckets, however many they are. */
  lemma GroupHasFewTriedBuckets(env: Env, nKey: int, group: seq<int>) returns (buckets: set<int>)
    ensures |buckets| <= 8
    ensures forall info: AddrInfo ::
        env.group(info.address.service.ip) == group ==> GetTriedBucket(env, nKey, info) in buckets
  {
    buckets := Buckets(env, [Key(nKey), Bytes(group)], TRIED_BUCKETS_PER_GROUP, TRIED_BUCKET_COUNT);
    forall info: AddrInfo | env.group(info.address.service.ip) == group
      ensures GetTriedBucket(env, nKey, info) in buckets
    {
      var hash1 := env.cheapHash([Key(nKey), Bytes(ServiceKey(info.address.service))]);
      var k := hash1 % TRIED_BUCKETS_PER_GROUP;
      assert [Key(nKey), Bytes(group)] + [Number(k)] == [Key(nKey), Bytes(group), Number(k)];
    }
  }

  /** What sources of one group tell of goes to a few new buckets, however much it is. */
  lemma SourceHasFewNewBuckets(env: Env, nKey: int, group: seq<int>) returns (buckets: set<int>)
    ensures |buckets| <= 64
    ensures forall info: AddrInfo, src: NetAddr ::
        env.group(src) == group ==> GetNewBucket(env, nKey, info, src) in buckets
  {
    buckets := Buckets(env, [Key(nKey), Bytes(group)], NEW_BUCKETS_PER_SOURCE_GROUP, NEW_BUCKET_COUNT);
    forall info: AddrInfo, src: NetAddr | env.group(src) == group
      ensures GetNewBucket(env, nKey, info, src) in buckets
    {
      var hash1 := env.cheapHash([Key(nKey), Bytes(env.group(info.address.service.ip)), Bytes(group)]);
      var k := hash1 % NEW_BUCKETS_PER_SOURCE_GROUP;
      assert [Key(nKey), Bytes(group)] + [Number(k)] == [Key(nKey), Bytes(group), Number(k)];
    }
  }

  /** The values of a hash for one number after another. */
  lemma {:induction false} Buckets(env: Env, start: seq<Item>, n: nat, count: nat) returns (buckets: set<int>)
    requires count > 0
    ensures |buckets| <= n
    ensures forall k :: 0 <= k < n ==> env.cheapHash(start + [Number(k)]) % count in buckets
  {
    if n == 0 {
      buckets := {};
    } else {
      var fewer := Buckets(env, start, n - 1, count);
      buckets := fewer + {env.cheapHash(start + [Number(n - 1)]) % count};
    }
  }

  predicate IsTerrible(info: AddrInfo, nNow: int)
  {
    if info.nLastTry != 0 && info.nLastTry >= nNow - 60 then false
    else if info.address.nTime > nNow + 10 * 60 then true
    else if info.address.nTime == 0 || nNow - info.address.nTime > HORIZON_DAYS * 24 * 60 * 60 then true
    else if info.nLastSuccess == 0 && info.nAttempts >= RETRIES then true
    else nNow - info.nLastSuccess > MIN_FAIL_DAYS * 24 * 60 * 60 && info.nAttempts >= MAX_FAILURES
  }

  /** What makes an entry worth keeping and handing out: it was tried within the last minute, or
      else it was seen within 30 days and no more than ten minutes ahead of time, has not failed
      three times without ever having been reached, nor ten times with no success for more than
      seven days. */
  predicate Fit(info: AddrInfo, nNow: int)
  {
    || (info.nLastTry != 0 && nNow - info.nLastTry <= 60)
    || (&& info.address.nTime != 0
        && nNow - 2592000 <= info.address.nTime <= nNow + 600
        && (info.nLastSuccess == 0 ==> info.nAttempts < 3)
        && (nNow - info.nLastSuccess > 604800 ==> info.nAttempts < 10))
  }

  lemma TerribleIsUnfit(info: AddrInfo, nNow: int)
    ensures IsTerrible(info, nNow) <==> !Fit(info, nNow)
  {
  }

  function TriedSlot(env: Env, nKey: int, info: AddrInfo): Slot
  {
    (GetTriedBucket(env, nKey, info), GetBucketPosition(env, nKey, info, false, GetTriedBucket(env, nKey, info)))
  }

  /** Nothing that selects a bucket differs. */
  predicate SamePlace(a: AddrInfo, b: AddrInfo)
  {
    a.address.service == b.address.service && a.source == b.source
  }

  lemma SamePlaceSameSlots(env: Env, nKey: int, a: AddrInfo, b: AddrInfo)
    requires SamePlace(a, b)
    ensures TriedSlot(env, nKey, a) == TriedSlot(env, nKey, b)
    ensures forall fNew, bucket ::
        GetBucketPosition(env, nKey, a, fNew, bucket) == GetBucketPosition(env, nKey, b, fNew, bucket)
  {
  }

  // ---------- consistency ----------

  type Infos = map<int, AddrInfo>
  type Addrs = map<NetAddr, int>
  type Slots = map<Slot, int>

  /** Addresses and ids are in one-to-one correspondence. */
  ghost predicate AddrsMatch(info: Infos, addr: Addrs)
  {
    && (forall id :: id in info ==> info[id].address.service.ip in addr && addr[info[id].address.service.ip] == id)
    && (forall a :: a in addr ==> addr[a] in info && info[addr[a]].address.service.ip == a)
  }

  /** The shuffled vector lists every id once, and each entry knows where. */
  ghost predicate RandomMatches(info: Infos, random: seq<int>)
  {
    && (forall id :: id in info ==> 0 <= info[id].nRandomPos < |random| && random[info[id].nRandomPos] == id)
    && (forall i :: 0 <= i < |random| ==> random[i] in info && info[random[i]].nRandomPos == i)
  }

  /** Every tried entry is in the slot its hash gives it, and nothing else is there. */
  ghost predicate TriedMatches(env: Env, nKey: int, info: Infos, tried: Slots)
  {
    && (forall s ::
        s in tried ==> tried[s] in info && info[tried[s]].fInTried && TriedSlot(env, nKey, info[tried[s]]) == s)
    && (forall id :: id in info && info[id].fInTried ==>
          TriedSlot(env, nKey, info[id]) in tried && tried[TriedSlot(env, nKey, info[id])] == id)
  }

  /** Every entry of a new bucket is untried and at the position its hash gives it there. */
  ghost predicate NewPlaced(env: Env, nKey: int, info: Infos, news: Slots)
  {
    forall s :: s in news ==>
      && news[s] in info && !info[news[s]].fInTried
      && 0 <= s.0 < NEW_BUCKET_COUNT && s.1 == GetBucketPosition(env, nKey, info[news[s]], true, s.0)
  }

  ghost function SlotsOf(news: Slots, id: int): set<Slot>
  {
    set s | s in news && news[s] == id
  }

  /** Reference counts are the numbers of slots, and an untried entry has one at least. */
  ghost predicate RefsMatch(info: Infos, news: Slots, loose: set<int>)
  {
    && (forall id :: id in info ==> info[id].nRefCount == |SlotsOf(news, id)|)
    && (forall id ::
        id in info && !info[id].fInTried && id !in loose ==> 1 <= info[id].nRefCount <= NEW_BUCKETS_PER_ADDRESS)
    && (forall id :: id in loose ==> id in info && !info[id].fInTried && info[id].nRefCount == 0)
  }

  ghost predicate TimesOk(info: Infos)
  {
    forall id :: id in info ==>
      info[id].nLastTry >= 0 && info[id].nLastSuccess >= 0 && (info[id].fInTried ==> info[id].nLastSuccess > 0)
  }

  /** All the indexes agree. Loose ids are known but in no table, between two steps. */
  ghost predicate Consistent(env: Env, nKey: int, nIdCount: int, info: Infos, addr: Addrs, random: seq<int>,
                             news: Slots, tried: Slots, loose: set<int>)
  {
    && (forall id :: id in info ==> 0 <= id < nIdCount)
    && 0 <= nIdCount
    && AddrsMatch(info, addr)
    && RandomMatches(info, random)
    && TriedMatches(env, nKey, info, tried)
    && NewPlaced(env, nKey, info, news)
    && RefsMatch(info, news, loose)
    && TimesOk(info)
  }

  /** The counters: one tried entry a slot, and the rest are new, but for the loose ones. */
  ghost predicate Counted(info: Infos, tried: Slots, loose: set<int>, nTried: int, nNew: int)
  {
    nTried == |tried| && nNew + nTried + |loose| == |info|
  }

  ghost function With(loose: set<int>, id: int): set<int>
  {
    loose + {id}
  }

  // ---------- steps: entries come, change and go ----------

  /** A new entry, in no table yet. */
  lemma Created(env: Env, nKey: int, nIdCount: int, info: Infos, addr: Addrs, random: seq<int>, news: Slots,
      tried: Slots, loose: set<int>, entry: AddrInfo)
    requires Consistent(env, nKey, nIdCount, info, addr, random, news, tried, loose)
    requires entry.address.service.ip !in addr && entry.nRandomPos == |random| && entry.nRefCount == 0
        && !entry.fInTried
    requires entry.nLastTry >= 0 && entry.nLastSuccess >= 0
    ensures nIdCount !in info
    ensures Consistent(env, nKey, nIdCount + 1, info[nIdCount := entry], addr[entry.address.service.ip := nIdCount],
                       random + [nIdCount], news, tried, With(loose, nIdCount))
  {
    hide TriedSlot, GetBucketPosition;
    assert SlotsOf(news, nIdCount) == {};
  }

  /** What may change about an entry without any index noticing. */
  predicate SameStanding(a: AddrInfo, b: AddrInfo)
  {
    && SamePlace(a, b) && a.nRefCount == b.nRefCount && a.fInTried == b.fInTried && a.nRandomPos == b.nRandomPos
    && b.nLastTry >= 0 && b.nLastSuccess >= 0 && (b.fInTried ==> b.nLastSuccess > 0)
  }

  lemma Updated(env: Env, nKey: int, nIdCount: int, info: Infos, addr: Addrs, random: seq<int>, news: Slots,
      tried: Slots, loose: set<int>, id: int, entry: AddrInfo)
    requires Consistent(env, nKey, nIdCount, info, addr, random, news, tried, loose)
    requires id in info && SameStanding(info[id], entry)
    ensures Consistent(env, nKey, nIdCount, info[id := entry], addr, random, news, tried, loose)
  {
    hide TriedSlot, GetBucketPosition;
    SamePlaceSameSlots(env, nKey, info[id], entry);
  }

  // ---------- steps: the shuffled vector ----------

  function Swapped(random: seq<int>, i: nat, j: nat): seq<int>
    requires i < |random| && j < |random|
  {
    random[i := random[j]][j := random[i]]
  }

  /** The entries once two places of the vector are exchanged. */
  function SwappedInfo(info: Infos, random: seq<int>, i: nat, j: nat): Infos
    requires i < |random| && j < |random| && random[i] in info && random[j] in info
  {
    info[random[i] := info[random[i]].(nRandomPos := j)][random[j] := info[random[j]].(nRandomPos := i)]
  }

  /** Two entries that differ in their place in the vector at most. */
  predicate SameButPlace(a: AddrInfo, b: AddrInfo)
  {
    a.(nRandomPos := 0) == b.(nRandomPos := 0)
  }

  /** No entry changed but in its place in the vector. */
  ghost predicate Reshuffled(before: Infos, after: Infos)
  {
    && after.Keys == before.Keys
    && forall j :: j in after ==> SameButPlace(after[j], before[j])
  }

  lemma SwappedRandom(info: Infos, random: seq<int>, i: nat, j: nat)
    requires i < |random| && j < |random| && i != j && RandomMatches(info, random)
    ensures random[i] in info && random[j] in info && random[i] != random[j]
    ensures RandomMatches(SwappedInfo(info, random, i, j), Swapped(random, i, j))
    ensures Reshuffled(info, SwappedInfo(info, random, i, j))
  {
  }

  /** Indexes other than the vector do not look at places in it. */
  lemma ReplacedPlaces(env: Env, nKey: int, nIdCount: int, info: Infos, info': Infos, addr: Addrs, random: seq<int>,
                       random': seq<int>, news: Slots, tried: Slots, loose: set<int>)
    requires Consistent(env, nKey, nIdCount, info, addr, random, news, tried, loose)
    requires Reshuffled(info, info') && RandomMatches(info', random')
    ensures Consistent(env, nKey, nIdCount, info', addr, random', news, tried, loose)
  {
    hide RandomMatches, TriedSlot, GetBucketPosition, SlotsOf;
    forall id | id in info
      ensures TriedSlot(env, nKey, info'[id]) == TriedSlot(env, nKey, info[id])
      ensures info'[id].address == info[id].address && info'[id].source == info[id].source
      ensures info'[id].fInTried == info[id].fInTried && info'[id].nRefCount == info[id].nRefCount
      ensures info'[id].nLastTry == info[id].nLastTry && info'[id].nLastSuccess == info[id].nLastSuccess
      ensures forall b ::
          GetBucketPosition(env, nKey, info'[id], true, b) == GetBucketPosition(env, nKey, info[id], true, b)
    {
      var x, y := info'[id].(nRandomPos := 0), info[id].(nRandomPos := 0);
      assert x == y;
      assert x.address == info'[id].address && y.address == info[id].address;
      assert x.source == info'[id].source && y.source == info[id].source;
      assert x.nRefCount == info'[id].nRefCount && x.fInTried == info'[id].fInTried;
      assert x.nLastTry == info'[id].nLastTry && x.nLastSuccess == info'[id].nLastSuccess;
      SamePlaceSameSlots(env, nKey, info'[id], info[id]);
    }
    assert forall id :: id in info <==> id in info';
  }

  /** A loose entry leaves from the end of the vector. */
  lemma Deleted(env: Env, nKey: int, nIdCount: int, info: Infos, addr: Addrs, random: seq<int>, news: Slots,
      tried: Slots, loose: set<int>, id: int)
    requires Consistent(env, nKey, nIdCount, info, addr, random, news, tried, With(loose, id))
    requires id !in loose && id in info && |random| > 0 && random[|random| - 1] == id
    ensures Consistent(env, nKey, nIdCount, info - {id}, addr - {info[id].address.service.ip}, random[..|random| - 1],
                       news, tried, loose)
  {
    hide TriedSlot, GetBucketPosition;
    assert forall s :: s in news && news[s] == id ==> s in SlotsOf(news, id);
  }

  // ---------- steps: the tables ----------

  lemma SlotGone(news: Slots, s: Slot, id: int)
    requires s in news
    ensures SlotsOf(news - {s}, id) == if news[s] == id then SlotsOf(news, id) - {s} else SlotsOf(news, id)
    ensures |SlotsOf(news - {s}, id)| == |SlotsOf(news, id)| - if news[s] == id then 1 else 0
  {
    assert SlotsOf(news - {s}, id) == if news[s] == id then SlotsOf(news, id) - {s} else SlotsOf(news, id);
  }

  lemma SlotTaken(news: Slots, s: Slot, owner: int, id: int)
    requires s !in news
    ensures |SlotsOf(news[s := owner], id)| == |SlotsOf(news, id)| + if owner == id then 1 else 0
  {
    assert SlotsOf(news[s := owner], id) == if owner == id then SlotsOf(news, id) + {s} else SlotsOf(news, id);
  }

  /** A reference count is no business of these indexes. */
  lemma Recounted(env: Env, nKey: int, info: Infos, addr: Addrs, random: seq<int>, tried: Slots, id: int,
      entry: AddrInfo)
    requires id in info && entry == info[id].(nRefCount := entry.nRefCount)
    requires AddrsMatch(info, addr) && RandomMatches(info, random) && TriedMatches(env, nKey, info, tried)
        && TimesOk(info)
    ensures AddrsMatch(info[id := entry], addr) && RandomMatches(info[id := entry], random)
    ensures TriedMatches(env, nKey, info[id := entry], tried) && TimesOk(info[id := entry])
  {
    hide TriedSlot;
    SamePlaceSameSlots(env, nKey, info[id], entry);
  }

  /** A new slot is emptied; an entry whose last slot it was is loose. */
  lemma Unreferenced(env: Env, nKey: int, nIdCount: int, info: Infos, addr: Addrs, random: seq<int>, news: Slots,
      tried: Slots, loose: set<int>, s: Slot)
    requires Consistent(env, nKey, nIdCount, info, addr, random, news, tried, loose) && s in news
    ensures var id := news[s]; id in info && id !in loose && info[id].nRefCount >= 1
    ensures var id := news[s]; var entry := info[id].(nRefCount := info[id].nRefCount - 1);
            Consistent(env, nKey, nIdCount, info[id := entry], addr, random, news - {s}, tried,
                       if entry.nRefCount == 0 then With(loose, id) else loose)
  {
    hide TriedSlot, GetBucketPosition, SlotsOf, AddrsMatch, RandomMatches, TriedMatches, TimesOk;
    var id := news[s];
    var entry := info[id].(nRefCount := info[id].nRefCount - 1);
    InSlots(news, s);
    Recounted(env, nKey, info, addr, random, tried, id, entry);
    forall j
      ensures |SlotsOf(news - {s}, j)| == |SlotsOf(news, j)| - if id == j then 1 else 0
    {
      SlotGone(news, s, j);
    }
    SamePlaceSameSlots(env, nKey, info[id], entry);
  }

  lemma InSlots(news: Slots, s: Slot)
    requires s in news
    ensures |SlotsOf(news, news[s])| >= 1
  {
    assert s in SlotsOf(news, news[s]);
  }

  /** A free new slot is given to an untried entry that may have it. */
  lemma Referenced(env: Env, nKey: int, nIdCount: int, info: Infos, addr: Addrs, random: seq<int>, news: Slots,
      tried: Slots, wide: set<int>, loose: set<int>, s: Slot, id: int)
    requires Consistent(env, nKey, nIdCount, info, addr, random, news, tried, wide) && s !in news
    requires id !in loose && (wide == loose || wide == With(loose, id))
    requires id in info && !info[id].fInTried && info[id].nRefCount < NEW_BUCKETS_PER_ADDRESS
    requires 0 <= s.0 < NEW_BUCKET_COUNT && s.1 == GetBucketPosition(env, nKey, info[id], true, s.0)
    ensures var entry := info[id].(nRefCount := info[id].nRefCount + 1);
            Consistent(env, nKey, nIdCount, info[id := entry], addr, random, news[s := id], tried, loose)
  {
    hide TriedSlot, GetBucketPosition, SlotsOf, AddrsMatch, RandomMatches, TriedMatches, TimesOk;
    var entry := info[id].(nRefCount := info[id].nRefCount + 1);
    Recounted(env, nKey, info, addr, random, tried, id, entry);
    forall j
      ensures |SlotsOf(news[s := id], j)| == |SlotsOf(news, j)| + if id == j then 1 else 0
    {
      SlotTaken(news, s, id, j);
    }
    SamePlaceSameSlots(env, nKey, info[id], entry);
  }

  /** A tried slot is emptied; its entry is loose. */
  lemma Untried(env: Env, nKey: int, nIdCount: int, info: Infos, addr: Addrs, random: seq<int>, news: Slots,
      tried: Slots, loose: set<int>, s: Slot)
    requires Consistent(env, nKey, nIdCount, info, addr, random, news, tried, loose) && s in tried
    ensures var id := tried[s]; id in info && id !in loose && info[id].fInTried && info[id].nRefCount == 0
    ensures var id := tried[s];
            Consistent(env, nKey, nIdCount, info[id := info[id].(fInTried := false)], addr, random, news, tried - {s},
                With(loose, id))
  {
    hide TriedSlot, GetBucketPosition;
    var id := tried[s];
    var entry := info[id].(fInTried := false);
    assert SlotsOf(news, id) == {};
    SamePlaceSameSlots(env, nKey, info[id], entry);
  }

  /** A loose entry that was reached takes its free tried slot. */
  lemma Tried(env: Env, nKey: int, nIdCount: int, info: Infos, addr: Addrs, random: seq<int>, news: Slots, tried: Slots,
              loose: set<int>, id: int)
    requires Consistent(env, nKey, nIdCount, info, addr, random, news, tried, With(loose, id))
    requires id !in loose && id in info && info[id].nLastSuccess > 0 && TriedSlot(env, nKey, info[id]) !in tried
    ensures Consistent(env, nKey, nIdCount, info[id := info[id].(fInTried := true)], addr, random, news,
                       tried[TriedSlot(env, nKey, info[id]) := id], loose)
  {
    hide TriedSlot, GetBucketPosition;
    var entry := info[id].(fInTried := true);
    assert forall s :: s in news && news[s] == id ==> s in SlotsOf(news, id);
    SamePlaceSameSlots(env, nKey, info[id], entry);
  }
}
