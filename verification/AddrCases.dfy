/** What the address manager does in single cases: two in which it is not what one would expect,
    and what decides in the others, written out. */
module AddrCases {
  import opened AddrState
  import opened AddrCheck
  import opened AddrSteps
  import opened AddrDisk
  import opened AddrManager

  /** Every address falls into the first slot. */
  function OneSlot(): Env { Env(_ => 0, _ => [], _ => true) }

  function Seen(ip: NetAddr, nTime: int): Address { Address(Service(ip, 0), {}, nTime) }

  lemma SlotsCollide(nKey: int, info: AddrInfo, source: NetAddr)
    ensures SlotFor(OneSlot(), nKey, info, source) == (0, 0)
  {
  }

  /** What the manager knows after one addition. */
  method AddFirst(ip: NetAddr, nNow: int) returns (m: AddrMan)
    requires nNow > 0
    ensures fresh(m) && fresh(m.vvTried) && fresh(m.vvNew)
    ensures m.Valid() && m.env == OneSlot() && m.nKey == 1 && m.mapInfo.Keys == {0} && m.news == map[(0, 0) := 0]
    ensures m.mapInfo[0] == Held(ip, nNow, 0, 0, m.mapInfo[0].nRandomPos)
  {
    hide AddrMan.Valid, Fit;
    m := new AddrMan(OneSlot(), 1);
    ghost var entry := Fresh(Seen(ip, nNow), ip, 0, |m.vRandom|);
    SlotsCollide(1, entry, ip);
    var fNew := m.Add_(Seen(ip, nNow), ip, 0, nNow, 0);
    assert m.mapInfo.Keys - {0} == {};
  }

  /** An entry in one slot of the new table that was never reached. */
  function Held(ip: NetAddr, seen: int, tried: int, attempts: int, place: int): AddrInfo
  {
    AddrInfo(Seen(ip, seen), ip, tried, 0, attempts, 1, false, place)
  }

  /** A new address is reported as added, although its slot is taken and it is forgotten. */
  method AddedAndForgotten(ip: NetAddr, other: NetAddr, nNow: int) returns (fNew: bool, nId: int)
    requires nNow > 0 && ip != other
    ensures fNew && nId == -1
  {
    hide AddrMan.Valid, SlotFor;
    var m := AddFirst(ip, nNow);
    ghost var id, entry := m.nIdCount, Fresh(Seen(other, nNow), other, 0, |m.vRandom|);
    SlotsCollide(1, entry, other);
    NotKnown(m, other);
    fNew := m.Add_(Seen(other, nNow), other, 0, nNow, 0);
    NotKnown(m, other);
    nId := m.Find(other);
  }

  lemma NotKnown(m: AddrMan, ip: NetAddr)
    requires m.Valid() && m.mapInfo.Keys == {0} && m.mapInfo[0].address.service.ip != ip
    ensures ip !in m.mapAddr && 0 < m.nIdCount
  {
    AddrKnown(m.env, m.nKey, m.nIdCount, m.mapInfo, m.mapAddr, m.vRandom, m.news, m.tried, {});
  }

  /** The entry with id 0 passes without being in the address map. */
  lemma OneEntryPasses(m: AddrMan)
    requires m.Valid() && m.nKey == 1 && m.mapInfo.Keys == {0}
    ensures Passes(m.env, m.nKey, m.mapInfo, map[], m.vRandom, m.news, m.tried, m.nTried, m.nNew)
    ensures m.Shaped()
  {
    hide Consistent, Counted, Mirrors;
    ConsistentPasses(m.env, m.nKey, m.nIdCount, m.mapInfo, m.mapAddr, m.vRandom, m.news, m.tried, m.nTried, m.nNew);
    hide TriedMatches, NewPlaced, RefsExact;
    assert EntryPasses(m.mapInfo, m.mapAddr, m.vRandom, 0);
  }

  /** A state whose address map lacks its one address passes the check, which enters it. */
  method CheckMends(ip: NetAddr, nNow: int) returns (before: bool, err: int, after: bool)
    requires nNow > 0
    ensures !before && err == 0 && after
  {
    hide AddrMan.Valid, Mirrors, Passes;
    var m := AddFirst(ip, nNow);
    OneEntryPasses(m);
    m.mapAddr := map[];
    before := ip in m.mapAddr;
    err := m.Check_();
    after := ip in m.mapAddr;
  }

  // ---------- what is worth keeping ----------

  function Entry(seen: int, tried: int, success: int, attempts: int): AddrInfo
  {
    AddrInfo(Seen([], seen), [], tried, success, attempts, 1, false, 0)
  }

  /** On either side of each limit, at time 10000000: ten minutes ahead, 30 days ago, three
      attempts without success, ten attempts and seven days since a success, and a try within
      the last minute, which excuses all of these. */
  method TerribleOrNot() returns (terrible: seq<bool>)
    ensures terrible == [false, true, false, true, true, false, true, false, true, false, false, true]
  {
    var nNow := 10000000;
    terrible := [
      IsTerrible(Entry(10000600, 0, 0, 0), nNow), IsTerrible(Entry(10000601, 0, 0, 0), nNow),
      IsTerrible(Entry(7408000, 0, 0, 0), nNow), IsTerrible(Entry(7407999, 0, 0, 0), nNow),
      IsTerrible(Entry(0, 0, 0, 0), nNow),
      IsTerrible(Entry(10000000, 1, 0, 2), nNow), IsTerrible(Entry(10000000, 1, 0, 3), nNow),
      IsTerrible(Entry(10000000, 1, 9395199, 9), nNow), IsTerrible(Entry(10000000, 1, 9395199, 10), nNow),
      IsTerrible(Entry(10000000, 1, 9395200, 10), nNow),
      IsTerrible(Entry(0, 9999940, 0, 10), nNow), IsTerrible(Entry(0, 9999939, 0, 10), nNow)];
  }

  /** An address is tried some times, and then another one maps to its slot: it is kept exactly
      if it was tried within the last minute, or seen within 30 days and tried less than three
      times. */
  method Contend(ip: NetAddr, other: NetAddr, seen: int, attempts: nat, tried: int, nNow: int) returns (kept: bool)
    requires 0 < seen && 0 < tried && 0 < nNow && ip != other
    ensures kept <==>
            || (attempts > 0 && nNow - tried <= 60)
            || (nNow - 2592000 <= seen <= nNow + 600 && attempts < 3)
  {
    hide AddrMan.Valid, SlotFor, LosesSlot;
    var m := AddFirst(ip, seen);
    NotKnown(m, other);
    for i := 0 to attempts
      invariant fresh(m) && fresh(m.vvTried) && fresh(m.vvNew) && m.Valid() && m.env == OneSlot() && m.nKey == 1
      invariant m.mapInfo.Keys == {0} && m.news == map[(0, 0) := 0]
      invariant m.mapInfo[0] == Held(ip, seen, if i > 0 then tried else 0, i, m.mapInfo[0].nRandomPos)
    {
      KnownByIp(m, ip);
      m.Attempt_(Service(ip, 0), tried);
    }
    NotKnown(m, other);
    ghost var before, slots, id := m.mapInfo, m.news, m.nIdCount;
    ghost var entry := Fresh(Seen(other, nNow), other, 0, |m.vRandom|);
    SlotsCollide(1, entry, other);
    var fNew := m.Add_(Seen(other, nNow), other, 0, nNow, 0);
    var nId := m.Find(ip);
    kept := nId != -1;
    assert MayTake(before[id := entry], slots, id, (0, 0), nNow) <==> !Fit(before[0], nNow);
    if Fit(before[0], nNow) {
      StillKnown(m, ip);
    } else {
      assert LosesSlot(before[id := entry] - {id}, m.mapInfo - {id}, slots, (0, 0));
      NoLongerKnown(m, before[id := entry], slots, id, ip);
    }
  }

  lemma KnownByIp(m: AddrMan, ip: NetAddr)
    requires m.Valid() && m.mapInfo.Keys == {0} && m.mapInfo[0].address.service == Service(ip, 0)
    ensures m.Known(Service(ip, 0)) && m.mapAddr[ip] == 0
  {
    AddrKnown(m.env, m.nKey, m.nIdCount, m.mapInfo, m.mapAddr, m.vRandom, m.news, m.tried, {});
  }

  lemma StillKnown(m: AddrMan, ip: NetAddr)
    requires m.Valid() && 0 in m.mapInfo && m.mapInfo[0].address.service.ip == ip
    ensures ip in m.mapAddr && m.mapAddr[ip] >= 0
  {
    hide RandomMatches, TriedMatches, NewPlaced, RefsMatch, Counted, Mirrors;
  }

  lemma LastRefLost(before: Infos, after: Infos, slots: Slots, id: int)
    requires 0 in before && id != 0 && 0 in after && before[0].nRefCount == 1 && !before[0].fInTried
    requires slots == map[(0, 0) := 0] && LosesSlot(before - {id}, after - {id}, slots, (0, 0))
    ensures after[0].nRefCount == 0 && !after[0].fInTried
  {
    assert 0 in after - {id} && Holder(slots, (0, 0), 0);
    var a := after[0].(nRandomPos := 0);
    assert a == before[0].(nRefCount := 0).(nRandomPos := 0);
    assert a.nRefCount == after[0].nRefCount && a.fInTried == after[0].fInTried;
  }

  lemma RefsHeld(m: AddrMan)
    requires m.Valid()
    ensures forall id :: id in m.mapInfo && !m.mapInfo[id].fInTried ==> m.mapInfo[id].nRefCount >= 1
    ensures forall ip :: ip in m.mapAddr ==>
              m.mapAddr[ip] in m.mapInfo && m.mapInfo[m.mapAddr[ip]].address.service.ip == ip
  {
    hide RandomMatches, TriedMatches, NewPlaced, Counted, Mirrors, TimesOk;
  }

  /** An entry that lost its only slot is gone. */
  lemma NoLongerKnown(m: AddrMan, before: Infos, slots: Slots, id: int, ip: NetAddr)
    requires m.Valid() && before.Keys == {0, id} && id != 0 && id in m.mapInfo
    requires before[0].nRefCount == 1 && !before[0].fInTried && m.mapInfo[id].address.service.ip != ip
    requires slots == map[(0, 0) := 0] && LosesSlot(before - {id}, m.mapInfo - {id}, slots, (0, 0))
    ensures ip !in m.mapAddr
  {
    hide AddrMan.Valid;
    RefsHeld(m);
    if 0 in m.mapInfo {
      LastRefLost(before, m.mapInfo, slots, id);
      assert false;
    }
    assert forall k :: k in m.mapInfo ==> k == id || k in m.mapInfo - {id};
  }

  // ---------- news of a known address ----------

  /** The time of an entry moves on if the news is newer by more than an hour for an address seen
      within a day, by more than a day for any other, and by the penalty on top. */
  method SeenAgain(ip: NetAddr, seen: int, again: int, penalty: int, nNow: int) returns (nTime: int)
    requires 0 < seen
    ensures nTime == if again != 0 && seen < again - (if nNow - again < 86400 then 3600 else 86400) - penalty
                     then (if again < penalty then 0 else again - penalty) else seen
  {
    hide AddrMan.Valid, SlotFor;
    var m := AddFirst(ip, seen);
    KnownByIp(m, ip);
    ghost var mid := m.mapInfo[0 := Refreshed(m.mapInfo[0], Seen(ip, again), penalty, nNow)];
    SlotsCollide(1, mid[0], ip);
    var fNew := m.Add_(Seen(ip, again), ip, penalty, nNow, 0);
    nTime := m.mapInfo[0].address.nTime;
  }

  /** The first time of an address is the one told, less the penalty, and not negative. */
  method FirstSeen(ip: NetAddr, seen: int, penalty: int, nNow: int) returns (nTime: int)
    ensures nTime == if seen < penalty then 0 else seen - penalty
  {
    hide AddrMan.Valid;
    var m := new AddrMan(OneSlot(), 1);
    ghost var entry := Fresh(Seen(ip, seen), ip, penalty, |m.vRandom|);
    SlotsCollide(1, entry, ip);
    var fNew := m.Add_(Seen(ip, seen), ip, penalty, nNow, 0);
    nTime := m.mapInfo[0].address.nTime;
  }

  // ---------- where an address goes ----------

  /** What is hashed for the slots of one address and port, byte by byte. */
  method SlotsWrittenOut(cheapHash: seq<Item> -> nat, group: seq<int>, sourceGroup: seq<int>, nKey: int)
    returns (tried: Slot, new_: Slot)
    requires group != sourceGroup
    ensures var i := cheapHash([Key(nKey), Bytes([1, 2, 3, 4, 32, 141])]) % 8;
            var bucket := cheapHash([Key(nKey), Bytes(group), Number(i)]) % 256;
            tried == (bucket,
                cheapHash([Key(nKey), Letter('K'), Number(bucket), Bytes([1, 2, 3, 4, 32, 141])]) % 64)
    ensures var i := cheapHash([Key(nKey), Bytes(group), Bytes(sourceGroup)]) % 64;
            var bucket := cheapHash([Key(nKey), Bytes(sourceGroup), Number(i)]) % 1024;
            new_ == (bucket,
                cheapHash([Key(nKey), Letter('N'), Number(bucket), Bytes([1, 2, 3, 4, 32, 141])]) % 64)
  {
    var env := Env(cheapHash, ip => if ip == [1, 2, 3, 4] then group else sourceGroup, _ => true);
    var info := NewInfo(Address(Service([1, 2, 3, 4], 8333), {}, 1), [5, 6, 7, 8]);
    assert ServiceKey(info.address.service) == [1, 2, 3, 4, 32, 141];
    tried := TriedSlot(env, nKey, info);
    new_ := SlotFor(env, nKey, info, [5, 6, 7, 8]);
  }

  // ---------- on disk ----------

  function Times(token: Token, n: nat): (r: seq<Token>)
    ensures |r| == n && forall i :: 0 <= i < n ==> r[i] == token
  {
    if n == 0 then [] else [token] + Times(token, n - 1)
  }

  lemma {:induction false} EmptyRow(info: Infos, news: Slots, b: int, p: nat)
    requires forall q :: p <= q < 64 ==> (b, q) !in news
    ensures RowFrom(info, news, b, p) == []
    decreases 64 - p
  {
    if p < 64 {
      EmptyRow(info, news, b, p + 1);
    }
  }

  lemma {:induction false} EmptyBuckets(info: Infos, news: Slots, b: nat)
    requires b <= 1024 && forall c, q :: b <= c < 1024 && 0 <= q < 64 ==> (c, q) !in news
    ensures BucketsFrom(info, news, b) == Times(Num(0), 1024 - b)
    decreases 1024 - b
  {
    if b < 1024 {
      EmptyRow(info, news, b, 0);
      EmptyBuckets(info, news, b + 1);
      assert [Num(0)] + [] + Times(Num(0), 1024 - b - 1) == Times(Num(0), 1024 - b);
    }
  }

  lemma FirstRow(info: Infos, news: Slots)
    requires news == map[(0, 0) := 0]
    ensures RowFrom(info, news, 0, 0) == [Num(0)]
  {
    EmptyRow(info, news, 0, 1);
    hide RowFrom;
    FirstCell(info, news);
    assert [Num(0)] + [] == [Num(0)];
  }

  lemma FirstCell(info: Infos, news: Slots)
    requires news == map[(0, 0) := 0]
    ensures RowFrom(info, news, 0, 0) == [Num(0)] + RowFrom(info, news, 0, 1)
  {
    assert NewUpTo(info, 0) == [] && AddrDisk.IndexOf(info, 0) == 0;
  }

  lemma FirstBucket(info: Infos, news: Slots)
    ensures BucketsFrom(info, news, 0)
         == [Num(|RowFrom(info, news, 0, 0)|)] + RowFrom(info, news, 0, 0) + BucketsFrom(info, news, 1)
  {
    hide RowFrom;
  }

  lemma OneSlotUsed(info: Infos, news: Slots)
    requires news == map[(0, 0) := 0]
    ensures BucketsFrom(info, news, 0) == [Num(1), Num(0)] + Times(Num(0), 1023)
  {
    FirstRow(info, news);
    EmptyBuckets(info, news, 1);
    FirstBucket(info, news);
  }

  lemma OneEntryIds(info: Infos, n: nat)
    requires info.Keys == {0} && info[0].nRefCount != 0 && !info[0].fInTried && n > 0
    ensures NewUpTo(info, n) == [0] && TriedUpTo(info, n) == []
  {
    if n > 1 {
      assert n - 1 !in info.Keys;
      OneEntryIds(info, n - 1);
    } else {
      assert 0 in info.Keys && NewUpTo(info, 0) == [] && TriedUpTo(info, 0) == [];
    }
  }

  /** One address, tried once. */
  method AddTriedOnce(ip: NetAddr, seen: int) returns (m: AddrMan)
    requires 0 < seen
    ensures fresh(m) && fresh(m.vvTried) && fresh(m.vvNew)
    ensures m.Valid() && m.nKey == 1 && m.mapInfo.Keys == {0} && m.news == map[(0, 0) := 0]
    ensures m.mapInfo[0] == Held(ip, seen, seen, 1, m.mapInfo[0].nRandomPos)
  {
    hide AddrMan.Valid;
    m := AddFirst(ip, seen);
    KnownByIp(m, ip);
    m.Attempt_(Service(ip, 0), seen);
  }

  lemma OneRecord(info: Infos)
    requires 0 in info
    ensures Records(info, [0]) == [Record(ToDisk(info[0]))] && Records(info, []) == []
  {
    assert [0][..0] == [];
  }

  /** The stream of a manager that knows one address: version, key size, key, the two counters,
      the disguised bucket count, the record, and the buckets, of which the first has one slot,
      used by the entry number 0. */
  method StreamWrittenOut(ip: NetAddr, seen: int) returns (s: seq<Token>)
    requires 0 < seen
    ensures s == [Num(1), Num(32), Blob(1), Num(1), Num(0), Num(1073742848), Record(DiskInfo(Seen(ip, seen), ip, 0, 1)),
                  Num(1), Num(0)] + Times(Num(0), 1023)
  {
    hide AddrMan.Valid, BucketsFrom, NewUpTo, TriedUpTo, Records, Times;
    var m := AddTriedOnce(ip, seen);
    OneKnown(m);
    s := m.Serialize();
    OneEntryIds(m.mapInfo, m.nIdCount);
    OneSlotUsed(m.mapInfo, m.news);
    OneRecord(m.mapInfo);
  }

  lemma OneKnown(m: AddrMan)
    requires m.Valid() && m.mapInfo.Keys == {0} && !m.mapInfo[0].fInTried
    ensures m.nIdCount > 0 && m.nNew == 1 && m.nTried == 0
  {
    hide RandomMatches, NewPlaced, RefsMatch, Mirrors, TimesOk, AddrsMatch, TriedSlot;
    assert 0 in m.mapInfo && |m.mapInfo.Keys| == |m.mapInfo| == 1;
    assert forall s :: s !in m.tried;
    assert m.tried == map[];
  }

  // ---------- an eviction ----------

  lemma TriedCollide(nKey: int, info: AddrInfo)
    ensures TriedSlot(OneSlot(), nKey, info) == (0, 0)
  {
  }

  /** The first address is reached, and then a second one that maps to its slot of the tried table:
      the first goes back to the new table, with one reference, and the second takes the slot. */
  method EvictedBack(ip: NetAddr, other: NetAddr, nNow: int)
    returns (tried: seq<bool>, slots: (int, int), refs: seq<int>)
    requires nNow > 0 && ip != other
    ensures tried == [false, true] && refs == [1, 0] && slots == (0, 1)
  {
    hide AddrMan.Valid, SlotFor, TriedSlot, LosesSlot;
    var m := AddFirst(ip, nNow);
    var second := SecondTried(m, ip, other, nNow);
    tried := [m.mapInfo[0].fInTried, m.mapInfo[second].fInTried];
    refs := [m.mapInfo[0].nRefCount, m.mapInfo[second].nRefCount];
    ShownInTables(m, second);
    slots := (m.vvNew[0, 0], if m.vvTried[0, 0] == second then 1 else 0);
  }

  lemma ShownInTables(m: AddrMan, second: int)
    requires m.Valid() && m.news == map[(0, 0) := 0] && m.tried == map[(0, 0) := second]
    ensures m.vvNew.Length0 == 1024 && m.vvNew.Length1 == 64 && m.vvTried.Length0 == 256 && m.vvTried.Length1 == 64
    ensures m.vvNew[0, 0] == 0 && m.vvTried[0, 0] == second
  {
    hide Consistent, Counted;
  }

  /** The one address moves to the tried table. */
  method FirstTried(m: AddrMan, ip: NetAddr, nNow: int)
    requires m.Valid() && m.env == OneSlot() && m.nKey == 1 && m.mapInfo.Keys == {0} && m.news == map[(0, 0) := 0]
    requires m.mapInfo[0] == Held(ip, nNow, 0, 0, m.mapInfo[0].nRandomPos) && nNow > 0
    modifies m, m.vvTried, m.vvNew
    ensures m.Valid() && m.nKey == 1 && m.news == map[] && m.tried == map[(0, 0) := 0] && m.mapInfo.Keys == {0}
    ensures m.mapInfo[0].fInTried && m.mapInfo[0].nRefCount == 0 && m.mapInfo[0].address == Seen(ip, nNow)
    ensures m.mapInfo[0].source == ip && m.mapInfo[0].nLastSuccess == nNow && m.mapInfo[0].nAttempts == 0
  {
    hide AddrMan.Valid, SlotFor, TriedSlot, LosesSlot;
    NothingTried(m);
    KnownByIp(m, ip);
    ghost var reached := m.mapInfo[0].(nLastSuccess := nNow, nLastTry := nNow, nAttempts := 0);
    TriedCollide(1, reached);
    m.Good_(Service(ip, 0), nNow, 0);
    PlaceApart(m.mapInfo[0], reached.(nRefCount := 0, fInTried := true));
    assert m.mapInfo.Keys == (m.mapInfo - {0}).Keys + {0};
  }

  /** And of one that was reached: it is written among the tried entries, with the time of that. */
  method StreamOfTried(ip: NetAddr, nNow: int) returns (s: seq<Token>)
    requires 0 < nNow
    ensures s == [Num(1), Num(32), Blob(1), Num(0), Num(1), Num(1073742848),
                  Record(DiskInfo(Seen(ip, nNow), ip, nNow, 0))] + Times(Num(0), 1024)
  {
    hide AddrMan.Valid, BucketsFrom, NewUpTo, TriedUpTo, Records, Times;
    var m := AddFirst(ip, nNow);
    FirstTried(m, ip, nNow);
    TriedCounted(m);
    s := m.Serialize();
    TriedEntryIds(m.mapInfo, m.nIdCount);
    EmptyBuckets(m.mapInfo, m.news, 0);
    OneRecord(m.mapInfo);
  }

  lemma TriedCounted(m: AddrMan)
    requires m.Valid() && m.mapInfo.Keys == {0} && m.tried == map[(0, 0) := 0]
    ensures m.nIdCount > 0 && m.nNew == 0 && m.nTried == 1
  {
    hide RandomMatches, NewPlaced, RefsMatch, Mirrors, TimesOk, AddrsMatch, TriedMatches;
    assert 0 in m.mapInfo && |m.mapInfo.Keys| == |m.mapInfo| == 1 && |m.tried| == 1;
  }

  lemma TriedEntryIds(info: Infos, n: nat)
    requires info.Keys == {0} && info[0].nRefCount == 0 && info[0].fInTried && n > 0
    ensures NewUpTo(info, n) == [] && TriedUpTo(info, n) == [0]
  {
    if n > 1 {
      assert n - 1 !in info.Keys;
      TriedEntryIds(info, n - 1);
    } else {
      assert 0 in info.Keys && NewUpTo(info, 0) == [] && TriedUpTo(info, 0) == [];
    }
  }

  lemma PlaceApart(a: AddrInfo, b: AddrInfo)
    requires SameButPlace(a, b)
    ensures a.address == b.address && a.source == b.source && a.nRefCount == b.nRefCount && a.fInTried == b.fInTried
    ensures a.nLastTry == b.nLastTry && a.nLastSuccess == b.nLastSuccess && a.nAttempts == b.nAttempts
  {
    var c, d := a.(nRandomPos := 0), b.(nRandomPos := 0);
    assert c.address == a.address && c.source == a.source && c.nRefCount == a.nRefCount && c.fInTried == a.fInTried;
    assert d.address == b.address && d.source == b.source && d.nRefCount == b.nRefCount && d.fInTried == b.fInTried;
    assert c.nLastTry == a.nLastTry && c.nLastSuccess == a.nLastSuccess && c.nAttempts == a.nAttempts;
    assert d.nLastTry == b.nLastTry && d.nLastSuccess == b.nLastSuccess && d.nAttempts == b.nAttempts;
  }

  /** A second address is added, and takes the one slot of the new table. */
  method AddSecond(m: AddrMan, ip: NetAddr, other: NetAddr, nNow: int) returns (second: int)
    requires m.Valid() && m.env == OneSlot() && m.nKey == 1 && m.news == map[] && m.tried == map[(0, 0) := 0]
    requires m.mapInfo.Keys == {0} && m.mapInfo[0].fInTried && m.mapInfo[0].nRefCount == 0
    requires m.mapInfo[0].address == Seen(ip, nNow) && ip != other && nNow > 0
    modifies m, m.vvTried, m.vvNew
    ensures m.Valid() && m.nKey == 1 && m.news == map[(0, 0) := second] && m.tried == map[(0, 0) := 0]
    ensures m.mapInfo.Keys == {0, second} && second != 0 && m.Known(Service(other, 0)) && m.mapAddr[other] == second
    ensures !m.mapInfo[second].fInTried && m.mapInfo[0].address == Seen(ip, nNow)
  {
    hide AddrMan.Valid, SlotFor, TriedSlot, LosesSlot;
    NotKnown(m, other);
    second := m.nIdCount;
    ghost var before, entry := m.mapInfo, Fresh(Seen(other, nNow), other, 0, |m.vRandom|);
    SlotsCollide(1, entry, other);
    var fNew := m.Add_(Seen(other, nNow), other, 0, nNow, 0);
    PlaceApart(m.mapInfo[second], entry.(nRefCount := 1));
    NoSlotLost(before[second := entry] - {second}, m.mapInfo - {second}, (0, 0));
    assert before[second := entry] - {second} == before;
    PlaceApart(m.mapInfo[0], before[0]);
    SecondKnown(m, second, other);
  }

  lemma NoSlotLost(before: Infos, after: Infos, s: Slot)
    requires LosesSlot(before, after, map[], s)
    ensures after.Keys == before.Keys && forall id :: id in after ==> SameButPlace(after[id], before[id])
  {
    forall id | id in before
      ensures id in after
    {
      assert !Holder(map[], s, id);
    }
    assert forall id :: id in after ==> !Holder(map[], s, id);
  }

  lemma SecondKnown(m: AddrMan, second: int, other: NetAddr)
    requires m.Valid() && second in m.mapInfo
        && m.mapInfo[second].address == Seen(other, m.mapInfo[second].address.nTime)
    ensures m.Known(Service(other, 0)) && m.mapAddr[other] == second
  {
    hide RandomMatches, TriedMatches, NewPlaced, RefsMatch, Counted, Mirrors, TimesOk;
  }

  method SecondTried(m: AddrMan, ip: NetAddr, other: NetAddr, nNow: int) returns (second: int)
    requires m.Valid() && m.env == OneSlot() && m.nKey == 1 && m.mapInfo.Keys == {0} && m.news == map[(0, 0) := 0]
    requires m.mapInfo[0] == Held(ip, nNow, 0, 0, m.mapInfo[0].nRandomPos) && nNow > 0 && ip != other
    modifies m, m.vvTried, m.vvNew
    ensures m.Valid() && m.news == map[(0, 0) := 0] && m.tried == map[(0, 0) := second] && second != 0
    ensures 0 in m.mapInfo && second in m.mapInfo
    ensures !m.mapInfo[0].fInTried && m.mapInfo[0].nRefCount == 1
    ensures m.mapInfo[second].fInTried && m.mapInfo[second].nRefCount == 0
  {
    hide AddrMan.Valid, SlotFor, TriedSlot, LosesSlot;
    FirstTried(m, ip, nNow);
    second := AddSecond(m, ip, other, nNow);
    ghost var reached := m.mapInfo[second].(nLastSuccess := nNow, nLastTry := nNow, nAttempts := 0);
    TriedCollide(1, reached);
    SlotsCollide(1, m.mapInfo[0], m.mapInfo[0].source);
    m.Good_(Service(other, 0), nNow, 0);
    PlaceApart(m.mapInfo[second], reached.(nRefCount := 0, fInTried := true));
  }

  lemma NothingTried(m: AddrMan)
    requires m.Valid() && m.mapInfo.Keys == {0} && !m.mapInfo[0].fInTried
    ensures m.tried == map[]
  {
    hide RandomMatches, NewPlaced, RefsMatch, Mirrors, TimesOk, AddrsMatch, TriedSlot, Counted;
    assert forall s :: s !in m.tried;
  }

  /** The odds for another slot, by the number of slots there are. */
  lemma OddsWrittenOut()
    ensures TwoTo(1) == 2 && TwoTo(2) == 4 && TwoTo(3) == 8 && TwoTo(7) == 128
  {
    assert TwoTo(4) == 16 && TwoTo(5) == 32 && TwoTo(6) == 64;
  }

  /** What a record keeps of an entry, and what not. */
  lemma RecordKeeps(a: AddrInfo, b: AddrInfo)
    ensures ToDisk(a) == ToDisk(b) <==>
            && a.address == b.address && a.source == b.source
            && a.nLastSuccess == b.nLastSuccess && a.nAttempts == b.nAttempts
  {
  }

  /** The address is known, but under another port: nothing is noted. */
  method OtherPort(ip: NetAddr, seen: int, nNow: int) returns (attempts: int, tried: int, nTime: int, fInTried: bool)
    requires 0 < seen && 0 < nNow
    ensures attempts == 0 && tried == 0 && nTime == seen && !fInTried
  {
    hide AddrMan.Valid, MovedToTried;
    var m := AddFirst(ip, seen);
    m.Attempt_(Service(ip, 1), nNow);
    m.Connected_(Service(ip, 1), nNow);
    m.Good_(Service(ip, 1), nNow, 0);
    attempts, tried := m.mapInfo[0].nAttempts, m.mapInfo[0].nLastTry;
    nTime, fInTried := m.mapInfo[0].address.nTime, m.mapInfo[0].fInTried;
  }

  // ---------- two references ----------

  /** One source of news has slots of its own. */
  function TwoSlots(special: NetAddr): Env
  {
    Env(items => if |items| > 1 && items[1] == Bytes(special) then 1 else 0, ip => ip, _ => true)
  }

  lemma SlotsBySource(nKey: int, info: AddrInfo, special: NetAddr, source: NetAddr)
    requires info.address.service.ip != special
    ensures SlotFor(TwoSlots(special), nKey, info, source) == (if source == special then 1 else 0, 0)
  {
  }

  /** An address heard of from two sources. */
  method HeardTwice(ip: NetAddr, special: NetAddr, nNow: int) returns (m: AddrMan)
    requires nNow > 100 && ip != special
    ensures fresh(m) && fresh(m.vvTried) && fresh(m.vvNew)
    ensures m.Valid() && m.env == TwoSlots(special) && m.nKey == 1 && m.mapInfo.Keys == {0}
    ensures m.news == map[(0, 0) := 0, (1, 0) := 0] && m.mapInfo[0].nRefCount == 2 && !m.mapInfo[0].fInTried
    ensures m.mapInfo[0].address == Seen(ip, nNow - 100) && m.mapInfo[0].nLastTry == 0
    ensures m.mapInfo[0].nAttempts == 0
  {
    hide AddrMan.Valid, SlotFor;
    m := new AddrMan(TwoSlots(special), 1);
    ghost var entry := Fresh(Seen(ip, nNow - 100), ip, 0, |m.vRandom|);
    SlotsBySource(1, entry, special, ip);
    var fNew := m.Add_(Seen(ip, nNow - 100), ip, 0, nNow, 0);
    assert m.mapInfo.Keys - {0} == {};
    PlaceApart(m.mapInfo[0], entry.(nRefCount := 1));
    KnownByIp(m, ip);
    ghost var before := m.mapInfo;
    ghost var mid := before[0 := Refreshed(before[0], Seen(ip, nNow), 0, nNow)];
    SlotsBySource(1, mid[0], special, special);
    fNew := m.Add_(Seen(ip, nNow), special, 0, nNow, 0);
    assert m.mapInfo.Keys - {0} == {};
    PlaceApart(m.mapInfo[0], mid[0].(nRefCount := 2));
  }

  /** It gives up a slot to a new address, which has none, and is not forgotten. */
  method SlotGivenUp(ip: NetAddr, other: NetAddr, special: NetAddr, nNow: int) returns (first: bool, second: bool)
    requires nNow > 100 && ip != special && ip != other && other != special
    ensures first && second
  {
    hide AddrMan.Valid, SlotFor, LosesSlot;
    var m := HeardTwice(ip, special, nNow);
    NotKnown(m, other);
    ghost var before, slots, id := m.mapInfo, m.news, m.nIdCount;
    ghost var entry := Fresh(Seen(other, nNow), other, 0, |m.vRandom|);
    SlotsBySource(1, entry, special, other);
    var fNew := m.Add_(Seen(other, nNow), other, 0, nNow, 0);
    assert MayTake(before[id := entry], slots, id, (0, 0), nNow);
    PlaceApart(m.mapInfo[id], entry.(nRefCount := 1));
    assert before[id := entry] - {id} == before;
    OneRefLeft(before, m.mapInfo - {id}, slots);
    StillKnown(m, ip);
    SecondKnown(m, id, other);
    var nId := m.Find(ip);
    first := nId != -1;
    nId := m.Find(other);
    second := nId != -1;
  }

  lemma OneRefLeft(before: Infos, after: Infos, slots: Slots)
    requires 0 in before && before[0].nRefCount == 2 && (0, 0) in slots && slots[(0, 0)] == 0
    requires LosesSlot(before, after, slots, (0, 0))
    ensures 0 in after && after[0].address == before[0].address && after[0].nRefCount == 1
  {
    assert Holder(slots, (0, 0), 0);
    PlaceApart(after[0], before[0].(nRefCount := 1));
  }
}
