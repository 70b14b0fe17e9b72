/** The address manager on disk: entries and bucket rows in a stream, without the tried table,
    the address map and the vector, which are rebuilt. */
module AddrDisk {
  import opened AddrCheck
  import opened AddrState
  import opened AddrSteps
  import opened Sizes

  /** What is written of an entry. */
  datatype DiskInfo = DiskInfo(address: Address, source: NetAddr, nLastSuccess: int, nAttempts: int)

  datatype Token = Num(n: int) | Blob(key: int) | Record(info: DiskInfo)

  function ToDisk(i: AddrInfo): DiskInfo
  {
    DiskInfo(i.address, i.source, i.nLastSuccess, i.nAttempts)
  }

  function FromDisk(d: DiskInfo): AddrInfo
  {
    NewInfo(d.address, d.source).(nLastSuccess := d.nLastSuccess, nAttempts := d.nAttempts)
  }

  /** Exclusive or with 2 to the power 30. */
  function Flip30(n: int): int
  {
    if n / 0x4000_0000 % 2 == 0 then n + 0x4000_0000 else n - 0x4000_0000
  }

  lemma Flip30Twice(n: int)
    ensures Flip30(Flip30(n)) == n
  {
  }

  /** A manager as it is written. */
  datatype Saved = Saved(nKey: int, nIdCount: int, info: Infos, addr: Addrs, random: seq<int>, news: Slots,
      tried: Slots, nTried: int, nNew: int)

  ghost predicate Sound(env: Env, v: Saved)
  {
    && Consistent(env, v.nKey, v.nIdCount, v.info, v.addr, v.random, v.news, v.tried, {})
    && Counted(v.info, v.tried, {}, v.nTried, v.nNew)
    && (forall s :: s in v.news ==> 0 <= s.0 < NEW_BUCKET_COUNT && 0 <= s.1 < BUCKET_SIZE)
  }

  // ---------- what is written ----------

  /** The ids below n that are in new buckets, in order. */
  function NewUpTo(info: Infos, n: nat): (r: seq<int>)
    ensures forall i :: 0 <= i < |r| ==> r[i] in info && info[r[i]].nRefCount != 0 && 0 <= r[i] < n
    ensures forall i, j :: 0 <= i < j < |r| ==> r[i] < r[j]
  {
    if n == 0 then [] else NewUpTo(info, n - 1) + if n - 1 in info && info[n - 1].nRefCount != 0 then [n - 1] else []
  }

  /** The tried ids below n, in order. */
  function TriedUpTo(info: Infos, n: nat): (r: seq<int>)
    ensures forall i :: 0 <= i < |r| ==> r[i] in info && info[r[i]].fInTried && 0 <= r[i] < n
    ensures forall i, j :: 0 <= i < j < |r| ==> r[i] < r[j]
  {
    if n == 0 then [] else TriedUpTo(info, n - 1) + if n - 1 in info && info[n - 1].fInTried then [n - 1] else []
  }

  function Records(info: Infos, ids: seq<int>): (r: seq<Token>)
    requires forall i :: 0 <= i < |ids| ==> ids[i] in info
    ensures |r| == |ids|
    ensures forall i :: 0 <= i < |ids| ==> r[i] == Record(ToDisk(info[ids[i]]))
  {
    if ids == [] then [] else Records(info, ids[..|ids| - 1]) + [Record(ToDisk(info[ids[|ids| - 1]]))]
  }

  /** The number an id gets in the stream. */
  function IndexOf(info: Infos, id: int): nat
  {
    if id < 0 then 0 else |NewUpTo(info, id)|
  }

  /** A bucket row from a position on. */
  ghost function RowFrom(info: Infos, news: Slots, b: int, p: int): seq<Token>
    decreases BUCKET_SIZE - p
  {
    if p >= BUCKET_SIZE then []
    else (if (b, p) in news then [Num(IndexOf(info, news[(b, p)]))] else []) + RowFrom(info, news, b, p + 1)
  }

  ghost function BucketsFrom(info: Infos, news: Slots, b: int): seq<Token>
    decreases NEW_BUCKET_COUNT - b
  {
    if b >= NEW_BUCKET_COUNT then []
    else [Num(|RowFrom(info, news, b, 0)|)] + RowFrom(info, news, b, 0) + BucketsFrom(info, news, b + 1)
  }

  function Header(nKey: int, nNew: int, nTried: int): seq<Token>
  {
    [Num(1), Num(32), Blob(nKey), Num(nNew), Num(nTried), Num(Flip30(NEW_BUCKET_COUNT))]
  }

  ghost function Encoded(v: Saved): seq<Token>
    requires v.nIdCount >= 0
  {
    Header(v.nKey, v.nNew, v.nTried) + Records(v.info, NewUpTo(v.info, v.nIdCount))
    + Records(v.info, TriedUpTo(v.info, v.nIdCount)) + BucketsFrom(v.info, v.news, 0)
  }

  // ---------- as many records as the counters say ----------

  lemma {:induction false} NewUpToHas(info: Infos, n: nat, id: int)
    requires 0 <= id < n && id in info && info[id].nRefCount != 0
    ensures IndexOf(info, id) < |NewUpTo(info, n)| && NewUpTo(info, n)[IndexOf(info, id)] == id
  {
    if id < n - 1 {
      NewUpToHas(info, n - 1, id);
    }
  }

  lemma {:induction false} TriedUpToHas(info: Infos, n: nat, id: int)
    requires 0 <= id < n && id in info && info[id].fInTried
    ensures id in TriedUpTo(info, n)
  {
    if id < n - 1 {
      TriedUpToHas(info, n - 1, id);
    }
  }

  /** Untried entries are those with references. */
  ghost predicate RefsTell(info: Infos)
  {
    forall id :: id in info ==> (info[id].nRefCount != 0 <==> !info[id].fInTried)
  }

  lemma SoundRefs(env: Env, v: Saved)
    requires Sound(env, v)
    ensures RefsTell(v.info) && v.nIdCount >= 0 && forall id :: id in v.info ==> 0 <= id < v.nIdCount
  {
    hide TriedSlot, GetBucketPosition, SlotsOf, AddrsMatch, RandomMatches, TriedMatches, TimesOk;
    TriedUnreferenced(env, v.nKey, v.info, v.news);
  }

  lemma RecordCounts(env: Env, v: Saved)
    requires Sound(env, v)
    ensures v.nIdCount >= 0 && |NewUpTo(v.info, v.nIdCount)| == v.nNew && |TriedUpTo(v.info, v.nIdCount)| == v.nTried
  {
    hide Consistent, TriedMatches, NewUpTo, TriedUpTo;
    SoundRefs(env, v);
    SoundTried(env, v);
    TriedSize(env, v.nKey, v.info, v.tried);
    IdsSplit(v.info);
    var news, olds := NewUpTo(v.info, v.nIdCount), TriedUpTo(v.info, v.nIdCount);
    DistinctSize(news);
    DistinctSize(olds);
    forall id: int
      ensures id in news <==> id in NewIds(v.info)
      ensures id in olds <==> id in TriedIds(v.info)
    {
      if id in NewIds(v.info) {
        NewUpToHas(v.info, v.nIdCount, id);
      }
      if id in TriedIds(v.info) {
        TriedUpToHas(v.info, v.nIdCount, id);
      }
    }
    assert (set x | x in news) == NewIds(v.info);
    assert (set x | x in olds) == TriedIds(v.info);
  }

  lemma SoundTried(env: Env, v: Saved)
    requires Sound(env, v)
    ensures TriedMatches(env, v.nKey, v.info, v.tried) && v.nTried == |v.tried| && v.nNew + v.nTried == |v.info|
  {
    hide AddrsMatch, RandomMatches, TriedMatches, TimesOk, NewPlaced, RefsMatch;
  }

  // ---------- writing ----------

  lemma RecordsNext(info: Infos, ids: seq<int>, id: int)
    requires (forall i :: 0 <= i < |ids| ==> ids[i] in info) && id in info
    ensures Records(info, ids + [id]) == Records(info, ids) + [Record(ToDisk(info[id]))]
  {
    assert (ids + [id])[..|ids|] == ids;
  }

  lemma NothingWritten(info: Infos)
    ensures NewUpTo(info, 0) == [] && TriedUpTo(info, 0) == [] && Records(info, []) == []
  {
  }

  /** One id more. Before the id of an entry to be written fewer are written than in all. */
  lemma NewUpToNext(info: Infos, id: nat, n: nat)
    requires id < n
    ensures var written := id in info && info[id].nRefCount != 0;
            && |NewUpTo(info, id + 1)| == |NewUpTo(info, id)| + (if written then 1 else 0)
            && (written ==> |NewUpTo(info, id)| < |NewUpTo(info, n)|)
            && Records(info, NewUpTo(info, id + 1))
               == if written then Records(info, NewUpTo(info, id)) + [Record(ToDisk(info[id]))]
                   else Records(info, NewUpTo(info, id))
    ensures IndexOf(info, id) == |NewUpTo(info, id)|
  {
    if id in info && info[id].nRefCount != 0 {
      NewUpToHas(info, n, id);
      RecordsNext(info, NewUpTo(info, id), id);
    }
  }

  lemma TriedUpToNext(info: Infos, id: nat, n: nat)
    requires id < n
    ensures var written := id in info && info[id].fInTried;
            && |TriedUpTo(info, id + 1)| == |TriedUpTo(info, id)| + (if written then 1 else 0)
            && (written ==> |TriedUpTo(info, id)| < |TriedUpTo(info, n)|)
            && Records(info, TriedUpTo(info, id + 1))
               == if written then Records(info, TriedUpTo(info, id)) + [Record(ToDisk(info[id]))]
                   else Records(info, TriedUpTo(info, id))
  {
    TriedUpToGrows(info, id + 1, n);
    if id in info && info[id].fInTried {
      RecordsNext(info, TriedUpTo(info, id), id);
    }
  }

  lemma RowNext(info: Infos, news: Slots, b: int, p: int, before: seq<Token>)
    ensures p >= BUCKET_SIZE ==> RowFrom(info, news, b, p) == [] && before + RowFrom(info, news, b, p) == before
    ensures p < BUCKET_SIZE && (b, p) !in news ==> RowFrom(info, news, b, p) == RowFrom(info, news, b, p + 1)
    ensures p < BUCKET_SIZE && (b, p) in news ==>
              && before + RowFrom(info, news, b, p)
                  == (before + [Num(IndexOf(info, news[(b, p)]))]) + RowFrom(info, news, b, p + 1)
              && |RowFrom(info, news, b, p)| == 1 + |RowFrom(info, news, b, p + 1)|
  {
    hide IndexOf;
  }

  lemma {:induction false} TriedUpToGrows(info: Infos, n: nat, m: nat)
    requires n <= m
    ensures |TriedUpTo(info, n)| <= |TriedUpTo(info, m)|
    decreases m
  {
    if n < m {
      TriedUpToGrows(info, n, m - 1);
    }
  }

  lemma BucketWritten(info: Infos, news: Slots, b: int, before: seq<Token>)
    requires 0 <= b < NEW_BUCKET_COUNT
    ensures before + BucketsFrom(info, news, b)
            == before + ([Num(|RowFrom(info, news, b, 0)|)] + RowFrom(info, news, b, 0))
                + BucketsFrom(info, news, b + 1)
  {
    hide RowFrom;
  }

  lemma BucketsEnd(info: Infos, news: Slots, s: seq<Token>)
    ensures s + BucketsFrom(info, news, NEW_BUCKET_COUNT) == s
  {
  }

  lemma SlotsKnown(env: Env, nKey: int, nIdCount: int, info: Infos, addr: Addrs, random: seq<int>, news: Slots,
      tried: Slots, loose: set<int>)
    requires Consistent(env, nKey, nIdCount, info, addr, random, news, tried, loose)
    ensures forall s :: s in news ==> news[s] in info && 0 <= news[s] < nIdCount
  {
    hide GetBucketPosition, AddrsMatch, RandomMatches, TriedMatches, TimesOk, RefsMatch;
  }
}
