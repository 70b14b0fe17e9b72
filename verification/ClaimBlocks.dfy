/** Blocks of claims: entering the queue, leaving it when due or when a name changes hands,
    expiring, and taking a block back. */
module ClaimBlocks {
  import opened ClaimTypes
  import opened NameTree
  import opened PathOps
  import opened Overlay
  import opened Flushing
  import opened TrieHash
  import opened ClaimLedger
  import opened ClaimMoves
  import opened ClaimUndo
  import opened ClaimQueues
  import opened ClaimTracks
  import opened ClaimTries
  import opened ClaimTrieCaches

  const MAX_DELAY := 4032

  lemma EnqueuedInTime(l: Ledger, height: int, lifetime: int, k: Key, c: ClaimValue)
    requires InTime(l, height, lifetime) && height <= c.nValidAtHeight <= c.nHeight + lifetime
    ensures InTime(Enqueued(l, k, c, c.nValidAtHeight), height, lifetime)
  {
  }

  lemma GoneInTime(l: Ledger, height: int, lifetime: int, k: Key)
    requires InTime(l, height, lifetime)
    ensures InTime(Gone(l, k), height, lifetime)
    ensures k !in l.claims ==> Gone(l, k) == l
  {
    if k !in l.claims {
      assert l.claims - {k} == l.claims && l.due - {k} == l.due;
    }
  }

  lemma GoneAlready(b: Books, l: Ledger, lifetime: int, k: Key)
    requires Holds(b, l, lifetime) && k !in l.claims
    ensures Gone(l, k) == l
  {
    hide RowsHold, NamesHold, ExpiriesHold, TrieHolds;
    assert l.claims - {k} == l.claims && l.due - {k} == l.due;
  }

  /** The first entry of the row that is due. */
  lemma DueEntry(b: Books, l: Ledger, lifetime: int, height: int, entry: QueueEntry, rest: seq<QueueEntry>)
    requires Holds(b, l, lifetime) && InTime(l, height, lifetime) && At(b.rows, height) == [entry] + rest
    ensures var k := EntryKey(entry);
            && k in l.due && l.due[k] == height && k in l.claims && l.claims[k] == Plain(entry.claim)
            && entry.claim.nValidAtHeight == height && l.claims[k].nValidAtHeight == height
            && Plain(entry.claim) == l.claims[k].(nValidAtHeight := height)
            && (entry.claim.outPoint, height) in At(b.nameRows, entry.name)
  {
    hide Holds, At;
    RowEntry(b, l, lifetime, height, 0);
    QueuedEntry(b, l, lifetime, EntryKey(entry));
    assert Plain(entry.claim).nValidAtHeight == entry.claim.nValidAtHeight;
  }

  lemma DropFirst(r: Rows, h: int, entry: QueueEntry, rest: seq<QueueEntry>)
    ensures RowsGain(r[h := rest], r[h := [entry] + rest], h, QueueEntry(entry.name, Plain(entry.claim)))
  {
    hide RowsGain;
    var m := r[h := [entry] + rest];
    EraseRow(m, h, 0);
    assert ([entry] + rest)[..0] + ([entry] + rest)[1..] == rest;
    assert m[h := rest] == r[h := rest];
  }

  lemma PromotedInTime(l: Ledger, height: int, lifetime: int, k: Key, valid: int)
    requires InTime(l, height, lifetime) && k in l.due && k in l.claims
    ensures InTime(Promoted(l, k, valid), height, lifetime)
    ensures l.due[k] == valid ==> Promoted(l, k, valid).claims == l.claims
  {
  }

  lemma RipenStart(l: Ledger, height: int)
    ensures Ripening(l, l, height)
  {
  }

  lemma RipenStep(start: Ledger, l: Ledger, height: int, k: Key)
    requires Ripening(start, l, height) && k in l.due && k in l.claims
    requires l.due[k] == height && Promoted(l, k, height).claims == l.claims
    ensures Ripening(start, Promoted(l, k, height), height)
  {
  }

  lemma RipenEnd(b: Books, start: Ledger, l: Ledger, lifetime: int, height: int)
    requires Holds(b, l, lifetime) && Ripening(start, l, height) && At(b.rows, height) == []
    ensures l == Ripened(start, height)
  {
    hide Holds, At;
    forall k | k in l.due
      ensures l.due[k] != height
    {
      QueuedEntry(b, l, lifetime, k);
    }
    assert l.due == Ripened(start, height).due;
  }

  lemma DropFirstOf<V>(r: map<int, seq<V>>, h: int, entry: V, rest: seq<V>)
    ensures Gains(r[h := rest], r[h := [entry] + rest], h, entry)
  {
    hide Gains;
    var m := r[h := [entry] + rest];
    Erase(m, h, 0);
    assert ([entry] + rest)[..0] + ([entry] + rest)[1..] == rest;
    assert m[h := rest] == r[h := rest];
  }

  /** What is in the row that expires is in the trie by now. */
  lemma ExpiringEntry(b: Books, start: Ledger, l: Ledger, lifetime: int, height: int, r: Expiries, entry: Key,
      rest: seq<Key>)
    requires Holds(b, l, lifetime) && Expiring(start, l, height, lifetime) && b.expiries == r[height := [entry] + rest]
    requires forall k :: k in start.due ==> k in start.claims && height < start.claims[k].nHeight + lifetime
    ensures entry in l.claims && entry !in l.due && l.claims[entry].nHeight + lifetime == height
  {
    hide Holds, At;
    AtSet(r, height, [entry] + rest);
    ExpiryEntry(b, l, lifetime, height, 0);
  }

  lemma ExpireStart(l: Ledger, height: int, lifetime: int)
    ensures Expiring(l, l, height, lifetime)
  {
  }

  lemma ExpireStep(start: Ledger, l: Ledger, height: int, lifetime: int, k: Key)
    requires Expiring(start, l, height, lifetime) && k in l.claims && k !in l.due
        && l.claims[k].nHeight + lifetime == height
    ensures Expiring(start, Gone(l, k), height, lifetime)
  {
    assert l.due - {k} == l.due;
  }

  lemma ExpireEnd(b: Books, start: Ledger, l: Ledger, lifetime: int, height: int)
    requires Holds(b, l, lifetime) && Expiring(start, l, height, lifetime) && At(b.expiries, height) == []
    ensures l == Expired(start, height, lifetime)
  {
    hide Holds, At;
    forall k | k in l.claims
      ensures l.claims[k].nHeight + lifetime != height
    {
      Expires(b, l, lifetime, k);
    }
    assert l.claims == Expired(start, height, lifetime).claims;
  }

  /** Another claim id controls than at the start, or none did, or none does. */
  ghost predicate ChangesHands(b: Tree, t: Tree, n: Name)
  {
    || ClaimsAt(b, n) == [] || ClaimsAt(t, n) == []
    || ClaimsAt(b, n)[0].claimId != ClaimsAt(t, n)[0].claimId
  }

  lemma DropFirstNamed<V>(r: map<Name, seq<V>>, n: Name, entry: V, rest: seq<V>)
    ensures Gains(r[n := rest], r[n := [entry] + rest], n, entry)
  {
    hide Gains;
    var m := r[n := [entry] + rest];
    Erase(m, n, 0);
    assert ([entry] + rest)[..0] + ([entry] + rest)[1..] == rest;
    assert m[n := rest] == r[n := rest];
  }

  /** A queued claim is found in the row of its height, with that height. */
  lemma QueuedAt(b: Books, l: Ledger, height: int, lifetime: int, k: Key)
    requires Holds(b, l, lifetime) && InTime(l, height, lifetime) && k in l.due
    ensures exists e ::
        e in At(b.rows, l.due[k]) && e.name == k.0 && e.claim.outPoint == k.1 && e.claim.nValidAtHeight == l.due[k]
  {
    hide Holds, At;
    QueuedEntry(b, l, lifetime, k);
    var i :| 0 <= i < |At(b.rows, l.due[k])| && At(b.rows, l.due[k])[i].name == k.0
        && At(b.rows, l.due[k])[i].claim.outPoint == k.1;
    RowEntry(b, l, lifetime, l.due[k], i);
    var e := At(b.rows, l.due[k])[i];
    assert Plain(e.claim).nValidAtHeight == e.claim.nValidAtHeight;
    assert e in At(b.rows, l.due[k]);
  }

  lemma DrainStart(l: Ledger, name: Name)
    ensures Draining(l, l, name)
  {
  }

  lemma DrainEnd(b: Books, start: Ledger, l: Ledger, lifetime: int, name: Name)
    requires Holds(b, l, lifetime) && Draining(start, l, name) && At(b.nameRows, name) == []
    ensures Drained(start, l, {name})
  {
    hide Holds, At;
    forall k | k in l.due
      ensures k.0 != name
    {
      QueuedEntry(b, l, lifetime, k);
    }
  }

  lemma TakeoverKnown(required: bool, heights: map<Name, int>, b: Tree, name: Name)
    ensures ClaimsAt(b, name) != [] ==> TakeoverIn(required, heights, b, name).Some?
  {
  }

  /** The takeover height of one name is the current height, if it holds claims; all others
      are as they were. */
  ghost predicate Stamped(before: map<Name, int>, after: map<Name, int>, t: Tree, name: Name, height: int)
  {
    && (after == before || after == before[name := height])
    && (ClaimsAt(t, name) != [] ==> after == before[name := height])
  }

  ghost function ChangingHands(b: Tree, t: Tree, names: set<Name>): set<Name>
  {
    set n | n in names && ChangesHands(b, t, n)
  }

  lemma ChangingNext(b: Tree, t: Tree, names: set<Name>, left: set<Name>, name: Name)
    requires left <= names && name in left
    ensures name !in ChangingHands(b, t, names - left)
    ensures ChangingHands(b, t, names - (left - {name}))
            == ChangingHands(b, t, names - left) + if ChangesHands(b, t, name) then {name} else {}
  {
    hide ChangesHands;
  }

  /** What taking over some names does: none of their claims waits any more, those that hold
      claims have the current height, the heights before are noted, and nothing else changes. */
  ghost predicate Taken(b: Tree, mid: Tree, t: Tree, before: Ledger, l: Ledger, required: bool,
      heightsBefore: map<Name, int>, heights: map<Name, int>, undo: seq<(Name, int)>, taken: set<Name>, height: int)
  {
    && Drained(before, l, taken)
    && (forall n :: n !in taken ==> ClaimsAt(t, n) == ClaimsAt(mid, n))
    && StampedAll(t, heightsBefore, heights, taken, height)
    && HeightsNoted(b, required, heightsBefore, undo, taken)
  }

  /** Taken names that hold claims have the height, and all other heights stay. */
  ghost predicate StampedAll(t: Tree, heightsBefore: map<Name, int>, heights: map<Name, int>, taken: set<Name>,
      height: int)
  {
    && (forall n ::
        n !in taken ==> (n in heights <==> n in heightsBefore) && (n in heights ==> heights[n] == heightsBefore[n]))
    && (forall n :: n in taken && ClaimsAt(t, n) != [] ==> n in heights && heights[n] == height)
    && (forall n :: n in heightsBefore ==> n in heights)
    && (forall n :: n in heights ==> heights[n] == height || (n in heightsBefore && heights[n] == heightsBefore[n]))
  }

  lemma StampedStep(t: Tree, u: Tree, heightsBefore: map<Name, int>, heights: map<Name, int>,
      heights': map<Name, int>, taken: set<Name>, height: int, name: Name)
    requires StampedAll(t, heightsBefore, heights, taken, height) && Stamped(heights, heights', u, name, height)
    requires SameOthers(t, u, name) && name !in taken
    ensures StampedAll(u, heightsBefore, heights', taken + {name}, height)
  {
    hide ClaimsAt;
  }

  lemma NothingTaken(b: Tree, mid: Tree, l: Ledger, required: bool, heights: map<Name, int>, names: set<Name>,
      height: int)
    ensures ChangingHands(b, mid, names - names) == {}
    ensures Taken(b, mid, mid, l, l, required, heights, heights, [], {}, height)
  {
  }

  lemma TakenOthers(b: Tree, mid: Tree, t: Tree, before: Ledger, l: Ledger, required: bool,
      heightsBefore: map<Name, int>, heights: map<Name, int>, undo: seq<(Name, int)>, taken: set<Name>, height: int,
          name: Name)
    requires Taken(b, mid, t, before, l, required, heightsBefore, heights, undo, taken, height) && name !in taken
    ensures ChangesHands(b, t, name) <==> ChangesHands(b, mid, name)
  {
    hide ClaimsAt;
  }

  lemma NotedStep(b: Tree, t: Tree, required: bool, heightsBefore: map<Name, int>, heights: map<Name, int>,
                  undo: seq<(Name, int)>, noted: seq<(Name, int)>, taken: set<Name>, height: int, name: Name)
    requires name !in taken && StampedAll(t, heightsBefore, heights, taken, height)
    requires HeightsNoted(b, required, heightsBefore, undo, taken)
    requires ClaimsAt(b, name) != [] ==> TakeoverIn(required, heights, b, name).Some?
    requires noted == if ClaimsAt(b, name) != [] then [(name, TakeoverIn(required, heights, b, name).value)] else []
    ensures HeightsNoted(b, required, heightsBefore, undo + noted, taken + {name})
  {
    hide ClaimsAt;
    assert TakeoverIn(required, heights, b, name) == TakeoverIn(required, heightsBefore, b, name);
    hide TakeoverIn, StampedAll;
    forall p: (Name, int)
      ensures p in undo + noted
              <==> p.0 in taken + {name} && ClaimsAt(b, p.0) != []
                   && TakeoverIn(required, heightsBefore, b, p.0) == Some(p.1)
    {
      assert p in undo + noted <==> p in undo || p in noted;
      assert p.0 == name ==> (p == (name, p.1));
    }
  }

  lemma TakenStep(b: Tree, mid: Tree, t: Tree, u: Tree, before: Ledger, l: Ledger, m: Ledger, required: bool,
                  heightsBefore: map<Name, int>, heights: map<Name, int>, heights': map<Name, int>,
                  undo: seq<(Name, int)>, noted: seq<(Name, int)>, taken: set<Name>, height: int, name: Name)
    requires Taken(b, mid, t, before, l, required, heightsBefore, heights, undo, taken, height) && name !in taken
    requires Drained(l, m, {name}) && Stamped(heights, heights', u, name, height)
    requires SameOthers(t, u, name)
    requires ClaimsAt(b, name) != [] ==> TakeoverIn(required, heights, b, name).Some?
    requires noted == if ClaimsAt(b, name) != [] then [(name, TakeoverIn(required, heights, b, name).value)] else []
    ensures Taken(b, mid, u, before, m, required, heightsBefore, heights', undo + noted, taken + {name}, height)
  {
    hide ClaimsAt, StampedAll, Stamped, HeightsNoted, TakeoverIn;
    StampedStep(t, u, heightsBefore, heights, heights', taken, height, name);
    NotedStep(b, t, required, heightsBefore, heights, undo, noted, taken, height, name);
  }

  ghost predicate NoneAfter(required: bool, heights: map<Name, int>, b: Tree, height: int)
  {
    forall n ::
        TakeoverIn(required, heights, b, n).Some? && required ==> TakeoverIn(required, heights, b, n).value <= height
  }

  /** What is noted for an undo is the takeover height before of every taken name that held
      claims when the block began. */
  ghost predicate HeightsNoted(b: Tree, required: bool, heightsBefore: map<Name, int>, undo: seq<(Name, int)>,
      taken: set<Name>)
  {
    forall p ::
        p in undo
        <==> p.0 in taken && ClaimsAt(b, p.0) != [] && TakeoverIn(required, heightsBefore, b, p.0) == Some(p.1)
  }

  lemma InTimeEnough(l: Ledger, height: int, lifetime: int)
    requires InTime(l, height, lifetime)
    ensures l.due.Keys <= l.claims.Keys
    ensures var r := Ripened(l, height);
            && (forall k :: k in r.due ==> k in r.claims && height < r.claims[k].nHeight + lifetime)
            && InTime(Expired(r, height, lifetime), height + 1, lifetime)
  {
  }

  /** Names to look at are complete: no other name that holds or held claims changes hands. */
  lemma WatchedChanges(b: Tree, mid: Tree, names: set<Name>)
    requires Watched(b, mid, names)
    ensures forall n :: ChangesHands(b, mid, n) && (ClaimsAt(b, n) != [] || ClaimsAt(mid, n) != []) ==>
              n in ChangingHands(b, mid, names)
  {
    hide ClaimsAt;
  }

  lemma TakenMeans(b: Tree, mid: Tree, t: Tree, start: Ledger, l: Ledger, m: Ledger, lifetime: int, required: bool,
                   heightsBefore: map<Name, int>, heights: map<Name, int>, undo: seq<(Name, int)>, taken: set<Name>,
                       height: int, watched: bool)
    requires Taken(b, mid, t, l, m, required, heightsBefore, heights, undo, taken, height)
    requires l == Expired(Ripened(start, height), height, lifetime) && NoneAfter(required, heightsBefore, b, height)
    requires watched ==> AllTaken(b, mid, taken)
    requires start.due.Keys <= start.claims.Keys
    ensures forall k :: k in m.claims <==> k in start.claims && start.claims[k].nHeight + lifetime != height
    ensures forall k :: k in m.due <==> k in start.due && start.due[k] != height && k.0 !in taken
    ensures watched ==> AllTaken(b, t, taken)
    ensures forall n ::
        n in taken && ClaimsAt(t, n) != [] && required ==> TakeoverIn(required, heights, b, n) == Some(height)
    ensures forall n :: n !in taken ==> TakeoverIn(required, heights, b, n) == TakeoverIn(required, heightsBefore, b, n)
    ensures HeightsNoted(b, required, heightsBefore, undo, taken) && NoneAfter(required, heights, b, height + 1)
  {
    hide ClaimsAt;
    assert l.claims.Keys == m.claims.Keys;
    forall n | required
      ensures TakeoverIn(required, heights, b, n).Some? ==> TakeoverIn(required, heights, b, n).value <= height
    {
      assert TakeoverIn(required, heightsBefore, b, n).Some?
          ==> TakeoverIn(required, heightsBefore, b, n).value <= height;
    }
  }

  /** Every name that holds or held claims and has another controlling claim id was taken. */
  ghost predicate AllTaken(b: Tree, t: Tree, taken: set<Name>)
  {
    forall n :: ChangesHands(b, t, n) && (ClaimsAt(b, n) != [] || ClaimsAt(t, n) != []) ==> n in taken
  }

  /** A new takeover height is the one of the block. */
  ghost predicate OnlyStamped(before: map<Name, int>, after: map<Name, int>, height: int)
  {
    forall n :: n in after ==> after[n] == height || (n in before && after[n] == before[n])
  }

  /** Where ids and outpoints are unique, the front claims of a trie control. */
  ghost predicate FrontsIn(t: Tree, supports: map<Name, seq<SupportValue>>)
  {
    forall n :: UniqueClaims(ClaimsAt(t, n)) ==>
                  FrontControls(ClaimsAt(t, n), if n in supports then supports[n] else [])
  }

  /** Only names that change hands are taken over, and no other gets other claims. */
  ghost predicate TakenOver(b: Tree, mid: Tree, t: Tree, taken: set<Name>)
  {
    && (forall n :: n in taken ==> ChangesHands(b, mid, n))
    && (forall n :: n !in taken ==> ClaimsAt(t, n) == ClaimsAt(mid, n))
  }

  /** The id of the claim in front, if there is one. */
  ghost function FrontId(t: Tree, n: Name): Option<int>
  {
    if ClaimsAt(t, n) == [] then None else Some(ClaimsAt(t, n)[0].claimId)
  }

  /** Which names these are, in terms of the claims in front: those whose id is another one, and
      those that had none or have none left. */
  lemma TakenByFront(b: Tree, mid: Tree, t: Tree, taken: set<Name>)
    requires TakenOver(b, mid, t, taken) && AllTaken(b, mid, taken)
    ensures forall n :: FrontId(b, n).Some? && FrontId(mid, n).Some? ==>
              (n in taken <==> FrontId(b, n) != FrontId(mid, n))
    ensures forall n :: FrontId(b, n).Some? != FrontId(mid, n).Some? ==> n in taken
  {
    hide ClaimsAt;
  }

  lemma TakenOnly(b: Tree, mid: Tree, t: Tree, before: Ledger, l: Ledger, required: bool,
      heightsBefore: map<Name, int>, heights: map<Name, int>, undo: seq<(Name, int)>, taken: set<Name>, height: int,
      names: set<Name>)
    requires Taken(b, mid, t, before, l, required, heightsBefore, heights, undo, taken, height)
    requires taken == ChangingHands(b, mid, names)
    ensures TakenOver(b, mid, t, taken) && OnlyStamped(heightsBefore, heights, height)
  {
    hide ClaimsAt, HeightsNoted;
  }

  lemma MidTrie(v: TrieView, w: TrieView, b: Books, l: Ledger, lifetime: int)
    requires Carries(v, w) && Holds(b, l, lifetime) && w.Trie() == b.trie
    ensures InTrieThen(b.trie, l) && (Controls(v) ==> FrontsIn(b.trie, w.supports))
  {
    hide Tracks, Watches, HashesHold, UniqueClaims, FrontControls, ClaimsAt, RowsHold, NamesHold, ExpiriesHold,
        TrieHolds, Shown;
    forall n
      ensures w.SupportsOf(n) == if n in w.supports then w.supports[n] else []
    {
    }
  }

  lemma TakenMarked(v: TrieView, w: TrieView, x: TrieView, b: Tree, t: Tree, taken: set<Name>)
    requires Carries(v, w) && HashesHold(v) && Settles(w, x) && taken == ChangingHands(b, t, w.names)
    ensures forall n :: n in taken ==> Prefixes(n) <= x.dirty
  {
    hide HashesHold, Settles, Prefixes, ChangesHands, Tracks, Watches, Controls;
    MarkedStill(w, x, taken);
  }

  lemma TracksOn(v: TrieView, w: TrieView)
    requires Carries(v, w) && Tracks(v)
    ensures Tracks(w)
  {
  }

  lemma WatchesOn(v: TrieView, w: TrieView)
    requires Carries(v, w) && Watches(v)
    ensures w.base == v.base && AllTaken(w.base, w.Trie(), ChangingHands(w.base, w.Trie(), w.names))
  {
    hide ClaimsAt, ChangesHands, ChangingHands, Shown, Watched, Tracks, HashesHold, Controls;
    WatchedChanges(w.base, w.Trie(), w.names);
  }

  ghost predicate HeightsRestored(before: map<Name, int>, after: map<Name, int>, undo: seq<(Name, int)>)
  {
    && (forall p :: p in undo ==> p.0 in after && after[p.0] == p.1)
    && (forall n :: n in before ==> n in after)
    && (forall n :: n in after ==> (n in before && after[n] == before[n]) || (n, after[n]) in undo)
  }

  lemma RestoreStep(before: map<Name, int>, after: map<Name, int>, undo: seq<(Name, int)>, i: nat)
    requires i < |undo| && HeightsRestored(before, after, undo[..i])
    requires forall p, q :: p in undo && q in undo && p.0 == q.0 ==> p.1 == q.1
    ensures HeightsRestored(before, after[undo[i].0 := undo[i].1], undo[..i + 1])
  {
    assert undo[..i + 1] == undo[..i] + [undo[i]];
    assert forall p :: p in undo[..i] ==> p in undo;
    var n := undo[i].0;
    assert (n, undo[i].1) == undo[i];
  }

  lemma NotedOnce(b: Tree, required: bool, heightsBefore: map<Name, int>, undo: seq<(Name, int)>, taken: set<Name>)
    requires HeightsNoted(b, required, heightsBefore, undo, taken)
    ensures forall p, q :: p in undo && q in undo && p.0 == q.0 ==> p.1 == q.1
  {
    hide TakeoverIn, ClaimsAt;
  }

  lemma UndoFits(start: Ledger, l: Ledger, inserts: seq<InsertUndo>, expiries: seq<QueueEntry>, height: int,
      lifetime: int)
    requires InTime(start, height, lifetime) && Recorded(start, l, inserts, expiries, height)
    requires forall k :: k in l.claims <==> k in start.claims && start.claims[k].nHeight + lifetime != height
    ensures var goal := Rewound(start, l, height);
            && Undoing(goal, l, inserts, expiries) && goal.due.Keys <= goal.claims.Keys
            && goal.due == start.due && goal.claims.Keys == start.claims.Keys
            && forall e :: e in expiries ==> e.claim.nHeight + lifetime == height
  {
    forall e | e in expiries
      ensures e.claim.nHeight + lifetime == height
    {
      assert Plain(e.claim).nHeight == e.claim.nHeight;
    }
  }

  lemma HeightsComeBack(b: Tree, required: bool, h0: map<Name, int>, h1: map<Name, int>, h2: map<Name, int>,
                        undo: seq<(Name, int)>, taken: set<Name>)
    requires HeightsNoted(b, required, h0, undo, taken) && HeightsRestored(h1, h2, undo)
    requires forall n :: n !in taken ==> TakeoverIn(required, h1, b, n) == TakeoverIn(required, h0, b, n)
    ensures forall n :: ClaimsAt(b, n) != [] ==> TakeoverIn(required, h2, b, n) == TakeoverIn(required, h0, b, n)
  {
    forall n | ClaimsAt(b, n) != []
      ensures TakeoverIn(required, h2, b, n) == TakeoverIn(required, h0, b, n)
    {
      TakeoverKnown(required, h0, b, n);
      if n in taken {
        assert (n, TakeoverIn(required, h0, b, n).value) in undo;
      } else if n in h2 {
        assert (n, h2[n]) !in undo;
      }
    }
  }

  lemma EnteredInTime(l: Ledger, height: int, lifetime: int, k: Key, c: ClaimValue)
    requires InTime(l, height, lifetime) && k !in l.claims && height <= c.nHeight + lifetime
    ensures InTime(Entered(l, k, c), height, lifetime)
  {
  }

  /** A claim has left the queues or the trie and is still listed to expire. */
  ghost predicate TakenFrom(before: Books, b: Books, l: Ledger, k: Key)
  {
    && k in l.claims && b.expiries == before.expiries
    && if k in l.due then
         && b.trie == before.trie
         && RowsGain(b.rows, before.rows, l.due[k], QueueEntry(k.0, l.claims[k]))
         && Gains(b.nameRows, before.nameRows, k.0, (k.1, l.due[k]))
       else b.rows == before.rows && b.nameRows == before.nameRows && TrieGains(b.trie, before.trie, k.0, l.claims[k])
  }

  lemma OrderlyBooks(b: Books, l: Ledger, lifetime: int, v: TrieView, name: Name)
    requires Holds(b, l, lifetime) && UniqueIds(l) && Controls(v) && v.Trie() == b.trie
    ensures Orderly(v, name)
  {
    hide Holds, ClaimsAt, UniqueClaims, FrontControls, UniqueIds, Shown;
    UniqueInTrie(b, l, lifetime, name);
  }

  /** The books a base keeps. */
  ghost function BooksOf(base: ClaimTrie): Books
    reads base
  {
    Books(base.queueRows, base.queueNameRows, base.expirationRows, base.nodes)
  }

  lemma SameBooksFlushed(b: Books, c: Books, l: Ledger, lifetime: int)
    requires Holds(b, l, lifetime) && c.rows == b.rows && c.nameRows == b.nameRows && c.expiries == b.expiries
    requires SameContent(b.trie, c.trie)
    ensures Holds(c, l, lifetime)
  {
    hide Holds;
    HoldsReordered(b, c, l, lifetime);
  }

  /** The queues of the claim trie cache, next to its trie. */
  class ClaimQueueCache {
    const trie: ClaimTrieCache
    var claimQueueCache: Rows
    var claimQueueNameCache: NameRows
    var expirationQueueCache: Expiries
    var nCurrentHeight: int
    /** Where every claim is. */
    ghost var ledger: Ledger

    constructor (trie: ClaimTrieCache, ghost ledger: Ledger)
      requires trie.Valid() && trie.cache == map[] && trie.blockOriginals == map[] && trie.cacheTakeoverHeights == map[]
      requires trie.dirtyHashes == {} && trie.cacheHashes == map[] && trie.namesToCheckForTakeover == {}
      requires Holds(Books(trie.base.queueRows, trie.base.queueNameRows, trie.base.expirationRows, trie.base.nodes),
          ledger, trie.base.nExpirationTime)
      requires InTime(ledger, trie.base.nCurrentHeight, trie.base.nExpirationTime)
      requires MAX_DELAY <= trie.base.nExpirationTime && 0 < trie.base.nProportionalDelayFactor
      requires forall n :: n in trie.base.nodes ==> trie.base.nodes[n].nHeightOfLastTakeover <= trie.base.nCurrentHeight
      ensures this.trie == trie && this.ledger == ledger && nCurrentHeight == trie.base.nCurrentHeight && Valid()
      ensures Tracks(Snapshot()) && Watches(Snapshot())
      ensures HashesRight(trie.base.hash, trie.Heights(), trie.base.nodes) ==> HashesHold(Snapshot())
    {
      hide Holds, InTime, Closed, Linked, Live, View, Shown, Pruned, IsMakeHeap, HashesRight, HashesHold, Tracks,
          Watches, HeightsIn;
      this.trie, this.ledger, nCurrentHeight := trie, ledger, trie.base.nCurrentHeight;
      claimQueueCache, claimQueueNameCache, expirationQueueCache := map[], map[], map[];
      new;
      FreshCache(trie.base.nodes);
      assert QueueRows() == trie.base.queueRows && QueueNameRows() == trie.base.queueNameRows;
      assert ExpirationRows() == trie.base.expirationRows;
      FreshSnapshot();
    }

    lemma FreshSnapshot()
      requires trie.Valid() && trie.cache == map[] && trie.blockOriginals == map[]
      requires trie.dirtyHashes == {} && trie.cacheHashes == map[] && trie.namesToCheckForTakeover == {}
      ensures Tracks(Snapshot()) && Watches(Snapshot())
      ensures HashesRight(trie.base.hash, trie.Heights(), trie.base.nodes) ==> HashesHold(Snapshot())
    {
      hide Closed, Pruned, IsMakeHeap, Shown, HashesRight, Tracks, Watches, HashesHold;
      FreshView(Snapshot());
    }

    function Lifetime(): int
    {
      trie.base.nExpirationTime
    }

    function QueueRows(): Rows
      reads this`claimQueueCache, trie.base
    {
      trie.base.queueRows + claimQueueCache
    }

    function QueueNameRows(): NameRows
      reads this`claimQueueNameCache, trie.base
    {
      trie.base.queueNameRows + claimQueueNameCache
    }

    function ExpirationRows(): Expiries
      reads this`expirationQueueCache, trie.base
    {
      trie.base.expirationRows + expirationQueueCache
    }

    ghost function Current(): Books
      reads this`claimQueueCache, this`claimQueueNameCache, this`expirationQueueCache, trie`cache, trie.base
    {
      Books(QueueRows(), QueueNameRows(), ExpirationRows(), trie.Trie())
    }

    ghost predicate Valid()
      reads this, trie, trie.base
    {
      && trie.Valid()
      && Holds(Current(), ledger, Lifetime())
      && InTime(ledger, nCurrentHeight, Lifetime())
      && MAX_DELAY <= Lifetime() && 0 < trie.base.nProportionalDelayFactor
      && HeightsPassed()
    }

    /** No takeover lies in the future. */
    ghost predicate HeightsPassed()
      reads this`nCurrentHeight, trie, trie.base
    {
      NoneAfter(trie.fRequireTakeoverHeights, trie.cacheTakeoverHeights, trie.base.nodes, nCurrentHeight)
    }

    // ---------- rows of the cache ----------

    method GetQueueCacheRow(nHeight: int, createIfNotExists: bool) returns (found: bool)
      modifies this`claimQueueCache
      ensures found <==> nHeight in claimQueueCache
      ensures found ==> claimQueueCache[nHeight] == At(old(QueueRows()), nHeight)
      ensures !found ==> !createIfNotExists && At(old(QueueRows()), nHeight) == []
      ensures !createIfNotExists ==> QueueRows() == old(QueueRows())
      ensures createIfNotExists ==> QueueRows() == old(QueueRows())[nHeight := At(old(QueueRows()), nHeight)]
    {
      hide At;
      LoadedRow(trie.base.queueRows, claimQueueCache, nHeight, createIfNotExists);
      claimQueueCache := Loaded(trie.base.queueRows, claimQueueCache, nHeight, createIfNotExists);
      return nHeight in claimQueueCache;
    }

    method GetQueueCacheNameRow(name: Name, createIfNotExists: bool) returns (found: bool)
      modifies this`claimQueueNameCache
      ensures found <==> name in claimQueueNameCache
      ensures found ==> claimQueueNameCache[name] == At(old(QueueNameRows()), name)
      ensures !found ==> !createIfNotExists && At(old(QueueNameRows()), name) == []
      ensures !createIfNotExists ==> QueueNameRows() == old(QueueNameRows())
      ensures createIfNotExists ==> QueueNameRows() == old(QueueNameRows())[name := At(old(QueueNameRows()), name)]
    {
      hide At;
      LoadedRow(trie.base.queueNameRows, claimQueueNameCache, name, createIfNotExists);
      claimQueueNameCache := Loaded(trie.base.queueNameRows, claimQueueNameCache, name, createIfNotExists);
      return name in claimQueueNameCache;
    }

    method GetExpirationQueueCacheRow(nHeight: int, createIfNotExists: bool) returns (found: bool)
      modifies this`expirationQueueCache
      ensures found <==> nHeight in expirationQueueCache
      ensures nHeight in old(ExpirationRows()) ==> found
      ensures found ==> expirationQueueCache[nHeight] == At(old(ExpirationRows()), nHeight)
      ensures !found ==> !createIfNotExists && At(old(ExpirationRows()), nHeight) == []
      ensures !createIfNotExists ==> ExpirationRows() == old(ExpirationRows())
      ensures createIfNotExists
          ==> ExpirationRows() == old(ExpirationRows())[nHeight := At(old(ExpirationRows()), nHeight)]
    {
      hide At;
      LoadedRow(trie.base.expirationRows, expirationQueueCache, nHeight, createIfNotExists);
      expirationQueueCache := Loaded(trie.base.expirationRows, expirationQueueCache, nHeight, createIfNotExists);
      return nHeight in expirationQueueCache;
    }

    method PushQueue(nHeight: int, entry: QueueEntry)
      modifies this`claimQueueCache
      ensures RowsGain(old(QueueRows()), QueueRows(), nHeight, QueueEntry(entry.name, Plain(entry.claim)))
    {
      hide At, RowsGain;
      AppendRow(QueueRows(), nHeight, entry);
      SetTwice(QueueRows(), nHeight, At(QueueRows(), nHeight), At(QueueRows(), nHeight) + [entry]);
      var found := GetQueueCacheRow(nHeight, true);
      SetRow(trie.base.queueRows, claimQueueCache, nHeight, claimQueueCache[nHeight] + [entry]);
      claimQueueCache := claimQueueCache[nHeight := claimQueueCache[nHeight] + [entry]];
    }

    method PushQueueName(name: Name, outPoint: OutPoint, nHeight: int)
      modifies this`claimQueueNameCache
      ensures Gains(old(QueueNameRows()), QueueNameRows(), name, (outPoint, nHeight))
    {
      hide At, Gains;
      Append(QueueNameRows(), name, (outPoint, nHeight));
      SetTwice(QueueNameRows(), name, At(QueueNameRows(), name), At(QueueNameRows(), name) + [(outPoint, nHeight)]);
      var found := GetQueueCacheNameRow(name, true);
      SetRow(trie.base.queueNameRows, claimQueueNameCache, name, claimQueueNameCache[name] + [(outPoint, nHeight)]);
      claimQueueNameCache := claimQueueNameCache[name := claimQueueNameCache[name] + [(outPoint, nHeight)]];
    }

    method AddToExpirationQueue(nExpirationHeight: int, entry: Key)
      modifies this`expirationQueueCache
      ensures Gains(old(ExpirationRows()), ExpirationRows(), nExpirationHeight, entry)
    {
      hide At, Gains;
      Append(ExpirationRows(), nExpirationHeight, entry);
      SetTwice(ExpirationRows(), nExpirationHeight, At(ExpirationRows(), nExpirationHeight),
          At(ExpirationRows(), nExpirationHeight) + [entry]);
      var found := GetExpirationQueueCacheRow(nExpirationHeight, true);
      SetRow(trie.base.expirationRows, expirationQueueCache, nExpirationHeight,
          expirationQueueCache[nExpirationHeight] + [entry]);
      expirationQueueCache := expirationQueueCache[nExpirationHeight := expirationQueueCache[nExpirationHeight]
          + [entry]];
    }

    /** Takes an entry out of the row for a height. */
    method EraseQueue(nHeight: int, i: nat)
      requires nHeight in claimQueueCache && i < |claimQueueCache[nHeight]|
      modifies this`claimQueueCache
      ensures var e := old(claimQueueCache[nHeight][i]);
              RowsGain(QueueRows(), old(QueueRows()), nHeight, QueueEntry(e.name, Plain(e.claim)))
    {
      hide RowsGain;
      EraseRow(QueueRows(), nHeight, i);
      SetRow(trie.base.queueRows, claimQueueCache, nHeight,
          claimQueueCache[nHeight][..i] + claimQueueCache[nHeight][i + 1..]);
      claimQueueCache := claimQueueCache[nHeight := claimQueueCache[nHeight][..i] + claimQueueCache[nHeight][i + 1..]];
    }

    method EraseQueueName(name: Name, i: nat)
      requires name in claimQueueNameCache && i < |claimQueueNameCache[name]|
      modifies this`claimQueueNameCache
      ensures Gains(QueueNameRows(), old(QueueNameRows()), name, old(claimQueueNameCache[name][i]))
    {
      hide Gains;
      Erase(QueueNameRows(), name, i);
      SetRow(trie.base.queueNameRows, claimQueueNameCache, name,
                claimQueueNameCache[name][..i] + claimQueueNameCache[name][i + 1..]);
      claimQueueNameCache := claimQueueNameCache[name := claimQueueNameCache[name][..i]
          + claimQueueNameCache[name][i + 1..]];
    }

    method EraseExpiration(nHeight: int, i: nat)
      requires nHeight in expirationQueueCache && i < |expirationQueueCache[nHeight]|
      modifies this`expirationQueueCache
      ensures Gains(ExpirationRows(), old(ExpirationRows()), nHeight, old(expirationQueueCache[nHeight][i]))
    {
      hide Gains;
      Erase(ExpirationRows(), nHeight, i);
      SetRow(trie.base.expirationRows, expirationQueueCache, nHeight,
                expirationQueueCache[nHeight][..i] + expirationQueueCache[nHeight][i + 1..]);
      expirationQueueCache := expirationQueueCache[nHeight := expirationQueueCache[nHeight][..i]
          + expirationQueueCache[nHeight][i + 1..]];
    }

    // ---------- claims entering ----------

    method AddClaimToQueues(name: Name, claim: ClaimValue) returns (ok: bool)
      requires trie.Valid() && Holds(Current(), ledger, Lifetime()) && (name, claim.outPoint) !in ledger.claims
      modifies this
      ensures ok && trie.Valid() && Holds(Current(), ledger, Lifetime()) && nCurrentHeight == old(nCurrentHeight)
      ensures ledger == Enqueued(old(ledger), (name, claim.outPoint), claim, claim.nValidAtHeight)
      ensures old(Valid()) && nCurrentHeight <= claim.nValidAtHeight <= claim.nHeight + Lifetime() ==> Valid()
    {
      hide ClaimTrieCache.Valid, ClaimTrieCache.Trie, Holds, InTime, RowsGain, Gains, At;
      ghost var before := Current();
      PushQueue(claim.nValidAtHeight, QueueEntry(name, claim));
      PushQueueName(name, claim.outPoint, claim.nValidAtHeight);
      AddToExpirationQueue(claim.nHeight + Lifetime(), (name, claim.outPoint));
      HoldsEnqueued(before, Current(), ledger, Lifetime(), (name, claim.outPoint), claim, claim.nValidAtHeight);
      if InTime(ledger, nCurrentHeight, Lifetime())
          && nCurrentHeight <= claim.nValidAtHeight <= claim.nHeight + Lifetime() {
        EnqueuedInTime(ledger, nCurrentHeight, Lifetime(), (name, claim.outPoint), claim);
      }
      ledger := Enqueued(ledger, (name, claim.outPoint), claim, claim.nValidAtHeight);
      return true;
    }

    /** The claim that controlled a name when the block began. */
    function GetOriginalInfoForName(name: Name): (info: Option<ClaimValue>)
      reads trie, trie.base
      ensures Remembers(trie.base.nodes, trie.cache, trie.blockOriginals) ==>
                (info.Some? <==> ClaimsAt(trie.base.nodes, name) != [])
                && (info.Some? ==> Plain(info.value) == Plain(ClaimsAt(trie.base.nodes, name)[0]))
    {
      if name in trie.blockOriginals then
        if trie.blockOriginals[name].claims == [] then None else Some(trie.blockOriginals[name].claims[0])
      else if name in trie.base.nodes && trie.base.nodes[name].claims != [] then Some(trie.base.nodes[name].claims[0])
      else None
    }

    /** For a name pruned out of the cache the base is asked. */
    function GetNumBlocksOfContinuousOwnership(name: Name): int
      reads this, trie, trie.base
    {
      var node := if name in trie.cache then Some(trie.cache[name])
                  else if name in trie.base.nodes then Some(trie.base.nodes[name]) else None;
      if node == None || node.value.claims == [] || trie.TakeoverOf(name) == None then 0
      else nCurrentHeight - trie.TakeoverOf(name).value
    }

    function GetDelayForName(name: Name): (delay: int)
      requires 0 < trie.base.nProportionalDelayFactor
      reads this, trie, trie.base
      ensures HeightsPassed() ==> 0 <= delay <= MAX_DELAY
      ensures !trie.fRequireTakeoverHeights ==> delay == 0
      ensures trie.fRequireTakeoverHeights ==>
                var claims := if name in trie.cache then trie.cache[name].claims else ClaimsAt(trie.base.nodes, name);
                var takeover := trie.TakeoverOf(name);
                if claims == [] || takeover == None then delay == 0
                else
                  var blocks := (nCurrentHeight - takeover.value) / trie.base.nProportionalDelayFactor;
                  delay == if blocks > 4032 then 4032 else blocks
    {
      if !trie.fRequireTakeoverHeights then 0
      else
        var delay := GetNumBlocksOfContinuousOwnership(name) / trie.base.nProportionalDelayFactor;
        if MAX_DELAY < delay then MAX_DELAY else delay
    }

    /** A new claim has to wait in proportion to how long the name has been held, but not
        if it updates the claim that held it when the block began. */
    method AddClaim(name: Name, outPoint: OutPoint, claimId: int, nAmount: int, nHeight: int) returns (ok: bool)
      requires Valid() && (name, outPoint) !in ledger.claims && nCurrentHeight <= nHeight
      modifies this
      ensures ok && Valid() && nCurrentHeight == old(nCurrentHeight)
      ensures var original := GetOriginalInfoForName(name);
              var delay := if original.Some? && original.value.claimId == claimId then 0
                  else old(GetDelayForName(name));
              && 0 <= delay <= MAX_DELAY
              && ledger == Enqueued(old(ledger), (name, outPoint),
                                    ClaimValue(outPoint, claimId, nAmount, 0, nHeight, nHeight + delay),
                                        nHeight + delay)
    {
      hide ClaimTrieCache.Valid, Holds, At, InTime, ClaimQueueCache.GetOriginalInfoForName,
          ClaimQueueCache.GetDelayForName, ClaimQueueCache.Current, ClaimQueueCache.HeightsPassed;
      var delayForClaim;
      var currentClaim := GetOriginalInfoForName(name);
      if currentClaim.Some? && currentClaim.value.claimId == claimId {
        delayForClaim := 0;
      } else {
        delayForClaim := GetDelayForName(name);
      }
      ok := AddClaimToQueues(name, ClaimValue(outPoint, claimId, nAmount, 0, nHeight, nHeight + delayForClaim));
    }

    // ---------- claims leaving ----------

    /** Takes a claim out of the queue rows, if it is queued. */
    method RemoveClaimFromQueue(name: Name, outPoint: OutPoint) returns (claim: Option<ClaimValue>)
      requires Holds(Current(), ledger, Lifetime())
      modifies this`claimQueueCache, this`claimQueueNameCache
      ensures claim.Some? <==> (name, outPoint) in ledger.due
      ensures claim == None ==> Current() == old(Current())
      ensures claim.Some? ==> var k := (name, outPoint);
              && k in ledger.claims && claim.value.outPoint == outPoint && Plain(claim.value) == ledger.claims[k]
              && RowsGain(QueueRows(), old(QueueRows()), ledger.due[k], QueueEntry(name, ledger.claims[k]))
              && Gains(QueueNameRows(), old(QueueNameRows()), name, (outPoint, ledger.due[k]))
    {
      hide Holds, RowsGain, Gains, At;
      ghost var k, before := (name, outPoint), Current();
      if k in ledger.due {
        QueuedEntry(before, ledger, Lifetime(), k);
      }
      var found := GetQueueCacheNameRow(name, false);
      if !found {
        return None;
      }
      var j := FindNamed(claimQueueNameCache[name], outPoint);
      if j == |claimQueueNameCache[name]| {
        return None;
      }
      var nHeight := claimQueueNameCache[name][j].1;
      NameEntry(before, ledger, Lifetime(), name, j);
      found := GetQueueCacheRow(nHeight, false);
      if found {
        var i := FindQueued(claimQueueCache[nHeight], name, outPoint, None);
        if i < |claimQueueCache[nHeight]| {
          QueueFound(before, ledger, Lifetime(), k, j, i);
          claim := Some(claimQueueCache[nHeight][i].claim);
          EraseQueueName(name, j);
          EraseQueue(nHeight, i);
          return claim;
        }
      }
      return None;
    }

    // ---------- the trie under the queues ----------

    /** All of the trie and its base but the queues. */
    ghost function Snapshot(): (v: TrieView)
      reads trie, trie.base
    {
      TrieView(trie.base.hash, trie.heap, trie.base.supports, trie.fRequireTakeoverHeights, trie.base.nodes,
          trie.cacheHashes, trie.cacheTakeoverHeights, trie.cache, trie.blockOriginals, trie.dirtyHashes,
                   trie.namesToCheckForTakeover)
    }

    /** Even a removal that finds nothing leaves the block with what it has to know; where the
        front claim controls it also leaves the names to look at complete. */
    method TakeOut(name: Name, outPoint: OutPoint, fCheckTakeover: bool) returns (claim: Option<ClaimValue>)
      requires trie.Valid()
      modifies trie`cache, trie`blockOriginals, trie`dirtyHashes, trie`namesToCheckForTakeover
      ensures trie.Valid()
      ensures var claims := old(ClaimsAt(trie.Trie(), name));
              && (claim.Some? <==> FindOutPoint(claims, outPoint) < |claims|)
              && (claim.Some? ==> claim.value == claims[FindOutPoint(claims, outPoint)])
      ensures claim.Some? ==> TrieGains(trie.Trie(), old(trie.Trie()), name, Plain(claim.value))
      ensures claim == None ==> forall n ::
          ClaimBag(ClaimsAt(trie.Trie(), n)) == ClaimBag(ClaimsAt(old(trie.Trie()), n))
      ensures fCheckTakeover && (claim.Some? || Orderly(old(Snapshot()), name)) ==> Carries(old(Snapshot()), Snapshot())
      ensures fCheckTakeover && Tracks(old(Snapshot())) ==> Tracks(Snapshot())
      ensures !fCheckTakeover && claim.Some? ==> Undoes(old(Snapshot()), Snapshot())
    {
      hide ClaimTrieCache.Trie, ClaimTrieCache.HashValid, IsMakeHeap, Lays, Closed, Pruned, Remembers, TrieGains,
          ClaimBag, FindOutPoint, ClaimsAt, AfterRemove, StillCached, UniqueClaims, FrontControls, TopChanged, Prefixes,
          Carries, Tracks, Removes, Orderly, Undoes;
      ghost var v := Snapshot();
      RemoveLoses(trie.heap, trie.base.SupportNode(name), trie.Trie(), name, outPoint);
      var ok;
      ok, claim := Remove(name, outPoint, fCheckTakeover);
      if fCheckTakeover {
        if ok || Orderly(v, name) {
          RemoveCarries(v, Snapshot(), name, outPoint, ok);
        }
        if Tracks(v) {
          RemoveTracks(v, Snapshot(), name, outPoint, ok);
        }
      } else if ok {
        RemoveUndoes(v, Snapshot(), name, outPoint);
      }
    }

    /** A removal from the trie, as a change of its view. */
    method Remove(name: Name, outPoint: OutPoint, fCheckTakeover: bool) returns (ok: bool, claim: Option<ClaimValue>)
      requires trie.Valid()
      modifies trie`cache, trie`blockOriginals, trie`dirtyHashes, trie`namesToCheckForTakeover
      ensures trie.Valid()
      ensures trie.Trie() == AfterRemove(trie.heap, trie.base.SupportNode(name), old(trie.Trie()), name, outPoint)
      ensures var before := ClaimsAt(old(trie.Trie()), name);
              && (ok <==> FindOutPoint(before, outPoint) < |before|)
              && claim == (if ok then Some(before[FindOutPoint(before, outPoint)]) else None)
      ensures Removes(old(Snapshot()), Snapshot(), name, outPoint, ok, fCheckTakeover)
    {
      hide ClaimTrieCache.Trie, IsMakeHeap, Lays, Closed, Pruned, Remembers, FindOutPoint, ClaimsAt, AfterRemove,
          StillCached, UniqueClaims, FrontControls, TopChanged, Prefixes, HashInv, HeightsIn;
      TrieIsShown();
      ok, claim := trie.RemoveClaimFromTrie(name, outPoint, fCheckTakeover);
      TrieIsShown();
    }

    lemma CurrentTrie()
      ensures Current().trie == trie.Trie()
    {
      hide ClaimTrieCache.Trie;
    }

    lemma TrieIsShown()
      ensures Snapshot().Trie() == trie.Trie()
      ensures forall n :: Snapshot().SupportsOf(n) == trie.base.SupportNode(n)
    {
    }

    method PutIn(name: Name, claim: ClaimValue, fCheckTakeover: bool)
      requires trie.Valid()
      modifies trie`cache, trie`blockOriginals, trie`dirtyHashes, trie`namesToCheckForTakeover
      ensures trie.Valid()
      ensures TrieGains(old(trie.Trie()), trie.Trie(), name, Plain(claim))
      ensures SameOthers(old(trie.Trie()), trie.Trie(), name)
      ensures name in trie.cache
      ensures if fCheckTakeover then Carries(old(Snapshot()), Snapshot()) else Keeps(old(Snapshot()), Snapshot())
      ensures !fCheckTakeover ==> Undoes(old(Snapshot()), Snapshot())
    {
      hide ClaimTrieCache.Trie, ClaimTrieCache.HashValid, IsMakeHeap, Lays, Closed, Pruned, Remembers, TrieGains,
          AfterInsert, ClaimsAt, TopChanged, Prefixes, Carries, Keeps, Inserts, Undoes;
      ghost var v := Snapshot();
      InsertGains(trie.heap, trie.base.SupportNode(name), trie.Trie(), name, claim);
      InsertOthers(trie.heap, trie.base.SupportNode(name), trie.Trie(), name, claim);
      Enter(name, claim, fCheckTakeover);
      if fCheckTakeover {
        InsertCarries(v, Snapshot(), name, claim);
      } else {
        InsertKeeps(v, Snapshot(), name, claim);
        InsertUndoes(v, Snapshot(), name, claim);
      }
    }

    /** An insertion into the trie, as a change of its view. */
    method Enter(name: Name, claim: ClaimValue, fCheckTakeover: bool)
      requires trie.Valid()
      modifies trie`cache, trie`blockOriginals, trie`dirtyHashes, trie`namesToCheckForTakeover
      ensures trie.Valid() && name in trie.cache
      ensures trie.Trie() == AfterInsert(trie.heap, trie.base.SupportNode(name), old(trie.Trie()), name, claim)
      ensures Inserts(old(Snapshot()), Snapshot(), name, claim, fCheckTakeover)
    {
      hide ClaimTrieCache.Trie, IsMakeHeap, Lays, Closed, Pruned, Remembers, AfterInsert, ClaimsAt, TopChanged,
          Prefixes, HashInv, HeightsIn;
      TrieIsShown();
      var ok := trie.InsertClaimIntoTrie(name, claim, fCheckTakeover);
      TrieIsShown();
    }

    /** Takes a claim's own entry out of the row it expires in. Without that row the original
        would go on with an iterator it never set. */
    method RemoveFromExpirationQueue(name: Name, outPoint: OutPoint, nHeight: int)
      requires nHeight + Lifetime() in ExpirationRows()
      modifies this`expirationQueueCache
      ensures if (name, outPoint) in At(old(ExpirationRows()), nHeight + Lifetime())
              then Gains(ExpirationRows(), old(ExpirationRows()), nHeight + Lifetime(), (name, outPoint))
              else ExpirationRows() == old(ExpirationRows())
    {
      hide Gains, At;
      var expirationHeight := nHeight + Lifetime();
      var found := GetExpirationQueueCacheRow(expirationHeight, false);
      var i := IndexOf(expirationQueueCache[expirationHeight], (name, outPoint));
      if i < |expirationQueueCache[expirationHeight]| {
        EraseExpiration(expirationHeight, i);
      }
    }

    /** The books once a claim that was queued, or one that was in the trie, is gone. */
    method CloseAccount(k: Key, ghost before: Books, nHeight: int)
      requires Holds(before, ledger, Lifetime()) && k in ledger.claims && nHeight == ledger.claims[k].nHeight
      requires TakenFrom(before, Current(), ledger, k)
      modifies this`expirationQueueCache, this`ledger
      ensures ledger == Gone(old(ledger), k) && Holds(Current(), ledger, Lifetime())
    {
      hide Holds, RowsGain, Gains, TrieGains, ClaimTrieCache.Trie, At;
      Expires(before, ledger, Lifetime(), k);
      RowThere(ExpirationRows(), nHeight + Lifetime(), k);
      RemoveFromExpirationQueue(k.0, k.1, nHeight);
      if k in ledger.due {
        HoldsSpentFromQueue(before, Current(), ledger, Lifetime(), k);
      } else {
        HoldsSpentFromTrie(before, Current(), ledger, Lifetime(), k);
      }
      ledger := Gone(ledger, k);
    }

    /** Takes a claim out of a trie whose books are in order. */
    method TakeFromBooks(name: Name, outPoint: OutPoint, fCheckTakeover: bool) returns (claim: Option<ClaimValue>)
      requires trie.Valid() && Holds(Current(), ledger, Lifetime())
      modifies trie`cache, trie`blockOriginals, trie`dirtyHashes, trie`namesToCheckForTakeover
      ensures trie.Valid()
      ensures var claims := old(ClaimsAt(trie.Trie(), name));
              && (claim.Some? <==> FindOutPoint(claims, outPoint) < |claims|)
              && (claim.Some? ==> claim.value == claims[FindOutPoint(claims, outPoint)])
      ensures claim.Some? ==> TrieGains(trie.Trie(), old(trie.Trie()), name, Plain(claim.value))
      ensures claim == None ==> forall n ::
          ClaimBag(ClaimsAt(trie.Trie(), n)) == ClaimBag(ClaimsAt(old(trie.Trie()), n))
      ensures fCheckTakeover && Tracks(old(Snapshot())) ==> Tracks(Snapshot())
      ensures fCheckTakeover && (claim.Some? || (UniqueIds(ledger) && Controls(old(Snapshot())))) ==>
                Carries(old(Snapshot()), Snapshot())
      ensures !fCheckTakeover && claim.Some? ==> Undoes(old(Snapshot()), Snapshot())
    {
      hide Holds, TrieGains, ClaimTrieCache.Trie, ClaimTrieCache.Valid, FindOutPoint, ClaimsAt, ClaimBag, Carries,
          Tracks, Orderly, Controls, UniqueIds, Undoes, ClaimQueueCache.Snapshot;
      TrieIsShown();
      if UniqueIds(ledger) && Controls(Snapshot()) {
        OrderlyBooks(Current(), ledger, Lifetime(), Snapshot(), name);
      }
      claim := TakeOut(name, outPoint, fCheckTakeover);
    }

    /** Takes a claim out of the queue or the trie, but not yet out of the row it expires in. */
    method TakeAnywhere(name: Name, outPoint: OutPoint, fCheckTakeover: bool) returns (claim: Option<ClaimValue>)
      requires trie.Valid() && Holds(Current(), ledger, Lifetime())
      modifies this`claimQueueCache, this`claimQueueNameCache,
               trie`cache, trie`blockOriginals, trie`dirtyHashes, trie`namesToCheckForTakeover
      ensures trie.Valid() && (claim.Some? <==> (name, outPoint) in ledger.claims)
      ensures claim.Some? ==> Plain(claim.value) == ledger.claims[(name, outPoint)]
                              && TakenFrom(old(Current()), Current(), ledger, (name, outPoint))
      ensures claim == None ==> Holds(Current(), ledger, Lifetime())
      ensures fCheckTakeover && Tracks(old(Snapshot())) ==> Tracks(Snapshot())
      ensures fCheckTakeover && (claim.Some? || (UniqueIds(ledger) && Controls(old(Snapshot())))) ==>
                Carries(old(Snapshot()), Snapshot())
      ensures !fCheckTakeover && claim.Some? ==> Undoes(old(Snapshot()), Snapshot())
    {
      hide Holds, RowsGain, Gains, TrieGains, ClaimTrieCache.Trie, ClaimTrieCache.Valid, FindOutPoint, ClaimsAt,
          ClaimBag, Carries, Tracks, Controls, UniqueIds, Undoes, ClaimQueueCache.Snapshot;
      ghost var before := Current();
      CarriesSelf(Snapshot());
      UndoesSelf(Snapshot());
      claim := RemoveClaimFromQueue(name, outPoint);
      if claim == None {
        InTrie(before, ledger, Lifetime(), (name, outPoint));
        claim := TakeFromBooks(name, outPoint, fCheckTakeover);
        if claim == None {
          HoldsReordered(before, Current(), ledger, Lifetime());
        }
      }
    }

    /** A claim is removed from wherever it is; the height given has to be its own. */
    method RemoveClaim(name: Name, outPoint: OutPoint, nHeight: int, fCheckTakeover: bool)
      returns (removed: bool, nValidAtHeight: int)
      requires trie.Valid() && Holds(Current(), ledger, Lifetime())
      requires (name, outPoint) in ledger.claims ==> nHeight == ledger.claims[(name, outPoint)].nHeight
      modifies this, trie`cache, trie`blockOriginals, trie`dirtyHashes, trie`namesToCheckForTakeover
      ensures trie.Valid() && Holds(Current(), ledger, Lifetime()) && nCurrentHeight == old(nCurrentHeight)
      ensures old(Valid()) ==> Valid()
      ensures removed <==> (name, outPoint) in old(ledger).claims
      ensures ledger == Gone(old(ledger), (name, outPoint))
      ensures removed ==> nValidAtHeight == old(ledger).claims[(name, outPoint)].nValidAtHeight
      ensures fCheckTakeover && Tracks(old(Snapshot())) ==> Tracks(Snapshot())
      ensures fCheckTakeover && (removed || (UniqueIds(old(ledger)) && Controls(old(Snapshot())))) ==>
                Carries(old(Snapshot()), Snapshot())
      ensures !fCheckTakeover && removed ==> Undoes(old(Snapshot()), Snapshot())
    {
      hide Holds, TakenFrom, ClaimTrieCache.Trie, ClaimTrieCache.Valid, Carries, Tracks, Controls, UniqueIds, Undoes,
          ClaimQueueCache.Snapshot, ClaimQueueCache.Current;
      ghost var k, before := (name, outPoint), Current();
      if InTime(ledger, nCurrentHeight, Lifetime()) {
        GoneInTime(ledger, nCurrentHeight, Lifetime(), k);
      }
      var claim := TakeAnywhere(name, outPoint, fCheckTakeover);
      if claim == None {
        GoneAlready(Current(), ledger, Lifetime(), k);
        ledger := Gone(ledger, k);
        return false, 0;
      }
      CloseAccount((name, outPoint), before, nHeight);
      return true, claim.value.nValidAtHeight;
    }

    /** Brings a spent claim back: into the trie if it was valid already, else into the queue. */
    method UndoSpendClaim(name: Name, claim: ClaimValue) returns (ok: bool)
      requires trie.Valid() && Holds(Current(), ledger, Lifetime()) && (name, claim.outPoint) !in ledger.claims
      modifies this, trie`cache, trie`blockOriginals, trie`dirtyHashes, trie`namesToCheckForTakeover
      ensures ok && trie.Valid() && Holds(Current(), ledger, Lifetime()) && nCurrentHeight == old(nCurrentHeight)
      ensures old(Valid()) && nCurrentHeight <= claim.nHeight + Lifetime()
              && claim.nValidAtHeight <= claim.nHeight + Lifetime() ==>
                Valid()
      ensures Undoes(old(Snapshot()), Snapshot())
      ensures var k := (name, claim.outPoint);
              ledger == if claim.nValidAtHeight < nCurrentHeight then Entered(old(ledger), k, claim)
                        else Enqueued(old(ledger), k, claim, claim.nValidAtHeight)
    {
      hide Holds, Gains, TrieGains, ClaimTrieCache.Trie, At, ClaimTrieCache.Valid, ClaimsAt, Keeps, Undoes,
          ClaimQueueCache.Snapshot, InTime;
      UndoesSelf(Snapshot());
      if claim.nValidAtHeight < nCurrentHeight {
        ghost var before := Current();
        if InTime(ledger, nCurrentHeight, Lifetime()) && nCurrentHeight <= claim.nHeight + Lifetime() {
          EnteredInTime(ledger, nCurrentHeight, Lifetime(), (name, claim.outPoint), claim);
        }
        AddToExpirationQueue(claim.nHeight + Lifetime(), (name, claim.outPoint));
        PutIn(name, claim, false);
        HoldsEntered(before, Current(), ledger, Lifetime(), (name, claim.outPoint), claim);
        ledger := Entered(ledger, (name, claim.outPoint), claim);
        return true;
      }
      ok := AddClaimToQueues(name, claim);
    }

    // ---------- a block: claims that are due ----------

    /** Takes the entry of a claim out of its name row. */
    method EraseNamed(name: Name, outPoint: OutPoint, nHeight: int) returns (found: bool)
      requires (outPoint, nHeight) in At(QueueNameRows(), name)
      modifies this`claimQueueNameCache
      ensures found && Gains(QueueNameRows(), old(QueueNameRows()), name, (outPoint, nHeight))
    {
      hide Gains, At;
      found := GetQueueCacheNameRow(name, false);
      if found {
        var i := IndexOf(claimQueueNameCache[name], (outPoint, nHeight));
        found := i < |claimQueueNameCache[name]|;
        if found {
          EraseQueueName(name, i);
        }
      }
    }

    /** One entry of the row that is due: it leaves its name row and enters the trie. */
    method MatureOne(entry: QueueEntry, ghost rest: seq<QueueEntry>) returns (found: bool)
      requires trie.Valid() && InTime(ledger, nCurrentHeight, Lifetime())
      requires Holds(Current().(rows := QueueRows()[nCurrentHeight := [entry] + rest]), ledger, Lifetime())
      modifies this`claimQueueNameCache, this`ledger, trie`cache, trie`blockOriginals, trie`dirtyHashes,
          trie`namesToCheckForTakeover
      ensures found && trie.Valid()
      ensures var k := EntryKey(entry);
              && k in old(ledger).due && old(ledger).due[k] == nCurrentHeight && k in old(ledger).claims
              && entry.claim.nValidAtHeight == nCurrentHeight && ledger == Promoted(old(ledger), k, nCurrentHeight)
      ensures Holds(Current().(rows := QueueRows()[nCurrentHeight := rest]), ledger, Lifetime())
      ensures Carries(old(Snapshot()), Snapshot())
    {
      hide Holds, RowsGain, Gains, TrieGains, ClaimTrieCache.Trie, At, ClaimTrieCache.Valid, ClaimsAt, Carries,
          ClaimQueueCache.Snapshot;
      ghost var k := EntryKey(entry);
      ghost var pending := Current().(rows := QueueRows()[nCurrentHeight := [entry] + rest]);
      AtSet(QueueRows(), nCurrentHeight, [entry] + rest);
      DueEntry(pending, ledger, Lifetime(), nCurrentHeight, entry, rest);
      found := EraseNamed(entry.name, entry.claim.outPoint, nCurrentHeight);
      if !found {
        return false;
      }
      PutIn(entry.name, entry.claim, true);
      DropFirst(QueueRows(), nCurrentHeight, entry, rest);
      HoldsPromoted(pending, Current().(rows := QueueRows()[nCurrentHeight := rest]), ledger, Lifetime(), k,
          nCurrentHeight);
      ledger := Promoted(ledger, k, nCurrentHeight);
    }

    /** All entries of the row that is due now, which is in the cache, enter the trie in order. */
    method MatureAll(ghost start: Ledger) returns (found: bool, insertUndo: seq<InsertUndo>)
      requires Valid() && ledger == start && nCurrentHeight in claimQueueCache
      modifies this`claimQueueNameCache, this`ledger,
               trie`cache, trie`blockOriginals, trie`dirtyHashes, trie`namesToCheckForTakeover
      ensures found && trie.Valid() && InTime(ledger, nCurrentHeight, Lifetime())
      ensures Holds(Current().(rows := QueueRows()[nCurrentHeight := []]), ledger, Lifetime())
      ensures Ripening(start, ledger, nCurrentHeight)
      ensures Recorded(start, ledger, insertUndo, [], nCurrentHeight)
      ensures Carries(old(Snapshot()), Snapshot())
    {
      hide Holds, InTime, Recorded, Ripening, Ripened, ClaimTrieCache.Trie, At, ClaimTrieCache.Valid, Carries,
          ClaimQueueCache.Snapshot;
      insertUndo := [];
      CarriesSelf(Snapshot());
      RipenStart(ledger, nCurrentHeight);
      NothingRecorded(ledger, nCurrentHeight);
      var row := claimQueueCache[nCurrentHeight];
      SetSame(QueueRows(), nCurrentHeight, row);
      assert row[0..] == row;
      for i := 0 to |row|
        invariant trie.Valid() && InTime(ledger, nCurrentHeight, Lifetime())
        invariant Holds(Current().(rows := QueueRows()[nCurrentHeight := row[i..]]), ledger, Lifetime())
        invariant Recorded(start, ledger, insertUndo, [], nCurrentHeight)
        invariant Ripening(start, ledger, nCurrentHeight)
        invariant Carries(old(Snapshot()), Snapshot())
      {
        assert [row[i]] + row[i + 1..] == row[i..];
        ghost var l, v := ledger, Snapshot();
        found := MatureOne(row[i], row[i + 1..]);
        CarriesOn(old(Snapshot()), v, Snapshot());
        if !found {
          return false, insertUndo;
        }
        PromotedInTime(l, nCurrentHeight, Lifetime(), EntryKey(row[i]), nCurrentHeight);
        RipenStep(start, l, nCurrentHeight, EntryKey(row[i]));
        RecordPromotion(start, l, insertUndo, [], nCurrentHeight, EntryKey(row[i]));
        insertUndo := insertUndo + [InsertUndo(row[i].name, row[i].claim.outPoint, row[i].claim.nValidAtHeight)];
      }
      assert row[|row|..] == [];
      return true, insertUndo;
    }

    method DropQueueRow()
      requires Holds(Current().(rows := QueueRows()[nCurrentHeight := []]), ledger, Lifetime())
      modifies this`claimQueueCache
      ensures Holds(Current(), ledger, Lifetime()) && At(QueueRows(), nCurrentHeight) == []
    {
      hide Holds, At, ClaimTrieCache.Trie;
      SetRow(trie.base.queueRows, claimQueueCache, nCurrentHeight, []);
      AtSet(QueueRows(), nCurrentHeight, []);
      claimQueueCache := claimQueueCache[nCurrentHeight := []];
    }

    /** The row for the current height goes into the trie. */
    method MatureRow(ghost start: Ledger) returns (ok: bool, insertUndo: seq<InsertUndo>)
      requires Valid() && ledger == start
      modifies this`claimQueueCache, this`claimQueueNameCache, this`ledger,
               trie`cache, trie`blockOriginals, trie`dirtyHashes, trie`namesToCheckForTakeover
      ensures ok && trie.Valid() && Holds(Current(), ledger, Lifetime())
      ensures ledger == Ripened(start, nCurrentHeight)
      ensures Recorded(start, ledger, insertUndo, [], nCurrentHeight)
      ensures Carries(old(Snapshot()), Snapshot())
    {
      hide Holds, InTime, Recorded, Ripening, Ripened, ClaimTrieCache.Trie, At, ClaimTrieCache.Valid, Carries,
          ClaimQueueCache.Snapshot;
      insertUndo := [];
      CarriesSelf(Snapshot());
      RipenStart(ledger, nCurrentHeight);
      NothingRecorded(ledger, nCurrentHeight);
      var found := GetQueueCacheRow(nCurrentHeight, false);
      if found {
        found, insertUndo := MatureAll(start);
        if !found {
          return false, insertUndo;
        }
        DropQueueRow();
      }
      RipenEnd(Current(), start, ledger, Lifetime(), nCurrentHeight);
      return true, insertUndo;
    }

    // ---------- a block: claims that expire ----------

    method ExpireOne(entry: Key, ghost rest: seq<Key>) returns (claim: Option<ClaimValue>)
      requires trie.Valid() && entry !in ledger.due
      requires Holds(Current().(expiries := ExpirationRows()[nCurrentHeight := [entry] + rest]), ledger, Lifetime())
      modifies this`ledger, trie`cache, trie`blockOriginals, trie`dirtyHashes, trie`namesToCheckForTakeover
      ensures trie.Valid() && claim.Some? && claim.value.outPoint == entry.1
      ensures entry in old(ledger).claims && Plain(claim.value) == old(ledger).claims[entry]
      ensures old(ledger).claims[entry].nHeight + Lifetime() == nCurrentHeight && ledger == Gone(old(ledger), entry)
      ensures Holds(Current().(expiries := ExpirationRows()[nCurrentHeight := rest]), ledger, Lifetime())
      ensures Carries(old(Snapshot()), Snapshot())
    {
      hide Holds, Gains, TrieGains, ClaimTrieCache.Trie, At, ClaimTrieCache.Valid, ClaimsAt, FindOutPoint, ClaimBag,
          Carries, Tracks, Orderly, ClaimQueueCache.Snapshot;
      ghost var pending := Current().(expiries := ExpirationRows()[nCurrentHeight := [entry] + rest]);
      AtSet(ExpirationRows(), nCurrentHeight, [entry] + rest);
      ExpiryEntry(pending, ledger, Lifetime(), nCurrentHeight, 0);
      InTrie(pending, ledger, Lifetime(), entry);
      claim := TakeOut(entry.0, entry.1, true);
      DropFirstOf(ExpirationRows(), nCurrentHeight, entry, rest);
      HoldsSpentFromTrie(pending, Current().(expiries := ExpirationRows()[nCurrentHeight := rest]), ledger, Lifetime(),
          entry);
      ledger := Gone(ledger, entry);
    }

    /** All entries of the row that expires now, which is in the cache, leave in order. */
    method ExpireAll(ghost start: Ledger, ghost insertUndo: seq<InsertUndo>)
        returns (found: bool, expireUndo: seq<QueueEntry>)
      requires trie.Valid() && Holds(Current(), ledger, Lifetime())
      requires forall k ::
          k in ledger.due ==> k in ledger.claims && nCurrentHeight < ledger.claims[k].nHeight + Lifetime()
      requires Recorded(start, ledger, insertUndo, [], nCurrentHeight) && nCurrentHeight in expirationQueueCache
      modifies this`ledger, trie`cache, trie`blockOriginals, trie`dirtyHashes, trie`namesToCheckForTakeover
      ensures found && trie.Valid()
      ensures Holds(Current().(expiries := ExpirationRows()[nCurrentHeight := []]), ledger, Lifetime())
      ensures Expiring(old(ledger), ledger, nCurrentHeight, Lifetime())
      ensures Recorded(start, ledger, insertUndo, expireUndo, nCurrentHeight)
      ensures Carries(old(Snapshot()), Snapshot())
    {
      hide Holds, Recorded, Expiring, Expired, ClaimTrieCache.Trie, At, ClaimTrieCache.Valid, Carries,
          ClaimQueueCache.Snapshot;
      expireUndo := [];
      CarriesSelf(Snapshot());
      ExpireStart(ledger, nCurrentHeight, Lifetime());
      var row := expirationQueueCache[nCurrentHeight];
      SetSame(ExpirationRows(), nCurrentHeight, row);
      assert row[0..] == row;
      for i := 0 to |row|
        invariant trie.Valid()
        invariant Holds(Current().(expiries := ExpirationRows()[nCurrentHeight := row[i..]]), ledger, Lifetime())
        invariant Recorded(start, ledger, insertUndo, expireUndo, nCurrentHeight)
        invariant Expiring(old(ledger), ledger, nCurrentHeight, Lifetime())
        invariant Carries(old(Snapshot()), Snapshot())
      {
        assert [row[i]] + row[i + 1..] == row[i..];
        ghost var l, v := ledger, Snapshot();
        ExpiringEntry(Current().(expiries := ExpirationRows()[nCurrentHeight := row[i..]]), old(ledger), l, Lifetime(),
            nCurrentHeight, ExpirationRows(), row[i], row[i + 1..]);
        var claim := ExpireOne(row[i], row[i + 1..]);
        CarriesOn(old(Snapshot()), v, Snapshot());
        if claim == None {
          return false, expireUndo;
        }
        ExpireStep(old(ledger), l, nCurrentHeight, Lifetime(), row[i]);
        RecordExpiry(start, l, insertUndo, expireUndo, nCurrentHeight, row[i], claim.value);
        expireUndo := expireUndo + [QueueEntry(row[i].0, claim.value)];
      }
      assert row[|row|..] == [];
      return true, expireUndo;
    }

    method DropExpirationRow()
      requires Holds(Current().(expiries := ExpirationRows()[nCurrentHeight := []]), ledger, Lifetime())
      modifies this`expirationQueueCache
      ensures Holds(Current(), ledger, Lifetime()) && At(ExpirationRows(), nCurrentHeight) == []
    {
      hide Holds, At, ClaimTrieCache.Trie;
      SetRow(trie.base.expirationRows, expirationQueueCache, nCurrentHeight, []);
      AtSet(ExpirationRows(), nCurrentHeight, []);
      expirationQueueCache := expirationQueueCache[nCurrentHeight := []];
    }

    /** What is in the row that expires now leaves the trie. */
    method ExpireRow(ghost start: Ledger, ghost insertUndo: seq<InsertUndo>)
        returns (ok: bool, expireUndo: seq<QueueEntry>)
      requires trie.Valid() && Holds(Current(), ledger, Lifetime())
      requires forall k ::
          k in ledger.due ==> k in ledger.claims && nCurrentHeight < ledger.claims[k].nHeight + Lifetime()
      requires Recorded(start, ledger, insertUndo, [], nCurrentHeight)
      modifies this`expirationQueueCache, this`ledger,
               trie`cache, trie`blockOriginals, trie`dirtyHashes, trie`namesToCheckForTakeover
      ensures ok && trie.Valid() && Holds(Current(), ledger, Lifetime())
      ensures ledger == Expired(old(ledger), nCurrentHeight, Lifetime())
      ensures Recorded(start, ledger, insertUndo, expireUndo, nCurrentHeight)
      ensures Carries(old(Snapshot()), Snapshot())
    {
      hide Holds, Recorded, Expiring, Expired, ClaimTrieCache.Trie, At, ClaimTrieCache.Valid, Carries,
          ClaimQueueCache.Snapshot;
      expireUndo := [];
      CarriesSelf(Snapshot());
      ExpireStart(ledger, nCurrentHeight, Lifetime());
      var found := GetExpirationQueueCacheRow(nCurrentHeight, false);
      if found {
        found, expireUndo := ExpireAll(start, insertUndo);
        if !found {
          return false, expireUndo;
        }
        DropExpirationRow();
      }
      ExpireEnd(Current(), old(ledger), ledger, Lifetime(), nCurrentHeight);
      return true, expireUndo;
    }

    // ---------- a block: names that change hands ----------

    /** Whether a name has another controlling claim id than when the block began, or had or
        has none. */
    method TakeoverHappened(name: Name) returns (takeoverHappened: bool, haveClaimInTrie: bool)
      requires trie.Valid() && Tracks(Snapshot()) && name in trie.namesToCheckForTakeover
      ensures takeoverHappened <==> ChangesHands(trie.base.nodes, trie.Trie(), name)
      ensures haveClaimInTrie <==> ClaimsAt(trie.base.nodes, name) != []
    {
      hide IsMakeHeap, Closed, Pruned, Linked, Live, Shown, View, Remembers, Watched,
          ClaimQueueCache.GetOriginalInfoForName, Lays;
      ShownClosed(trie.base.nodes, trie.cache);
      TrieIsShown();
      assert Remembers(trie.base.nodes, trie.cache, trie.blockOriginals);
      var claimInCache := None;
      if name in trie.cache && trie.cache[name].claims != [] {
        claimInCache := Some(trie.cache[name].claims[0]);
      }
      var claimInTrie := GetOriginalInfoForName(name);
      takeoverHappened := false;
      if claimInTrie == None {
        takeoverHappened := true;
      } else if claimInCache == None {
        takeoverHappened := true;
      } else if Plain(claimInCache.value) != Plain(claimInTrie.value) {
        if claimInCache.value.claimId != claimInTrie.value.claimId {
          takeoverHappened := true;
        }
      }
      haveClaimInTrie := claimInTrie.Some?;
    }

    /** The found row entry of a queued claim becomes a claim of the trie. */
    method PromoteClaim(name: Name, entry: (OutPoint, int), ghost rest: seq<(OutPoint, int)>, i: nat)
      requires trie.Valid() && entry.1 in claimQueueCache && i < |claimQueueCache[entry.1]|
      requires Holds(Current().(nameRows := QueueNameRows()[name := [entry] + rest]), ledger, Lifetime())
      requires var k := (name, entry.0); var e := claimQueueCache[entry.1][i];
               && k in ledger.due && ledger.due[k] == entry.1 && k in ledger.claims
               && e.name == name && Plain(e.claim) == ledger.claims[k]
      modifies this`claimQueueCache, this`ledger, trie`cache, trie`blockOriginals, trie`dirtyHashes,
          trie`namesToCheckForTakeover
      ensures trie.Valid() && ledger == Promoted(old(ledger), (name, entry.0), nCurrentHeight)
      ensures Holds(Current().(nameRows := QueueNameRows()[name := rest]), ledger, Lifetime())
      ensures SameOthers(old(trie.Trie()), trie.Trie(), name)
      ensures Keeps(old(Snapshot()), Snapshot()) && name in trie.cache
    {
      hide Holds, RowsGain, Gains, TrieGains, ClaimTrieCache.Trie, At, ClaimTrieCache.Valid, ClaimsAt, Keeps,
          ClaimQueueCache.Snapshot;
      ghost var k, pending := (name, entry.0), Current().(nameRows := QueueNameRows()[name := [entry] + rest]);
      var claim := claimQueueCache[entry.1][i].claim.(nValidAtHeight := nCurrentHeight);
      PutIn(name, claim, false);
      EraseQueue(entry.1, i);
      DropFirstNamed(QueueNameRows(), name, entry, rest);
      HoldsPromoted(pending, Current().(nameRows := QueueNameRows()[name := rest]), ledger, Lifetime(), k,
          nCurrentHeight);
      ledger := Promoted(ledger, k, nCurrentHeight);
    }

    /** One queued claim of a name that changes hands enters the trie at once. */
    method PromoteOne(name: Name, entry: (OutPoint, int), ghost rest: seq<(OutPoint, int)>) returns (found: bool)
      requires trie.Valid() && InTime(ledger, nCurrentHeight + 1, Lifetime())
      requires Holds(Current().(nameRows := QueueNameRows()[name := [entry] + rest]), ledger, Lifetime())
      modifies this`claimQueueCache, this`ledger, trie`cache, trie`blockOriginals, trie`dirtyHashes,
          trie`namesToCheckForTakeover
      ensures found && trie.Valid()
      ensures var k := (name, entry.0);
              && k in old(ledger).due && old(ledger).due[k] == entry.1 && k in old(ledger).claims
              && ledger == Promoted(old(ledger), k, nCurrentHeight)
      ensures Holds(Current().(nameRows := QueueNameRows()[name := rest]), ledger, Lifetime())
      ensures SameOthers(old(trie.Trie()), trie.Trie(), name)
      ensures Keeps(old(Snapshot()), Snapshot()) && name in trie.cache
    {
      hide Holds, ClaimTrieCache.Trie, At, ClaimTrieCache.Valid, ClaimsAt, Keeps, ClaimQueueCache.Snapshot;
      ghost var k, pending := (name, entry.0), Current().(nameRows := QueueNameRows()[name := [entry] + rest]);
      AtSet(QueueNameRows(), name, [entry] + rest);
      NameEntry(pending, ledger, Lifetime(), name, 0);
      QueuedAt(pending, ledger, nCurrentHeight + 1, Lifetime(), k);
      found := GetQueueCacheRow(entry.1, false);
      if !found {
        return false;
      }
      var i := FindQueued(claimQueueCache[entry.1], name, entry.0, Some(entry.1));
      if i == |claimQueueCache[entry.1]| {
        return false;
      }
      RowEntry(pending, ledger, Lifetime(), entry.1, i);
      PromoteClaim(name, entry, rest, i);
    }

    /** One step of draining a name, with what is recorded of it. */
    method DrainOne(name: Name, entry: (OutPoint, int), ghost rest: seq<(OutPoint, int)>, insertUndoIn: seq<InsertUndo>,
                    ghost before: Ledger, ghost start: Ledger, ghost expireUndo: seq<QueueEntry>)
      returns (found: bool, insertUndo: seq<InsertUndo>)
      requires trie.Valid() && InTime(ledger, nCurrentHeight + 1, Lifetime()) && Draining(before, ledger, name)
      requires Holds(Current().(nameRows := QueueNameRows()[name := [entry] + rest]), ledger, Lifetime())
      requires Recorded(start, ledger, insertUndoIn, expireUndo, nCurrentHeight)
      modifies this`claimQueueCache, this`ledger, trie`cache, trie`blockOriginals, trie`dirtyHashes,
          trie`namesToCheckForTakeover
      ensures found && trie.Valid() && InTime(ledger, nCurrentHeight + 1, Lifetime()) && Draining(before, ledger, name)
      ensures Holds(Current().(nameRows := QueueNameRows()[name := rest]), ledger, Lifetime())
      ensures Recorded(start, ledger, insertUndo, expireUndo, nCurrentHeight)
      ensures SameOthers(old(trie.Trie()), trie.Trie(), name)
      ensures Keeps(old(Snapshot()), Snapshot()) && name in trie.cache
    {
      hide Holds, InTime, Recorded, ClaimTrieCache.Trie, ClaimTrieCache.Valid, ClaimsAt, ClaimQueueCache.Snapshot,
          Keeps, ClaimQueueCache.Current;
      ghost var l := ledger;
      found := PromoteOne(name, entry, rest);
      if !found {
        return false, insertUndoIn;
      }
      PromotedInTime(l, nCurrentHeight + 1, Lifetime(), (name, entry.0), nCurrentHeight);
      RecordPromotion(start, l, insertUndoIn, expireUndo, nCurrentHeight, (name, entry.0));
      insertUndo := insertUndoIn + [InsertUndo(name, entry.0, entry.1)];
    }

    /** All entries of the name's row, which is in the cache, ripen in order. */
    method DrainRow(name: Name, insertUndoIn: seq<InsertUndo>, ghost start: Ledger, ghost expireUndo: seq<QueueEntry>)
      returns (found: bool, insertUndo: seq<InsertUndo>)
      requires trie.Valid() && Holds(Current(), ledger, Lifetime()) && InTime(ledger, nCurrentHeight + 1, Lifetime())
      requires Recorded(start, ledger, insertUndoIn, expireUndo, nCurrentHeight) && name in claimQueueNameCache
      modifies this`claimQueueCache, this`ledger, trie`cache, trie`blockOriginals, trie`dirtyHashes,
          trie`namesToCheckForTakeover
      ensures found && trie.Valid() && InTime(ledger, nCurrentHeight + 1, Lifetime())
      ensures Holds(Current().(nameRows := QueueNameRows()[name := []]), ledger, Lifetime())
      ensures Recorded(start, ledger, insertUndo, expireUndo, nCurrentHeight)
      ensures Draining(old(ledger), ledger, name)
      ensures SameOthers(old(trie.Trie()), trie.Trie(), name)
      ensures Keeps(old(Snapshot()), Snapshot())
      ensures ClaimsAt(trie.Trie(), name) == ClaimsAt(old(trie.Trie()), name) || name in trie.cache
    {
      hide Holds, InTime, Recorded, ClaimTrieCache.Trie, At, ClaimTrieCache.Valid, ClaimsAt, Draining, Keeps,
          SameOthers, ClaimQueueCache.Snapshot;
      insertUndo := insertUndoIn;
      DrainStart(ledger, name);
      CarriesSelf(Snapshot());
      SameOthersSelf(trie.Trie(), name);
      var row := claimQueueNameCache[name];
      SetSame(QueueNameRows(), name, row);
      assert row[0..] == row;
      for i := 0 to |row|
        invariant trie.Valid() && InTime(ledger, nCurrentHeight + 1, Lifetime())
        invariant Holds(Current().(nameRows := QueueNameRows()[name := row[i..]]), ledger, Lifetime())
        invariant Recorded(start, ledger, insertUndo, expireUndo, nCurrentHeight)
        invariant Draining(old(ledger), ledger, name)
        invariant SameOthers(old(trie.Trie()), trie.Trie(), name)
        invariant ClaimsAt(trie.Trie(), name) == ClaimsAt(old(trie.Trie()), name) || name in trie.cache
        invariant Keeps(old(Snapshot()), Snapshot())
      {
        assert [row[i]] + row[i + 1..] == row[i..];
        ghost var v, t := Snapshot(), trie.Trie();
        found, insertUndo := DrainOne(name, row[i], row[i + 1..], insertUndo, old(ledger), start, expireUndo);
        KeepsOn(old(Snapshot()), v, Snapshot());
        SameOthersOn(old(trie.Trie()), t, trie.Trie(), name);
        if !found {
          return false, insertUndo;
        }
      }
      assert row[|row|..] == [];
      return true, insertUndo;
    }

    method DropNameRow(name: Name)
      requires Holds(Current().(nameRows := QueueNameRows()[name := []]), ledger, Lifetime())
      modifies this`claimQueueNameCache
      ensures Holds(Current(), ledger, Lifetime()) && At(QueueNameRows(), name) == []
    {
      hide Holds, At, ClaimTrieCache.Trie;
      SetRow(trie.base.queueNameRows, claimQueueNameCache, name, []);
      AtSet(QueueNameRows(), name, []);
      claimQueueNameCache := claimQueueNameCache[name := []];
    }

    /** All queued claims of a name enter the trie. */
    method DrainName(name: Name, insertUndoIn: seq<InsertUndo>, ghost start: Ledger, ghost expireUndo: seq<QueueEntry>)
      returns (ok: bool, insertUndo: seq<InsertUndo>)
      requires trie.Valid() && Holds(Current(), ledger, Lifetime()) && InTime(ledger, nCurrentHeight + 1, Lifetime())
      requires Recorded(start, ledger, insertUndoIn, expireUndo, nCurrentHeight)
      modifies this`claimQueueCache, this`claimQueueNameCache, this`ledger,
               trie`cache, trie`blockOriginals, trie`dirtyHashes, trie`namesToCheckForTakeover
      ensures ok && trie.Valid() && Holds(Current(), ledger, Lifetime())
          && InTime(ledger, nCurrentHeight + 1, Lifetime())
      ensures Recorded(start, ledger, insertUndo, expireUndo, nCurrentHeight)
      ensures Drained(old(ledger), ledger, {name})
      ensures SameOthers(old(trie.Trie()), trie.Trie(), name)
      ensures Keeps(old(Snapshot()), Snapshot())
      ensures ClaimsAt(trie.Trie(), name) == ClaimsAt(old(trie.Trie()), name) || name in trie.cache
    {
      hide Holds, InTime, Recorded, ClaimTrieCache.Trie, At, ClaimTrieCache.Valid, ClaimsAt, Draining, Drained, Keeps,
          SameOthers, ClaimQueueCache.Snapshot;
      insertUndo := insertUndoIn;
      DrainStart(ledger, name);
      CarriesSelf(Snapshot());
      SameOthersSelf(trie.Trie(), name);
      var found := GetQueueCacheNameRow(name, false);
      if found {
        found, insertUndo := DrainRow(name, insertUndo, start, expireUndo);
        if !found {
          return false, insertUndo;
        }
        DropNameRow(name);
      }
      assert Holds(Current(), ledger, Lifetime()) && At(Current().nameRows, name) == [];
      DrainEnd(Current(), old(ledger), ledger, Lifetime(), name);
      return true, insertUndo;
    }

    /** Notes the height a name changed hands before, and sets the new one if it is cached. */
    method Stamp(name: Name, haveClaimInTrie: bool) returns (ok: bool, takeoverHeightUndo: seq<(Name, int)>)
      requires haveClaimInTrie ==> trie.TakeoverOf(name).Some?
      modifies trie`cacheTakeoverHeights
      ensures ok && takeoverHeightUndo == if haveClaimInTrie then [(name, old(trie.TakeoverOf(name).value))] else []
      ensures trie.cacheTakeoverHeights == if name in trie.cache
          then old(trie.cacheTakeoverHeights)[name := nCurrentHeight]
                                           else old(trie.cacheTakeoverHeights)
      ensures Snapshot() == old(Snapshot()).(heights := trie.cacheTakeoverHeights)
    {
      takeoverHeightUndo := [];
      if haveClaimInTrie {
        var nHeightOfLastTakeover := trie.TakeoverOf(name);
        if nHeightOfLastTakeover == None {
          return false, [];
        }
        takeoverHeightUndo := [(name, nHeightOfLastTakeover.value)];
      }
      if name in trie.cache {
        trie.cacheTakeoverHeights := trie.cacheTakeoverHeights[name := nCurrentHeight];
      }
      return true, takeoverHeightUndo;
    }

    /** Drains a name that changes hands and notes the height it changed hands before. */
    method TakeOverOne(name: Name, haveClaimInTrie: bool, insertUndoIn: seq<InsertUndo>, ghost start: Ledger,
                       ghost expireUndo: seq<QueueEntry>)
      returns (ok: bool, insertUndo: seq<InsertUndo>, takeoverHeightUndo: seq<(Name, int)>)
      requires trie.Valid() && Holds(Current(), ledger, Lifetime()) && InTime(ledger, nCurrentHeight + 1, Lifetime())
      requires Recorded(start, ledger, insertUndoIn, expireUndo, nCurrentHeight)
      requires Tracks(Snapshot()) && name in trie.namesToCheckForTakeover
          && (haveClaimInTrie <==> ClaimsAt(trie.base.nodes, name) != [])
      modifies this`claimQueueCache, this`claimQueueNameCache, this`ledger,
               trie`cache, trie`blockOriginals, trie`dirtyHashes, trie`namesToCheckForTakeover,
               trie`cacheTakeoverHeights
      ensures ok && trie.Valid() && Holds(Current(), ledger, Lifetime())
          && InTime(ledger, nCurrentHeight + 1, Lifetime())
      ensures Recorded(start, ledger, insertUndo, expireUndo, nCurrentHeight)
      ensures Tracks(Snapshot()) && Settles(old(Snapshot()), Snapshot())
          && trie.namesToCheckForTakeover == old(trie.namesToCheckForTakeover)
      ensures Drained(old(ledger), ledger, {name})
      ensures SameOthers(old(trie.Trie()), trie.Trie(), name)
      ensures Stamped(old(trie.cacheTakeoverHeights), trie.cacheTakeoverHeights, trie.Trie(), name, nCurrentHeight)
      ensures takeoverHeightUndo == if haveClaimInTrie then [(name, old(trie.TakeoverOf(name).value))] else []
      ensures haveClaimInTrie ==> old(trie.TakeoverOf(name)).Some?
    {
      hide Holds, InTime, Recorded, ClaimTrieCache.Trie, At, ClaimTrieCache.Valid, ClaimsAt, Drained, Keeps, Settles,
          Tracks;
      ghost var v := Snapshot();
      TrieIsShown();
      TakeoverKnown(trie.fRequireTakeoverHeights, trie.cacheTakeoverHeights, trie.base.nodes, name);
      ok, insertUndo := DrainName(name, insertUndoIn, start, expireUndo);
      takeoverHeightUndo := [];
      if !ok {
        return false, insertUndo, [];
      }
      ghost var w := Snapshot();
      TrieIsShown();
      KeepsSettles(v, w, name, nCurrentHeight);
      ok, takeoverHeightUndo := Stamp(name, haveClaimInTrie);
      StillTracks(v, w, name, trie.cacheTakeoverHeights);
    }

    /** Looks at one name, and drains it if it changes hands. */
    method LookAt(name: Name, insertUndoIn: seq<InsertUndo>, undo: seq<(Name, int)>, ghost start: Ledger,
                  ghost expireUndo: seq<QueueEntry>, ghost mid: Tree, ghost before: Ledger, ghost h0: map<Name, int>,
                  ghost taken: set<Name>)
      returns (ok: bool, insertUndo: seq<InsertUndo>, takeoverHeightUndo: seq<(Name, int)>)
      requires trie.Valid() && Holds(Current(), ledger, Lifetime()) && InTime(ledger, nCurrentHeight + 1, Lifetime())
      requires Recorded(start, ledger, insertUndoIn, expireUndo, nCurrentHeight)
      requires Tracks(Snapshot()) && name in trie.namesToCheckForTakeover && name !in taken
      requires Taken(trie.base.nodes, mid, trie.Trie(), before, ledger, trie.fRequireTakeoverHeights, h0,
                     trie.cacheTakeoverHeights, undo, taken, nCurrentHeight)
      modifies this`claimQueueCache, this`claimQueueNameCache, this`ledger,
               trie`cache, trie`blockOriginals, trie`dirtyHashes, trie`namesToCheckForTakeover,
               trie`cacheTakeoverHeights
      ensures ok && trie.Valid() && Holds(Current(), ledger, Lifetime())
          && InTime(ledger, nCurrentHeight + 1, Lifetime())
      ensures Recorded(start, ledger, insertUndo, expireUndo, nCurrentHeight)
      ensures Tracks(Snapshot()) && Settles(old(Snapshot()), Snapshot())
      ensures trie.namesToCheckForTakeover == old(trie.namesToCheckForTakeover)
      ensures Taken(trie.base.nodes, mid, trie.Trie(), before, ledger, trie.fRequireTakeoverHeights, h0,
                    trie.cacheTakeoverHeights, takeoverHeightUndo,
                    taken + (if ChangesHands(trie.base.nodes, mid, name) then {name} else {}), nCurrentHeight)
    {
      hide Holds, InTime, Recorded, ClaimTrieCache.Trie, At, ClaimTrieCache.Valid, ClaimsAt, Drained, Taken,
          ChangesHands, Stamped, Tracks, Settles, ClaimQueueCache.Current, ClaimQueueCache.Snapshot, TakeoverIn;
      CarriesSelf(Snapshot());
      TakenOthers(trie.base.nodes, mid, trie.Trie(), before, ledger, trie.fRequireTakeoverHeights, h0,
                  trie.cacheTakeoverHeights, undo, taken, nCurrentHeight, name);
      var takeoverHappened, haveClaimInTrie := TakeoverHappened(name);
      if !takeoverHappened {
        assert taken + {} == taken;
        return true, insertUndoIn, undo;
      }
      ghost var t, l, h := trie.Trie(), ledger, trie.cacheTakeoverHeights;
      var noted;
      ok, insertUndo, noted := TakeOverOne(name, haveClaimInTrie, insertUndoIn, start, expireUndo);
      if !ok {
        return false, insertUndo, undo;
      }
      TakenStep(trie.base.nodes, mid, t, trie.Trie(), before, l, ledger, trie.fRequireTakeoverHeights, h0, h,
                trie.cacheTakeoverHeights, undo, noted, taken, nCurrentHeight, name);
      takeoverHeightUndo := undo + noted;
    }

    /** Goes through the names whose front claim changed. Those that change hands are those
        that did by the claims that matured, expired or were spent, before any is drained. */
    method TakeOverNames(insertUndoIn: seq<InsertUndo>, ghost start: Ledger, ghost expireUndo: seq<QueueEntry>)
      returns (ok: bool, insertUndo: seq<InsertUndo>, takeoverHeightUndo: seq<(Name, int)>)
      requires trie.Valid() && Holds(Current(), ledger, Lifetime()) && InTime(ledger, nCurrentHeight + 1, Lifetime())
      requires Recorded(start, ledger, insertUndoIn, expireUndo, nCurrentHeight) && Tracks(Snapshot())
      modifies this`claimQueueCache, this`claimQueueNameCache, this`ledger,
               trie`cache, trie`blockOriginals, trie`dirtyHashes, trie`namesToCheckForTakeover,
               trie`cacheTakeoverHeights
      ensures ok && trie.Valid() && Holds(Current(), ledger, Lifetime())
          && InTime(ledger, nCurrentHeight + 1, Lifetime())
      ensures Recorded(start, ledger, insertUndo, expireUndo, nCurrentHeight)
      ensures Taken(trie.base.nodes, old(trie.Trie()), trie.Trie(), old(ledger), ledger, trie.fRequireTakeoverHeights,
                    old(trie.cacheTakeoverHeights), trie.cacheTakeoverHeights, takeoverHeightUndo,
                    ChangingHands(trie.base.nodes, old(trie.Trie()), old(trie.namesToCheckForTakeover)), nCurrentHeight)
      ensures Settles(old(Snapshot()), Snapshot())
    {
      hide Holds, InTime, Recorded, ClaimTrieCache.Trie, ClaimTrieCache.Valid, Taken, ChangesHands, Tracks, Settles,
          ClaimQueueCache.Current, ClaimQueueCache.Snapshot, ChangingHands;
      CarriesSelf(Snapshot());
      insertUndo, takeoverHeightUndo := insertUndoIn, [];
      ghost var b, mid, taken := trie.base.nodes, trie.Trie(), {};
      NothingTaken(b, mid, ledger, trie.fRequireTakeoverHeights, trie.cacheTakeoverHeights,
          trie.namesToCheckForTakeover, nCurrentHeight);
      var left := trie.namesToCheckForTakeover;
      while left != {}
        invariant left <= trie.namesToCheckForTakeover == old(trie.namesToCheckForTakeover)
        invariant trie.Valid() && Holds(Current(), ledger, Lifetime()) && InTime(ledger, nCurrentHeight + 1, Lifetime())
        invariant Recorded(start, ledger, insertUndo, expireUndo, nCurrentHeight) && Tracks(Snapshot())
        invariant Settles(old(Snapshot()), Snapshot())
        invariant taken == ChangingHands(b, mid, trie.namesToCheckForTakeover - left)
        invariant Taken(b, mid, trie.Trie(), old(ledger), ledger, trie.fRequireTakeoverHeights,
                        old(trie.cacheTakeoverHeights), trie.cacheTakeoverHeights, takeoverHeightUndo, taken,
                            nCurrentHeight)
        decreases |left|
      {
        var name :| name in left;
        ChangingNext(b, mid, trie.namesToCheckForTakeover, left, name);
        left := left - {name};
        ghost var v := Snapshot();
        ok, insertUndo,
            takeoverHeightUndo := LookAt(name, insertUndo, takeoverHeightUndo, start, expireUndo, mid, old(ledger),
                                                     old(trie.cacheTakeoverHeights), taken);
        if !ok {
          return false, insertUndo, takeoverHeightUndo;
        }
        SettlesOn(old(Snapshot()), v, Snapshot());
        taken := taken + if ChangesHands(b, mid, name) then {name} else {};
      }
      assert trie.namesToCheckForTakeover - {} == trie.namesToCheckForTakeover;
      return true, insertUndo, takeoverHeightUndo;
    }

    /** The state the next block starts from. */
    method NextBlock()
      modifies this`nCurrentHeight, trie`blockOriginals, trie`namesToCheckForTakeover
      ensures nCurrentHeight == old(nCurrentHeight) + 1
      ensures trie.blockOriginals == trie.cache && trie.namesToCheckForTakeover == {}
    {
      trie.blockOriginals := trie.cache;
      trie.namesToCheckForTakeover := {};
      nCurrentHeight := nCurrentHeight + 1;
    }

    /** The claims that are due enter the trie, and those whose time is up leave it. */
    method RipenAndExpire(ghost start: Ledger)
        returns (ok: bool, insertUndo: seq<InsertUndo>, expireUndo: seq<QueueEntry>)
      requires Valid() && ledger == start
      modifies this`claimQueueCache, this`claimQueueNameCache, this`expirationQueueCache, this`ledger,
               trie`cache, trie`blockOriginals, trie`dirtyHashes, trie`namesToCheckForTakeover
      ensures ok && trie.Valid() && Holds(Current(), ledger, Lifetime())
          && InTime(ledger, nCurrentHeight + 1, Lifetime())
      ensures ledger == Expired(Ripened(start, nCurrentHeight), nCurrentHeight, Lifetime())
      ensures Recorded(start, ledger, insertUndo, expireUndo, nCurrentHeight)
      ensures Carries(old(Snapshot()), Snapshot())
    {
      hide Holds, InTime, Recorded, ClaimTrieCache.Trie, ClaimTrieCache.Valid, Carries, Ripened, Expired,
          ClaimQueueCache.Snapshot, ClaimQueueCache.HeightsPassed, ClaimQueueCache.Current;
      InTimeEnough(start, nCurrentHeight, Lifetime());
      ok, insertUndo := MatureRow(start);
      if !ok {
        return false, insertUndo, [];
      }
      ghost var v := Snapshot();
      ok, expireUndo := ExpireRow(start, insertUndo);
      CarriesOn(old(Snapshot()), v, Snapshot());
    }

    /** Applies a block to a cache that was fresh when the block began. No claim is lost but
        those that expire; a claim stays queued unless it is due or its name changes hands; a
        name that changes hands takes the block's height, and if the names to look at are
        complete every name with another controlling claim id does. Unmarked hashes stay right. */
    method IncrementBlock()
      returns (ok: bool, insertUndo: seq<InsertUndo>, expireUndo: seq<QueueEntry>, takeoverHeightUndo: seq<(Name, int)>,
               ghost taken: set<Name>, ghost mid: Tree)
      requires Valid() && Tracks(Snapshot())
      modifies this, trie
      ensures ok && Valid() && nCurrentHeight == old(nCurrentHeight) + 1
      ensures forall k ::
          k in ledger.claims
          <==> k in old(ledger).claims && old(ledger.claims[k].nHeight + Lifetime() != nCurrentHeight)
      ensures forall k ::
          k in ledger.due <==> k in old(ledger).due && old(ledger.due[k] != nCurrentHeight) && k.0 !in taken
      ensures Recorded(old(ledger), ledger, insertUndo, expireUndo, old(nCurrentHeight))
      ensures old(Watches(Snapshot())) ==> AllTaken(trie.base.nodes, trie.Trie(), taken)
      ensures forall n :: n in taken && ClaimsAt(trie.Trie(), n) != [] && trie.fRequireTakeoverHeights ==>
                trie.TakeoverOf(n) == Some(old(nCurrentHeight))
      ensures forall n :: n !in taken ==> trie.TakeoverOf(n) == old(trie.TakeoverOf(n))
      ensures OnlyStamped(old(trie.cacheTakeoverHeights), trie.cacheTakeoverHeights, old(nCurrentHeight))
      ensures HeightsNoted(trie.base.nodes, trie.fRequireTakeoverHeights, old(trie.cacheTakeoverHeights),
          takeoverHeightUndo, taken)
      ensures Closes(old(Snapshot()), Snapshot())
      ensures old(HashesHold(Snapshot())) ==> forall n :: n in taken ==> Prefixes(n) <= trie.dirtyHashes
      ensures InTrieThen(mid, Expired(Ripened(old(ledger), old(nCurrentHeight)), old(nCurrentHeight), Lifetime()))
      ensures old(Controls(Snapshot())) ==> FrontsIn(mid, trie.base.supports)
      ensures TakenOver(trie.base.nodes, mid, trie.Trie(), taken)
      ensures old(Watches(Snapshot())) ==> AllTaken(trie.base.nodes, mid, taken)
      ensures old(Watches(Snapshot())) ==> forall n ::
          FrontId(trie.base.nodes, n).Some? && FrontId(mid, n).Some? ==>
          (n in taken <==> FrontId(trie.base.nodes, n) != FrontId(mid, n))
      ensures old(Watches(Snapshot())) ==> forall n ::
          FrontId(trie.base.nodes, n).Some? != FrontId(mid, n).Some? ==> n in taken
    {
      hide Holds, InTime, Recorded, ClaimTrieCache.Trie, ClaimTrieCache.Valid, ClaimsAt, Taken, ChangesHands,
          InTrieThen, FrontsIn, TakenOver, OnlyStamped, Controls, ChangingHands, HashesHold, Prefixes, Tracks, Watches,
          Carries, Settles, Closes, TakeoverIn, NoneAfter, HeightsNoted, Ripened, Expired, AllTaken,
          ClaimQueueCache.Current, FrontId;
      ghost var start, h0, v := ledger, trie.cacheTakeoverHeights, Snapshot();
      InTimeEnough(start, nCurrentHeight, Lifetime());
      ok, insertUndo, expireUndo := RipenAndExpire(start);
      if !ok {
        return false, insertUndo, expireUndo, [], {}, map[];
      }
      ghost var l, x := ledger, Snapshot();
      mid := trie.Trie();
      TracksOn(v, x);
      TrieIsShown();
      CurrentTrie();
      MidTrie(v, x, Current(), ledger, Lifetime());
      taken := ChangingHands(trie.base.nodes, mid, trie.namesToCheckForTakeover);
      ghost var watched := Watches(v);
      if watched {
        WatchesOn(v, x);
      }
      ok, insertUndo, takeoverHeightUndo := TakeOverNames(insertUndo, start, expireUndo);
      TakenMeans(trie.base.nodes, mid, trie.Trie(), start, l, ledger, Lifetime(), trie.fRequireTakeoverHeights, h0,
                 trie.cacheTakeoverHeights, takeoverHeightUndo, taken, nCurrentHeight, watched);
      if !ok {
        return false, insertUndo, expireUndo, takeoverHeightUndo, taken, mid;
      }
      TakenOnly(trie.base.nodes, mid, trie.Trie(), l, ledger, trie.fRequireTakeoverHeights, h0,
          trie.cacheTakeoverHeights, takeoverHeightUndo, taken, nCurrentHeight, x.names);
      if watched {
        TakenByFront(trie.base.nodes, mid, trie.Trie(), taken);
      }
      ClosesAt(v, x, Snapshot());
      if HashesHold(v) {
        TakenMarked(v, x, Snapshot(), trie.base.nodes, mid, taken);
      }
      NextBlock();
    }

    // ---------- writing a block to the base ----------

    /** Writes the trie, and if that succeeds the rows and the height. The base then keeps the
        same books. */
    method Flush() returns (ok: bool)
      requires trie.Valid() && Holds(Current(), ledger, Lifetime())
      modifies this, trie, trie.base
      ensures ok <==> old(trie.cacheHashes).Keys + old(trie.cacheTakeoverHeights).Keys <= old(trie.Trie()).Keys
      ensures trie.base.supports == old(trie.base.supports) && nCurrentHeight == old(nCurrentHeight)
      ensures ok
          ==> trie.Valid() && trie.base.nCurrentHeight == nCurrentHeight
              && SameContent(old(trie.Trie()), trie.base.nodes)
      ensures ok ==> trie.Trie() == trie.base.nodes && Holds(BooksOf(trie.base), old(ledger), Lifetime())
      ensures ok ==> HeightsWritten(old(trie.base.nodes), old(trie.cacheTakeoverHeights), trie.base.nodes)
      ensures ok && [] in old(trie.base.nodes) && [] in old(trie.Trie()) && old(trie.Trie())[[]].Empty() ==>
                [] in trie.base.nodes && trie.base.nodes[[]].hash == old(trie.EmptyRootHash())
      ensures ok && old(trie.HashValid()) && old(trie.HeightsKnown()) ==>
                && HashesRight(trie.base.hash, old(trie.Heights()), trie.base.nodes)
                && HashesRight(trie.base.hash, HeightsIn(trie.fRequireTakeoverHeights, map[], trie.base.nodes),
                    trie.base.nodes)
    {
      hide ClaimTrieCache.Valid, ClaimTrieCache.HashValid, ClaimTrieCache.HeightsKnown, HashesRight, HeightsWritten,
          Holds, SameContent, ConsistentBelow, ClaimTrieCache.Trie;
      ghost var before, t, l := Current(), trie.Trie(), ledger;
      ok := trie.Flush();
      if ok {
        trie.base.UpdateQueues(claimQueueCache, claimQueueNameCache, expirationQueueCache, nCurrentHeight);
        SameBooksFlushed(before, BooksOf(trie.base), l, Lifetime());
        claimQueueCache, claimQueueNameCache, expirationQueueCache := map[], map[], map[];
      }
    }

    // ---------- taking a block back ----------

    /** Expired claims come back into the trie, and into the row they expired in. */
    method UnexpireAll(expireUndo: seq<QueueEntry>, ghost goal: Ledger, ghost inserts: seq<InsertUndo>)
      requires trie.Valid() && Holds(Current(), ledger, Lifetime()) && Undoing(goal, ledger, inserts, expireUndo)
      requires forall e :: e in expireUndo ==> e.claim.nHeight + Lifetime() == nCurrentHeight
      modifies this`expirationQueueCache, this`ledger, trie`cache, trie`blockOriginals, trie`dirtyHashes,
          trie`namesToCheckForTakeover
      ensures trie.Valid() && Holds(Current(), ledger, Lifetime()) && Undoing(goal, ledger, inserts, [])
      ensures Undoes(old(Snapshot()), Snapshot())
    {
      hide Holds, ClaimTrieCache.Trie, ClaimTrieCache.Valid, Undoing, Gains, TrieGains, At, ClaimsAt, Keeps, Undoes,
          ClaimQueueCache.Snapshot;
      UndoesSelf(Snapshot());
      assert expireUndo[0..] == expireUndo;
      for i := 0 to |expireUndo|
        invariant trie.Valid() && Holds(Current(), ledger, Lifetime())
            && Undoing(goal, ledger, inserts, expireUndo[i..])
        invariant Undoes(old(Snapshot()), Snapshot())
      {
        ghost var before, e, v := Current(), expireUndo[i], Snapshot();
        assert expireUndo[i..][0] == e && expireUndo[i..][1..] == expireUndo[i + 1..];
        UndoExpiry(goal, ledger, inserts, expireUndo[i..]);
        PutIn(expireUndo[i].name, expireUndo[i].claim, false);
        UndoesOn(old(Snapshot()), v, Snapshot());
        AddToExpirationQueue(nCurrentHeight, EntryKey(expireUndo[i]));
        HoldsEntered(before, Current(), ledger, Lifetime(), EntryKey(e), e.claim);
        ledger := Entered(ledger, EntryKey(e), e.claim);
      }
      assert expireUndo[|expireUndo|..] == [];
    }

    /** Claims that left the queue go back into it. */
    method UninsertOne(u: InsertUndo) returns (ok: bool)
      requires trie.Valid() && Holds(Current(), ledger, Lifetime())
      requires InsertKey(u) in ledger.claims && InsertKey(u) !in ledger.due
      modifies this`claimQueueCache, this`claimQueueNameCache, this`ledger,
               trie`cache, trie`blockOriginals, trie`dirtyHashes, trie`namesToCheckForTakeover
      ensures ok && trie.Valid() && Holds(Current(), ledger, Lifetime())
      ensures ledger == Requeued(old(ledger), InsertKey(u), u.nHeight)
      ensures Undoes(old(Snapshot()), Snapshot())
    {
      hide Holds, ClaimTrieCache.Trie, ClaimTrieCache.Valid, Gains, TrieGains, RowsGain, At, ClaimsAt, FindOutPoint,
          ClaimBag, Undoes, Tracks, Carries, Orderly, ClaimQueueCache.Snapshot;
      ghost var before := Current();
      InTrie(before, ledger, Lifetime(), InsertKey(u));
      var claim := TakeOut(u.name, u.outPoint, false);
      if claim == None {
        return false;
      }
      PushQueue(u.nHeight, QueueEntry(u.name, claim.value));
      PushQueueName(u.name, u.outPoint, u.nHeight);
      HoldsRequeued(before, Current(), ledger, Lifetime(), InsertKey(u), u.nHeight);
      ledger := Requeued(ledger, InsertKey(u), u.nHeight);
      return true;
    }

    method UninsertAll(insertUndo: seq<InsertUndo>, ghost goal: Ledger) returns (ok: bool)
      requires trie.Valid() && Holds(Current(), ledger, Lifetime()) && Undoing(goal, ledger, insertUndo, [])
      requires goal.due.Keys <= goal.claims.Keys
      modifies this`claimQueueCache, this`claimQueueNameCache, this`ledger,
               trie`cache, trie`blockOriginals, trie`dirtyHashes, trie`namesToCheckForTakeover
      ensures ok && trie.Valid() && Holds(Current(), ledger, Lifetime()) && ledger == goal
      ensures Undoes(old(Snapshot()), Snapshot())
    {
      hide Holds, ClaimTrieCache.Trie, ClaimTrieCache.Valid, Undoing, At, ClaimsAt, Undoes, ClaimQueueCache.Snapshot;
      UndoesSelf(Snapshot());
      assert insertUndo[0..] == insertUndo;
      for i := 0 to |insertUndo|
        invariant trie.Valid() && Holds(Current(), ledger, Lifetime()) && Undoing(goal, ledger, insertUndo[i..], [])
        invariant Undoes(old(Snapshot()), Snapshot())
      {
        ghost var v := Snapshot();
        assert insertUndo[i..][0] == insertUndo[i] && insertUndo[i..][1..] == insertUndo[i + 1..];
        UndoInsert(goal, ledger, insertUndo[i..]);
        ok := UninsertOne(insertUndo[i]);
        UndoesOn(old(Snapshot()), v, Snapshot());
        if !ok {
          return false;
        }
      }
      assert insertUndo[|insertUndo|..] == [];
      AllUndone(goal, ledger);
      return true;
    }

    method RestoreHeights(takeoverHeightUndo: seq<(Name, int)>)
      requires forall p, q :: p in takeoverHeightUndo && q in takeoverHeightUndo && p.0 == q.0 ==> p.1 == q.1
      modifies trie`cacheTakeoverHeights
      ensures HeightsRestored(old(trie.cacheTakeoverHeights), trie.cacheTakeoverHeights, takeoverHeightUndo)
    {
      for i := 0 to |takeoverHeightUndo|
        invariant HeightsRestored(old(trie.cacheTakeoverHeights), trie.cacheTakeoverHeights, takeoverHeightUndo[..i])
      {
        var p := takeoverHeightUndo[i];
        RestoreStep(old(trie.cacheTakeoverHeights), trie.cacheTakeoverHeights, takeoverHeightUndo, i);
        trie.cacheTakeoverHeights := trie.cacheTakeoverHeights[p.0 := p.1];
      }
      assert takeoverHeightUndo[..|takeoverHeightUndo|] == takeoverHeightUndo;
    }

    /** Takes back the block whose undo data is given, towards the ledger that data leads to. */
    /** The end of a block that was taken back. */
    method FinalizeDecrement()
      modifies trie`blockOriginals
      ensures trie.blockOriginals == trie.cache
    {
      trie.blockOriginals := trie.cache;
    }

    method DecrementBlock(insertUndo: seq<InsertUndo>, expireUndo: seq<QueueEntry>,
        takeoverHeightUndo: seq<(Name, int)>, ghost goal: Ledger)
      returns (ok: bool)
      requires trie.Valid() && Holds(Current(), ledger, Lifetime()) && Undoing(goal, ledger, insertUndo, expireUndo)
      requires goal.due.Keys <= goal.claims.Keys
      requires forall e :: e in expireUndo ==> e.claim.nHeight + Lifetime() == nCurrentHeight - 1
      requires forall p, q :: p in takeoverHeightUndo && q in takeoverHeightUndo && p.0 == q.0 ==> p.1 == q.1
      modifies this, trie
      ensures ok && nCurrentHeight == old(nCurrentHeight) - 1
      ensures trie.Valid() && Holds(Current(), ledger, Lifetime()) && ledger == goal
      ensures HeightsRestored(old(trie.cacheTakeoverHeights), trie.cacheTakeoverHeights, takeoverHeightUndo)
      ensures Undoes(old(Snapshot()), Snapshot().(heights := old(trie.cacheTakeoverHeights)))
    {
      hide Holds, ClaimTrieCache.Trie, ClaimTrieCache.Valid, Undoing, At, ClaimsAt, HeightsRestored, Undoes;
      nCurrentHeight := nCurrentHeight - 1;
      ghost var v := Snapshot();
      UnexpireAll(expireUndo, goal, insertUndo);
      ghost var w := Snapshot();
      ok := UninsertAll(insertUndo, goal);
      UndoesOn(v, w, Snapshot());
      if !ok {
        return false;
      }
      RestoreHeights(takeoverHeightUndo);
    }
  }

  /** A block applied and taken back: the ledger is the one before exactly when no claim left
      the queue early, and every name that had a controlling claim has its takeover height. */
  method ApplyAndUndo(c: ClaimQueueCache) returns (ok: bool, insertUndo: seq<InsertUndo>)
    requires c.Valid() && Tracks(c.Snapshot())
    modifies c, c.trie
    ensures ok && c.nCurrentHeight == old(c.nCurrentHeight) && c.trie.Valid()
        && Holds(c.Current(), c.ledger, c.Lifetime())
    ensures c.ledger == old(c.ledger) <==> forall u :: u in insertUndo ==> u.nHeight == old(c.nCurrentHeight)
    ensures c.ledger.due == old(c.ledger).due && c.ledger.claims.Keys == old(c.ledger).claims.Keys
    ensures forall n :: ClaimsAt(c.trie.base.nodes, n) != [] ==> c.trie.TakeoverOf(n) == old(c.trie.TakeoverOf(n))
  {
    hide Holds, InTime, ClaimTrieCache.Trie, ClaimTrieCache.Valid, At, ClaimsAt, TakeoverIn, HeightsRestored,
        HeightsNoted, Tracks, ClaimQueueCache.HeightsPassed, Undoing, ClaimQueueCache.Current, InTrieThen, FrontsIn,
        TakenOver, AllTaken, OnlyStamped, Undoes, Watches, Controls, Closes, HashesHold, Recorded;
    ghost var start, h0, height := c.ledger, c.trie.cacheTakeoverHeights, c.nCurrentHeight;
    var expireUndo, takeoverHeightUndo;
    ghost var taken;
    ghost var mid;
    ok, insertUndo, expireUndo, takeoverHeightUndo, taken, mid := c.IncrementBlock();
    ghost var h1 := c.trie.cacheTakeoverHeights;
    if !ok {
      return false, insertUndo;
    }
    UndoFits(start, c.ledger, insertUndo, expireUndo, height, c.Lifetime());
    NotedOnce(c.trie.base.nodes, c.trie.fRequireTakeoverHeights, h0, takeoverHeightUndo, taken);
    RewoundExactly(start, c.ledger, insertUndo, expireUndo, height, c.Lifetime());
    ok := c.DecrementBlock(insertUndo, expireUndo, takeoverHeightUndo, Rewound(start, c.ledger, height));
    HeightsComeBack(c.trie.base.nodes, c.trie.fRequireTakeoverHeights, h0, h1, c.trie.cacheTakeoverHeights,
        takeoverHeightUndo, taken);
  }
}
