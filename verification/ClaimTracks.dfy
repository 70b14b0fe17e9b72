/** What a block relies on about the trie under the queues, and how each change of the trie
    keeps it: which names it has to look at, what they held when it began, which hashes are
    stale, and that the front claim controls. */
module ClaimTracks {
  import opened ClaimTypes
  import opened NameTree
  import opened PathOps
  import opened Overlay
  import opened ClaimMap
  import opened TrieHash
  import opened ClaimQueues
  import opened ClaimTries
  import opened ClaimTrieCaches

  /** Everything about a cache and its base but the queues. */
  datatype TrieView = TrieView(
    hash: HashFn,
    heap: seq<ClaimValue> -> seq<ClaimValue>,
    supports: map<Name, seq<SupportValue>>,
    required: bool,
    base: Tree,
    hashes: map<Name, Digest>,
    heights: map<Name, int>,
    cache: Tree,
    originals: Tree,
    dirty: set<Name>,
    names: set<Name>)
  {
    ghost function Trie(): Tree { Shown(base, cache) }

    function SupportsOf(name: Name): seq<SupportValue> {
      if name in supports then supports[name] else []
    }
  }

  /** A name to be looked at that holds claims is in the cache. */
  ghost predicate CheckedCached(cache: Tree, t: Tree, names: set<Name>)
  {
    forall n :: n in names && ClaimsAt(t, n) != [] ==> n in cache
  }

  /** The block knows what every name held when it began, and finds the names to look at. */
  ghost predicate Tracks(v: TrieView)
  {
    Remembers(v.base, v.cache, v.originals) && CheckedCached(v.cache, v.Trie(), v.names)
  }

  /** Every name whose front claim is not the one it had is to be looked at. */
  ghost predicate Watches(v: TrieView)
  {
    Watched(v.base, v.Trie(), v.names)
  }

  /** Every hash that is not marked is right, and the names to look at are marked. */
  ghost predicate HashesHold(v: TrieView)
  {
    && HashInv(v.hash, HeightsIn(v.required, v.heights, v.base), v.base, v.cache, v.hashes, v.dirty)
    && forall n :: n in v.names ==> Prefixes(n) <= v.dirty
  }

  /** Where ids and outpoints are unique, the front claim controls. */
  ghost predicate Controls(v: TrieView)
  {
    forall n :: UniqueClaims(ClaimsAt(v.Trie(), n)) ==> FrontControls(ClaimsAt(v.Trie(), n), v.SupportsOf(n))
  }

  /** The parts that insertions and removals leave alone. */
  ghost predicate SameGround(v: TrieView, w: TrieView)
  {
    w == v.(cache := w.cache, originals := w.originals, dirty := w.dirty, names := w.names)
  }

  /** A change that marks the names to look at keeps everything. */
  ghost predicate Carries(v: TrieView, w: TrieView)
  {
    && SameGround(v, w)
    && (Tracks(v) ==> Tracks(w))
    && (Watches(v) ==> Watches(w))
    && (HashesHold(v) ==> HashesHold(w))
    && (Controls(v) ==> Controls(w))
  }

  /** A change that does not mark them keeps all but that they are complete. */
  ghost predicate Keeps(v: TrieView, w: TrieView)
  {
    && SameGround(v, w) && w.names == v.names && v.cache.Keys <= w.cache.Keys && v.dirty <= w.dirty
    && (Remembers(v.base, v.cache, v.originals) ==> Remembers(w.base, w.cache, w.originals))
    && (HashesHold(v) ==> HashesHold(w))
    && (Controls(v) ==> Controls(w))
  }

  /** The same, with takeover heights of names in the trie set. */
  ghost predicate Settles(v: TrieView, w: TrieView)
  {
    && SameGround(v.(heights := w.heights), w) && w.names == v.names
    && (HashesHold(v) ==> HashesHold(w))
    && (Controls(v) ==> Controls(w))
    && (forall n :: n in w.heights && n !in v.heights ==> n in w.cache)
    && v.cache.Keys <= w.cache.Keys && v.dirty <= w.dirty
  }

  lemma CarriesSelf(v: TrieView)
    ensures Carries(v, v) && Keeps(v, v) && Settles(v, v)
  {
  }

  lemma CarriesOn(v: TrieView, w: TrieView, x: TrieView)
    requires Carries(v, w) && Carries(w, x)
    ensures Carries(v, x)
  {
    hide Tracks, Watches, HashesHold, Controls;
  }

  lemma KeepsOn(v: TrieView, w: TrieView, x: TrieView)
    requires Keeps(v, w) && Keeps(w, x)
    ensures Keeps(v, x)
  {
    hide HashesHold, Controls, Remembers;
  }

  lemma SettlesOn(v: TrieView, w: TrieView, x: TrieView)
    requires Settles(v, w) && Settles(w, x)
    ensures Settles(v, x)
  {
    hide HashesHold, Controls;
  }

  /** No name but one holds other claims. */
  ghost predicate SameOthers(t: Tree, u: Tree, name: Name)
  {
    forall n :: n != name ==> ClaimsAt(u, n) == ClaimsAt(t, n)
  }

  lemma SameOthersSelf(t: Tree, name: Name)
    ensures SameOthers(t, t, name)
  {
  }

  lemma SameOthersOn(t: Tree, u: Tree, w: Tree, name: Name)
    requires SameOthers(t, u, name) && SameOthers(u, w, name)
    ensures SameOthers(t, w, name)
  {
    hide ClaimsAt;
  }

  // ---------- the front claim ----------

  lemma UniqueByBag(a: seq<ClaimValue>, b: seq<ClaimValue>)
    requires ClaimBag(a) == ClaimBag(b) && UniqueClaims(a)
    ensures UniqueClaims(b)
  {
    UniqueClaimsPermutation(PlainClaims(a), PlainClaims(b));
  }

  lemma ReorderedFront(heap: seq<ClaimValue> -> seq<ClaimValue>, claims: seq<ClaimValue>, supports: seq<SupportValue>)
    requires IsMakeHeap(heap) && UniqueClaims(Reordered(heap, claims, supports))
    ensures FrontControls(Reordered(heap, claims, supports), supports)
  {
    hide IsMakeHeap, UniqueClaims, FrontControls, Reordered, ClaimBag;
    ReorderedControls(heap, claims, supports);
    UniqueByBag(Reordered(heap, claims, supports), claims);
  }

  lemma InsertControls(v: TrieView, w: TrieView, name: Name, claim: ClaimValue)
    requires IsMakeHeap(v.heap) && Closed(v.Trie()) && Controls(v) && SameGround(v, w)
    requires w.Trie() == AfterInsert(v.heap, v.SupportsOf(name), v.Trie(), name, claim)
    ensures Controls(w)
  {
    hide IsMakeHeap, UniqueClaims, FrontControls, Reordered, Closed, Shown, Inserted, ClaimsAt;
    var before, s := ClaimsAt(v.Trie(), name), v.SupportsOf(name);
    forall n | UniqueClaims(ClaimsAt(w.Trie(), n))
      ensures FrontControls(ClaimsAt(w.Trie(), n), w.SupportsOf(n))
    {
      InsertedAt(v.Trie(), name, Grown(v.heap, before, claim, s), n);
      if n == name {
        LoneClaim(claim, s);
        if before != [] {
          ReorderedFront(v.heap, before + [claim], s);
        }
      }
    }
  }

  lemma RemoveControls(v: TrieView, w: TrieView, name: Name, outPoint: OutPoint)
    requires IsMakeHeap(v.heap) && Closed(v.Trie()) && Controls(v) && SameGround(v, w)
    requires w.Trie() == AfterRemove(v.heap, v.SupportsOf(name), v.Trie(), name, outPoint)
    ensures Controls(w)
  {
    hide IsMakeHeap, UniqueClaims, FrontControls, Reordered, Closed, Shown, AfterRemove, ClaimsAt, FindOutPoint;
    var before, s := ClaimsAt(v.Trie(), name), v.SupportsOf(name);
    RemovedOf(v.heap, s, v.Trie(), name, outPoint);
    forall n | UniqueClaims(ClaimsAt(w.Trie(), n))
      ensures FrontControls(ClaimsAt(w.Trie(), n), w.SupportsOf(n))
    {
      if n == name {
        var k := FindOutPoint(before, outPoint);
        var rest := if k < |before| then before[..k] + before[k + 1..] else before;
        NoneControls(s);
        if rest != [] {
          ReorderedFront(v.heap, rest, s);
        }
      }
    }
  }

  lemma NoneControls(supports: seq<SupportValue>)
    ensures FrontControls([], supports)
  {
  }

  // ---------- names to look at ----------

  lemma InsertCached(t: Tree, u: Tree, names: set<Name>, name: Name, cache: Tree, cache': Tree, marked: bool)
    requires CheckedCached(cache, t, names) && cache.Keys + {name} <= cache'.Keys
    requires forall n :: n != name ==> ClaimsAt(u, n) == ClaimsAt(t, n)
    ensures CheckedCached(cache', u, names + if marked then {name} else {})
  {
    hide ClaimsAt;
  }

  lemma RemoveCached(heap: seq<ClaimValue> -> seq<ClaimValue>, supports: seq<SupportValue>, t: Tree, names: set<Name>,
                     name: Name, outPoint: OutPoint, cache: Tree, cache': Tree, marked: bool)
    requires IsMakeHeap(heap) && Closed(t) && CheckedCached(cache, t, names)
    requires var u := AfterRemove(heap, supports, t, name, outPoint);
             StillCached(cache, cache', u) && (name in u ==> name in cache')
    ensures CheckedCached(cache', AfterRemove(heap, supports, t, name, outPoint), names + if marked then {name} else {})
  {
    hide IsMakeHeap, Closed, AfterRemove, Shrunk;
    RemovedOf(heap, supports, t, name, outPoint);
  }

  /** A removal that fails leaves the claim in front that controlled. */
  lemma FailedRemoveWatched(heap: seq<ClaimValue> -> seq<ClaimValue>, supports: seq<SupportValue>, b: Tree, t: Tree,
                            names: set<Name>, name: Name, outPoint: OutPoint)
    requires IsMakeHeap(heap) && Closed(t) && Watched(b, t, names)
    requires FindOutPoint(ClaimsAt(t, name), outPoint) == |ClaimsAt(t, name)|
    requires UniqueClaims(ClaimsAt(t, name)) && FrontControls(ClaimsAt(t, name), supports)
    ensures Watched(b, AfterRemove(heap, supports, t, name, outPoint), names)
  {
    hide IsMakeHeap, Closed, AfterRemove, ClaimsAt, FindOutPoint, Reordered, FrontControls, UniqueClaims, ClaimBag;
    RemovedOf(heap, supports, t, name, outPoint);
    ReorderedControls(heap, ClaimsAt(t, name), supports);
    if ClaimsAt(t, name) != [] {
      FrontUnique(ClaimsAt(t, name), Reordered(heap, ClaimsAt(t, name), supports), supports);
    }
  }

  // ---------- marks ----------

  lemma StillMarked(v: TrieView, w: TrieView, name: Name, marked: bool, checked: bool)
    requires HashesHold(v) && SameGround(v, w)
    requires HashInv(w.hash, HeightsIn(w.required, w.heights, w.base), w.base, w.cache, w.hashes, w.dirty)
    requires w.dirty == v.dirty + if marked then Prefixes(name) else {}
    requires w.names == v.names + if marked && checked then {name} else {}
    ensures HashesHold(w)
  {
    hide HashInv, Prefixes, HeightsIn;
  }

  // ---------- insertions and removals ----------

  /** What an insertion does to a view. */
  ghost predicate Inserts(v: TrieView, w: TrieView, name: Name, claim: ClaimValue, checked: bool)
  {
    && IsMakeHeap(v.heap) && Lays(v.base, v.cache) && Lays(w.base, w.cache)
    && Closed(v.Trie()) && SameGround(v, w) && v.cache.Keys + {name} <= w.cache.Keys
    && w.Trie() == AfterInsert(v.heap, v.SupportsOf(name), v.Trie(), name, claim)
    && Marks(v, w, name, TopChanged(ClaimsAt(v.Trie(), name), ClaimsAt(w.Trie(), name)), checked)
    && HashesCarried(v, w)
    && (Remembers(v.base, v.cache, v.originals) ==> Remembers(w.base, w.cache, w.originals))
  }

  ghost predicate Marks(v: TrieView, w: TrieView, name: Name, marked: bool, checked: bool)
  {
    && w.dirty == v.dirty + (if marked then Prefixes(name) else {})
    && w.names == v.names + if marked && checked then {name} else {}
  }

  ghost predicate HashesCarried(v: TrieView, w: TrieView)
  {
    HashInv(v.hash, HeightsIn(v.required, v.heights, v.base), v.base, v.cache, v.hashes, v.dirty)
    ==> HashInv(w.hash, HeightsIn(w.required, w.heights, w.base), w.base, w.cache, w.hashes, w.dirty)
  }

  /** What a removal does; a failed one keeps hashes only where the front claim controls. */
  ghost predicate Removes(v: TrieView, w: TrieView, name: Name, outPoint: OutPoint, ok: bool, checked: bool)
  {
    && IsMakeHeap(v.heap) && Lays(v.base, v.cache) && Lays(w.base, w.cache)
    && Closed(v.Trie()) && SameGround(v, w)
    && w.Trie() == AfterRemove(v.heap, v.SupportsOf(name), v.Trie(), name, outPoint)
    && StillCached(v.cache, w.cache, w.Trie()) && (name in w.Trie() ==> name in w.cache)
    && (ok <==> FindOutPoint(ClaimsAt(v.Trie(), name), outPoint) < |ClaimsAt(v.Trie(), name)|)
    && Marks(v, w, name, ok && TopChanged(ClaimsAt(v.Trie(), name), ClaimsAt(w.Trie(), name)), checked)
    && (ok || Orderly(v, name) ==> HashesCarried(v, w))
    && (Remembers(v.base, v.cache, v.originals) ==> Remembers(w.base, w.cache, w.originals))
  }

  /** The claims of one name are unique and the one in front controls. */
  ghost predicate Orderly(v: TrieView, name: Name)
  {
    UniqueClaims(ClaimsAt(v.Trie(), name)) && FrontControls(ClaimsAt(v.Trie(), name), v.SupportsOf(name))
  }

  lemma InsertHashed(v: TrieView, w: TrieView, name: Name, claim: ClaimValue, checked: bool)
    requires Inserts(v, w, name, claim, checked)
    ensures HashesHold(v) ==> HashesHold(w)
  {
    hide HashInv, Prefixes, HeightsIn, TopChanged, ClaimsAt, AfterInsert, Shown, IsMakeHeap, Closed, Remembers;
    if HashesHold(v) {
      StillMarked(v, w, name, TopChanged(ClaimsAt(v.Trie(), name), ClaimsAt(w.Trie(), name)), checked);
    }
  }

  lemma InsertOf(v: TrieView, w: TrieView, name: Name, claim: ClaimValue, checked: bool)
    requires Inserts(v, w, name, claim, checked)
    ensures forall n :: n != name ==> ClaimsAt(w.Trie(), n) == ClaimsAt(v.Trie(), n)
    ensures Controls(v) ==> Controls(w)
  {
    hide ClaimsAt, AfterInsert, Shown, IsMakeHeap, Closed, Remembers, Marks, HashesCarried, Controls;
    InsertOthers(v.heap, v.SupportsOf(name), v.Trie(), name, claim);
    if Controls(v) {
      InsertControls(v, w, name, claim);
    }
  }

  /** An insertion that marks the name. */
  lemma InsertCarries(v: TrieView, w: TrieView, name: Name, claim: ClaimValue)
    requires Inserts(v, w, name, claim, true)
    ensures Carries(v, w)
  {
    hide ClaimsAt, AfterInsert, Shown, IsMakeHeap, Closed, Remembers, HashesCarried, Controls, HashesHold, Watched,
        CheckedCached, TopChanged, Prefixes;
    var marked := TopChanged(ClaimsAt(v.Trie(), name), ClaimsAt(w.Trie(), name));
    InsertHashed(v, w, name, claim, true);
    InsertOf(v, w, name, claim, true);
    if CheckedCached(v.cache, v.Trie(), v.names) {
      InsertCached(v.Trie(), w.Trie(), v.names, name, v.cache, w.cache, marked);
    }
    if Watched(v.base, v.Trie(), v.names) {
      InsertWatched(v.heap, v.SupportsOf(name), v.base, v.Trie(), v.names, name, claim);
    }
  }

  /** An insertion that does not. */
  lemma InsertKeeps(v: TrieView, w: TrieView, name: Name, claim: ClaimValue)
    requires Inserts(v, w, name, claim, false)
    ensures Keeps(v, w)
  {
    hide ClaimsAt, AfterInsert, Shown, IsMakeHeap, Closed, Remembers, HashesCarried, Controls, HashesHold, TopChanged,
        Prefixes;
    InsertHashed(v, w, name, claim, false);
    InsertOf(v, w, name, claim, false);
  }

  lemma RemoveHashed(v: TrieView, w: TrieView, name: Name, outPoint: OutPoint, ok: bool)
    requires Removes(v, w, name, outPoint, ok, true) && (ok || Orderly(v, name))
    ensures HashesHold(v) ==> HashesHold(w)
  {
    hide HashInv, Prefixes, HeightsIn, TopChanged, ClaimsAt, AfterRemove, Shown, IsMakeHeap, Closed, Remembers,
        FindOutPoint, StillCached, UniqueClaims, FrontControls;
    if HashesHold(v) {
      StillMarked(v, w, name, ok && TopChanged(ClaimsAt(v.Trie(), name), ClaimsAt(w.Trie(), name)), true);
    }
  }

  /** Even a removal that fails leaves the block with what it has to know. */
  lemma RemoveTracks(v: TrieView, w: TrieView, name: Name, outPoint: OutPoint, ok: bool)
    requires Removes(v, w, name, outPoint, ok, true) && Tracks(v)
    ensures Tracks(w)
  {
    hide TopChanged, ClaimsAt, AfterRemove, Shown, IsMakeHeap, Closed, Remembers, FindOutPoint, StillCached,
        CheckedCached, HashesCarried, Orderly, Prefixes;
    RemoveCached(v.heap, v.SupportsOf(name), v.Trie(), v.names, name, outPoint, v.cache, w.cache,
                 ok && TopChanged(ClaimsAt(v.Trie(), name), ClaimsAt(w.Trie(), name)));
  }

  lemma RemoveWatches(v: TrieView, w: TrieView, name: Name, outPoint: OutPoint, ok: bool)
    requires Removes(v, w, name, outPoint, ok, true) && (ok || Orderly(v, name)) && Watches(v)
    ensures Watches(w)
  {
    hide TopChanged, ClaimsAt, AfterRemove, Shown, IsMakeHeap, Closed, Remembers, FindOutPoint, StillCached, Watched,
        HashesCarried, UniqueClaims, FrontControls, Prefixes;
    if ok {
      RemoveWatched(v.heap, v.SupportsOf(name), v.base, v.Trie(), v.names, name, outPoint);
    } else {
      assert w.names == v.names + {} == v.names;
      FailedRemoveWatched(v.heap, v.SupportsOf(name), v.base, v.Trie(), v.names, name, outPoint);
    }
  }

  /** A removal that succeeds, or one that fails where the front claim controls. */
  lemma RemoveCarries(v: TrieView, w: TrieView, name: Name, outPoint: OutPoint, ok: bool)
    requires Removes(v, w, name, outPoint, ok, true) && (ok || Orderly(v, name))
    ensures Carries(v, w)
  {
    hide TopChanged, ClaimsAt, AfterRemove, Shown, IsMakeHeap, Closed, FindOutPoint, StillCached, HashesCarried,
        Orderly, Marks, Tracks, Watches, HashesHold, Controls;
    RemoveHashed(v, w, name, outPoint, ok);
    if Tracks(v) {
      RemoveTracks(v, w, name, outPoint, ok);
    }
    if Watches(v) {
      RemoveWatches(v, w, name, outPoint, ok);
    }
    if Controls(v) {
      RemoveControls(v, w, name, outPoint);
    }
  }

  // ---------- takeover heights ----------

  /** Below a name whose prefixes are marked there is no unmarked node above it. */
  lemma StampOk(h: HashFn, tk: Name -> int, tk': Name -> int, t: Tree, ch: map<Name, Digest>, dirty: set<Name>,
      name: Name)
    requires Closed(t) && HashesOk(h, tk, t, ch, dirty) && Prefixes(name) <= dirty
    requires forall q :: q != name ==> tk(q) == tk'(q)
    ensures HashesOk(h, tk', t, ch, dirty)
  {
    hide Closed, NodeHash, Prefixes;
    forall p | p in t && p !in dirty
      ensures NodeHash(h, tk, t, p) == NodeHash(h, tk', t, p)
    {
      InPrefixes(name, p);
      NodeHashHeights(h, tk, tk', t, p);
    }
  }

  lemma HeightsStamped(required: bool, heights: map<Name, int>, b: Tree, name: Name, height: int)
    ensures forall q ::
        q != name ==> HeightsIn(required, heights, b)(q) == HeightsIn(required, heights[name := height], b)(q)
  {
  }

  /** The takeover height of a marked name may change. */
  lemma StampHashed(v: TrieView, name: Name, height: int)
    requires name in v.names && HashesHold(v)
    ensures HashesHold(v.(heights := v.heights[name := height]))
  {
    hide Shown, CopiesHash, Prefixes, HashesOk, Closed;
    var w := v.(heights := v.heights[name := height]);
    var tk, tk' := HeightsIn(v.required, v.heights, v.base), HeightsIn(w.required, w.heights, w.base);
    HeightsStamped(v.required, v.heights, v.base, name, height);
    StampOk(v.hash, tk, tk', v.Trie(), v.hashes, v.dirty, name);
  }

  /** Draining a name and then setting its height. */
  lemma KeepsSettles(v: TrieView, w: TrieView, name: Name, height: int)
    requires Keeps(v, w) && name in v.names
    ensures Settles(v, w) && (name in w.cache ==> Settles(v, w.(heights := w.heights[name := height])))
  {
    hide HashesHold, Controls;
    if HashesHold(w) {
      StampHashed(w, name, height);
    }
    ControlsOther(w, w.(heights := w.heights[name := height]));
  }

  lemma ControlsOther(v: TrieView, w: TrieView)
    requires w.base == v.base && w.cache == v.cache && w.supports == v.supports
    ensures Controls(v) <==> Controls(w)
  {
    hide UniqueClaims, FrontControls, ClaimsAt, Shown;
    assert v.Trie() == w.Trie() && forall n :: v.SupportsOf(n) == w.SupportsOf(n);
  }

  /** Whatever happened to one name to be looked at, those that hold claims are still cached. */
  lemma StillTracks(v: TrieView, w: TrieView, name: Name, heights: map<Name, int>)
    requires Tracks(v) && Keeps(v, w)
    requires SameOthers(v.Trie(), w.Trie(), name)
    requires ClaimsAt(w.Trie(), name) == ClaimsAt(v.Trie(), name) || name in w.cache
    ensures Tracks(w) && Tracks(w.(heights := heights)) && w.names == v.names
    ensures name in v.names && ClaimsAt(w.Trie(), name) != [] ==> name in w.cache
  {
    hide ClaimsAt, Shown, Remembers, HashesHold, Controls;
  }

  /** A new cache knows all it has to. */
  lemma FreshView(v: TrieView)
    requires Closed(v.base) && v.cache == map[] && v.originals == map[] && v.names == {} && v.dirty == {}
        && v.hashes == map[]
    ensures Tracks(v) && Watches(v) && v.Trie() == v.base
    ensures HashesRight(v.hash, HeightsIn(v.required, v.heights, v.base), v.base) ==> HashesHold(v)
  {
    hide Closed, HashInv, HashesRight, Remembers, Shown, HeightsIn;
    FreshCache(v.base);
    FreshRemembers(v.base);
    if HashesRight(v.hash, HeightsIn(v.required, v.heights, v.base), v.base) {
      FreshHashInv(v.hash, HeightsIn(v.required, v.heights, v.base), v.base);
    }
  }

  /** What a block leaves for the next one. */
  ghost predicate Closes(v: TrieView, w: TrieView)
  {
    && w == v.(heights := w.heights, cache := w.cache, originals := w.cache, dirty := w.dirty, names := {})
    && (HashesHold(v) ==> HashesHold(w))
    && (Controls(v) ==> Controls(w))
    && (forall n :: n in w.heights ==> n in v.heights || n in w.cache)
  }

  lemma ClosesAt(v: TrieView, w: TrieView, x: TrieView)
    requires Carries(v, w) && Settles(w, x)
    ensures Closes(v, x.(originals := x.cache, names := {}))
  {
    hide Tracks, Watches, HashesHold, Controls;
    var y := x.(originals := x.cache, names := {});
    ControlsOther(x, y);
    if HashesHold(x) {
      NoNamesHashed(x, y);
    }
  }

  /** Names to look at that were marked stay marked. */
  lemma MarkedStill(v: TrieView, w: TrieView, taken: set<Name>)
    requires HashesHold(v) && Settles(v, w) && taken <= v.names
    ensures forall n :: n in taken ==> Prefixes(n) <= w.dirty
  {
    hide HashInv, Prefixes, HeightsIn, Controls;
  }

  lemma NoNamesHashed(v: TrieView, w: TrieView)
    requires HashesHold(v) && w == v.(originals := w.originals, names := {})
    ensures HashesHold(w)
  {
    hide HashInv, Prefixes, HeightsIn;
  }

  // ---------- taking a block back ----------

  /** For given takeover heights, every hash that is not marked is right. */
  ghost predicate HashesFor(v: TrieView, tk: Name -> int)
  {
    HashInv(v.hash, tk, v.base, v.cache, v.hashes, v.dirty)
  }

  ghost function MarkedNames(dirty: set<Name>): set<Name>
  {
    set n | n in dirty && Prefixes(n) <= dirty
  }

  /** Every name whose front claim is not that of the base has its whole path marked. */
  ghost predicate Noticed(v: TrieView)
  {
    Watched(v.base, v.Trie(), MarkedNames(v.dirty))
  }

  /** A change without a look at who controls: whatever the takeover heights are, it keeps
      hashes, and it marks what it changes. */
  ghost predicate Undoes(v: TrieView, w: TrieView)
  {
    && SameGround(v, w) && w.names == v.names && v.dirty <= w.dirty
    && (forall tk: Name -> int :: HashesFor(v, tk) ==> HashesFor(w, tk))
    && (Noticed(v) ==> Noticed(w))
    && (Controls(v) ==> Controls(w))
  }

  lemma UndoesSelf(v: TrieView)
    ensures Undoes(v, v)
  {
    hide HashesFor, Noticed, Controls;
  }

  lemma UndoesOn(v: TrieView, w: TrieView, x: TrieView)
    requires Undoes(v, w) && Undoes(w, x)
    ensures Undoes(v, x)
  {
    hide HashesFor, Noticed, Controls;
  }

  lemma MoreWatched(b: Tree, t: Tree, names: set<Name>, more: set<Name>)
    requires Watched(b, t, names) && names <= more
    ensures Watched(b, t, more)
  {
    hide ClaimsAt;
  }

  lemma NowMarked(dirty: set<Name>, name: Name, marked: bool)
    ensures MarkedNames(dirty) + (if marked then {name} else {})
        <= MarkedNames(dirty + if marked then Prefixes(name) else {})
  {
    InPrefixes(name, name);
    hide Prefixes;
  }

  lemma InsertNoticed(v: TrieView, w: TrieView, name: Name, claim: ClaimValue)
    requires Inserts(v, w, name, claim, false) && Noticed(v)
    ensures Noticed(w)
  {
    hide ClaimsAt, AfterInsert, Shown, IsMakeHeap, Closed, Remembers, HashesCarried, Watched, TopChanged, MarkedNames,
        Prefixes, Lays;
    var marked := TopChanged(ClaimsAt(v.Trie(), name), ClaimsAt(w.Trie(), name));
    InsertWatched(v.heap, v.SupportsOf(name), v.base, v.Trie(), MarkedNames(v.dirty), name, claim);
    NowMarked(v.dirty, name, marked);
    MoreWatched(w.base, w.Trie(), MarkedNames(v.dirty) + (if marked then {name} else {}), MarkedNames(w.dirty));
  }

  lemma RemoveNoticed(v: TrieView, w: TrieView, name: Name, outPoint: OutPoint)
    requires Removes(v, w, name, outPoint, true, false) && Noticed(v)
    ensures Noticed(w)
  {
    hide ClaimsAt, AfterRemove, Shown, IsMakeHeap, Closed, Remembers, HashesCarried, Watched, TopChanged, MarkedNames,
        Prefixes, Lays, FindOutPoint, StillCached, Orderly;
    var marked := TopChanged(ClaimsAt(v.Trie(), name), ClaimsAt(w.Trie(), name));
    RemoveWatched(v.heap, v.SupportsOf(name), v.base, v.Trie(), MarkedNames(v.dirty), name, outPoint);
    NowMarked(v.dirty, name, marked);
    MoreWatched(w.base, w.Trie(), MarkedNames(v.dirty) + (if marked then {name} else {}), MarkedNames(w.dirty));
  }

  lemma InsertHashesFor(v: TrieView, w: TrieView, name: Name, claim: ClaimValue, tk: Name -> int)
    requires Inserts(v, w, name, claim, false) && HashesFor(v, tk)
    ensures HashesFor(w, tk)
  {
    hide ClaimsAt, Inserted, Shown, IsMakeHeap, Closed, Remembers, HashesCarried, TopChanged, Prefixes, Lays, HashInv,
        Reordered, FrontControls, UniqueClaims;
    var grown := Grown(v.heap, ClaimsAt(v.Trie(), name), claim, v.SupportsOf(name));
    InsertedAt(v.Trie(), name, grown, name);
    ReorderedControls(v.heap, ClaimsAt(v.Trie(), name) + [claim], v.SupportsOf(name));
    InsertKeepsHashes(v.hash, tk, v.base, v.cache, w.cache, v.hashes, v.dirty, w.dirty, name, grown);
  }

  lemma RemoveHashesFor(v: TrieView, w: TrieView, name: Name, outPoint: OutPoint, tk: Name -> int)
    requires Removes(v, w, name, outPoint, true, false) && HashesFor(v, tk)
    ensures HashesFor(w, tk)
  {
    hide ClaimsAt, AfterRemove, Shown, IsMakeHeap, Closed, Remembers, HashesCarried, TopChanged, Prefixes, Lays,
        HashInv, FindOutPoint, StillCached, Orderly;
    AfterRemoveKeepsHashes(v.hash, tk, v.heap, v.SupportsOf(name), v.base, v.cache, w.cache, v.hashes, v.dirty, w.dirty,
        name, outPoint);
  }

  lemma InsertUndoes(v: TrieView, w: TrieView, name: Name, claim: ClaimValue)
    requires Inserts(v, w, name, claim, false)
    ensures Undoes(v, w)
  {
    hide Noticed, HashesFor, ClaimsAt, AfterInsert, Shown, IsMakeHeap, Closed, Remembers, HashesCarried, TopChanged,
        Prefixes, Lays, Controls;
    InsertOf(v, w, name, claim, false);
    if Noticed(v) {
      InsertNoticed(v, w, name, claim);
    }
    forall tk: Name -> int | HashesFor(v, tk)
      ensures HashesFor(w, tk)
    {
      InsertHashesFor(v, w, name, claim, tk);
    }
  }

  lemma RemoveUndoes(v: TrieView, w: TrieView, name: Name, outPoint: OutPoint)
    requires Removes(v, w, name, outPoint, true, false)
    ensures Undoes(v, w)
  {
    hide Noticed, HashesFor, ClaimsAt, AfterRemove, Shown, IsMakeHeap, Closed, Remembers, HashesCarried, TopChanged,
        Prefixes, Lays, Controls, FindOutPoint, StillCached, Orderly;
    if Controls(v) {
      RemoveControls(v, w, name, outPoint);
    }
    if Noticed(v) {
      RemoveNoticed(v, w, name, outPoint);
    }
    forall tk: Name -> int | HashesFor(v, tk)
      ensures HashesFor(w, tk)
    {
      RemoveHashesFor(v, w, name, outPoint, tk);
    }
  }

  /** Takeover heights of names whose whole paths are marked may change. */
  lemma OtherHeights(v: TrieView, tk: Name -> int, tk': Name -> int)
    requires HashesFor(v, tk) && forall n :: tk(n) != tk'(n) ==> Prefixes(n) <= v.dirty
    ensures HashesFor(v, tk')
  {
    hide Closed, NodeHash, Prefixes, Shown, CopiesHash;
    var t := v.Trie();
    forall p | p in t && p !in v.dirty
      ensures NodeHash(v.hash, tk, t, p) == NodeHash(v.hash, tk', t, p)
    {
      forall q | p <= q
        ensures tk(q) == tk'(q)
      {
        InPrefixes(q, p);
      }
      NodeHashHeights(v.hash, tk, tk', t, p);
    }
  }
}
