/** Runs of insertions and removals against the plain map from name to claims they stand for. */
module ClaimMap {
  import opened ClaimTypes
  import opened NameTree
  import opened PathOps

  datatype Op = Insert(name: Name, claim: ClaimValue) | Remove(name: Name, outPoint: OutPoint)

  /** What a run works with: how heaps are made, and the supports of every name. */
  datatype Env = Env(heap: seq<ClaimValue> -> seq<ClaimValue>, supports: map<Name, seq<SupportValue>>) {
    function SupportsOf(name: Name): seq<SupportValue> {
      if name in supports then supports[name] else []
    }
  }

  type PlainMap = map<Name, multiset<ClaimValue>>

  /** The trie as a plain map from name to the claims it holds. */
  ghost function Plainly(t: Tree): PlainMap
  {
    map p | p in t && t[p].claims != [] :: ClaimBag(t[p].claims)
  }

  ghost function Bag(m: PlainMap, name: Name): multiset<ClaimValue>
  {
    if name in m then m[name] else multiset{}
  }

  ghost function Put(m: PlainMap, name: Name, bag: multiset<ClaimValue>): PlainMap
  {
    if bag == multiset{} then m - {name} else m[name := bag]
  }

  /** The same operation on a plain map: a removal takes one claim with that outpoint,
      or, if there is none, changes nothing. */
  ghost predicate PlainStep(m: PlainMap, op: Op, m': PlainMap)
  {
    match op
    case Insert(name, claim) => m' == Put(m, name, Bag(m, name) + multiset{Plain(claim)})
    case Remove(name, outPoint) =>
      if exists c :: c in Bag(m, name) && c.outPoint == outPoint then
        exists c :: c in Bag(m, name) && c.outPoint == outPoint && m' == Put(m, name, Bag(m, name) - multiset{c})
      else m' == m
  }

  ghost function Step(env: Env, t: Tree, op: Op): (r: Tree)
    requires Closed(t)
    ensures Closed(r)
  {
    match op
    case Insert(name, claim) => AfterInsert(env.heap, env.SupportsOf(name), t, name, claim)
    case Remove(name, outPoint) => AfterRemove(env.heap, env.SupportsOf(name), t, name, outPoint)
  }

  ghost function Run(env: Env, t: Tree, ops: seq<Op>): (r: Tree)
    requires Closed(t)
    ensures Closed(r)
    decreases |ops|
  {
    if ops == [] then t else Step(env, Run(env, t, ops[..|ops| - 1]), ops[|ops| - 1])
  }

  // ---------- one step ----------

  lemma BagAt(t: Tree, p: Name)
    ensures Bag(Plainly(t), p) == ClaimBag(ClaimsAt(t, p))
  {
  }

  /** Two tries that agree on the claims of every name but one. */
  lemma PlainlyExcept(t: Tree, u: Tree, name: Name, bag: multiset<ClaimValue>)
    requires forall q :: q != name ==> ClaimsAt(u, q) == ClaimsAt(t, q)
    requires ClaimBag(ClaimsAt(u, name)) == bag
    ensures Plainly(u) == Put(Plainly(t), name, bag)
  {
    forall q
      ensures q in Plainly(u) <==> q in Put(Plainly(t), name, bag)
      ensures q in Plainly(u) ==> Plainly(u)[q] == Put(Plainly(t), name, bag)[q]
    {
      PlainlyAt(t, u, name, bag, q);
    }
  }

  lemma NoClaims(claims: seq<ClaimValue>)
    ensures ClaimBag(claims) == multiset{} <==> claims == []
  {
    InClaimBag(claims, if claims == [] then Plain(ClaimValue(OutPoint(NULL_DIGEST, 0), 0, 0, 0, 0, 0))
        else Plain(claims[0]));
  }

  lemma PlainlyAt(t: Tree, u: Tree, name: Name, bag: multiset<ClaimValue>, q: Name)
    requires q != name ==> ClaimsAt(u, q) == ClaimsAt(t, q)
    requires ClaimBag(ClaimsAt(u, name)) == bag
    ensures q in Plainly(u) <==> q in Put(Plainly(t), name, bag)
    ensures q in Plainly(u) ==> Plainly(u)[q] == Put(Plainly(t), name, bag)[q]
  {
    NoClaims(ClaimsAt(u, name));
    assert q in Plainly(u) <==> ClaimsAt(u, q) != [];
    assert q in Plainly(t) <==> ClaimsAt(t, q) != [];
  }

  lemma GrownBag(heap: seq<ClaimValue> -> seq<ClaimValue>, claims: seq<ClaimValue>, claim: ClaimValue,
      supports: seq<SupportValue>)
    requires IsMakeHeap(heap)
    ensures ClaimBag(Grown(heap, claims, claim, supports)) == ClaimBag(claims) + multiset{Plain(claim)}
  {
    hide IsMakeHeap;
    ReorderedControls(heap, claims + [claim], supports);
    ClaimBagWithout(claims + [claim], |claims|);
    assert (claims + [claim])[..|claims|] + (claims + [claim])[|claims| + 1..] == claims;
    if claims == [] {
      assert [] + [claim] == [claim];
    }
  }

  lemma ShrunkBag(heap: seq<ClaimValue> -> seq<ClaimValue>, claims: seq<ClaimValue>, outPoint: OutPoint,
      supports: seq<SupportValue>)
    requires IsMakeHeap(heap)
    ensures var k := FindOutPoint(claims, outPoint);
            ClaimBag(Shrunk(heap, claims, outPoint, supports))
            == if k < |claims| then ClaimBag(claims) - multiset{Plain(claims[k])} else ClaimBag(claims)
  {
    hide IsMakeHeap, FindOutPoint, ClaimBag;
    var k := FindOutPoint(claims, outPoint);
    var rest := if k < |claims| then claims[..k] + claims[k + 1..] else claims;
    ReorderedControls(heap, rest, supports);
    if k < |claims| {
      ClaimBagWithout(claims, k);
    }
  }

  lemma InsertRefines(env: Env, t: Tree, name: Name, claim: ClaimValue)
    requires IsMakeHeap(env.heap) && Closed(t)
    ensures PlainStep(Plainly(t), Insert(name, claim), Plainly(Step(env, t, Insert(name, claim))))
  {
    hide IsMakeHeap, Closed, Plainly;
    var grown := Grown(env.heap, ClaimsAt(t, name), claim, env.SupportsOf(name));
    var u := Step(env, t, Insert(name, claim));
    forall q
      ensures ClaimsAt(u, q) == if q == name then grown else ClaimsAt(t, q)
    {
      InsertedAt(t, name, grown, q);
    }
    GrownBag(env.heap, ClaimsAt(t, name), claim, env.SupportsOf(name));
    BagAt(t, name);
    PlainlyExcept(t, u, name, Bag(Plainly(t), name) + multiset{Plain(claim)});
  }

  lemma AfterRemoveAt(env: Env, t: Tree, name: Name, outPoint: OutPoint, q: Name)
    requires IsMakeHeap(env.heap) && Closed(t)
    ensures ClaimsAt(AfterRemove(env.heap, env.SupportsOf(name), t, name, outPoint), q)
            == if q == name then Shrunk(env.heap, ClaimsAt(t, name), outPoint, env.SupportsOf(name)) else ClaimsAt(t, q)
  {
    hide IsMakeHeap, Closed, Reordered;
    var after := Shrunk(env.heap, ClaimsAt(t, name), outPoint, env.SupportsOf(name));
    if name in t {
      RemovedAt(t, name, after, q);
    }
  }

  lemma RemoveRefines(env: Env, t: Tree, name: Name, outPoint: OutPoint)
    requires IsMakeHeap(env.heap) && Closed(t)
    ensures PlainStep(Plainly(t), Remove(name, outPoint), Plainly(Step(env, t, Remove(name, outPoint))))
  {
    hide IsMakeHeap, Closed, Plainly, Shrunk, AfterRemove;
    var before := ClaimsAt(t, name);
    var k := FindOutPoint(before, outPoint);
    var u := Step(env, t, Remove(name, outPoint));
    forall q
      ensures ClaimsAt(u, q) == if q == name then Shrunk(env.heap, before, outPoint, env.SupportsOf(name))
          else ClaimsAt(t, q)
    {
      AfterRemoveAt(env, t, name, outPoint, q);
    }
    ShrunkBag(env.heap, before, outPoint, env.SupportsOf(name));
    BagAt(t, name);
    PlainlyExcept(t, u, name, ClaimBag(ClaimsAt(u, name)));
    HasOutPoint(before, outPoint);
    if k < |before| {
      TakeStep(Plainly(t), name, outPoint, Plain(before[k]));
    } else {
      PlainlyExcept(t, t, name, ClaimBag(before));
    }
  }

  lemma TakeStep(m: PlainMap, name: Name, outPoint: OutPoint, c: ClaimValue)
    requires c in Bag(m, name) && c.outPoint == outPoint
    ensures PlainStep(m, Remove(name, outPoint), Put(m, name, Bag(m, name) - multiset{c}))
  {
  }

  lemma HasOutPoint(claims: seq<ClaimValue>, outPoint: OutPoint)
    ensures var k := FindOutPoint(claims, outPoint);
            && (k < |claims| ==> Plain(claims[k]) in ClaimBag(claims))
            && (k == |claims| ==> forall c :: c in ClaimBag(claims) ==> c.outPoint != outPoint)
  {
    var k := FindOutPoint(claims, outPoint);
    if k < |claims| {
      InClaimBag(claims, Plain(claims[k]));
    } else {
      forall c | c in ClaimBag(claims)
        ensures c.outPoint != outPoint
      {
        InClaimBag(claims, c);
      }
    }
  }

  // ---------- whole runs ----------

  /** A run of the plain map: one state more than there are operations. */
  ghost predicate PlainRun(states: seq<PlainMap>, ops: seq<Op>, first: PlainMap, last: PlainMap)
  {
    && |states| == |ops| + 1 && states[0] == first && states[|ops|] == last
    && forall i :: 0 <= i < |ops| ==> PlainStep(states[i], ops[i], states[i + 1])
  }

  lemma StepRefines(env: Env, t: Tree, op: Op)
    requires IsMakeHeap(env.heap) && Closed(t)
    ensures PlainStep(Plainly(t), op, Plainly(Step(env, t, op)))
  {
    match op
    case Insert(name, claim) => InsertRefines(env, t, name, claim);
    case Remove(name, outPoint) => RemoveRefines(env, t, name, outPoint);
  }

  /** Every run acts on the claims as a run of the same operations on a plain map. */
  lemma {:induction false} RunRefines(env: Env, t: Tree, ops: seq<Op>)
    requires IsMakeHeap(env.heap) && Closed(t)
    ensures exists states :: PlainRun(states, ops, Plainly(t), Plainly(Run(env, t, ops)))
    decreases |ops|
  {
    hide IsMakeHeap, Closed, Plainly, PlainStep, Step;
    if ops == [] {
      assert PlainRun([Plainly(t)], ops, Plainly(t), Plainly(Run(env, t, ops)));
    } else {
      var last := |ops| - 1;
      RunRefines(env, t, ops[..last]);
      var before :| PlainRun(before, ops[..last], Plainly(t), Plainly(Run(env, t, ops[..last])));
      StepRefines(env, Run(env, t, ops[..last]), ops[last]);
      var states := before + [Plainly(Run(env, t, ops))];
      forall i | 0 <= i < |ops|
        ensures PlainStep(states[i], ops[i], states[i + 1])
      {
        assert i < last ==> ops[..last][i] == ops[i];
      }
      assert PlainRun(states, ops, Plainly(t), Plainly(Run(env, t, ops)));
    }
  }

  lemma StepPruned(env: Env, t: Tree, op: Op)
    requires IsMakeHeap(env.heap) && Closed(t) && Pruned(t)
    ensures Pruned(Step(env, t, op))
  {
    hide IsMakeHeap, Closed, Pruned, Reordered;
    match op
    case Insert(name, claim) =>
      ReorderedControls(env.heap, ClaimsAt(t, name) + [claim], env.SupportsOf(name));
      InsertedPruned(t, name, Grown(env.heap, ClaimsAt(t, name), claim, env.SupportsOf(name)));
    case Remove(name, outPoint) =>
      var after := Shrunk(env.heap, ClaimsAt(t, name), outPoint, env.SupportsOf(name));
      if ClaimsAt(t, name) != [] {
        RemovedPruned(t, name, after);
        ReorderedControls(env.heap, ClaimsAt(t, name), env.SupportsOf(name));
        if after != [] {
          StillPruned(t, name, after);
        }
      }
  }

  /** No run leaves an empty node: the nodes are those the claims need, and no others. */
  lemma {:induction false} RunPruned(env: Env, t: Tree, ops: seq<Op>, p: Name)
    requires IsMakeHeap(env.heap) && Closed(t) && Pruned(t)
    ensures Pruned(Run(env, t, ops))
    ensures p in Run(env, t, ops) <==> p == [] || exists q :: q in Plainly(Run(env, t, ops)) && p <= q
    decreases |ops|
  {
    hide IsMakeHeap, Closed, Pruned, Step;
    if ops != [] {
      RunPruned(env, t, ops[..|ops| - 1], p);
      StepPruned(env, Run(env, t, ops[..|ops| - 1]), ops[|ops| - 1]);
    }
    NodesArePrefixes(Run(env, t, ops), p);
    var u := Run(env, t, ops);
    if q :| q in u && u[q].claims != [] && p <= q {
      assert q in Plainly(u);
    }
    if q :| q in Plainly(u) && p <= q {
      assert q in u && u[q].claims != [];
    }
  }

  // ---------- control ----------

  /** In every name ids and outpoints are unique and the front claim controls. */
  ghost predicate Controlled(env: Env, t: Tree)
  {
    forall p :: UniqueClaims(ClaimsAt(t, p)) && FrontControls(ClaimsAt(t, p), env.SupportsOf(p))
  }

  /** An insertion brings an id and an outpoint its name does not hold yet. */
  ghost predicate Fresh(t: Tree, op: Op)
  {
    op.Insert? ==>
      forall i :: 0 <= i < |ClaimsAt(t, op.name)| ==>
        ClaimsAt(t, op.name)[i].claimId != op.claim.claimId && ClaimsAt(t, op.name)[i].outPoint != op.claim.outPoint
  }

  lemma ShrunkUnique(claims: seq<ClaimValue>, k: nat)
    requires UniqueClaims(claims) && k < |claims|
    ensures UniqueClaims(claims[..k] + claims[k + 1..])
  {
  }

  /** Every step leaves the controlling claim in front, even a removal that fails. */
  lemma StepControls(env: Env, t: Tree, op: Op)
    requires IsMakeHeap(env.heap) && Closed(t) && Controlled(env, t) && Fresh(t, op)
    ensures Controlled(env, Step(env, t, op))
  {
    hide IsMakeHeap, Closed, UniqueClaims, FrontControls, Reordered;
    var before := ClaimsAt(t, op.name);
    forall p
      ensures UniqueClaims(ClaimsAt(Step(env, t, op), p))
          && FrontControls(ClaimsAt(Step(env, t, op), p), env.SupportsOf(p))
    {
      assert UniqueClaims(ClaimsAt(t, p)) && FrontControls(ClaimsAt(t, p), env.SupportsOf(p));
      match op
      case Insert(name, claim) =>
        InsertedAt(t, name, Grown(env.heap, before, claim, env.SupportsOf(name)), p);
        FreshUnique(before, claim);
        LoneClaim(claim, env.SupportsOf(p));
        ReorderedControls(env.heap, before + [claim], env.SupportsOf(name));
      case Remove(name, outPoint) =>
        AfterRemoveAt(env, t, name, outPoint, p);
        ShrunkControls(env.heap, before, outPoint, env.SupportsOf(name));
    }
  }

  lemma FreshUnique(claims: seq<ClaimValue>, claim: ClaimValue)
    requires UniqueClaims(claims)
    requires forall i ::
        0 <= i < |claims| ==> claims[i].claimId != claim.claimId && claims[i].outPoint != claim.outPoint
    ensures UniqueClaims(claims + [claim])
  {
  }

  lemma LoneClaim(claim: ClaimValue, supports: seq<SupportValue>)
    ensures UniqueClaims([claim]) && FrontControls([claim], supports)
    ensures UniqueClaims([]) && FrontControls([], supports)
  {
  }

  lemma ShrunkControls(heap: seq<ClaimValue> -> seq<ClaimValue>, claims: seq<ClaimValue>, outPoint: OutPoint,
      supports: seq<SupportValue>)
    requires IsMakeHeap(heap) && UniqueClaims(claims)
    ensures UniqueClaims(Shrunk(heap, claims, outPoint, supports))
        && FrontControls(Shrunk(heap, claims, outPoint, supports), supports)
  {
    hide IsMakeHeap, UniqueClaims, FrontControls, Reordered, FindOutPoint;
    var k := FindOutPoint(claims, outPoint);
    var rest := if k < |claims| then claims[..k] + claims[k + 1..] else claims;
    if k < |claims| {
      ShrunkUnique(claims, k);
    }
    if rest == [] {
      LoneClaim(ClaimValue(OutPoint(NULL_DIGEST, 0), 0, 0, 0, 0, 0), supports);
    } else {
      ReorderedControls(heap, rest, supports);
    }
  }

  ghost predicate FreshRun(env: Env, t: Tree, ops: seq<Op>)
    requires Closed(t)
  {
    forall i :: 0 <= i < |ops| ==> Fresh(Run(env, t, ops[..i]), ops[i])
  }

  /** After any run the front claim of a name beats every other claim the plain map gives
      it, by amount with supports, then age, then outpoint. */
  lemma {:induction false} RunControls(env: Env, t: Tree, ops: seq<Op>)
    requires IsMakeHeap(env.heap) && Closed(t) && Controlled(env, t) && FreshRun(env, t, ops)
    ensures Controlled(env, Run(env, t, ops))
    decreases |ops|
  {
    hide IsMakeHeap, Closed, Controlled, Step, Fresh;
    if ops != [] {
      var last := |ops| - 1;
      assert forall i :: 0 <= i < last ==> ops[..last][..i] == ops[..i] && ops[..last][i] == ops[i];
      RunControls(env, t, ops[..last]);
      StepControls(env, Run(env, t, ops[..last]), ops[last]);
    }
  }
}
