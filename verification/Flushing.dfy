/** What a trie looks like while the nodes of a cache are written into it one by one. */
module Flushing {
  import opened ClaimTypes
  import opened NameTree
  import opened PathOps
  import opened Overlay

  // ---------- one name written ----------

  /** q lies below a child of name that is not among those to keep. */
  predicate Dropped(name: Name, keep: set<Byte>, q: Name)
  {
    |name| < |q| && name <= q && q[|name|] !in keep
  }

  /** A node made where it is missing. */
  function Ensured(t: Tree, name: Name): Tree
    requires name in t || (name != [] && Parent(name) in t)
  {
    if name in t then t else WithChild(t, Parent(name), Last(name))
  }

  /** The claims taken over, and the children that are gone cut off with all they hold. */
  ghost function Updated(t: Tree, name: Name, n: Node): Tree
    requires name in t || (name != [] && Parent(name) in t)
  {
    var u := Ensured(t, name);
    map q | q in u && !Dropped(name, n.children, q) ::
      if q == name then Node(u[q].hash, u[q].children * n.children, u[q].nHeightOfLastTakeover, n.claims) else u[q]
  }

  lemma EnsuredClosed(t: Tree, name: Name)
    requires Closed(t) && (name in t || (name != [] && Parent(name) in t))
    ensures Closed(Ensured(t, name)) && name in Ensured(t, name)
    ensures name !in t ==> Last(name) !in t[Parent(name)].children
  {
    if name !in t {
      ChildOfParent(name);
      if Last(name) !in t[Parent(name)].children {
        ClosedWithChild(t, Parent(name), Last(name));
      }
    }
  }

  lemma {:induction false} UpdatedLive(t: Tree, name: Name, n: Node, q: Name)
    requires Closed(t) && (name in t || (name != [] && Parent(name) in t))
    ensures q in Updated(t, name, n) ==> Live(Updated(t, name, n), q)
    decreases |q|
  {
    hide Closed;
    EnsuredClosed(t, name);
    var u, r := Ensured(t, name), Updated(t, name, n);
    if q in r && q != [] {
      ClosedHas(u, q, |q| - 1);
      UpdatedLive(t, name, n, Parent(q));
      assert Parent(q) == q[..|q| - 1];
      assert name == Parent(q) ==> name <= q;
      assert Dropped(name, n.children, Parent(q)) ==> Dropped(name, n.children, q);
    }
  }

  lemma UpdatedClosed(t: Tree, name: Name, n: Node)
    requires Closed(t) && (name in t || (name != [] && Parent(name) in t))
    ensures Closed(Updated(t, name, n))
  {
    hide Closed;
    EnsuredClosed(t, name);
    var u, r := Ensured(t, name), Updated(t, name, n);
    UpdatedLinked(t, name, n);
    forall q | q in r
      ensures Live(r, q)
    {
      UpdatedLive(t, name, n, q);
    }
    ClosedIf(r);
  }

  lemma ClosedIf(t: Tree)
    requires [] in t
    requires forall p :: p in t ==> Live(t, p)
    requires forall p, c :: p in t && c in t[p].children ==> Child(p, c) in t
    ensures Closed(t)
  {
  }

  lemma ClosedChild(t: Tree, p: Name, c: Byte)
    requires Closed(t) && p in t && c in t[p].children
    ensures Child(p, c) in t
  {
  }

  lemma DroppedUp(name: Name, keep: set<Byte>, p: Name, c: Byte)
    ensures Dropped(name, keep, Child(p, c)) && p != name ==> Dropped(name, keep, p)
    ensures Dropped(name, keep, Child(name, c)) ==> c !in keep
  {
    if |name| <= |p| && name <= Child(p, c) {
      assert name == Child(p, c)[..|name|] == p[..|name|];
    }
  }

  lemma UpdatedLinked(t: Tree, name: Name, n: Node)
    requires Closed(t) && (name in t || (name != [] && Parent(name) in t))
    ensures [] in Updated(t, name, n)
    ensures forall p, c ::
        p in Updated(t, name, n) && c in Updated(t, name, n)[p].children ==> Child(p, c) in Updated(t, name, n)
  {
    hide Closed;
    EnsuredClosed(t, name);
    var u, r := Ensured(t, name), Updated(t, name, n);
    ClosedHas(u, name, 0);
    assert name[..0] == [];
    forall p, c | p in r && c in r[p].children
      ensures Child(p, c) in r
    {
      ClosedChild(u, p, c);
      DroppedUp(name, n.children, p, c);
    }
  }

  // ---------- some names of the cache written ----------

  /** No processed node above p has lost the child p lies below. */
  ghost predicate Kept(cache: Tree, done: set<Name>, p: Name)
    requires done <= cache.Keys
  {
    forall k :: 0 <= k < |p| && p[..k] in done ==> p[k] in cache[p[..k]].children
  }

  /** The node at p: written, with the children that are there already, or as it was. */
  ghost function NodeSoFar(b: Tree, cache: Tree, done: set<Name>, p: Name): Node
    requires done <= cache.Keys && (p in b || p in done)
  {
    var was := if p in b then b[p] else NEW_NODE;
    if p in done then
      Node(was.hash, (set c: Byte | c in cache[p].children && (Child(p, c) in b || Child(p, c) in done)),
           was.nHeightOfLastTakeover, cache[p].claims)
    else was
  }

  ghost function Written(b: Tree, cache: Tree, done: set<Name>): Tree
    requires done <= cache.Keys
  {
    map p | p in b.Keys + done && Kept(cache, done, p) :: NodeSoFar(b, cache, done, p)
  }

  lemma WrittenNothing(b: Tree, cache: Tree)
    ensures Written(b, cache, {}) == b
  {
  }

  /** Names are taken shortest first: all that is shorter is done, nothing longer is. */
  ghost predicate InOrder(cache: Tree, done: set<Name>, name: Name)
  {
    && done <= cache.Keys && name in cache && name !in done
    && (forall q :: q in cache && |q| < |name| ==> q in done)
    && (forall q :: q in done ==> |q| <= |name|)
  }

  lemma KeptLive(b: Tree, cache: Tree, done: set<Name>, p: Name)
    requires Lays(b, cache) && done <= cache.Keys && Live(b + cache, p)
    ensures Kept(cache, done, p)
  {
    forall k | 0 <= k < |p| && p[..k] in done
      ensures p[k] in cache[p[..k]].children
    {
      LivePrefix(b + cache, p, k);
    }
  }

  lemma BaseChild(b: Tree, cache: Tree, p: Name, c: Byte)
    requires Lays(b, cache) && Live(b + cache, Child(p, c)) && p !in cache
    ensures Child(p, c) in b
  {
    assert Live(b, p);
  }

  /** The node to write, or at least its parent, is there. */
  lemma NextThere(b: Tree, cache: Tree, done: set<Name>, name: Name)
    requires Lays(b, cache) && InOrder(cache, done, name)
    ensures var t := Written(b, cache, done); name in t || (name != [] && Parent(name) in t)
    ensures name in Written(b, cache, done) <==> name in b
    ensures name !in b ==> Parent(name) in done && Last(name) in cache[Parent(name)].children
  {
    KeptLive(b, cache, done, name);
    if name !in b {
      var p := Parent(name);
      assert Live(b + cache, p);
      ChildOfParent(name);
      if p !in cache {
        BaseChild(b, cache, p, Last(name));
      }
      KeptLive(b, cache, done, p);
    }
  }

  lemma WriteNextKeys(b: Tree, cache: Tree, done: set<Name>, name: Name, q: Name)
    requires Lays(b, cache) && InOrder(cache, done, name)
    requires var t := Written(b, cache, done); name in t || (name != [] && Parent(name) in t)
    ensures q in Updated(Written(b, cache, done), name, cache[name]) <==> q in Written(b, cache, done + {name})
  {
    hide Lays;
    NextThere(b, cache, done, name);
    if name !in b {
      ChildOfParent(name);
    }
    assert |name| < |q| && name <= q ==> q[..|name|] == name;
    assert Kept(cache, done + {name}, q) <==> Kept(cache, done, q) && !Dropped(name, cache[name].children, q);
    if q == name {
      KeptName(b, cache, done, name);
    }
  }

  lemma KeptName(b: Tree, cache: Tree, done: set<Name>, name: Name)
    requires Lays(b, cache) && InOrder(cache, done, name)
    ensures Kept(cache, done, name)
  {
    KeptLive(b, cache, done, name);
  }

  lemma ChildrenSoFar(b: Tree, cache: Tree, done: set<Name>, p: Name, c: Byte)
    requires Closed(b) && done <= cache.Keys && (p in b || p in done)
    ensures c in NodeSoFar(b, cache, done, p).children <==>
            if p in done then c in cache[p].children && (Child(p, c) in b || Child(p, c) in done) else Child(p, c) in b
  {
    if p in b {
      BaseChildren(b, p, c);
    }
  }

  lemma UpdatedOther(t: Tree, name: Name, n: Node, q: Name, c: Byte)
    requires (name in t || (name != [] && Parent(name) in t)) && q in Updated(t, name, n) && q != name
    ensures q in t
    ensures c in Updated(t, name, n)[q].children
            <==> c in t[q].children || (name !in t && q == Parent(name) && c == Last(name))
  {
    if name !in t {
      ChildOfParent(name);
    }
  }

  lemma WrittenAt(b: Tree, cache: Tree, done: set<Name>, q: Name)
    requires done <= cache.Keys && q in Written(b, cache, done)
    ensures q in b || q in done
    ensures Written(b, cache, done)[q] == NodeSoFar(b, cache, done, q)
  {
  }

  /** The children of a node other than the one written. */
  lemma WriteNextOther(b: Tree, cache: Tree, done: set<Name>, name: Name, q: Name, c: Byte)
    requires Lays(b, cache) && InOrder(cache, done, name)
    requires var t := Written(b, cache, done); name in t || (name != [] && Parent(name) in t)
    requires q in Updated(Written(b, cache, done), name, cache[name]) && q in Written(b, cache, done + {name})
    requires q != name
    ensures c in Updated(Written(b, cache, done), name, cache[name])[q].children
            <==> c in Written(b, cache, done + {name})[q].children
  {
    hide Lays, Kept, NodeSoFar, Updated, Written;
    LaysClosed(b, cache);
    NextThere(b, cache, done, name);
    UpdatedOther(Written(b, cache, done), name, cache[name], q, c);
    WrittenAt(b, cache, done, q);
    WrittenAt(b, cache, done + {name}, q);
    ChildrenSoFar(b, cache, done + {name}, q, c);
    ChildrenSoFar(b, cache, done, q, c);
    if name !in b && q == Parent(name) {
      ChildOfParent(name);
    }
  }

  /** The children of the node written. */
  lemma WriteNextSelf(b: Tree, cache: Tree, done: set<Name>, name: Name, c: Byte)
    requires Lays(b, cache) && InOrder(cache, done, name)
    requires var t := Written(b, cache, done); name in t || (name != [] && Parent(name) in t)
    requires name in Updated(Written(b, cache, done), name, cache[name]) && name in Written(b, cache, done + {name})
    ensures c in Updated(Written(b, cache, done), name, cache[name])[name].children
            <==> c in Written(b, cache, done + {name})[name].children
  {
    hide Lays, Kept, NodeSoFar;
    LaysClosed(b, cache);
    NextThere(b, cache, done, name);
    ChildrenSoFar(b, cache, done + {name}, name, c);
    NoGrandchild(b, name, c);
    if name in b {
      ChildrenSoFar(b, cache, done, name, c);
    }
  }

  lemma LaysClosed(b: Tree, cache: Tree)
    requires Lays(b, cache)
    ensures Closed(b)
  {
  }

  lemma WriteNextNode(b: Tree, cache: Tree, done: set<Name>, name: Name, q: Name)
    requires Lays(b, cache) && InOrder(cache, done, name)
    requires var t := Written(b, cache, done); name in t || (name != [] && Parent(name) in t)
    requires q in Updated(Written(b, cache, done), name, cache[name]) && q in Written(b, cache, done + {name})
    ensures Updated(Written(b, cache, done), name, cache[name])[q] == Written(b, cache, done + {name})[q]
  {
    hide Lays, Kept;
    var u, v := Updated(Written(b, cache, done), name, cache[name])[q], Written(b, cache, done + {name})[q];
    NextThere(b, cache, done, name);
    forall c: Byte
      ensures c in u.children <==> c in v.children
    {
      if q == name {
        WriteNextSelf(b, cache, done, name, c);
      } else {
        WriteNextOther(b, cache, done, name, q, c);
      }
    }
    assert u.children == v.children;
  }

  lemma NoGrandchild(b: Tree, name: Name, c: Byte)
    requires Closed(b)
    ensures Child(name, c) in b ==> name in b
  {
    assert Child(name, c) in b ==> Live(b, Child(name, c)) && Live(b, name);
  }

  lemma BaseChildren(b: Tree, name: Name, c: Byte)
    requires Closed(b) && name in b
    ensures c in b[name].children <==> Child(name, c) in b
  {
    assert Child(name, c) in b ==> Live(b, Child(name, c));
  }

  /** Writing the next name of the cache. */
  lemma WriteNext(b: Tree, cache: Tree, done: set<Name>, name: Name)
    requires Lays(b, cache) && InOrder(cache, done, name)
    ensures var t := Written(b, cache, done); name in t || (name != [] && Parent(name) in t)
    ensures Updated(Written(b, cache, done), name, cache[name]) == Written(b, cache, done + {name})
  {
    hide Lays, Updated, Written;
    NextThere(b, cache, done, name);
    forall q
      ensures q in Updated(Written(b, cache, done), name, cache[name]) <==> q in Written(b, cache, done + {name})
      ensures q in Written(b, cache, done + {name}) ==>
                Updated(Written(b, cache, done), name, cache[name])[q] == Written(b, cache, done + {name})[q]
    {
      WriteNextKeys(b, cache, done, name, q);
      if q in Written(b, cache, done + {name}) {
        WriteNextNode(b, cache, done, name, q);
      }
    }
  }

  // ---------- everything written ----------

  /** The same children and claims. */
  ghost predicate SameContent(t: Tree, u: Tree)
  {
    t.Keys == u.Keys && forall p :: p in t ==> t[p].children == u[p].children && t[p].claims == u[p].claims
  }

  lemma {:induction false} WrittenLive(b: Tree, cache: Tree, p: Name)
    requires Lays(b, cache) && (p in b || p in cache) && Kept(cache, cache.Keys, p)
    ensures Live(b + cache, p)
    decreases |p|
  {
    if p !in cache && p != [] {
      assert Live(b, p) && Parent(p) in b;
      assert Kept(cache, cache.Keys, Parent(p)) by {
        forall k | 0 <= k < |Parent(p)| && Parent(p)[..k] in cache.Keys
          ensures Parent(p)[k] in cache[Parent(p)[..k]].children
        {
          assert Parent(p)[..k] == p[..k] && Parent(p)[k] == p[k];
        }
      }
      WrittenLive(b, cache, Parent(p));
      assert p[..|p| - 1] == Parent(p);
    }
  }

  /** Once the whole cache is written, the trie has the nodes, children and claims that
      showed through, and the hashes and takeover heights the base had for them. */
  lemma WrittenAll(b: Tree, cache: Tree)
    requires Lays(b, cache)
    ensures SameContent(Written(b, cache, cache.Keys), Shown(b, cache))
    ensures forall p :: p in Shown(b, cache) ==>
              && Written(b, cache, cache.Keys)[p].hash == (if p in b then b[p].hash else NULL_DIGEST)
              && Written(b, cache, cache.Keys)[p].nHeightOfLastTakeover
                  == (if p in b then b[p].nHeightOfLastTakeover else 0)
  {
    var w, v := Written(b, cache, cache.Keys), Shown(b, cache);
    forall p
      ensures p in w <==> p in v
    {
      WrittenKey(b, cache, p);
    }
    forall p | p in v
      ensures w[p].children == v[p].children && w[p].claims == v[p].claims
    {
      WrittenContent(b, cache, p);
    }
  }

  lemma WrittenKey(b: Tree, cache: Tree, p: Name)
    requires Lays(b, cache)
    ensures p in Written(b, cache, cache.Keys) <==> p in Shown(b, cache)
  {
    if p in Written(b, cache, cache.Keys) {
      WrittenLive(b, cache, p);
    }
    if p in Shown(b, cache) {
      KeptLive(b, cache, cache.Keys, p);
    }
  }

  lemma WrittenContent(b: Tree, cache: Tree, p: Name)
    requires Lays(b, cache) && p in Shown(b, cache)
    ensures p in Written(b, cache, cache.Keys)
    ensures Written(b, cache, cache.Keys)[p].children == Shown(b, cache)[p].children
    ensures Written(b, cache, cache.Keys)[p].claims == Shown(b, cache)[p].claims
  {
    WrittenKey(b, cache, p);
    if p in cache {
      forall c: Byte | c in cache[p].children
        ensures Child(p, c) in b || Child(p, c) in cache
      {
        ShownChild(b, cache, p, c);
      }
    }
  }
}
