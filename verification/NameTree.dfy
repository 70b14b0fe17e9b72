/** The name trie as a map from path to node. A child pointer is the path of the child,
    so a map may hold nodes that no chain of children reaches any more; the live nodes,
    those reached from the root, are the trie. */
module NameTree {
  import opened ClaimTypes

  datatype Node = Node(hash: Digest, children: set<Byte>, nHeightOfLastTakeover: int, claims: seq<ClaimValue>) {
    predicate Empty() { children == {} && claims == [] }

    function With(c: Byte): Node { Node(hash, children + {c}, nHeightOfLastTakeover, claims) }

    function Without(c: Byte): Node { Node(hash, children - {c}, nHeightOfLastTakeover, claims) }
  }

  const NEW_NODE: Node := Node(NULL_DIGEST, {}, 0, [])

  type Tree = map<Name, Node>

  function Parent(p: Name): Name
    requires p != []
  {
    p[..|p| - 1]
  }

  function Last(p: Name): Byte
    requires p != []
  {
    p[|p| - 1]
  }

  function Child(p: Name, c: Byte): (r: Name)
    ensures r != [] && |r| == |p| + 1 && Parent(r) == p && Last(r) == c
  {
    p + [c]
  }

  lemma ChildOfParent(p: Name)
    requires p != []
    ensures Child(Parent(p), Last(p)) == p
  {
  }

  ghost predicate Live(t: Tree, p: Name)
    decreases |p|
  {
    p in t && (p == [] || (Live(t, Parent(p)) && Last(p) in t[Parent(p)].children))
  }

  /** Every child of a live node is there. */
  ghost predicate Linked(t: Tree)
  {
    [] in t && forall p, c :: Live(t, p) && c in t[p].children ==> Child(p, c) in t
  }

  ghost function View(t: Tree): Tree
  {
    map p | p in t && Live(t, p) :: t[p]
  }

  /** A tree in which every node is reached. */
  ghost predicate Closed(t: Tree)
  {
    Linked(t) && forall p :: p in t ==> Live(t, p)
  }

  /** No node but the root is without both children and claims. */
  ghost predicate Pruned(t: Tree)
  {
    forall p :: p in t && p != [] ==> !t[p].Empty()
  }

  lemma {:induction false} LivePrefix(t: Tree, p: Name, k: nat)
    requires Live(t, p) && k <= |p|
    ensures Live(t, p[..k])
    ensures k < |p| ==> p[k] in t[p[..k]].children
    decreases |p|
  {
    if k == |p| {
      assert p[..k] == p;
    } else if k < |p| - 1 {
      LivePrefix(t, Parent(p), k);
      assert Parent(p)[..k] == p[..k];
    }
  }

  lemma {:induction false} ViewLive(t: Tree, p: Name)
    ensures Live(View(t), p) <==> Live(t, p)
    decreases |p|
  {
    if p != [] {
      ViewLive(t, Parent(p));
    }
  }

  lemma ViewClosed(t: Tree)
    requires Linked(t)
    ensures Closed(View(t))
  {
    var v := View(t);
    forall p
      ensures Live(v, p) <==> Live(t, p)
    {
      ViewLive(t, p);
    }
    forall p, c | Live(v, p) && c in v[p].children
      ensures Child(p, c) in v
    {
      assert Child(p, c) in t;
    }
  }

  // ---------- one node replaced, its children kept ----------

  lemma {:induction false} SetNodeLive(t: Tree, p: Name, n: Node, q: Name)
    requires p in t && n.children == t[p].children
    ensures Live(t[p := n], q) <==> Live(t, q)
    decreases |q|
  {
    if q != [] {
      SetNodeLive(t, p, n, Parent(q));
    }
  }

  lemma SetNode(t: Tree, p: Name, n: Node)
    requires Linked(t) && Live(t, p) && n.children == t[p].children
    ensures Linked(t[p := n])
    ensures forall q :: Live(t[p := n], q) <==> Live(t, q)
    ensures View(t[p := n]) == View(t)[p := n]
  {
    forall q
      ensures Live(t[p := n], q) <==> Live(t, q)
    {
      SetNodeLive(t, p, n, q);
    }
  }

  // ---------- a child added ----------

  function WithChild(t: Tree, p: Name, c: Byte): Tree
    requires p in t
  {
    t[p := t[p].With(c)][Child(p, c) := NEW_NODE]
  }

  lemma {:induction false} AddChildLive(t: Tree, p: Name, c: Byte, q: Name)
    requires Live(t, p) && c !in t[p].children
    ensures Live(WithChild(t, p, c), q) <==> Live(t, q) || q == Child(p, c)
    decreases |q|
  {
    if q != [] {
      AddChildLive(t, p, c, Parent(q));
      ChildOfParent(q);
    }
  }

  lemma AddChildChild(t: Tree, p: Name, c: Byte, q: Name, d: Byte)
    requires Linked(t) && Live(t, p) && c !in t[p].children
    requires Live(WithChild(t, p, c), q) && d in WithChild(t, p, c)[q].children
    ensures Child(q, d) in WithChild(t, p, c)
  {
    AddChildLive(t, p, c, q);
    hide Live;
    if q != Child(p, c) && (q != p || d != c) {
      assert Child(q, d) in t;
    }
  }

  lemma AddChildLinked(t: Tree, p: Name, c: Byte)
    requires Linked(t) && Live(t, p) && c !in t[p].children
    ensures Linked(WithChild(t, p, c))
    ensures forall q :: Live(WithChild(t, p, c), q) <==> Live(t, q) || q == Child(p, c)
  {
    var u := WithChild(t, p, c);
    forall q
      ensures Live(u, q) <==> Live(t, q) || q == Child(p, c)
    {
      AddChildLive(t, p, c, q);
    }
    forall q, d | Live(u, q) && d in u[q].children
      ensures Child(q, d) in u
    {
      AddChildChild(t, p, c, q, d);
    }
  }

  lemma AddChildAt(t: Tree, p: Name, c: Byte, q: Name)
    requires Live(t, p) && c !in t[p].children
    ensures q in View(WithChild(t, p, c)) <==> q in WithChild(View(t), p, c)
    ensures q in WithChild(View(t), p, c) ==> View(WithChild(t, p, c))[q] == WithChild(View(t), p, c)[q]
  {
    AddChildLive(t, p, c, q);
  }

  lemma AddChildView(t: Tree, p: Name, c: Byte)
    requires Live(t, p) && c !in t[p].children
    ensures View(WithChild(t, p, c)) == WithChild(View(t), p, c)
  {
    forall q
      ensures q in View(WithChild(t, p, c)) <==> q in WithChild(View(t), p, c)
      ensures q in WithChild(View(t), p, c) ==> View(WithChild(t, p, c))[q] == WithChild(View(t), p, c)[q]
    {
      AddChildAt(t, p, c, q);
    }
  }

  // ---------- a childless child removed ----------

  /** u is t with the leaf below p cut off; whether u still holds the cut node is open. */
  ghost predicate Cuts(t: Tree, u: Tree, p: Name, c: Byte)
  {
    && p in t && p in u && u[p] == t[p].Without(c)
    && forall q :: q != p && q != Child(p, c) ==> (q in u <==> q in t) && (q in t ==> u[q] == t[q])
  }

  lemma {:induction false} CutLeafLive(t: Tree, u: Tree, p: Name, c: Byte, q: Name)
    requires Live(t, p) && Child(p, c) in t && t[Child(p, c)].children == {}
    requires Cuts(t, u, p, c)
    ensures Live(u, q) <==> Live(t, q) && q != Child(p, c)
    decreases |q|
  {
    if q != [] {
      CutLeafLive(t, u, p, c, Parent(q));
      ChildOfParent(q);
    }
  }

  lemma CutLeafChild(t: Tree, u: Tree, p: Name, c: Byte, q: Name, d: Byte)
    requires Linked(t) && Live(t, p) && c in t[p].children
    requires Child(p, c) in t && t[Child(p, c)].children == {}
    requires Cuts(t, u, p, c) && Live(u, q) && d in u[q].children
    ensures Child(q, d) in u
  {
    CutLeafLive(t, u, p, c, q);
    hide Live;
    assert Child(q, d) in t;
    ChildOfParent(Child(q, d));
  }

  lemma CutLeafLinked(t: Tree, u: Tree, p: Name, c: Byte)
    requires Linked(t) && Live(t, p) && c in t[p].children
    requires Child(p, c) in t && t[Child(p, c)].children == {}
    requires Cuts(t, u, p, c)
    ensures Linked(u)
    ensures forall q :: Live(u, q) <==> Live(t, q) && q != Child(p, c)
  {
    forall q
      ensures Live(u, q) <==> Live(t, q) && q != Child(p, c)
    {
      CutLeafLive(t, u, p, c, q);
    }
    forall q, d | Live(u, q) && d in u[q].children
      ensures Child(q, d) in u
    {
      CutLeafChild(t, u, p, c, q, d);
    }
  }

  lemma CutLeafAt(t: Tree, u: Tree, p: Name, c: Byte, q: Name)
    requires Live(t, p) && c in t[p].children
    requires Child(p, c) in t && t[Child(p, c)].children == {}
    requires Cuts(t, u, p, c)
    ensures var v := (View(t) - {Child(p, c)})[p := t[p].Without(c)];
            (q in View(u) <==> q in v) && (q in v ==> View(u)[q] == v[q])
  {
    CutLeafLive(t, u, p, c, q);
    CutLeafLive(t, u, p, c, p);
    hide Live;
  }

  lemma CutLeaf(t: Tree, u: Tree, p: Name, c: Byte)
    requires Linked(t) && Live(t, p) && c in t[p].children
    requires Child(p, c) in t && t[Child(p, c)].children == {}
    requires Cuts(t, u, p, c)
    ensures Linked(u)
    ensures forall q :: Live(u, q) <==> Live(t, q) && q != Child(p, c)
    ensures View(u) == (View(t) - {Child(p, c)})[p := t[p].Without(c)]
  {
    CutLeafLinked(t, u, p, c);
    hide Live, Linked, View, Cuts;
    forall q
      ensures var v := (View(t) - {Child(p, c)})[p := t[p].Without(c)];
              (q in View(u) <==> q in v) && (q in v ==> View(u)[q] == v[q])
    {
      CutLeafAt(t, u, p, c, q);
    }
  }
}
