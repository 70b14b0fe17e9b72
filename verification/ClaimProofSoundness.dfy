/** What an accepted proof of a value says about the trie it was accepted against. */
module ClaimProofSoundness {
  import opened ClaimTypes
  import opened NameTree
  import opened PathOps
  import opened TrieHash
  import opened ClaimProofs

  // ---------- bytes that can be read back ----------

  lemma {:induction false} FlattenSame(a: seq<Entry>, b: seq<Entry>)
    requires |a| == |b| && Flatten(a) == Flatten(b)
    ensures a == b
    decreases |a|
  {
    if a != [] {
      var n := |a| - 1;
      assert Flatten(a) == Flatten(a[..n]) + [a[n].0] + a[n].1;
      assert Flatten(b) == Flatten(b[..n]) + [b[n].0] + b[n].1;
      assert Flatten(a)[..33 * n] == Flatten(a[..n]) && Flatten(b)[..33 * n] == Flatten(b[..n]);
      FlattenSame(a[..n], b[..n]);
      assert Flatten(a)[33 * n] == a[n].0 && Flatten(b)[33 * n] == b[n].0;
      assert Flatten(a)[33 * n + 1..] == a[n].1 && Flatten(b)[33 * n + 1..] == b[n].1;
      assert a == a[..n] + [a[n]] && b == b[..n] + [b[n]];
    }
  }

  /** Entries of 33 bytes followed by 32 bytes or none can be told apart. */
  lemma FlattenReads(a: seq<Entry>, b: seq<Entry>, v: seq<Byte>, w: seq<Byte>)
    requires (|v| == 0 || |v| == 32) && (|w| == 0 || |w| == 32)
    requires Flatten(a) + v == Flatten(b) + w
    ensures a == b && v == w
  {
    hide Flatten;
    assert 33 * |a| + |v| == |Flatten(a) + v| == |Flatten(b) + w| == 33 * |b| + |w|;
    assert |a| == |b|;
    assert (Flatten(a) + v)[..33 * |a|] == Flatten(a) && (Flatten(b) + w)[..33 * |a|] == Flatten(b);
    assert (Flatten(a) + v)[33 * |a|..] == v && (Flatten(b) + w)[33 * |a|..] == w;
    FlattenSame(a, b);
  }

  lemma {:induction false} DecimalReads(m: nat, n: nat)
    requires Decimal(m) == Decimal(n)
    ensures m == n
  {
    DecimalLength(m / 10);
    DecimalLength(n / 10);
    if m >= 10 && n >= 10 {
      var a, b := Decimal(m), Decimal(n);
      assert a[..|a| - 1] == Decimal(m / 10) && b[..|b| - 1] == Decimal(n / 10);
      assert a[|a| - 1] == 48 + m % 10 && b[|b| - 1] == 48 + n % 10;
      DecimalReads(m / 10, n / 10);
    }
  }

  lemma DecimalLength(n: nat)
    ensures |Decimal(n)| >= 1
  {
  }

  predicate Int32(n: int)
  {
    -0x8000_0000 <= n < 0x8000_0000
  }

  lemma DivDiv(n: int, m: int)
    requires n / 0x100 == m
    ensures n == 0x100 * m + n % 0x100
    ensures n / 0x10000 == m / 0x100 && n / 0x1000000 == (m / 0x100) / 0x100
  {
    assert n == 0x100 * m + n % 0x100;
    assert m == 0x100 * (m / 0x100) + m % 0x100;
    assert n / 0x10000 == m / 0x100;
    var k := m / 0x100;
    assert k == 0x100 * (k / 0x100) + k % 0x100;
  }

  /** The bytes of a height give back the height up to multiples of two to the 32. */
  lemma HeightFromBytes(m: int, n: int)
    requires m % 0x100 == n % 0x100 && (m / 0x100) % 0x100 == (n / 0x100) % 0x100
    requires (m / 0x10000) % 0x100 == (n / 0x10000) % 0x100 && (m / 0x1000000) % 0x100 == (n / 0x1000000) % 0x100
    requires -0x80 <= m / 0x1000000 < 0x80 && -0x80 <= n / 0x1000000 < 0x80
    ensures m == n
  {
    DivDiv(m, m / 0x100);
    DivDiv(n, n / 0x100);
    assert m / 0x1000000 == n / 0x1000000;
    assert m / 0x10000 == n / 0x10000;
    assert m / 0x100 == n / 0x100;
  }

  lemma HeightBytesRead(m: int, n: int)
    requires Int32(m) && Int32(n) && HeightBytes(m) == HeightBytes(n)
    ensures m == n
  {
    assert HeightBytes(m)[4] == HeightBytes(n)[4] && HeightBytes(m)[5] == HeightBytes(n)[5];
    assert HeightBytes(m)[6] == HeightBytes(n)[6] && HeightBytes(m)[7] == HeightBytes(n)[7];
    HeightFromBytes(m, n);
  }

  // ---------- collisions ----------

  ghost predicate Apart(h: HashFn, x: seq<Byte>, y: seq<Byte>)
  {
    h(x) == h(y) ==> x == y
  }

  function ValueInput(h: HashFn, outPoint: OutPoint, height: int): seq<Byte>
  {
    h(outPoint.hash) + h(Decimal(outPoint.n)) + h(HeightBytes(height))
  }

  /** No two of the strings hashed for these two values collide. */
  ghost predicate ValuesApart(h: HashFn, o1: OutPoint, height1: int, o2: OutPoint, height2: int)
  {
    && Apart(h, ValueInput(h, o1, height1), ValueInput(h, o2, height2))
    && Apart(h, o1.hash, o2.hash)
    && Apart(h, Decimal(o1.n), Decimal(o2.n))
    && Apart(h, HeightBytes(height1), HeightBytes(height2))
  }

  lemma ValueHashReads(h: HashFn, o1: OutPoint, height1: int, o2: OutPoint, height2: int)
    requires ValueHash(h, o1, height1) == ValueHash(h, o2, height2)
    requires ValuesApart(h, o1, height1, o2, height2) && Int32(height1) && Int32(height2)
    ensures o1 == o2 && height1 == height2
  {
    hide Decimal, HeightBytes;
    var x, y := ValueInput(h, o1, height1), ValueInput(h, o2, height2);
    assert x == y;
    assert h(o1.hash) == x[..32] == y[..32] == h(o2.hash);
    assert h(Decimal(o1.n)) == x[32..64] == y[32..64] == h(Decimal(o2.n));
    assert h(HeightBytes(height1)) == x[64..] == y[64..] == h(HeightBytes(height2));
    DecimalReads(o1.n, o2.n);
    HeightBytesRead(height1, height2);
  }

  /** What the verifier hashes for the first of some nodes. */
  function ProofInput(h: HashFn, proof: Proof, nodes: seq<ProofNode>): seq<Byte>
    requires nodes != [] && VerifyNodes(h, proof, nodes) != None
  {
    Flatten(Scan(nodes[0].children, VerifyNodes(h, proof, nodes[1..]).value.hash).value.entries)
    + NodeValue(h, proof, nodes[0], |nodes| == 1).value
  }

  /** No string hashed for these nodes of the proof collides with one hashed for the trie. */
  ghost predicate NodesApart(h: HashFn, tk: Name -> int, t: Tree, proof: Proof, nodes: seq<ProofNode>)
    requires Closed(t)
  {
    forall i, q :: 0 <= i < |nodes| && q in t && VerifyNodes(h, proof, nodes[i..]) != None ==>
      Apart(h, ProofInput(h, proof, nodes[i..]), NodeInput(h, tk, t, q))
  }

  ghost predicate CollisionFree(h: HashFn, tk: Name -> int, t: Tree, proof: Proof)
    requires Closed(t)
  {
    && NodesApart(h, tk, t, proof, proof.nodes)
    && forall q :: q in t && t[q].claims != [] ==>
         ValuesApart(h, proof.outPoint, proof.nHeightOfLastTakeover, t[q].claims[0].outPoint, tk(q))
  }

  // ---------- soundness ----------

  /** The child a scan went to carries the hash from below. */
  lemma {:induction false} ScanFound(children: seq<Entry>, below: Digest)
    requires Scan(children, below).Some? && Scan(children, below).value.found != None
    ensures (Scan(children, below).value.found.value, below) in Scan(children, below).value.entries
    decreases |children|
  {
    var child := children[|children| - 1];
    var rest := Scan(children[..|children| - 1], below);
    if child.1 != NULL_DIGEST {
      ScanFound(children[..|children| - 1], below);
    }
  }

  lemma TailApart(h: HashFn, tk: Name -> int, t: Tree, proof: Proof, nodes: seq<ProofNode>)
    requires Closed(t) && nodes != [] && NodesApart(h, tk, t, proof, nodes)
    ensures NodesApart(h, tk, t, proof, nodes[1..])
  {
    hide Closed, VerifyNodes, ProofInput, NodeInput, Apart;
    forall i, q | 0 <= i < |nodes[1..]| && q in t && VerifyNodes(h, proof, nodes[1..][i..]) != None
      ensures Apart(h, ProofInput(h, proof, nodes[1..][i..]), NodeInput(h, tk, t, q))
    {
      assert nodes[1..][i..] == nodes[i + 1..];
    }
  }

  /** A node the verifier hashed to the hash of a node of the trie has its children and value. */
  lemma NodeMatches(h: HashFn, tk: Name -> int, t: Tree, proof: Proof, nodes: seq<ProofNode>, p: Name)
    requires Closed(t) && p in t && nodes != []
    requires VerifyNodes(h, proof, nodes) != None && VerifyNodes(h, proof, nodes).value.hash == NodeHash(h, tk, t, p)
    requires NodesApart(h, tk, t, proof, nodes)
    ensures VerifyNodes(h, proof, nodes[1..]) != None
    ensures var below := VerifyNodes(h, proof, nodes[1..]).value;
            && Scan(nodes[0].children, below.hash) != None && NodeValue(h, proof, nodes[0], |nodes| == 1) != None
            && Scan(nodes[0].children, below.hash).value.entries == EntriesFrom(h, tk, t, p, 0)
            && NodeValue(h, proof, nodes[0], |nodes| == 1).value == ValueBytes(h, tk(p), t[p])
  {
    hide Closed, NodeHash, EntriesFrom, Flatten, Scan, ValueHash;
    assert nodes[0..] == nodes;
    NodeHashInput(h, tk, t, p);
    assert Apart(h, ProofInput(h, proof, nodes[0..]), NodeInput(h, tk, t, p));
    var below := VerifyNodes(h, proof, nodes[1..]).value;
    FlattenReads(Scan(nodes[0].children, below.hash).value.entries, EntriesFrom(h, tk, t, p, 0),
                 NodeValue(h, proof, nodes[0], |nodes| == 1).value, ValueBytes(h, tk(p), t[p]));
  }

  /** Going on to a child found in the trie. */
  lemma FoundChild(h: HashFn, tk: Name -> int, t: Tree, p: Name, children: seq<Entry>, below: Digest)
    requires Closed(t) && p in t
    requires Scan(children, below) != None && Scan(children, below).value.found != None
    requires Scan(children, below).value.entries == EntriesFrom(h, tk, t, p, 0)
    ensures var c := Scan(children, below).value.found.value;
            Child(p, c) in t && below == NodeHash(h, tk, t, Child(p, c))
  {
    hide Closed, NodeHash, EntriesFrom, Scan;
    ScanFound(children, below);
    var es := EntriesFrom(h, tk, t, p, 0);
    var i :| 0 <= i < |es| && es[i] == (Scan(children, below).value.found.value, below);
    EntryOfChild(h, tk, t, p, 0, i);
  }

  /** The nodes of an accepted chain are those of the trie along the path it spells. */
  lemma {:induction false} ChainInTrie(h: HashFn, tk: Name -> int, t: Tree, proof: Proof, nodes: seq<ProofNode>,
      p: Name)
    requires Closed(t) && p in t && nodes != []
    requires VerifyNodes(h, proof, nodes) != None && VerifyNodes(h, proof, nodes).value.hash == NodeHash(h, tk, t, p)
    requires NodesApart(h, tk, t, proof, nodes) && VerifyNodes(h, proof, nodes).value.verified
    ensures var q := p + VerifyNodes(h, proof, nodes).value.path;
            && q in t && t[q].claims != []
            && ValueHash(h, t[q].claims[0].outPoint, tk(q)) == ValueHash(h, proof.outPoint, proof.nHeightOfLastTakeover)
    decreases |nodes|
  {
    hide Closed, NodeHash, EntriesFrom, Scan, ValueHash, NodesApart, NodeInput, ProofInput, Flatten;
    NodeMatches(h, tk, t, proof, nodes, p);
    var below := VerifyNodes(h, proof, nodes[1..]).value;
    if |nodes| == 1 {
      assert nodes[1..] == [];
      LastNode(nodes[0].children);
      assert p + VerifyNodes(h, proof, nodes).value.path == p;
    } else {
      var c := Scan(nodes[0].children, below.hash).value.found.value;
      FoundChild(h, tk, t, p, nodes[0].children, below.hash);
      TailApart(h, tk, t, proof, nodes);
      ChainInTrie(h, tk, t, proof, nodes[1..], Child(p, c));
      assert p + ([c] + below.path) == Child(p, c) + below.path;
    }
  }

  /** Where nothing lies below, no child can be left blank. */
  lemma {:induction false} LastNode(children: seq<Entry>)
    ensures Scan(children, NULL_DIGEST) != None ==> Scan(children, NULL_DIGEST).value.found == None
    decreases |children|
  {
    if children != [] {
      LastNode(children[..|children| - 1]);
    }
  }

  /** The path a proof spells: the characters of the children it leaves blank. */
  function ProofPath(h: HashFn, proof: Proof): Name
    requires VerifyNodes(h, proof, proof.nodes) != None
  {
    VerifyNodes(h, proof, proof.nodes).value.path
  }

  /** An accepted proof of a value shows, unless it comes with a hash collision, the
      controlling claim and takeover height of the name it spells. The name that was asked
      for is only known to be a prefix of that. */
  lemma AcceptedValue(h: HashFn, tk: Name -> int, t: Tree, proof: Proof, name: Name)
    requires Closed(t) && [] in t && !t[[]].Empty()
    requires Accepts(h, proof, RootHash(h, tk, t), name) && proof.hasValue && CollisionFree(h, tk, t, proof)
    requires Int32(proof.nHeightOfLastTakeover) && Int32(tk(ProofPath(h, proof)))
    ensures var q := ProofPath(h, proof);
            && q in t && t[q].claims != []
            && t[q].claims[0].outPoint == proof.outPoint && tk(q) == proof.nHeightOfLastTakeover
            && name <= q
  {
    hide Closed, NodeHash, EntriesFrom, Scan, ValueHash, NodesApart, ValuesApart;
    VerifyNothing(h, proof, []);
    assert proof.nodes != [];
    ChainInTrie(h, tk, t, proof, proof.nodes, []);
    var q := ProofPath(h, proof);
    assert [] + q == q;
    ValueHashReads(h, proof.outPoint, proof.nHeightOfLastTakeover, t[q].claims[0].outPoint, tk(q));
  }

  /** More than that an accepted proof cannot show: it is accepted for every prefix of the
      path it spells, and for no other name. */
  lemma AcceptedForPrefixes(h: HashFn, proof: Proof, rootHash: Digest, name: Name, other: Name)
    requires Accepts(h, proof, rootHash, name) && proof.hasValue
    ensures Accepts(h, proof, rootHash, other) <==> other <= ProofPath(h, proof)
  {
    hide VerifyNodes;
  }
}
