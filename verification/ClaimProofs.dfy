/** Proofs that a name holds a claim: what a proof says, and when a verifier accepts it. */
module ClaimProofs {
  import opened ClaimTypes
  import opened NameTree
  import opened PathOps
  import opened TrieHash

  type Entry = (Byte, Digest)

  datatype ProofNode = ProofNode(children: seq<Entry>, hasValue: bool, valHash: Digest)

  datatype Proof = Proof(nodes: seq<ProofNode>, hasValue: bool, outPoint: OutPoint, nHeightOfLastTakeover: int)

  // ---------- what the verifier computes ----------

  /** A character and a hash each. */
  function Flatten(entries: seq<Entry>): (r: seq<Byte>)
    ensures |r| == 33 * |entries|
  {
    if entries == [] then []
        else Flatten(entries[..|entries| - 1]) + [entries[|entries| - 1].0] + entries[|entries| - 1].1
  }

  /** The children of a node with the hash from below filled in, and the child it went to. */
  datatype Scanned = Scanned(entries: seq<Entry>, found: Option<Byte>)

  function Scan(children: seq<Entry>, below: Digest): (r: Option<Scanned>)
    ensures r.Some? ==> |r.value.entries| == |children|
    decreases |children|
  {
    if children == [] then Some(Scanned([], None))
    else
      var child := children[|children| - 1];
      var rest := Scan(children[..|children| - 1], below);
      if rest == None then None
      else if child.1 != NULL_DIGEST then Some(Scanned(rest.value.entries + [child], rest.value.found))
      else if below == NULL_DIGEST || rest.value.found != None then None
      else Some(Scanned(rest.value.entries + [(child.0, below)], Some(child.0)))
  }

  /** What is known after the nodes from some depth down: their hash, the path they spell,
      and whether the claimed value was among them. */
  datatype Chain = Chain(hash: Digest, path: Name, verified: bool)

  /** The value a node contributes: none, its own, or the one the proof is about. */
  function NodeValue(h: HashFn, proof: Proof, node: ProofNode, last: bool): Option<seq<Byte>>
  {
    if !node.hasValue then (if proof.hasValue && last then None else Some([]))
    else if node.valHash != NULL_DIGEST then Some(node.valHash)
    else if !last || !proof.hasValue then None
    else Some(ValueHash(h, proof.outPoint, proof.nHeightOfLastTakeover))
  }

  /** Whether a node carries the value the proof is about. */
  predicate CarriesValue(node: ProofNode)
  {
    node.hasValue && node.valHash == NULL_DIGEST
  }

  function VerifyNodes(h: HashFn, proof: Proof, nodes: seq<ProofNode>): Option<Chain>
    decreases |nodes|
  {
    if nodes == [] then Some(Chain(NULL_DIGEST, [], false))
    else
      var below := VerifyNodes(h, proof, nodes[1..]);
      if below == None then None
      else
        var scanned := Scan(nodes[0].children, below.value.hash);
        var value := NodeValue(h, proof, nodes[0], |nodes| == 1);
        if scanned == None || (|nodes| > 1 && scanned.value.found == None) || value == None then None
        else Some(Chain(h(Flatten(scanned.value.entries) + value.value),
                        (if scanned.value.found == None then [] else [scanned.value.found.value]) + below.value.path,
                        below.value.verified || CarriesValue(nodes[0])))
  }

  /** Agreement up to the end of the shorter one. */
  predicate Agree(a: Name, b: Name)
  {
    a <= b || b <= a
  }

  predicate Accepts(h: HashFn, proof: Proof, rootHash: Digest, name: Name)
  {
    var chain := VerifyNodes(h, proof, proof.nodes);
    && chain != None
    && chain.value.hash == rootHash
    && (proof.hasValue ==> chain.value.verified)
    && Agree(name, chain.value.path)
    && (proof.hasValue ==> |name| <= |chain.value.path|)
  }

  // ---------- the verifier ----------

  method ScanChildren(children: seq<Entry>, below: Digest) returns (r: Option<Scanned>, vchToHash: seq<Byte>)
    ensures r == Scan(children, below)
    ensures r != None ==> vchToHash == Flatten(r.value.entries)
  {
    hide Flatten;
    FlattenNothing();
    var entries: seq<Entry> := [];
    var found: Option<Byte> := None;
    vchToHash := [];
    for i := 0 to |children|
      invariant Scan(children[..i], below) == Some(Scanned(entries, found))
      invariant vchToHash == Flatten(entries)
    {
      assert children[..i + 1][..i] == children[..i];
      var childHash := children[i].1;
      if childHash == NULL_DIGEST {
        if below == NULL_DIGEST || found != None {
          ScanFails(children, below, i + 1);
          return None, [];
        }
        found := Some(children[i].0);
        childHash := below;
      }
      FlattenNext(entries, (children[i].0, childHash));
      entries := entries + [(children[i].0, childHash)];
      vchToHash := vchToHash + [children[i].0] + childHash;
    }
    assert children[..|children|] == children;
    return Some(Scanned(entries, found)), vchToHash;
  }

  lemma FlattenNothing()
    ensures Flatten([]) == []
  {
  }

  lemma FlattenNext(entries: seq<Entry>, e: Entry)
    ensures Flatten(entries + [e]) == Flatten(entries) + [e.0] + e.1
  {
    assert (entries + [e])[..|entries|] == entries;
  }

  lemma {:induction false} ScanFails(children: seq<Entry>, below: Digest, i: nat)
    requires i <= |children| && Scan(children[..i], below) == None
    ensures Scan(children, below) == None
    decreases |children|
  {
    if i == |children| {
      assert children[..i] == children;
    } else {
      assert children[..|children| - 1][..i] == children[..i];
      ScanFails(children[..|children| - 1], below, i);
    }
  }

  lemma {:induction false} VerifyFails(h: HashFn, proof: Proof, nodes: seq<ProofNode>, i: nat)
    requires i <= |nodes| && VerifyNodes(h, proof, nodes[i..]) == None
    ensures VerifyNodes(h, proof, nodes) == None
    decreases i
  {
    if i == 0 {
      assert nodes[0..] == nodes;
    } else {
      assert nodes[1..][i - 1..] == nodes[i..];
      VerifyFails(h, proof, nodes[1..], i - 1);
    }
  }

  /** What a node adds to the bytes to hash after its children, unless it is malformed. */
  method NodeBytes(h: HashFn, proof: Proof, node: ProofNode, last: bool) returns (value: Option<seq<Byte>>)
    ensures value == NodeValue(h, proof, node, last)
  {
    if node.hasValue {
      if node.valHash == NULL_DIGEST {
        if !last {
          return None;
        }
        if !proof.hasValue {
          return None;
        }
        return Some(ValueHash(h, proof.outPoint, proof.nHeightOfLastTakeover));
      }
      return Some(node.valHash);
    } else if proof.hasValue && last {
      return None;
    }
    return Some([]);
  }

  method VerifyNode(h: HashFn, proof: Proof, i: nat, below: Chain) returns (chain: Option<Chain>)
    requires i < |proof.nodes| && VerifyNodes(h, proof, proof.nodes[i + 1..]) == Some(below)
    ensures chain == VerifyNodes(h, proof, proof.nodes[i..])
  {
    hide Scan, NodeValue, ValueHash;
    var node, last := proof.nodes[i], i == |proof.nodes| - 1;
    assert proof.nodes[i..][1..] == proof.nodes[i + 1..] && proof.nodes[i..][0] == node;
    var scanned, vchToHash := ScanChildren(node.children, below.hash);
    if scanned == None {
      return None;
    }
    if !last && scanned.value.found == None {
      return None;
    }
    var value := NodeBytes(h, proof, node, last);
    if value == None {
      return None;
    }
    var found := if scanned.value.found == None then [] else [scanned.value.found.value];
    return Some(Chain(h(vchToHash + value.value), found + below.path, below.verified || CarriesValue(node)));
  }

  /** Compares a name with the path a proof spells. */
  method ComparePath(name: Name, path: Name) returns (agree: bool, whole: bool)
    ensures agree <==> Agree(name, path)
    ensures agree ==> (whole <==> |name| <= |path|)
  {
    var k := 0;
    while k < |name| && k < |path|
      invariant 0 <= k <= |name| && k <= |path|
      invariant name[..k] == path[..k]
    {
      if name[k] != path[k] {
        return false, false;
      }
      k := k + 1;
    }
    assert k == |name| ==> name == path[..k];
    assert k == |path| ==> path == name[..k];
    return true, k == |name|;
  }

  /** Walks the nodes of a proof from the last to the first. */
  method VerifyProof(h: HashFn, proof: Proof, rootHash: Digest, name: Name) returns (ok: bool)
    ensures ok <==> Accepts(h, proof, rootHash, name)
  {
    hide VerifyNodes, Agree;
    var chain := Chain(NULL_DIGEST, [], false);
    var i := |proof.nodes|;
    VerifyNothing(h, proof, proof.nodes[i..]);
    while i > 0
      invariant 0 <= i <= |proof.nodes|
      invariant VerifyNodes(h, proof, proof.nodes[i..]) == Some(chain)
    {
      i := i - 1;
      var above := VerifyNode(h, proof, i, chain);
      if above == None {
        VerifyFails(h, proof, proof.nodes, i);
        return false;
      }
      chain := above.value;
    }
    assert proof.nodes[0..] == proof.nodes;
    if chain.hash != rootHash {
      return false;
    }
    if proof.hasValue && !chain.verified {
      return false;
    }
    var agree, whole := ComparePath(name, chain.path);
    return agree && (!proof.hasValue || whole);
  }

  lemma VerifyNothing(h: HashFn, proof: Proof, nodes: seq<ProofNode>)
    requires nodes == []
    ensures VerifyNodes(h, proof, nodes) == Some(Chain(NULL_DIGEST, [], false))
  {
  }

  // ---------- what a trie hashes ----------

  /** The children of a node with their hashes, from character c on. */
  ghost function EntriesFrom(h: HashFn, tk: Name -> int, t: Tree, p: Name, c: nat): seq<Entry>
    requires Closed(t) && p in t && c <= 256
    decreases 256 - c
  {
    if c == 256 then []
    else if c in t[p].children then
      BelowChild(t, p, c);
      [(c as Byte, NodeHash(h, tk, t, Child(p, c)))] + EntriesFrom(h, tk, t, p, c + 1)
    else EntriesFrom(h, tk, t, p, c + 1)
  }

  lemma {:induction false} FlattenFirst(e: Entry, entries: seq<Entry>)
    ensures Flatten([e] + entries) == [e.0] + e.1 + Flatten(entries)
    decreases |entries|
  {
    if entries == [] {
      assert [e] + entries == [e];
      assert [e][..0] == [];
    } else {
      var last := |entries| - 1;
      FlattenFirst(e, entries[..last]);
      assert ([e] + entries)[..|entries|] == [e] + entries[..last];
    }
  }

  lemma {:induction false} ChildBytesAre(h: HashFn, tk: Name -> int, t: Tree, p: Name, c: nat)
    requires Closed(t) && p in t && c <= 256
    ensures ChildBytes(h, tk, t, p, c) == Flatten(EntriesFrom(h, tk, t, p, c))
    decreases 256 - c
  {
    hide Closed, NodeHash;
    if c < 256 {
      ChildBytesAre(h, tk, t, p, c + 1);
      if c in t[p].children {
        BelowChild(t, p, c);
        FlattenFirst((c as Byte, NodeHash(h, tk, t, Child(p, c))), EntriesFrom(h, tk, t, p, c + 1));
      }
    }
  }

  /** What is hashed for a node. */
  ghost function NodeInput(h: HashFn, tk: Name -> int, t: Tree, p: Name): seq<Byte>
    requires Closed(t) && p in t
  {
    Flatten(EntriesFrom(h, tk, t, p, 0)) + ValueBytes(h, tk(p), t[p])
  }

  lemma NodeHashInput(h: HashFn, tk: Name -> int, t: Tree, p: Name)
    requires Closed(t) && p in t
    ensures NodeHash(h, tk, t, p) == h(NodeInput(h, tk, t, p))
  {
    hide Closed;
    ChildBytesAre(h, tk, t, p, 0);
    NodeHashDef(h, tk, t, p);
  }

  lemma {:induction false} EntryOfChild(h: HashFn, tk: Name -> int, t: Tree, p: Name, c: nat, i: nat)
    requires Closed(t) && p in t && c <= 256 && i < |EntriesFrom(h, tk, t, p, c)|
    ensures var e := EntriesFrom(h, tk, t, p, c)[i];
            && c <= e.0 && e.0 in t[p].children && Child(p, e.0) in t
            && e.1 == NodeHash(h, tk, t, Child(p, e.0))
    decreases 256 - c
  {
    hide Closed, NodeHash;
    if c in t[p].children {
      BelowChild(t, p, c);
      if i > 0 {
        EntryOfChild(h, tk, t, p, c + 1, i - 1);
      }
    } else {
      EntryOfChild(h, tk, t, p, c + 1, i);
    }
  }

  lemma {:induction false} EntriesAscend(h: HashFn, tk: Name -> int, t: Tree, p: Name, c: nat, i: nat, j: nat)
    requires Closed(t) && p in t && c <= 256 && i < j < |EntriesFrom(h, tk, t, p, c)|
    ensures EntriesFrom(h, tk, t, p, c)[i].0 < EntriesFrom(h, tk, t, p, c)[j].0
    decreases 256 - c
  {
    hide Closed, NodeHash;
    if c in t[p].children {
      BelowChild(t, p, c);
      if i > 0 {
        EntriesAscend(h, tk, t, p, c + 1, i - 1, j - 1);
      } else {
        EntryOfChild(h, tk, t, p, c + 1, j - 1);
      }
    } else {
      EntriesAscend(h, tk, t, p, c + 1, i, j);
    }
  }

  lemma {:induction false} ChildHasEntry(h: HashFn, tk: Name -> int, t: Tree, p: Name, c: nat, d: Byte)
    requires Closed(t) && p in t && c <= d && d in t[p].children
    ensures exists i :: 0 <= i < |EntriesFrom(h, tk, t, p, c)| && EntriesFrom(h, tk, t, p, c)[i].0 == d
    decreases 256 - c
  {
    hide Closed, NodeHash;
    var es := EntriesFrom(h, tk, t, p, c);
    if c == d {
      assert es[0].0 == d;
    } else {
      ChildHasEntry(h, tk, t, p, c + 1, d);
      var rest := EntriesFrom(h, tk, t, p, c + 1);
      var i :| 0 <= i < |rest| && rest[i].0 == d;
      if c in t[p].children {
        assert es[i + 1] == rest[i];
      } else {
        assert es[i] == rest[i];
      }
    }
  }

  // ---------- the proof a trie gives ----------

  /** An entry as a proof shows it: the hash of the child the proof goes on to is blank. */
  function MaskEntry(e: Entry, follow: Option<Byte>): Entry
  {
    if follow == Some(e.0) then (e.0, NULL_DIGEST) else e
  }

  function Masked(entries: seq<Entry>, follow: Option<Byte>): (r: seq<Entry>)
    ensures |r| == |entries|
    ensures forall i :: 0 <= i < |entries| ==> r[i] == MaskEntry(entries[i], follow)
  {
    if entries == [] then [] else [MaskEntry(entries[0], follow)] + Masked(entries[1..], follow)
  }

  lemma EntriesStep(h: HashFn, tk: Name -> int, t: Tree, p: Name, c: nat, follow: Option<Byte>, before: seq<Entry>)
    requires Closed(t) && p in t && c < 256
    ensures c !in t[p].children ==> EntriesFrom(h, tk, t, p, c) == EntriesFrom(h, tk, t, p, c + 1)
    ensures c in t[p].children ==>
              && Child(p, c) in t
              && before + Masked(EntriesFrom(h, tk, t, p, c), follow)
                 == (before + [MaskEntry((c as Byte, NodeHash(h, tk, t, Child(p, c))), follow)])
                    + Masked(EntriesFrom(h, tk, t, p, c + 1), follow)
  {
    hide Closed, NodeHash, Masked, MaskEntry;
    if c in t[p].children {
      BelowChild(t, p, c);
      assert EntriesFrom(h, tk, t, p, c)[1..] == EntriesFrom(h, tk, t, p, c + 1);
      MaskedStep(EntriesFrom(h, tk, t, p, c), follow, before);
    }
  }

  lemma MaskedStep(entries: seq<Entry>, follow: Option<Byte>, before: seq<Entry>)
    requires entries != []
    ensures before + Masked(entries, follow)
        == (before + [MaskEntry(entries[0], follow)]) + Masked(entries[1..], follow)
  {
    hide MaskEntry;
  }

  lemma EntriesEnd(h: HashFn, tk: Name -> int, t: Tree, p: Name)
    requires Closed(t) && p in t
    ensures EntriesFrom(h, tk, t, p, 256) == []
    ensures forall follow :: Masked([], follow) == []
  {
  }

  /** The child a proof for a name goes on to at depth k. Where char is signed, no
      character from 128 on compares equal to the unsigned key of a child. */
  function Follow(signedChar: bool, name: Name, k: nat): Option<Byte>
    requires k <= |name|
  {
    if k < |name| && !(signedChar && name[k] >= 128) then Some(name[k]) else None
  }

  predicate GoesOn(signedChar: bool, t: Tree, name: Name, k: nat)
    requires k <= |name| && name[..k] in t
  {
    var f := Follow(signedChar, name, k);
    f.Some? && f.value in t[name[..k]].children
  }

  ghost function NodeProof(h: HashFn, tk: Name -> int, t: Tree, signedChar: bool, name: Name, k: nat): ProofNode
    requires Closed(t) && k <= |name| && name[..k] in t
  {
    var p := name[..k];
    ProofNode(Masked(EntriesFrom(h, tk, t, p, 0), Follow(signedChar, name, k)),
              t[p].claims != [],
              if t[p].claims == [] || p == name then NULL_DIGEST else ValueHash(h, t[p].claims[0].outPoint, tk(p)))
  }

  lemma NextIn(t: Tree, signedChar: bool, name: Name, k: nat)
    requires Closed(t) && k <= |name| && name[..k] in t && GoesOn(signedChar, t, name, k)
    ensures k < |name| && name[..k + 1] in t && Child(name[..k], name[k]) == name[..k + 1] && name[..k] != name
  {
    assert Child(name[..k], name[k]) == name[..k + 1];
  }

  /** The depth at which the walk for a name ends. */
  ghost function WalkEnd(t: Tree, signedChar: bool, name: Name, k: nat): (d: nat)
    requires Closed(t) && k <= |name| && name[..k] in t
    ensures k <= d <= |name| && name[..d] in t && !GoesOn(signedChar, t, name, d)
    decreases |name| - k
  {
    if GoesOn(signedChar, t, name, k) then NextIn(t, signedChar, name, k); WalkEnd(t, signedChar, name, k + 1) else k
  }

  ghost function ProofFrom(h: HashFn, tk: Name -> int, t: Tree, signedChar: bool, name: Name,
      k: nat): (r: seq<ProofNode>)
    requires Closed(t) && k <= |name| && name[..k] in t
    ensures r != []
    decreases |name| - k
  {
    [NodeProof(h, tk, t, signedChar, name, k)]
    + if GoesOn(signedChar, t, name, k)
        then NextIn(t, signedChar, name, k); ProofFrom(h, tk, t, signedChar, name, k + 1) else []
  }

  /** Whether the walk for a name ends at its node, and a claim is there. */
  ghost predicate Proves(t: Tree, signedChar: bool, name: Name)
    requires Closed(t)
  {
    && [] in t
    && WalkEnd(t, signedChar, name, 0) == |name|
    && t[name[..|name|]].claims != []
  }

  /** The proof for a name, present or absent. */
  ghost predicate IsProofFor(h: HashFn, tk: Name -> int, t: Tree, signedChar: bool, name: Name, proof: Proof)
    requires Closed(t)
  {
    && [] in t && name[..0] == []
    && proof.nodes == ProofFrom(h, tk, t, signedChar, name, 0)
    && (proof.hasValue <==> Proves(t, signedChar, name))
    && (proof.hasValue ==>
          && name in t && t[name].claims != [] && proof.outPoint == t[name].claims[0].outPoint
          && proof.nHeightOfLastTakeover == tk(name))
  }

  // ---------- completeness ----------

  /** No hash is zero. */
  ghost predicate NonZero(h: HashFn)
  {
    forall x :: h(x) != NULL_DIGEST
  }

  lemma ScanStep(children: seq<Entry>, last: nat, below: Digest, scanned: seq<Entry>)
    requires |children| == last + 1 && Scan(children[..last], below) == Some(Scanned(scanned, None))
    ensures children[last].1 != NULL_DIGEST ==> Scan(children, below) == Some(Scanned(scanned + [children[last]], None))
    ensures children[last].1 == NULL_DIGEST && below != NULL_DIGEST ==>
              Scan(children, below) == Some(Scanned(scanned + [(children[last].0, below)], Some(children[last].0)))
  {
  }

  /** Children with no blank among them are taken as they are. */
  lemma {:induction false} ScanPlain(children: seq<Entry>, below: Digest)
    requires forall i :: 0 <= i < |children| ==> children[i].1 != NULL_DIGEST
    ensures Scan(children, below) == Some(Scanned(children, None))
    decreases |children|
  {
    if children != [] {
      hide Scan;
      var last := |children| - 1;
      ScanPlain(children[..last], below);
      ScanStep(children, last, below, children[..last]);
      assert children == children[..last] + [children[last]];
    }
  }

  /** One blank is filled in with the hash from below. */
  lemma {:induction false} ScanBlank(children: seq<Entry>, m: nat, below: Digest)
    requires m < |children| && below != NULL_DIGEST
    requires forall i :: 0 <= i < |children| ==> (children[i].1 == NULL_DIGEST <==> i == m)
    ensures Scan(children, below) == Some(Scanned(children[m := (children[m].0, below)], Some(children[m].0)))
    decreases |children|
  {
    var last := |children| - 1;
    if m == last {
      ScanPlain(children[..last], below);
      ScanStep(children, last, below, children[..last]);
      assert children[m := (children[m].0, below)] == children[..last] + [(children[m].0, below)];
    } else {
      ScanBlank(children[..last], m, below);
      assert children[m := (children[m].0, below)]
          == children[..last][m := (children[m].0, below)] + [children[last]];
    }
  }

  lemma ScanNodeProof(h: HashFn, tk: Name -> int, t: Tree, signedChar: bool, name: Name, k: nat, below: Digest)
    requires Closed(t) && k <= |name| && name[..k] in t && NonZero(h)
    requires GoesOn(signedChar, t, name, k) ==> name[..k + 1] in t && below == NodeHash(h, tk, t, name[..k + 1])
    ensures Scan(NodeProof(h, tk, t, signedChar, name, k).children, below)
            == Some(Scanned(EntriesFrom(h, tk, t, name[..k], 0),
                            if GoesOn(signedChar, t, name, k) then Some(name[k]) else None))
  {
    hide Closed, NodeHash, NonZero, Scan, EntriesFrom, ValueHash;
    var es, follow := EntriesFrom(h, tk, t, name[..k], 0), Follow(signedChar, name, k);
    var children := Masked(es, follow);
    EntriesNonZero(h, tk, t, name[..k], es);
    if GoesOn(signedChar, t, name, k) {
      NextIn(t, signedChar, name, k);
      NodeHashNonZero(h, tk, t, name[..k + 1]);
      var m := OnlyEntry(h, tk, t, name[..k], name[k]);
      ScanBlank(children, m, below);
      assert children[m := (children[m].0, below)] == es;
    } else {
      assert children == es;
      ScanPlain(children, below);
    }
  }

  lemma EntriesNonZero(h: HashFn, tk: Name -> int, t: Tree, p: Name, es: seq<Entry>)
    requires Closed(t) && p in t && NonZero(h) && es == EntriesFrom(h, tk, t, p, 0)
    ensures forall i :: 0 <= i < |es| ==> es[i].1 != NULL_DIGEST && es[i].0 in t[p].children
  {
    hide Closed, NodeHash, NonZero, EntriesFrom;
    forall i | 0 <= i < |es|
      ensures es[i].1 != NULL_DIGEST && es[i].0 in t[p].children
    {
      EntryOfChild(h, tk, t, p, 0, i);
      NodeHashNonZero(h, tk, t, Child(p, es[i].0));
    }
  }

  lemma OnlyEntry(h: HashFn, tk: Name -> int, t: Tree, p: Name, c: Byte) returns (m: nat)
    requires Closed(t) && p in t && c in t[p].children
    ensures var es := EntriesFrom(h, tk, t, p, 0);
            && m < |es| && es[m].0 == c && Child(p, c) in t && es[m].1 == NodeHash(h, tk, t, Child(p, c))
            && forall i :: 0 <= i < |es| && i != m ==> es[i].0 != c
  {
    hide Closed, NodeHash, EntriesFrom;
    var es := EntriesFrom(h, tk, t, p, 0);
    ChildHasEntry(h, tk, t, p, 0, c);
    m :| 0 <= m < |es| && es[m].0 == c;
    EntryOfChild(h, tk, t, p, 0, m);
    forall i | 0 <= i < |es| && i != m
      ensures es[i].0 != c
    {
      EntriesAscend(h, tk, t, p, 0, if i < m then i else m, if i < m then m else i);
    }
  }

  lemma NodeHashNonZero(h: HashFn, tk: Name -> int, t: Tree, p: Name)
    requires Closed(t) && p in t && NonZero(h)
    ensures NodeHash(h, tk, t, p) != NULL_DIGEST
  {
    hide Closed;
    NodeHashInput(h, tk, t, p);
  }

  lemma ValueHashNonZero(h: HashFn, outPoint: OutPoint, nHeightOfLastTakeover: int)
    requires NonZero(h)
    ensures ValueHash(h, outPoint, nHeightOfLastTakeover) != NULL_DIGEST
  {
  }

  lemma ValueOfNodeProof(h: HashFn, tk: Name -> int, t: Tree, signedChar: bool, name: Name, k: nat, proof: Proof)
    requires Closed(t) && k <= |name| && name[..k] in t && NonZero(h)
    requires proof.hasValue <==> Proves(t, signedChar, name)
    requires proof.hasValue ==> name in t && t[name].claims != [] && proof.outPoint == t[name].claims[0].outPoint
                                && proof.nHeightOfLastTakeover == tk(name)
    requires [] in t && WalkEnd(t, signedChar, name, 0) == WalkEnd(t, signedChar, name, k)
    ensures var node := NodeProof(h, tk, t, signedChar, name, k);
            && NodeValue(h, proof, node, !GoesOn(signedChar, t, name, k))
                == Some(ValueBytes(h, tk(name[..k]), t[name[..k]]))
            && (CarriesValue(node) <==> !GoesOn(signedChar, t, name, k) && proof.hasValue)
  {
    hide Closed, EntriesFrom, ValueHash, NonZero;
    assert name[..|name|] == name;
    assert k < |name| ==> name[..k] != name;
    if t[name[..k]].claims != [] {
      ValueHashNonZero(h, t[name[..k]].claims[0].outPoint, tk(name[..k]));
    }
    if GoesOn(signedChar, t, name, k) {
      NextIn(t, signedChar, name, k);
    }
  }

  lemma IsProofParts(h: HashFn, tk: Name -> int, t: Tree, signedChar: bool, name: Name, proof: Proof)
    requires Closed(t) && IsProofFor(h, tk, t, signedChar, name, proof)
    ensures [] in t && name[..0] == []
    ensures proof.hasValue <==> Proves(t, signedChar, name)
    ensures proof.hasValue ==> name in t && t[name].claims != [] && proof.outPoint == t[name].claims[0].outPoint
                               && proof.nHeightOfLastTakeover == tk(name)
  {
  }

  /** From every depth of the walk down, the verifier computes the hash of that node. */
  lemma {:induction false} ProofFromVerifies(h: HashFn, tk: Name -> int, t: Tree, signedChar: bool, name: Name, k: nat,
      proof: Proof)
    requires Closed(t) && k <= |name| && name[..k] in t && NonZero(h) && IsProofFor(h, tk, t, signedChar, name, proof)
    requires WalkEnd(t, signedChar, name, 0) == WalkEnd(t, signedChar, name, k)
    ensures VerifyNodes(h, proof, ProofFrom(h, tk, t, signedChar, name, k))
            == Some(Chain(NodeHash(h, tk, t, name[..k]), name[k..WalkEnd(t, signedChar, name, k)], proof.hasValue))
    decreases |name| - k
  {
    hide Closed, NodeHash, NonZero, NodeProof, GoesOn, Proves, Scan, NodeValue, CarriesValue, NodeInput, IsProofFor,
        VerifyNodes, ProofFrom, ValueBytes, Flatten, EntriesFrom;
    IsProofParts(h, tk, t, signedChar, name, proof);
    var nodes, p, d := ProofFrom(h, tk, t, signedChar, name, k), name[..k], WalkEnd(t, signedChar, name, k);
    var entries, value := EntriesFrom(h, tk, t, p, 0), ValueBytes(h, tk(p), t[p]);
    NodeHashParts(h, tk, t, p);
    ValueOfNodeProof(h, tk, t, signedChar, name, k, proof);
    ProofFromParts(h, tk, t, signedChar, name, k);
    if GoesOn(signedChar, t, name, k) {
      NextIn(t, signedChar, name, k);
      ProofFromVerifies(h, tk, t, signedChar, name, k + 1, proof);
      var below := Chain(NodeHash(h, tk, t, name[..k + 1]), name[k + 1..d], proof.hasValue);
      ScanNodeProof(h, tk, t, signedChar, name, k, below.hash);
      VerifyStep(h, proof, nodes, below, Scanned(entries, Some(name[k])), value);
      assert name[k..d] == [name[k]] + name[k + 1..d];
    } else {
      VerifyNothing(h, proof, nodes[1..]);
      ScanNodeProof(h, tk, t, signedChar, name, k, NULL_DIGEST);
      VerifyStep(h, proof, nodes, Chain(NULL_DIGEST, [], false), Scanned(entries, None), value);
      assert name[k..d] == [] + [];
    }
  }

  lemma NodeHashParts(h: HashFn, tk: Name -> int, t: Tree, p: Name)
    requires Closed(t) && p in t
    ensures NodeHash(h, tk, t, p) == h(Flatten(EntriesFrom(h, tk, t, p, 0)) + ValueBytes(h, tk(p), t[p]))
  {
    hide Closed, NodeHash;
    NodeHashInput(h, tk, t, p);
  }

  lemma ProofFromParts(h: HashFn, tk: Name -> int, t: Tree, signedChar: bool, name: Name, k: nat)
    requires Closed(t) && k <= |name| && name[..k] in t
    ensures var nodes := ProofFrom(h, tk, t, signedChar, name, k);
            && nodes[0] == NodeProof(h, tk, t, signedChar, name, k)
            && (|nodes| == 1 <==> !GoesOn(signedChar, t, name, k))
            && (GoesOn(signedChar, t, name, k) ==>
                  k < |name| && name[..k + 1] in t && nodes[1..] == ProofFrom(h, tk, t, signedChar, name, k + 1)
                  && WalkEnd(t, signedChar, name, k) == WalkEnd(t, signedChar, name, k + 1))
            && (!GoesOn(signedChar, t, name, k) ==> nodes[1..] == [] && WalkEnd(t, signedChar, name, k) == k)
  {
    hide Closed;
    if GoesOn(signedChar, t, name, k) {
      NextIn(t, signedChar, name, k);
    }
  }

  lemma ProofFromStep(h: HashFn, tk: Name -> int, t: Tree, signedChar: bool, name: Name, k: nat, before: seq<ProofNode>)
    requires Closed(t) && k <= |name| && name[..k] in t
    ensures GoesOn(signedChar, t, name, k) ==>
              && k < |name| && name[..k + 1] in t
                  && WalkEnd(t, signedChar, name, k) == WalkEnd(t, signedChar, name, k + 1)
              && before + ProofFrom(h, tk, t, signedChar, name, k)
                 == (before + [NodeProof(h, tk, t, signedChar, name, k)]) + ProofFrom(h, tk, t, signedChar, name, k + 1)
    ensures !GoesOn(signedChar, t, name, k) ==>
              && WalkEnd(t, signedChar, name, k) == k
              && before + ProofFrom(h, tk, t, signedChar, name, k)
                  == before + [NodeProof(h, tk, t, signedChar, name, k)]
  {
    hide Closed, NodeProof, GoesOn;
    ProofFromParts(h, tk, t, signedChar, name, k);
    var nodes := ProofFrom(h, tk, t, signedChar, name, k);
    assert nodes == [nodes[0]] + nodes[1..];
  }

  lemma VerifyStep(h: HashFn, proof: Proof, nodes: seq<ProofNode>, below: Chain, scanned: Scanned, value: seq<Byte>)
    requires nodes != [] && VerifyNodes(h, proof, nodes[1..]) == Some(below)
    requires Scan(nodes[0].children, below.hash) == Some(scanned) && (|nodes| > 1 ==> scanned.found != None)
    requires NodeValue(h, proof, nodes[0], |nodes| == 1) == Some(value)
    ensures VerifyNodes(h, proof, nodes)
            == Some(Chain(h(Flatten(scanned.entries) + value),
                          (if scanned.found == None then [] else [scanned.found.value]) + below.path,
                          below.verified || CarriesValue(nodes[0])))
  {
  }

  /** The proof for any name, present or absent, is accepted against the root hash of a trie
      that is not empty. */
  lemma ProofAccepted(h: HashFn, tk: Name -> int, t: Tree, signedChar: bool, name: Name, proof: Proof)
    requires Closed(t) && NonZero(h) && IsProofFor(h, tk, t, signedChar, name, proof)
    requires !t[[]].Empty()
    ensures Accepts(h, proof, RootHash(h, tk, t), name)
  {
    hide Closed, NodeHash, NonZero, VerifyNodes;
    ProofFromVerifies(h, tk, t, signedChar, name, 0, proof);
    var d := WalkEnd(t, signedChar, name, 0);
    assert name[0..d] == name[..d];
  }

  /** It proves a claim exactly if the name holds one and none of its characters is lost
      to the sign of char. */
  lemma {:induction false} WalkReaches(t: Tree, signedChar: bool, name: Name, k: nat)
    requires Closed(t) && k <= |name| && name[..k] in t
    ensures WalkEnd(t, signedChar, name, k) == |name|
            <==> name in t && (signedChar ==> forall i :: k <= i < |name| ==> name[i] < 128)
    decreases |name| - k
  {
    hide Closed;
    if k == |name| {
      assert name[..k] == name;
    } else if GoesOn(signedChar, t, name, k) {
      NextIn(t, signedChar, name, k);
      WalkReaches(t, signedChar, name, k + 1);
    } else if name in t {
      ClosedHas(t, name, k);
      assert signedChar && name[k] >= 128;
    }
  }

  /** The proof of a claim is accepted as one for every prefix of its name, whatever that holds,
      and for no other name. */
  lemma AcceptedForPrefixesOf(h: HashFn, tk: Name -> int, t: Tree, signedChar: bool, name: Name, proof: Proof,
      other: Name)
    requires Closed(t) && NonZero(h) && IsProofFor(h, tk, t, signedChar, name, proof)
    requires !t[[]].Empty() && proof.hasValue
    ensures Accepts(h, proof, RootHash(h, tk, t), other) <==> other <= name
  {
    hide Closed, NodeHash, NonZero, VerifyNodes;
    ProofFromVerifies(h, tk, t, signedChar, name, 0, proof);
    assert name[0..|name|] == name;
  }

  lemma ProvesExactly(t: Tree, signedChar: bool, name: Name)
    requires Closed(t) && [] in t
    ensures Proves(t, signedChar, name)
            <==> ClaimsAt(t, name) != [] && (signedChar ==> forall i :: 0 <= i < |name| ==> name[i] < 128)
  {
    hide Closed;
    assert name[..0] == [] && name[..|name|] == name;
    WalkReaches(t, signedChar, name, 0);
  }
}
