/** The tree of hashes over the transactions of a block, level after level in one list. */
module MerkleTree {

  type Hash = int

  type Combine = (Hash, Hash) -> Hash

  function Node(f: Combine, left: Hash, right: Hash): (r: Hash) { f(left, right) }

  ghost predicate Injective(f: Combine) {
    forall a, b, c, d :: Node(f, a, b) == Node(f, c, d) ==> a == c && b == d
  }

  /** The next level: pairs, the last node with itself if it has no other. */
  function Level(f: Combine, s: seq<Hash>): (r: seq<Hash>)
    ensures |r| == (|s| + 1) / 2
    ensures forall i :: 0 <= i < |r| ==> r[i] == Node(f, s[2 * i], s[if 2 * i + 1 < |s| then 2 * i + 1 else |s| - 1])
  {
    seq((|s| + 1) / 2,
        i requires 0 <= i < (|s| + 1) / 2 => Node(f, s[2 * i], s[if 2 * i + 1 < |s| then 2 * i + 1 else |s| - 1]))
  }

  function Root(f: Combine, s: seq<Hash>): (r: Hash)
    decreases |s|
  {
    if s == [] then 0 else if |s| == 1 then s[0] else Root(f, Level(f, s))
  }

  function Tree(f: Combine, s: seq<Hash>): (r: seq<Hash>)
    decreases |s|
  {
    if |s| <= 1 then s else s + Tree(f, Level(f, s))
  }

  /** Two identical hashes at the end of a level. */
  predicate EndsTwice(s: seq<Hash>) {
    |s| > 1 && |s| % 2 == 0 && s[|s| - 2] == s[|s| - 1]
  }

  predicate Mutated(f: Combine, s: seq<Hash>)
    decreases |s|
  {
    |s| > 1 && (EndsTwice(s) || Mutated(f, Level(f, s)))
  }

  // ---------- building the tree ----------

  lemma LevelAbove(f: Combine, s: seq<Hash>)
    requires |s| > 1
    ensures Tree(f, s) == s + Tree(f, Level(f, s)) && Root(f, s) == Root(f, Level(f, s))
    ensures Mutated(f, s) <==> EndsTwice(s) || Mutated(f, Level(f, s))
  {
    hide Level;
  }

  lemma TopLevel(f: Combine, s: seq<Hash>)
    requires |s| <= 1
    ensures Tree(f, s) == s && Root(f, s) == (if s == [] then 0 else s[0]) && !Mutated(f, s)
  {
    hide Level;
  }

  /** The flat list so far ends with a level, and the levels above that are all it lacks. */
  ghost predicate Building(f: Combine, leaves: seq<Hash>, tree: seq<Hash>, j: nat, level: seq<Hash>, mutated: bool)
  {
    && j <= |tree| && tree[j..] == level && tree[..j] + Tree(f, level) == Tree(f, leaves)
    && Root(f, level) == Root(f, leaves) && (level == [] ==> j == 0)
    && (mutated || Mutated(f, level) <==> Mutated(f, leaves))
  }

  lemma BuildFirst(f: Combine, leaves: seq<Hash>)
    ensures Building(f, leaves, leaves, 0, leaves, false)
  {
    hide Tree, Root, Mutated;
    assert leaves[..0] + Tree(f, leaves) == Tree(f, leaves);
  }

  lemma BuildNext(f: Combine, leaves: seq<Hash>, tree: seq<Hash>, j: nat, level: seq<Hash>, mutated: bool)
    requires Building(f, leaves, tree, j, level, mutated) && |level| > 1
    ensures Building(f, leaves, tree + Level(f, level), j + |level|, Level(f, level), mutated || EndsTwice(level))
  {
    hide Level, Tree, Root, Mutated, EndsTwice;
    LevelAbove(f, level);
    LevelAdded(tree, j, level, Level(f, level), Tree(f, Level(f, level)));
  }

  lemma Built(f: Combine, leaves: seq<Hash>, tree: seq<Hash>, j: nat, level: seq<Hash>, mutated: bool)
    requires Building(f, leaves, tree, j, level, mutated) && |level| <= 1
    ensures tree == Tree(f, leaves) && mutated == Mutated(f, leaves)
    ensures Root(f, leaves) == if tree == [] then 0 else tree[|tree| - 1]
  {
    hide Level, Tree, Root, Mutated;
    TopLevel(f, level);
    assert tree == tree[..j] + level;
  }

  lemma LevelAdded(before: seq<Hash>, j: nat, level: seq<Hash>, next: seq<Hash>, rest: seq<Hash>)
    requires j <= |before| && before[j..] == level
    ensures (before + next)[..j + |level|] + rest == before[..j] + (level + rest)
    ensures (before + next)[j + |level|..] == next
  {
    assert (before + next)[..j + |level|] == before == before[..j] + level;
  }

  method BlockBuildMerkleTree(f: Combine, leaves: seq<Hash>)
      returns (value: Hash, mutated: bool, vMerkleTree: seq<Hash>)
    ensures value == Root(f, leaves) && mutated == Mutated(f, leaves) && vMerkleTree == Tree(f, leaves)
  {
    hide Level, Node, Tree, Root, Mutated, Building, EndsTwice;
    vMerkleTree := leaves;
    var j := 0;
    mutated := false;
    var nSize := |leaves|;
    ghost var level := leaves;
    BuildFirst(f, leaves);
    while nSize > 1
      invariant 0 <= j && 0 <= nSize && |vMerkleTree| == j + nSize && vMerkleTree[j..] == level
      invariant Building(f, leaves, vMerkleTree, j, level, mutated)
      decreases nSize
    {
      var twice;
      BuildNext(f, leaves, vMerkleTree, j, level, mutated);
      vMerkleTree, twice := PushLevel(f, vMerkleTree, j, nSize, level);
      mutated := mutated || twice;
      j := j + nSize;
      nSize := (nSize + 1) / 2;
      level := Level(f, level);
    }
    value := if vMerkleTree == [] then 0 else vMerkleTree[|vMerkleTree| - 1];
    Built(f, leaves, vMerkleTree, j, level, mutated);
  }

  /** Hashes the pairs of the last level onto the end of the list. */
  method PushLevel(f: Combine, tree: seq<Hash>, j: nat, nSize: nat, ghost level: seq<Hash>)
      returns (more: seq<Hash>, twice: bool)
    requires nSize > 1 && |tree| == j + nSize && tree[j..] == level
    ensures more == tree + Level(f, level) && twice == EndsTwice(level)
  {
    more := tree;
    twice := false;
    var i := 0;
    ghost var next := Level(f, level);
    while i < nSize
      invariant i % 2 == 0 && 0 <= i <= nSize + 1
      invariant more == tree + next[..i / 2]
      invariant twice == (i >= nSize && EndsTwice(level))
    {
      var i2 := if i + 1 < nSize - 1 then i + 1 else nSize - 1;
      assert tree[j + i] == level[i] && tree[j + i2] == level[i2];
      if i2 == i + 1 && i2 + 1 == nSize && more[j + i] == more[j + i2] {
        twice := true;
      }
      more := more + [Node(f, more[j + i], more[j + i2])];
      i := i + 2;
    }
    assert next[..i / 2] == next;
  }

  // ---------- branches ----------

  /** The node beside the i-th, or the last if there is none. */
  function Beside(i: nat, size: nat): (k: nat)
    requires size > 0
    ensures k < size
  {
    var other := if i % 2 == 0 then i + 1 else i - 1;
    if other < size - 1 then other else size - 1
  }

  function Branch(f: Combine, s: seq<Hash>, i: nat): (r: seq<Hash>)
    decreases |s|
  {
    if |s| <= 1 then [] else [s[Beside(i, |s|)]] + Branch(f, Level(f, s), i / 2)
  }

  /** The root that a leaf at an index has by a branch. */
  function Fold(f: Combine, leaf: Hash, branch: seq<Hash>, i: nat): (r: Hash)
    decreases |branch|
  {
    if branch == [] then leaf
    else Fold(f, if i % 2 == 1 then Node(f, branch[0], leaf) else Node(f, leaf, branch[0]), branch[1..], i / 2)
  }

  method BlockGetMerkleBranch(f: Combine, count: nat, vMerkleTree: seq<Hash>, index: nat, ghost leaves: seq<Hash>)
    returns (vMerkleBranch: seq<Hash>)
    requires count == |leaves| && vMerkleTree == Tree(f, leaves)
    ensures vMerkleBranch == Branch(f, leaves, index)
  {
    hide Level, Node, Tree, Branch, Beside;
    vMerkleBranch := [];
    var nSize, j, nIndex := count, 0, index;
    ghost var level := leaves;
    assert vMerkleTree[0..] == vMerkleTree;
    assert [] + Branch(f, leaves, index) == Branch(f, leaves, index);
    while nSize > 1
      invariant nSize == |level| && j <= |vMerkleTree| && vMerkleTree[j..] == Tree(f, level)
      invariant vMerkleBranch + Branch(f, level, nIndex) == Branch(f, leaves, index)
      decreases nSize
    {
      var i := Beside(nIndex, nSize);
      TreeStarts(f, vMerkleTree, j, level, i);
      BranchStarts(f, level, nIndex, vMerkleBranch);
      vMerkleBranch := vMerkleBranch + [vMerkleTree[j + i]];
      nIndex := nIndex / 2;
      j := j + nSize;
      nSize := (nSize + 1) / 2;
      level := Level(f, level);
    }
    NoBranch(f, level, nIndex);
    assert vMerkleBranch + [] == vMerkleBranch;
  }

  lemma BranchStarts(f: Combine, s: seq<Hash>, i: nat, before: seq<Hash>)
    requires |s| > 1
    ensures before + Branch(f, s, i) == before + [s[Beside(i, |s|)]] + Branch(f, Level(f, s), i / 2)
  {
    hide Level;
  }

  lemma NoBranch(f: Combine, s: seq<Hash>, i: nat)
    requires |s| <= 1
    ensures Branch(f, s, i) == []
  {
  }

  lemma TreeStarts(f: Combine, tree: seq<Hash>, j: nat, level: seq<Hash>, i: nat)
    requires |level| > 1 && j <= |tree| && tree[j..] == Tree(f, level) && i < |level|
    ensures j + |level| <= |tree| && tree[j + i] == level[i]
    ensures tree[j + |level|..] == Tree(f, Level(f, level))
  {
    hide Level, Node;
    var rest := Tree(f, Level(f, level));
    assert tree[j..] == level + rest;
    assert tree[j + i] == tree[j..][i];
    assert tree[j + |level|..] == tree[j..][|level|..];
  }

  /** Every leaf with its branch has the root. */
  lemma {:induction false} BranchLeadsToRoot(f: Combine, s: seq<Hash>, i: nat)
    requires i < |s|
    ensures Fold(f, s[i], Branch(f, s, i), i) == Root(f, s)
    decreases |s|
  {
    hide Level, Node;
    if |s| > 1 {
      BranchLeadsToRoot(f, Level(f, s), i / 2);
      FirstFold(f, s, i);
    }
  }

  lemma FirstFold(f: Combine, s: seq<Hash>, i: nat)
    requires i < |s| && |s| > 1
    ensures Fold(f, s[i], Branch(f, s, i), i) == Fold(f, Level(f, s)[i / 2], Branch(f, Level(f, s), i / 2), i / 2)
  {
    hide Level, Node, Root, Fold;
    var b, rest := Branch(f, s, i), Branch(f, Level(f, s), i / 2);
    assert b == [s[Beside(i, |s|)]] + rest;
    FoldOne(f, s[i], b[0], rest, i);
    NodeAbove(f, s, i);
  }

  lemma FoldOne(f: Combine, leaf: Hash, other: Hash, rest: seq<Hash>, i: nat)
    ensures Fold(f, leaf, [other] + rest, i)
        == Fold(f, if i % 2 == 1 then Node(f, other, leaf) else Node(f, leaf, other), rest, i / 2)
  {
    hide Node;
    assert ([other] + rest)[1..] == rest;
  }

  lemma NodeAbove(f: Combine, s: seq<Hash>, i: nat)
    requires i < |s| && |s| > 1
    ensures var other := s[Beside(i, |s|)];
            Level(f, s)[i / 2] == if i % 2 == 1 then Node(f, other, s[i]) else Node(f, s[i], other)
  {
    hide Node;
  }

  function Depth(n: nat): (d: nat)
  {
    if n <= 1 then 0 else 1 + Depth((n + 1) / 2)
  }

  lemma {:induction false} BranchLength(f: Combine, s: seq<Hash>, i: nat)
    ensures |Branch(f, s, i)| == Depth(|s|)
    decreases |s|
  {
    if |s| > 1 {
      BranchLength(f, Level(f, s), i / 2);
    }
  }

  lemma {:induction false} FoldIsInjective(f: Combine, x: Hash, b: seq<Hash>, y: Hash, c: seq<Hash>, i: nat)
    requires Injective(f) && |b| == |c| && Fold(f, x, b, i) == Fold(f, y, c, i)
    ensures x == y && b == c
    decreases |b|
  {
    hide Node;
    if b != [] {
      var x' := if i % 2 == 1 then Node(f, b[0], x) else Node(f, x, b[0]);
      var y' := if i % 2 == 1 then Node(f, c[0], y) else Node(f, y, c[0]);
      FoldIsInjective(f, x', b[1..], y', c[1..], i / 2);
      assert b == [b[0]] + b[1..] && c == [c[0]] + c[1..];
    }
  }

  /** Unless hashes collide, a branch as long as the tree is deep leads to the root from the
      leaf at the index and from no other, and there is one such branch. */
  lemma BranchIsBinding(f: Combine, s: seq<Hash>, i: nat, leaf: Hash, branch: seq<Hash>)
    requires Injective(f) && i < |s| && |branch| == Depth(|s|)
    ensures Fold(f, leaf, branch, i) == Root(f, s) <==> leaf == s[i] && branch == Branch(f, s, i)
  {
    hide Fold, Branch, Root;
    BranchLeadsToRoot(f, s, i);
    BranchLength(f, s, i);
    if Fold(f, leaf, branch, i) == Root(f, s) {
      FoldIsInjective(f, leaf, branch, s[i], Branch(f, s, i), i);
    }
  }

  // ---------- the mutated flag ----------

  predicate Distinct(s: seq<Hash>) {
    forall i, j :: 0 <= i < j < |s| ==> s[i] != s[j]
  }

  /** Different transactions never set the flag. */
  lemma {:induction false} DistinctIsNotMutated(f: Combine, s: seq<Hash>)
    requires Injective(f) && Distinct(s)
    ensures !Mutated(f, s)
    decreases |s|
  {
    if |s| > 1 {
      LevelIsDistinct(f, s);
      DistinctIsNotMutated(f, Level(f, s));
    }
  }

  lemma LevelIsDistinct(f: Combine, s: seq<Hash>)
    requires Injective(f) && Distinct(s)
    ensures Distinct(Level(f, s))
  {
    hide Level, Node;
  }

  function Pow2(k: nat): (p: nat)
    ensures p > 0
  {
    if k == 0 then 1 else 2 * Pow2(k - 1)
  }

  /** The number of low zero bits. */
  method Ctz(i: nat) returns (j: nat)
    ensures i == 0 ==> j == 0
    ensures i != 0 ==> i % Pow2(j) == 0 && i / Pow2(j) % 2 == 1
  {
    hide Pow2;
    j := 0;
    if i == 0 {
      return;
    }
    var rest := i;
    PowZero();
    while rest % 2 == 0
      invariant rest > 0 && i == rest * Pow2(j)
      decreases rest
    {
      Halved(rest, j);
      j := j + 1;
      rest := rest / 2;
    }
    Divides(i, rest, Pow2(j));
  }

  lemma Halved(rest: nat, j: nat)
    requires rest % 2 == 0
    ensures rest * Pow2(j) == rest / 2 * Pow2(j + 1)
  {
    var h := rest / 2;
    assert rest == 2 * h;
    assert 2 * h * Pow2(j) == h * (2 * Pow2(j));
  }

  lemma Divides(x: int, q: int, p: int)
    requires p > 0 && x == q * p
    ensures x % p == 0 && x / p == q
  {
    var z := x / p - q;
    assert x == p * (x / p) + x % p;
    assert p * z == p * (x / p) - q * p;
    if z >= 1 {
      Least(p, z);
    } else if z <= -1 {
      Least(p, -z);
    }
  }

  lemma Least(p: int, z: int)
    requires p > 0 && z >= 1
    ensures p * z >= p && p * -z <= -p
  {
  }

  /** The last leaves of a block once more. */
  function Repeated(s: seq<Hash>, k: nat): (r: seq<Hash>)
    requires k <= |s|
    ensures |r| == |s| + k
  {
    s + s[|s| - k..]
  }

  /** Repeating the last 2 to the k leaves, where that is the largest power of two that divides
      their number but not all of them, keeps the root, and the flag tells. */
  lemma {:induction false} RepeatingKeepsRoot(f: Combine, s: seq<Hash>, m: nat, k: nat)
    requires |s| == m * Pow2(k) && m % 2 == 1 && m >= 3
    ensures Pow2(k) <= |s|
    ensures Root(f, Repeated(s, Pow2(k))) == Root(f, s) && Mutated(f, Repeated(s, Pow2(k)))
    decreases k
  {
    hide Level, Node, Pow2, Root, Mutated, Repeated;
    Multiples(m, Pow2(k));
    if k == 0 {
      PowZero();
      RepeatingLast(f, s);
    } else {
      HalfCount(m, k);
      LevelOfRepeated(f, s, Pow2(k - 1));
      OneLevel(f, s);
      OneLevel(f, Repeated(s, Pow2(k)));
      RepeatingKeepsRoot(f, Level(f, s), m, k - 1);
    }
  }

  lemma HalfCount(m: nat, k: nat)
    requires k > 0 && m > 0
    ensures Pow2(k) == 2 * Pow2(k - 1) && m * Pow2(k) == 2 * (m * Pow2(k - 1)) && m * Pow2(k - 1) >= Pow2(k - 1)
  {
    hide Pow2;
    PowNext(k - 1);
    Multiples(m, Pow2(k - 1));
  }

  lemma PowZero()
    ensures Pow2(0) == 1
  {
  }

  lemma PowNext(k: nat)
    ensures Pow2(k + 1) == 2 * Pow2(k)
  {
  }

  lemma OneLevel(f: Combine, s: seq<Hash>)
    requires |s| > 1
    ensures Root(f, s) == Root(f, Level(f, s)) && (EndsTwice(s) || Mutated(f, Level(f, s)) <==> Mutated(f, s))
  {
    hide Level, Node;
  }

  lemma RepeatingLast(f: Combine, s: seq<Hash>)
    requires |s| % 2 == 1 && |s| >= 3
    ensures Root(f, Repeated(s, 1)) == Root(f, s) && Mutated(f, Repeated(s, 1))
  {
    hide Node, Root, Mutated;
    var t := Repeated(s, 1);
    OneLevel(f, s);
    OneLevel(f, t);
    SameLevels(f, t, s);
  }

  lemma SameLevels(f: Combine, t: seq<Hash>, s: seq<Hash>)
    requires |s| % 2 == 1 && |t| == |s| + 1 && t[..|s|] == s && t[|s|] == s[|s| - 1]
    ensures Level(f, t) == Level(f, s)
  {
    hide Level, Node;
    forall i | 0 <= i < |Level(f, s)|
      ensures Level(f, t)[i] == Level(f, s)[i]
    {
      assert t[2 * i] == s[2 * i];
    }
  }

  lemma Multiples(m: nat, p: nat)
    requires p > 0
    ensures m >= 1 ==> m * p >= p
    ensures m * (2 * p) == 2 * (m * p)
  {
  }

  lemma LevelOfRepeated(f: Combine, s: seq<Hash>, p: nat)
    requires p > 0 && |s| % 2 == 0 && 2 * p <= |s|
    ensures |Level(f, s)| == |s| / 2 >= p && Level(f, Repeated(s, 2 * p)) == Repeated(Level(f, s), p)
  {
    hide Level, Node;
    var t, l := Repeated(s, 2 * p), Level(f, s);
    var a, b := Level(f, t), Repeated(l, p);
    forall i | 0 <= i < |a|
      ensures a[i] == b[i]
    {
      NodeOfRepeated(f, s, p, i);
    }
  }

  lemma NodeOfRepeated(f: Combine, s: seq<Hash>, p: nat, i: nat)
    requires p > 0 && |s| % 2 == 0 && 2 * p <= |s| && i < |s| / 2 + p
    ensures Level(f, Repeated(s, 2 * p))[i] == Level(f, s)[if i < |s| / 2 then i else i - p]
  {
    hide Level, Node;
    var t, j := Repeated(s, 2 * p), if i < |s| / 2 then i else i - p;
    assert t[2 * i] == s[2 * j] && t[2 * i + 1] == s[2 * j + 1];
  }

  /** Repeating all leaves of a full tree adds a level instead. */
  lemma {:induction false} RepeatingAll(f: Combine, s: seq<Hash>, k: nat)
    requires |s| == Pow2(k)
    ensures Root(f, Repeated(s, |s|)) == Node(f, Root(f, s), Root(f, s)) && Mutated(f, Repeated(s, |s|))
    decreases k
  {
    hide Level, Node, Pow2, Root, Mutated, Repeated;
    if k == 0 {
      PowZero();
      RepeatingOne(f, s);
    } else {
      PowNext(k - 1);
      assert |s| == 2 * Pow2(k - 1);
      LevelOfRepeated(f, s, Pow2(k - 1));
      OneLevel(f, s);
      OneLevel(f, Repeated(s, |s|));
      RepeatingAll(f, Level(f, s), k - 1);
    }
  }

  lemma RepeatingOne(f: Combine, s: seq<Hash>)
    requires |s| == 1
    ensures Root(f, Repeated(s, 1)) == Node(f, Root(f, s), Root(f, s)) && Mutated(f, Repeated(s, 1))
  {
    hide Level, Node;
    var t := Repeated(s, 1);
    OneLevel(f, t);
    assert Level(f, t)[0] == Node(f, s[0], s[0]);
  }

  /** Unless hashes collide, two lists of leaves that make trees of one depth with the same
      root are the same, or else the flag is set for one of them. */
  lemma {:induction false} OneListWithoutMutation(f: Combine, s: seq<Hash>, t: seq<Hash>)
    requires Injective(f) && Depth(|s|) == Depth(|t|) && s != [] && t != []
    requires Root(f, s) == Root(f, t) && !Mutated(f, s) && !Mutated(f, t)
    ensures s == t
    decreases |s|
  {
    if |s| > 1 && |t| > 1 {
      OneListWithoutMutation(f, Level(f, s), Level(f, t));
      SameLevel(f, s, t);
    }
  }

  lemma SameLevel(f: Combine, s: seq<Hash>, t: seq<Hash>)
    requires Injective(f) && Level(f, s) == Level(f, t) && !EndsTwice(s) && !EndsTwice(t)
    ensures s == t
  {
    SameNodes(f, s, t);
    SameNodes(f, t, s);
    if |s| < |t| {
      LastTwice(f, s, t);
      assert false;
    }
    if |t| < |s| {
      LastTwice(f, t, s);
      assert false;
    }
  }

  lemma SameNodes(f: Combine, s: seq<Hash>, t: seq<Hash>)
    requires Injective(f) && Level(f, s) == Level(f, t)
    ensures forall i :: 0 <= i < |s| && i < |t| ==> s[i] == t[i]
  {
    hide Level, Node;
    forall i | 0 <= i < |s| && i < |t|
      ensures s[i] == t[i]
    {
      assert Level(f, s)[i / 2] == Level(f, t)[i / 2];
    }
  }

  lemma LastTwice(f: Combine, s: seq<Hash>, t: seq<Hash>)
    requires Injective(f) && Level(f, s) == Level(f, t) && |s| < |t|
    ensures EndsTwice(t)
  {
    hide Level, Node;
    assert |t| == |s| + 1 && |s| % 2 == 1;
    assert Level(f, s)[|s| / 2] == Level(f, t)[|s| / 2];
  }

  // ---------- a tree written out ----------

  lemma ThreeLevels(f: Combine, a: Hash, b: Hash, c: Hash)
    ensures Level(f, [a, b, c]) == [f(a, b), f(c, c)] && Level(f, [f(a, b), f(c, c)]) == [f(f(a, b), f(c, c))]
  {
  }

  /** Three leaves, the last of which is combined with itself: the flat list, the root, which is
      no sign of mutation, and the branches of all three, which name the neighbours from below. */
  method ThreeLeaves(f: Combine, a: Hash, b: Hash, c: Hash)
    returns (root: Hash, mutated: bool, tree: seq<Hash>, branches: seq<seq<Hash>>)
    requires a != b && f(a, b) != f(c, c)
    ensures root == f(f(a, b), f(c, c)) && !mutated
    ensures tree == [a, b, c, f(a, b), f(c, c), f(f(a, b), f(c, c))]
    ensures branches == [[b, f(c, c)], [a, f(c, c)], [c, f(a, b)]]
  {
    var leaves := [a, b, c];
    ThreeLevels(f, a, b, c);
    ghost var level, top := [f(a, b), f(c, c)], [f(f(a, b), f(c, c))];
    root, mutated, tree := BlockBuildMerkleTree(f, leaves);
    assert Root(f, leaves) == Root(f, level) == Root(f, top);
    assert Tree(f, leaves) == leaves + Tree(f, level) && Tree(f, level) == level + Tree(f, top);
    assert Mutated(f, leaves) == Mutated(f, level) && !EndsTwice(level) && !Mutated(f, top);
    var first := BlockGetMerkleBranch(f, 3, tree, 0, leaves);
    var second := BlockGetMerkleBranch(f, 3, tree, 1, leaves);
    var third := BlockGetMerkleBranch(f, 3, tree, 2, leaves);
    branches := [first, second, third];
    ThreeBranches(f, a, b, c);
  }

  lemma ThreeBranches(f: Combine, a: Hash, b: Hash, c: Hash)
    ensures Branch(f, [a, b, c], 0) == [b, f(c, c)] && Branch(f, [a, b, c], 1) == [a, f(c, c)]
    ensures Branch(f, [a, b, c], 2) == [c, f(a, b)]
  {
    ThreeLevels(f, a, b, c);
    var level, top := [f(a, b), f(c, c)], [f(f(a, b), f(c, c))];
    assert Branch(f, top, 0) == [];
    assert Branch(f, level, 0) == [f(c, c)] + Branch(f, top, 0);
    assert Branch(f, level, 1) == [f(a, b)] + Branch(f, top, 0);
    assert Branch(f, [a, b, c], 0) == [b] + Branch(f, level, 0);
    assert Branch(f, [a, b, c], 1) == [a] + Branch(f, level, 0);
    assert Branch(f, [a, b, c], 2) == [c] + Branch(f, level, 1);
  }

  /** No leaves have the root zero. */
  method NoLeaves(f: Combine) returns (root: Hash, mutated: bool)
    ensures root == 0 && !mutated
  {
    var tree;
    root, mutated, tree := BlockBuildMerkleTree(f, []);
  }
}
