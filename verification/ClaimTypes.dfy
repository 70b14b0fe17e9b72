/** The values the claim trie stores: names, digests, outpoints, claims and supports,
    with the ordering that decides which claim controls a name. */
module ClaimTypes {

  type Byte = x: int | 0 <= x < 256

  type Name = seq<Byte>

  function Zeros(n: nat): (z: seq<Byte>)
    ensures |z| == n
    ensures forall i :: 0 <= i < n ==> z[i] == 0
  {
    if n == 0 then [] else [0] + Zeros(n - 1)
  }

  /** A 256-bit blob, in memory order. */
  type Digest = d: seq<Byte> | |d| == 32 witness Zeros(32)

  const NULL_DIGEST: Digest := Zeros(32)

  /** The root hash of an empty trie: the number one, least significant byte first. */
  const EMPTY_TRIE_HASH: Digest := [1] + Zeros(31)

  datatype OutPoint = OutPoint(hash: Digest, n: nat)

  datatype ClaimValue = ClaimValue(
    outPoint: OutPoint,
    claimId: int,
    nAmount: int,
    nEffectiveAmount: int,
    nHeight: int,
    nValidAtHeight: int)

  datatype SupportValue = SupportValue(
    outPoint: OutPoint,
    supportedClaimId: int,
    nAmount: int,
    nHeight: int,
    nValidAtHeight: int)

  // ---------- memcmp order on blobs, lexicographic order on outpoints ----------

  predicate BytesLess(a: seq<Byte>, b: seq<Byte>)
  {
    if a == [] || b == [] then |a| < |b|
    else if a[0] != b[0] then a[0] < b[0]
    else BytesLess(a[1..], b[1..])
  }

  predicate OutPointLess(a: OutPoint, b: OutPoint)
  {
    BytesLess(a.hash, b.hash) || (a.hash == b.hash && a.n < b.n)
  }

  lemma {:induction false} BytesLessTotal(a: seq<Byte>, b: seq<Byte>)
    ensures BytesLess(a, b) || BytesLess(b, a) || a == b
    ensures !(BytesLess(a, b) && BytesLess(b, a))
    ensures !BytesLess(a, a)
  {
    if a != [] {
      BytesLessTotal(a[1..], a[1..]);
      if b != [] && a[0] == b[0] {
        BytesLessTotal(a[1..], b[1..]);
        assert a == [a[0]] + a[1..] && b == [b[0]] + b[1..];
      }
    }
  }

  lemma {:induction false} BytesLessTransitive(a: seq<Byte>, b: seq<Byte>, c: seq<Byte>)
    requires BytesLess(a, b) && BytesLess(b, c)
    ensures BytesLess(a, c)
  {
    if a != [] && b != [] && c != [] && a[0] == b[0] == c[0] {
      BytesLessTransitive(a[1..], b[1..], c[1..]);
    }
  }

  lemma OutPointLessTotal(a: OutPoint, b: OutPoint)
    ensures OutPointLess(a, b) || OutPointLess(b, a) || a == b
    ensures !(OutPointLess(a, b) && OutPointLess(b, a))
    ensures !OutPointLess(a, a)
  {
    BytesLessTotal(a.hash, b.hash);
    BytesLessTotal(a.hash, a.hash);
  }

  // ---------- the heap order on claims ----------

  /** The claim that would lose against another: less effective amount, else more recent,
      else the larger outpoint. */
  predicate ClaimLess(a: ClaimValue, b: ClaimValue)
  {
    || a.nEffectiveAmount < b.nEffectiveAmount
    || (a.nEffectiveAmount == b.nEffectiveAmount
        && (|| a.nHeight > b.nHeight
            || (a.nHeight == b.nHeight && a.outPoint != b.outPoint && !OutPointLess(a.outPoint, b.outPoint))))
  }

  /** What equality of claims compares: everything but the derived effective amount. */
  function Plain(c: ClaimValue): ClaimValue
  {
    c.(nEffectiveAmount := 0)
  }

  function PlainClaims(claims: seq<ClaimValue>): (r: seq<ClaimValue>)
    ensures |r| == |claims|
    ensures forall i :: 0 <= i < |claims| ==> r[i] == Plain(claims[i])
  {
    seq(|claims|, i requires 0 <= i < |claims| => Plain(claims[i]))
  }

  /** The claims of one name as the collection they stand for. */
  ghost function ClaimBag(claims: seq<ClaimValue>): multiset<ClaimValue>
  {
    multiset(PlainClaims(claims))
  }

  ghost predicate UniqueClaims(claims: seq<ClaimValue>)
  {
    forall i, j :: 0 <= i < j < |claims| ==>
      claims[i].claimId != claims[j].claimId && claims[i].outPoint != claims[j].outPoint
  }

  /** What the library's make_heap promises. */
  ghost predicate IsMakeHeap(heap: seq<ClaimValue> -> seq<ClaimValue>)
  {
    forall s: seq<ClaimValue> ::
      && multiset(heap(s)) == multiset(s)
      && (forall i :: 0 <= i < |heap(s)| ==> !ClaimLess(heap(s)[0], heap(s)[i]))
  }

  lemma SameBagSameLength<T>(a: seq<T>, b: seq<T>)
    requires multiset(a) == multiset(b)
    ensures |a| == |b|
    ensures forall x :: x in a <==> x in b
  {
    assert |multiset(a)| == |a| && |multiset(b)| == |b|;
    forall x
      ensures x in a <==> x in b
    {
      assert x in a <==> x in multiset(a);
      assert x in b <==> x in multiset(b);
    }
  }

  lemma BagWithout<T>(s: seq<T>, k: nat)
    requires k < |s|
    ensures multiset(s) == multiset(s[..k] + s[k + 1..]) + multiset{s[k]}
  {
    assert s == s[..k] + [s[k]] + s[k + 1..];
  }

  /** Taking one claim out of the list takes it out of the bag. */
  lemma ClaimBagWithout(s: seq<ClaimValue>, k: nat)
    requires k < |s|
    ensures ClaimBag(s) == ClaimBag(s[..k] + s[k + 1..]) + multiset{Plain(s[k])}
  {
    BagWithout(PlainClaims(s), k);
    assert PlainClaims(s[..k] + s[k + 1..]) == PlainClaims(s)[..k] + PlainClaims(s)[k + 1..];
  }

  lemma BagsWithout<T>(a: seq<T>, b: seq<T>, k: nat)
    requires multiset(a) == multiset(b) && a != [] && k < |b| && b[k] == a[0]
    ensures multiset(a[..0] + a[1..]) == multiset(b[..k] + b[k + 1..])
  {
    BagWithout(b, k);
    BagWithout(a, 0);
    BagCancel(multiset(a[..0] + a[1..]), multiset(b[..k] + b[k + 1..]), a[0]);
  }

  lemma {:induction false} ClaimBagPermutation(a: seq<ClaimValue>, b: seq<ClaimValue>)
    requires multiset(a) == multiset(b)
    ensures ClaimBag(a) == ClaimBag(b)
    decreases |a|
  {
    hide ClaimBag;
    SameBagSameLength(a, b);
    if a == [] {
      assert b == a;
    } else {
      assert a[0] in b;
      var k :| 0 <= k < |b| && b[k] == a[0];
      BagsWithout(a, b, k);
      ClaimBagPermutation(a[..0] + a[1..], b[..k] + b[k + 1..]);
      ClaimBagWithout(a, 0);
      ClaimBagWithout(b, k);
    }
  }

  lemma BagCancel<T>(a: multiset<T>, b: multiset<T>, x: T)
    requires a + multiset{x} == b + multiset{x}
    ensures a == b
  {
    assert a == a + multiset{x} - multiset{x};
    assert b == b + multiset{x} - multiset{x};
  }

  lemma ClaimBagPlain(a: seq<ClaimValue>, b: seq<ClaimValue>)
    requires |a| == |b|
    requires forall i :: 0 <= i < |a| ==> Plain(a[i]) == Plain(b[i])
    ensures ClaimBag(a) == ClaimBag(b)
  {
    assert PlainClaims(a) == PlainClaims(b);
  }

  lemma InClaimBag(s: seq<ClaimValue>, c: ClaimValue)
    ensures c in ClaimBag(s) <==> exists i :: 0 <= i < |s| && Plain(s[i]) == c
    ensures |ClaimBag(s)| == |s|
  {
    assert c in ClaimBag(s) <==> c in PlainClaims(s);
  }

  lemma {:induction false} UniqueClaimsPermutation(a: seq<ClaimValue>, b: seq<ClaimValue>)
    requires multiset(a) == multiset(b) && UniqueClaims(a)
    ensures UniqueClaims(b)
  {
    SameBagSameLength(a, b);
    forall i, j | 0 <= i < j < |b|
      ensures b[i].claimId != b[j].claimId && b[i].outPoint != b[j].outPoint
    {
      assert b[i] in a && b[j] in a;
      if b[i] == b[j] {
        assert b == b[..i] + [b[i]] + b[i + 1..j] + [b[j]] + b[j + 1..];
        assert multiset(b)[b[i]] >= 2;
        NoRepeats(a, b[i]);
      }
    }
  }

  lemma {:induction false} NoRepeats(a: seq<ClaimValue>, c: ClaimValue)
    requires UniqueClaims(a)
    ensures multiset(a)[c] <= 1
  {
    if a != [] {
      var last := |a| - 1;
      assert a == a[..last] + [a[last]];
      NoRepeats(a[..last], c);
      if a[last] == c {
        assert c !in a[..last];
      }
    }
  }

  // ---------- reordering ----------

  function SupportSum(supports: seq<SupportValue>, claimId: int): int
  {
    if supports == [] then 0
    else (if supports[0].supportedClaimId == claimId then supports[0].nAmount else 0)
         + SupportSum(supports[1..], claimId)
  }

  /** One support credits the first claim it names. */
  function CreditOne(claims: seq<ClaimValue>, support: SupportValue): (r: seq<ClaimValue>)
    ensures |r| == |claims|
    ensures forall i :: 0 <= i < |claims| ==> Plain(r[i]) == Plain(claims[i])
  {
    if claims == [] then []
    else if support.supportedClaimId == claims[0].claimId then
      [claims[0].(nEffectiveAmount := claims[0].nEffectiveAmount + support.nAmount)] + claims[1..]
    else [claims[0]] + CreditOne(claims[1..], support)
  }

  function CreditAll(claims: seq<ClaimValue>, supports: seq<SupportValue>): (r: seq<ClaimValue>)
    ensures |r| == |claims|
    ensures forall i :: 0 <= i < |claims| ==> Plain(r[i]) == Plain(claims[i])
    decreases |supports|
  {
    if supports == [] then claims
    else CreditOne(CreditAll(claims, supports[..|supports| - 1]), supports[|supports| - 1])
  }

  function ResetAmounts(claims: seq<ClaimValue>): (r: seq<ClaimValue>)
    ensures |r| == |claims|
    ensures forall i :: 0 <= i < |claims| ==> r[i] == claims[i].(nEffectiveAmount := claims[i].nAmount)
  {
    seq(|claims|, i requires 0 <= i < |claims| => claims[i].(nEffectiveAmount := claims[i].nAmount))
  }

  function Reordered(heap: seq<ClaimValue> -> seq<ClaimValue>, claims: seq<ClaimValue>, supports: seq<SupportValue>)
    : seq<ClaimValue>
  {
    heap(CreditAll(ResetAmounts(claims), supports))
  }

  lemma {:induction false} CreditOneFirst(claims: seq<ClaimValue>, s: SupportValue, i: nat)
    requires i <= |claims|
    requires forall k :: 0 <= k < i ==> claims[k].claimId != s.supportedClaimId
    requires i < |claims| ==> claims[i].claimId == s.supportedClaimId
    ensures CreditOne(claims, s) == if i == |claims| then claims
              else claims[i := claims[i].(nEffectiveAmount := claims[i].nEffectiveAmount + s.nAmount)]
  {
    if i > 0 {
      CreditOneFirst(claims[1..], s, i - 1);
    }
  }

  /** Credits one support to the first claim it names. */
  method CreditSupport(claims: seq<ClaimValue>, support: SupportValue) returns (r: seq<ClaimValue>)
    ensures r == CreditOne(claims, support)
  {
    r := claims;
    var i := 0;
    while i < |claims| && support.supportedClaimId != claims[i].claimId
      invariant 0 <= i <= |claims|
      invariant forall k :: 0 <= k < i ==> claims[k].claimId != support.supportedClaimId
    {
      i := i + 1;
    }
    if i < |claims| {
      r := claims[i := claims[i].(nEffectiveAmount := claims[i].nEffectiveAmount + support.nAmount)];
    }
    CreditOneFirst(claims, support, i);
  }

  /** Credits every support, then rebuilds the heap. */
  method ReorderClaims(heap: seq<ClaimValue> -> seq<ClaimValue>, claims: seq<ClaimValue>, supports: seq<SupportValue>)
    returns (r: seq<ClaimValue>)
    ensures r == Reordered(heap, claims, supports)
  {
    r := claims;
    for i := 0 to |claims|
      invariant |r| == |claims|
      invariant forall k :: 0 <= k < i ==> r[k] == claims[k].(nEffectiveAmount := claims[k].nAmount)
      invariant forall k :: i <= k < |claims| ==> r[k] == claims[k]
    {
      r := r[i := r[i].(nEffectiveAmount := r[i].nAmount)];
    }
    assert r == ResetAmounts(claims);
    for s := 0 to |supports|
      invariant r == CreditAll(ResetAmounts(claims), supports[..s])
    {
      assert supports[..s + 1][..s] == supports[..s];
      r := CreditSupport(r, supports[s]);
    }
    assert supports[..|supports|] == supports;
    r := heap(r);
  }

  /** Amount plus all supports: what a claim is worth. */
  function Worth(c: ClaimValue, supports: seq<SupportValue>): int
  {
    c.nAmount + SupportSum(supports, c.claimId)
  }

  /** a controls rather than b: worth more, else older, else smaller outpoint. */
  predicate Outranks(a: ClaimValue, b: ClaimValue, supports: seq<SupportValue>)
  {
    || Worth(a, supports) > Worth(b, supports)
    || (Worth(a, supports) == Worth(b, supports)
        && (a.nHeight < b.nHeight || (a.nHeight == b.nHeight && OutPointLess(a.outPoint, b.outPoint))))
  }

  /** The front claim beats every other one. */
  ghost predicate FrontControls(claims: seq<ClaimValue>, supports: seq<SupportValue>)
  {
    forall i :: 1 <= i < |claims| ==> Outranks(claims[0], claims[i], supports)
  }

  lemma {:induction false} SupportSumAppend(supports: seq<SupportValue>, s: SupportValue, claimId: int)
    ensures SupportSum(supports + [s], claimId)
            == SupportSum(supports, claimId) + (if s.supportedClaimId == claimId then s.nAmount else 0)
  {
    if supports == [] {
      assert supports + [s] == [s];
    } else {
      SupportSumAppend(supports[1..], s, claimId);
      assert (supports + [s])[1..] == supports[1..] + [s];
    }
  }

  lemma {:induction false} CreditOneUnique(claims: seq<ClaimValue>, s: SupportValue, i: nat)
    requires UniqueClaims(claims) && i < |claims|
    ensures CreditOne(claims, s)[i] == claims[i].(nEffectiveAmount := claims[i].nEffectiveAmount
                + (if s.supportedClaimId == claims[i].claimId then s.nAmount else 0))
  {
    if i > 0 {
      if s.supportedClaimId != claims[0].claimId {
        CreditOneUnique(claims[1..], s, i - 1);
      }
    }
  }

  lemma {:induction false} CreditAllUnique(claims: seq<ClaimValue>, supports: seq<SupportValue>, i: nat)
    requires UniqueClaims(claims) && i < |claims|
    ensures CreditAll(claims, supports)[i]
            == claims[i].(nEffectiveAmount := claims[i].nEffectiveAmount + SupportSum(supports, claims[i].claimId))
    decreases |supports|
  {
    if supports != [] {
      var last := |supports| - 1;
      var before := CreditAll(claims, supports[..last]);
      CreditAllUnique(claims, supports[..last], i);
      assert UniqueClaims(before) by {
        forall k | 0 <= k < |before|
          ensures before[k].claimId == claims[k].claimId && before[k].outPoint == claims[k].outPoint
        {
          assert Plain(before[k]) == Plain(claims[k]);
        }
      }
      CreditOneUnique(before, supports[last], i);
      SupportSumAppend(supports[..last], supports[last], claims[i].claimId);
      assert supports[..last] + [supports[last]] == supports;
    }
  }

  /** Reordering keeps the claims and, when ids and outpoints are unique, puts the
      controlling claim in front. */
  lemma ReorderedControls(heap: seq<ClaimValue> -> seq<ClaimValue>, claims: seq<ClaimValue>,
      supports: seq<SupportValue>)
    requires IsMakeHeap(heap)
    ensures ClaimBag(Reordered(heap, claims, supports)) == ClaimBag(claims)
    ensures |Reordered(heap, claims, supports)| == |claims|
    ensures UniqueClaims(claims) ==>
              UniqueClaims(Reordered(heap, claims, supports))
                  && FrontControls(Reordered(heap, claims, supports), supports)
  {
    var reset := ResetAmounts(claims);
    var credited := CreditAll(reset, supports);
    var r := Reordered(heap, claims, supports);
    assert multiset(r) == multiset(credited);
    SameBagSameLength(r, credited);
    ClaimBagPermutation(r, credited);
    forall i | 0 <= i < |claims|
      ensures Plain(credited[i]) == Plain(claims[i])
    {
      assert Plain(credited[i]) == Plain(reset[i]);
    }
    ClaimBagPlain(credited, claims);
    if UniqueClaims(claims) {
      assert UniqueClaims(reset);
      forall k | 0 <= k < |credited|
        ensures credited[k] == claims[k].(nEffectiveAmount := Worth(claims[k], supports))
      {
        CreditAllUnique(reset, supports, k);
      }
      assert UniqueClaims(credited);
      UniqueClaimsPermutation(credited, r);
      forall i | 1 <= i < |r|
        ensures Outranks(r[0], r[i], supports)
      {
        assert !ClaimLess(r[0], r[i]);
        assert r[0] in credited && r[i] in credited;
        OutPointLessTotal(r[0].outPoint, r[i].outPoint);
      }
    }
  }

  /** The controlling claim is the same whatever order the claims are kept in. */
  lemma FrontUnique(a: seq<ClaimValue>, b: seq<ClaimValue>, supports: seq<SupportValue>)
    requires ClaimBag(a) == ClaimBag(b) && a != []
    requires FrontControls(a, supports) && FrontControls(b, supports)
    ensures b != [] && Plain(a[0]) == Plain(b[0])
  {
    InClaimBag(a, Plain(a[0]));
    InClaimBag(b, Plain(a[0]));
    InClaimBag(a, Plain(b[0]));
    InClaimBag(b, Plain(b[0]));
    var i :| 0 <= i < |b| && Plain(b[i]) == Plain(a[0]);
    var j :| 0 <= j < |a| && Plain(a[j]) == Plain(b[0]);
    if i > 0 && j > 0 {
      assert Outranks(b[0], b[i], supports) && Outranks(a[0], a[j], supports);
      assert Worth(b[i], supports) == Worth(a[0], supports) by {
        assert Plain(b[i]).nAmount == Plain(a[0]).nAmount && Plain(b[i]).claimId == Plain(a[0]).claimId;
      }
      assert Worth(b[0], supports) == Worth(a[j], supports) by {
        assert Plain(a[j]).nAmount == Plain(b[0]).nAmount && Plain(a[j]).claimId == Plain(b[0]).claimId;
      }
      assert b[i].nHeight == Plain(b[i]).nHeight == Plain(a[0]).nHeight == a[0].nHeight;
      assert b[0].nHeight == Plain(b[0]).nHeight == Plain(a[j]).nHeight == a[j].nHeight;
      assert b[i].outPoint == Plain(b[i]).outPoint == a[0].outPoint;
      assert b[0].outPoint == Plain(b[0]).outPoint == a[j].outPoint;
      OutPointLessTotal(a[0].outPoint, b[0].outPoint);
      assert false;
    }
  }
}
