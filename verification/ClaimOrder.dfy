/** The order in which claims control, in terms of numbers. */
module ClaimOrder {
  import opened ClaimTypes
  import opened PathOps
  import Radix

  // ---------- byte strings are ordered as the numbers they spell ----------

  lemma {:induction false} FirstDigit(s: seq<nat>, b: nat)
    requires s != []
    ensures Radix.Number(s, b) == s[0] * Radix.Pow(b, |s| - 1) + Radix.Number(s[1..], b)
    decreases |s|
  {
    if |s| == 1 {
      assert s[..0] == [] && s[1..] == [];
      assert Radix.Number(s, b) == Radix.Number([], b) * b + s[0];
    } else {
      var t := s[..|s| - 1];
      FirstDigit(t, b);
      assert t[1..] == s[1..][..|s| - 2];
      Spread(s[0], Radix.Pow(b, |s| - 2), Radix.Number(t[1..], b), b);
    }
  }

  lemma Spread(x: int, p: int, y: int, b: int)
    ensures (x * p + y) * b == x * (b * p) + y * b
  {
  }

  lemma FirstDecides(x: int, y: int, p: int, u: int, v: int)
    requires x < y && 0 <= u < p && 0 <= v
    ensures x * p + u < y * p + v
  {
    Radix.Scale(x + 1, y, p);
  }

  lemma {:induction false} BytesLessIs(a: seq<Byte>, b: seq<Byte>)
    requires |a| == |b|
    ensures BytesLess(a, b) <==> Radix.Number(a, 256) < Radix.Number(b, 256)
  {
    if a != [] {
      hide Radix.Number, Radix.Pow;
      var p := Radix.Pow(256, |a| - 1);
      FirstDigit(a, 256);
      FirstDigit(b, 256);
      Radix.NumberBound(a[1..], 256);
      Radix.NumberBound(b[1..], 256);
      if a[0] == b[0] {
        BytesLessIs(a[1..], b[1..]);
      } else if a[0] < b[0] {
        FirstDecides(a[0], b[0], p, Radix.Number(a[1..], 256), Radix.Number(b[1..], 256));
      } else {
        FirstDecides(b[0], a[0], p, Radix.Number(b[1..], 256), Radix.Number(a[1..], 256));
      }
    }
  }

  /** Outpoints by their hash, read as a number with the first byte the most significant, and
      then by their index. */
  lemma OutPointLessIs(a: OutPoint, b: OutPoint)
    ensures OutPointLess(a, b) <==>
            || Radix.Number(a.hash, 256) < Radix.Number(b.hash, 256)
            || (a.hash == b.hash && a.n < b.n)
  {
    BytesLessIs(a.hash, b.hash);
  }

  /** After reordering, the claim in front has more worth than any other, or the same and less
      height, or the same of both and the lesser outpoint. */
  lemma FrontInNumbers(heap: seq<ClaimValue> -> seq<ClaimValue>, claims: seq<ClaimValue>,
      supports: seq<SupportValue>, i: nat)
    requires IsMakeHeap(heap) && UniqueClaims(claims) && 1 <= i < |claims|
    ensures |Reordered(heap, claims, supports)| == |claims|
    ensures var front, other := Reordered(heap, claims, supports)[0], Reordered(heap, claims, supports)[i];
            var worth := front.nAmount + SupportSum(supports, front.claimId);
            var otherWorth := other.nAmount + SupportSum(supports, other.claimId);
            || worth > otherWorth
            || (worth == otherWorth && front.nHeight < other.nHeight)
            || (worth == otherWorth && front.nHeight == other.nHeight
                && (|| Radix.Number(front.outPoint.hash, 256) < Radix.Number(other.outPoint.hash, 256)
                    || (front.outPoint.hash == other.outPoint.hash && front.outPoint.n < other.outPoint.n)))
  {
    hide IsMakeHeap, UniqueClaims, Reordered, SupportSum;
    ReorderedControls(heap, claims, supports);
    var r := Reordered(heap, claims, supports);
    OutPointLessIs(r[0].outPoint, r[i].outPoint);
    assert Outranks(r[0], r[i], supports);
  }

  // ---------- each rule at work ----------

  function Claim(hashByte: Byte, n: nat, claimId: int, nAmount: int, nHeight: int): (c: ClaimValue)
    ensures c.outPoint.hash[0] == hashByte
  {
    ClaimValue(OutPoint([hashByte] + Zeros(31), n), claimId, nAmount, 0, nHeight, nHeight)
  }

  function Support(claimId: int, nAmount: int): SupportValue
  {
    SupportValue(OutPoint([9] + Zeros(31), 0), claimId, nAmount, 1, 1)
  }

  lemma TwoInBag(a: ClaimValue, b: ClaimValue, r: seq<ClaimValue>)
    requires ClaimBag(r) == ClaimBag([a, b]) && |r| == 2
    ensures (Plain(r[0]) == Plain(a) && Plain(r[1]) == Plain(b)) || (Plain(r[0]) == Plain(b) && Plain(r[1]) == Plain(a))
  {
    assert PlainClaims([a, b]) == [Plain(a), Plain(b)] && PlainClaims(r) == [Plain(r[0]), Plain(r[1])];
    assert multiset([Plain(r[0]), Plain(r[1])]) == multiset{Plain(a), Plain(b)};
    assert Plain(r[0]) in multiset{Plain(a), Plain(b)} && Plain(r[1]) in multiset{Plain(a), Plain(b)};
    if Plain(r[0]) == Plain(r[1]) {
      assert multiset{Plain(r[0]), Plain(r[1])}[Plain(r[0])] == 2;
    }
  }

  lemma PlainRank(a: ClaimValue, b: ClaimValue, c: ClaimValue, d: ClaimValue, supports: seq<SupportValue>)
    requires Outranks(a, b, supports) && Plain(c) == Plain(a) && Plain(d) == Plain(b)
    ensures Outranks(c, d, supports)
  {
    assert Plain(c).claimId == c.claimId && Plain(c).nAmount == c.nAmount;
    assert Plain(d).claimId == d.claimId && Plain(d).nAmount == d.nAmount;
    assert Plain(c).nHeight == c.nHeight && Plain(c).outPoint == c.outPoint;
    assert Plain(d).nHeight == d.nHeight && Plain(d).outPoint == d.outPoint;
  }

  lemma NotBothWays(a: ClaimValue, b: ClaimValue, supports: seq<SupportValue>)
    requires Outranks(a, b, supports)
    ensures !Outranks(b, a, supports)
  {
    OutPointLessTotal(a.outPoint, b.outPoint);
  }

  /** Which of two claims is in front, by its id. */
  method FrontOf(heap: seq<ClaimValue> -> seq<ClaimValue>, a: ClaimValue, b: ClaimValue, supports: seq<SupportValue>)
    returns (claimId: int)
    requires IsMakeHeap(heap) && a.claimId != b.claimId && a.outPoint != b.outPoint
    ensures Outranks(a, b, supports) ==> claimId == a.claimId
    ensures Outranks(b, a, supports) ==> claimId == b.claimId
  {
    hide IsMakeHeap, Reordered, Outranks, ClaimBag;
    var r := ReorderClaims(heap, [a, b], supports);
    ReorderedControls(heap, [a, b], supports);
    assert Outranks(r[0], r[1], supports);
    TwoInBag(a, b, r);
    claimId := r[0].claimId;
    assert Plain(r[0]).claimId == claimId && Plain(a).claimId == a.claimId && Plain(b).claimId == b.claimId;
    if Plain(r[0]) == Plain(a) {
      PlainRank(r[0], r[1], a, b, supports);
      NotBothWays(a, b, supports);
    } else {
      PlainRank(r[0], r[1], b, a, supports);
      NotBothWays(b, a, supports);
    }
  }

  lemma LargerRanks()
    ensures Outranks(Claim(2, 0, 2, 20, 6), Claim(1, 0, 1, 10, 5), [])
  {
  }

  lemma SupportedRanks()
    ensures Outranks(Claim(1, 0, 1, 10, 6), Claim(2, 0, 2, 20, 5), [Support(2, 1), Support(1, 12)])
  {
    var supports := [Support(2, 1), Support(1, 12)];
    assert supports[1..] == [Support(1, 12)] && [Support(1, 12)][1..] == [];
    assert SupportSum([Support(1, 12)], 1) == 12 && SupportSum([Support(1, 12)], 2) == 0;
  }

  lemma OlderRanks()
    ensures Outranks(Claim(2, 0, 1, 10, 5), Claim(1, 0, 2, 10, 6), [])
  {
  }

  lemma HashRanks()
    ensures Outranks(Claim(1, 7, 1, 10, 5), Claim(2, 3, 2, 10, 5), [])
  {
  }

  lemma IndexRanks()
    ensures Outranks(Claim(1, 3, 1, 10, 5), Claim(1, 7, 2, 10, 5), [])
  {
  }

  /** Each rule decides where those before it do not: worth with supports, then height, then
      the hash of the outpoint, then its index. */
  method FrontByEachRule(heap: seq<ClaimValue> -> seq<ClaimValue>) returns (fronts: seq<int>)
    requires IsMakeHeap(heap)
    ensures fronts == [2, 1, 1, 1, 1]
  {
    hide IsMakeHeap, Outranks;
    LargerRanks();
    var amount := FrontOf(heap, Claim(1, 0, 1, 10, 5), Claim(2, 0, 2, 20, 6), []);
    SupportedRanks();
    var supported := FrontOf(heap, Claim(1, 0, 1, 10, 6), Claim(2, 0, 2, 20, 5), [Support(2, 1), Support(1, 12)]);
    OlderRanks();
    var older := FrontOf(heap, Claim(2, 0, 1, 10, 5), Claim(1, 0, 2, 10, 6), []);
    HashRanks();
    var hash := FrontOf(heap, Claim(1, 7, 1, 10, 5), Claim(2, 3, 2, 10, 5), []);
    IndexRanks();
    var index := FrontOf(heap, Claim(1, 3, 1, 10, 5), Claim(1, 7, 2, 10, 5), []);
    fronts := [amount, supported, older, hash, index];
  }

  // ---------- what counts as another claim in front ----------

  /** Names are looked at and hashes marked when a claim comes to the front, or none is left
      there, that differs in its outpoint, id, amount, height, or the height it is valid from. */
  lemma ChangeMeans(before: seq<ClaimValue>, after: seq<ClaimValue>)
    ensures before != [] && after != [] ==>
              (TopChanged(before, after) <==>
                || before[0].outPoint != after[0].outPoint || before[0].claimId != after[0].claimId
                || before[0].nAmount != after[0].nAmount || before[0].nHeight != after[0].nHeight
                || before[0].nValidAtHeight != after[0].nValidAtHeight)
    ensures before == [] || after == [] ==> TopChanged(before, after)
  {
    if before != [] && after != [] {
      var b, a := Plain(before[0]), Plain(after[0]);
      assert b.outPoint == before[0].outPoint && b.claimId == before[0].claimId && b.nAmount == before[0].nAmount;
      assert b.nHeight == before[0].nHeight && b.nValidAtHeight == before[0].nValidAtHeight;
      assert a.outPoint == after[0].outPoint && a.claimId == after[0].claimId && a.nAmount == after[0].nAmount;
      assert a.nHeight == after[0].nHeight && a.nValidAtHeight == after[0].nValidAtHeight;
    }
  }
}
