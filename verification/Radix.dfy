/** Numbers as digits, most significant first, and how many digits another base takes. */
module Radix {

  function Pow(b: nat, n: nat): (r: nat)
    ensures b > 0 ==> r > 0
  {
    if n == 0 then 1 else b * Pow(b, n - 1)
  }

  predicate Digits(s: seq<nat>, b: nat) {
    forall i :: 0 <= i < |s| ==> s[i] < b
  }

  function Number(s: seq<nat>, b: nat): (r: nat)
  {
    if s == [] then 0 else Number(s[..|s| - 1], b) * b + s[|s| - 1]
  }

  function LeadingZeros(s: seq<nat>): (z: nat)
    ensures z <= |s|
  {
    if s == [] || s[0] != 0 then 0 else 1 + LeadingZeros(s[1..])
  }

  lemma {:induction false} NumberBound(s: seq<nat>, b: nat)
    requires Digits(s, b) && b > 0
    ensures Number(s, b) < Pow(b, |s|)
  {
    if s != [] {
      NumberBound(s[..|s| - 1], b);
      OneMoreDigit(Number(s[..|s| - 1], b), s[|s| - 1], b, Pow(b, |s| - 1));
    }
  }

  lemma OneMoreDigit(x: nat, d: nat, b: nat, p: nat)
    requires x < p && d < b
    ensures x * b + d < b * p
  {
    Scale(x + 1, p, b);
  }

  lemma Scale(x: int, y: int, b: int)
    requires x <= y && b >= 0
    ensures x * b <= b * y && b * x <= b * y && x * b <= y * b
  {
  }

  lemma {:induction false} ZeroInFront(s: seq<nat>, b: nat)
    ensures Number([0] + s, b) == Number(s, b)
  {
    if s == [] {
      assert ([0] + s)[..0] == [];
      assert Number([], b) * b == 0;
    } else {
      ZeroInFront(s[..|s| - 1], b);
      assert ([0] + s)[..|s|] == [0] + s[..|s| - 1];
    }
  }

  /** Zeros in front are worth nothing. */
  lemma {:induction false} ZerosInFront(s: seq<nat>, k: nat, b: nat)
    requires k <= |s| && forall i :: 0 <= i < k ==> s[i] == 0
    ensures Number(s, b) == Number(s[k..], b)
    decreases k
  {
    if k == 0 {
      assert s[0..] == s;
    } else {
      ZeroInFront(s[1..], b);
      assert s == [0] + s[1..];
      ZerosInFront(s[1..], k - 1, b);
      assert s[1..][k - 1..] == s[k..];
    }
  }

  lemma {:induction false} LeadingZerosAre(s: seq<nat>, k: nat)
    requires k <= |s| && (forall i :: 0 <= i < k ==> s[i] == 0) && (k < |s| ==> s[k] != 0)
    ensures LeadingZeros(s) == k
    decreases k
  {
    if k > 0 {
      LeadingZerosAre(s[1..], k - 1);
    }
  }

  lemma {:induction false} FirstIsNotZero(s: seq<nat>, b: nat)
    requires s != [] && s[0] != 0 && b > 0
    ensures Number(s, b) > 0
  {
    if |s| > 1 {
      FirstIsNotZero(s[..|s| - 1], b);
      Scale(1, Number(s[..|s| - 1], b), b);
    }
  }

  /** Digits without zeros in front are determined by their number. */
  lemma {:induction false} OneNumeral(s: seq<nat>, t: seq<nat>, b: nat)
    requires b > 0 && Digits(s, b) && Digits(t, b) && Number(s, b) == Number(t, b)
    requires (s != [] ==> s[0] != 0) && (t != [] ==> t[0] != 0)
    ensures s == t
  {
    if s == [] || t == [] {
      if s != [] {
        FirstIsNotZero(s, b);
      }
      if t != [] {
        FirstIsNotZero(t, b);
      }
    } else {
      var s', t' := s[..|s| - 1], t[..|t| - 1];
      LastDigit(Number(s', b), s[|s| - 1], Number(t', b), t[|t| - 1], b);
      OneNumeral(s', t', b);
      assert s == s' + [s[|s| - 1]] && t == t' + [t[|t| - 1]];
    }
  }

  lemma LastDigit(x: nat, d: nat, y: nat, e: nat, b: nat)
    requires d < b && e < b && x * b + d == y * b + e
    ensures x == y && d == e
  {
    if x < y {
      Scale(x + 1, y, b);
    } else if y < x {
      Scale(y + 1, x, b);
    }
  }

  /** Digits are determined by their number and the zeros in front. */
  lemma {:induction false} SameNumeral(s: seq<nat>, t: seq<nat>, b: nat)
    requires b > 0 && Digits(s, b) && Digits(t, b)
    requires Number(s, b) == Number(t, b) && LeadingZeros(s) == LeadingZeros(t)
    ensures s == t
    decreases |s|
  {
    if LeadingZeros(s) == 0 {
      OneNumeral(s, t, b);
    } else {
      ZeroInFront(s[1..], b);
      ZeroInFront(t[1..], b);
      assert s == [0] + s[1..] && t == [0] + t[1..];
      SameNumeral(s[1..], t[1..], b);
    }
  }

  // ---------- how many digits are enough ----------

  lemma Regrouped(x: int, y: int, z: int)
    ensures x * (y * z) == (x * y) * z
  {
  }

  lemma {:induction false} PowAdd(b: nat, m: nat, n: nat)
    ensures Pow(b, m + n) == Pow(b, m) * Pow(b, n)
    decreases m
  {
    if m > 0 {
      PowAdd(b, m - 1, n);
      assert m + n - 1 == m - 1 + n;
      Regrouped(b, Pow(b, m - 1), Pow(b, n));
    }
  }

  lemma {:induction false} PowMul(b: nat, m: nat, n: nat)
    ensures Pow(b, m * n) == Pow(Pow(b, m), n)
    decreases n
  {
    if n == 0 {
      assert m * 0 == 0;
    } else {
      PowMul(b, m, n - 1);
      assert m * n == m + m * (n - 1);
      PowAdd(b, m, m * (n - 1));
    }
  }

  lemma {:induction false} PowMonotone(b: nat, m: nat, n: nat)
    requires b > 0 && m <= n
    ensures Pow(b, m) <= Pow(b, n)
    decreases n
  {
    if m < n {
      PowMonotone(b, m, n - 1);
      Scale(1, b, Pow(b, n - 1));
    }
  }

  lemma {:induction false} BasesInOrder(x: nat, y: nat, n: nat)
    requires x <= y
    ensures Pow(x, n) <= Pow(y, n)
    decreases n
  {
    if n > 0 {
      BasesInOrder(x, y, n - 1);
      Scale(Pow(x, n - 1), Pow(y, n - 1), x);
      Scale(x, y, Pow(y, n - 1));
    }
  }

  lemma {:induction false} RootsInOrder(x: nat, y: nat, n: nat)
    requires x < y && n > 0
    ensures Pow(x, n) < Pow(y, n)
    decreases n
  {
    if n == 1 {
      assert Pow(x, 0) == 1 && Pow(y, 0) == 1;
    } else {
      RootsInOrder(x, y, n - 1);
      Scale(Pow(x, n - 1), Pow(y, n - 1), x);
      Scale(x + 1, y, Pow(y, n - 1));
      assert Pow(y, n - 1) * (x + 1) == x * Pow(y, n - 1) + Pow(y, n - 1);
    }
  }

  lemma PowSwap(b: nat, m: nat, n: nat)
    ensures Pow(Pow(b, m), n) == Pow(b, n * m)
  {
    hide Pow;
    PowMul(b, m, n);
    assert m * n == n * m;
  }

  lemma RatioHolds(a: nat, b: nat, p: nat, q: nat, n: nat)
    requires Pow(a, q) <= Pow(b, p)
    ensures Pow(a, q * n) <= Pow(b, p * n)
  {
    hide Pow;
    PowMul(a, q, n);
    PowMul(b, p, n);
    BasesInOrder(Pow(a, q), Pow(b, p), n);
  }

  /** If q digits of base a fit p digits of base b, then n digits of base a fit as many
      digits of base b as that ratio asks for. */
  lemma Enough(a: nat, b: nat, p: nat, q: nat, n: nat, len: nat)
    requires a > 0 && b > 0 && q > 0 && Pow(a, q) <= Pow(b, p) && p * n <= q * len
    ensures Pow(a, n) <= Pow(b, len)
  {
    hide Pow;
    RatioHolds(a, b, p, q, n);
    PowMonotone(b, p * n, q * len);
    PowSwap(a, n, q);
    PowSwap(b, len, q);
    NoRoot(Pow(a, n), Pow(b, len), q);
  }

  lemma NoRoot(x: nat, y: nat, q: nat)
    requires q > 0 && Pow(x, q) <= Pow(y, q)
    ensures x <= y
  {
    hide Pow;
    if y < x {
      RootsInOrder(y, x, q);
    }
  }

  /** Powers by squaring. */
  lemma Squared(b: nat, n: nat, p: nat)
    requires Pow(b, n) == p
    ensures Pow(b, 2 * n) == p * p
  {
    PowAdd(b, n, n);
  }

  lemma Powers58()
    ensures Pow(58, 4) == 11316496 && Pow(58, 8) == 128063081718016
    ensures Pow(58, 64)
        == 0x7853026ae25f4ce0c69893e6f1f86f67aef4db69563516064adeb967a9d66f4fe64b09ec94e5010000000000000000
  {
    hide Pow;
    PowOne(58);
    Squared(58, 1, 58);
    Squared(58, 2, 0xd24);
    Squared(58, 4, 0xacad10);
    Squared(58, 8, 0x7479027ea100);
    Squared(58, 16, 0x34fde3761da26b26e1410000);
    Squared(58, 32, 0xaf820335d9b3d9cf58b911d87035677fb7f528100000000);
  }

  lemma PowOne(b: nat)
    ensures Pow(b, 1) == b
  {
    assert Pow(b, 0) == 1;
  }

  lemma Powers256()
    ensures Pow(256, 4) == 0x100000000 && Pow(256, 8) == 0x10000000000000000
        && Pow(256, 16) == 0x100000000000000000000000000000000
          && Pow(256, 32) == 0x10000000000000000000000000000000000000000000000000000000000000000
  {
    hide Pow;
    PowOne(256);
    Squared(256, 1, 256);
    Squared(256, 2, 0x10000);
    Squared(256, 4, 0x100000000);
    Squared(256, 8, 0x10000000000000000);
    Squared(256, 16, 0x100000000000000000000000000000000);
  }

  /** Eight bytes fit eleven digits, so 138 digits for each 100 bytes are enough. */
  lemma DigitsForBytes(n: nat)
    ensures Pow(256, n) <= Pow(58, n * 138 / 100 + 1)
  {
    hide Pow;
    Powers256();
    Powers58();
    PowOne(58);
    Squared(58, 1, 58);
    PowAdd(58, 8, 2);
    PowAdd(58, 10, 1);
    Enough(256, 58, 11, 8, n, n * 138 / 100 + 1);
  }

  /** Seventy-one digits fit 52 bytes, so 733 bytes for each 1000 digits are enough. */
  lemma BytesForDigits(n: nat)
    ensures Pow(58, n) <= Pow(256, n * 733 / 1000 + 1)
  {
    hide Pow;
    Powers256();
    Powers58();
    PowOne(58);
    Squared(58, 1, 58);
    PowAdd(58, 64, 4);
    PowAdd(58, 68, 2);
    PowAdd(58, 70, 1);
    PowAdd(256, 32, 16);
    PowAdd(256, 48, 4);
    Enough(58, 256, 52, 71, n, n * 733 / 1000 + 1);
  }
}
