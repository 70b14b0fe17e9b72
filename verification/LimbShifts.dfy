/** Shifting, comparing and measuring limbs. */
module LimbShifts {
  import opened Limbs

  // ---------- or of bits ----------

  function Or(x: nat, y: nat): (r: nat)
    decreases x + y
  {
    if x == 0 && y == 0 then 0
    else (if x % 2 == 1 || y % 2 == 1 then 1 else 0) + 2 * Or(x / 2, y / 2)
  }

  lemma {:induction false} OrZero(x: nat)
    ensures Or(0, x) == x && Or(x, 0) == x
    decreases x
  {
    if x > 0 {
      OrZero(x / 2);
    }
  }

  /** Where no bit is in both, or is addition. */
  lemma {:induction false} OrDisjoint(x: nat, y: nat, s: nat)
    requires x < Pow2(s)
    ensures Or(x, Pow2(s) * y) == x + Pow2(s) * y && Or(Pow2(s) * y, x) == x + Pow2(s) * y
    decreases s
  {
    if s == 0 {
      OrZero(y);
    } else {
      var z := Pow2(s - 1) * y;
      assert Pow2(s) * y == 2 * z;
      OrDisjoint(x / 2, y, s - 1);
      OrEven(x, z);
    }
  }

  lemma OrEven(x: nat, z: nat)
    ensures Or(x, 2 * z) == x % 2 + 2 * Or(x / 2, z) && Or(2 * z, x) == x % 2 + 2 * Or(z, x / 2)
  {
    assert 2 * z / 2 == z && 2 * z % 2 == 0;
  }

  // ---------- shifting up ----------

  /** A limb shifted up, with bits coming in from below. */
  lemma SplitUp(b: Limb, s: nat, carry: int)
    requires s < 32 && 0 <= carry < Pow2(s)
    ensures (carry + Pow2(s) * b) % BASE == carry + Pow2(s) * (b % Pow2(32 - s))
    ensures (carry + Pow2(s) * b) / BASE == b / Pow2(32 - s) < Pow2(s)
    ensures carry + Pow2(s) * (b % Pow2(32 - s)) < BASE
  {
    hide Pow2;
    Pow2Add(s, 32 - s);
    Pow2Word();
    SplitBy(Pow2(s), Pow2(32 - s), carry, b);
  }

  lemma SplitBy(m: int, k: int, carry: int, b: int)
    requires m > 0 && k > 0 && m * k == BASE && 0 <= carry < m && 0 <= b < BASE
    ensures (carry + m * b) % BASE == carry + m * (b % k) < BASE
    ensures (carry + m * b) / BASE == b / k < m
  {
    var q, r := b / k, b % k;
    DivisionOf(b, k);
    Cuts(m, k, q, r, carry, b);
    DivMod(carry + m * b, BASE, q, carry + m * r);
  }

  lemma DivisionOf(x: int, d: int)
    requires d > 0
    ensures x == d * (x / d) + x % d && 0 <= x % d < d
  {
  }

  lemma Cuts(m: int, k: int, q: int, r: int, carry: int, b: int)
    requires m > 0 && k > 0 && m * k == BASE && 0 <= r < k && 0 <= carry < m && b == k * q + r && 0 <= b < BASE
    ensures carry + m * b == BASE * q + (carry + m * r) && 0 <= carry + m * r < BASE && q < m
  {
    assert m * b == m * (k * q) + m * r;
    assert m * (k * q) == (m * k) * q;
    assert m * r <= m * (k - 1) by {
      MulMonotone(m, r, k - 1);
    }
    assert m * (k - 1) == m * k - m;
    if q >= m {
      MulMonotone(k, m, q);
      assert false;
    }
  }

  lemma MulMonotone(d: int, a: int, b: int)
    requires d >= 0 && a <= b
    ensures d * a <= d * b
  {
  }

  /** Each limb of the shifted number: its own bits, and those pushed out of the one below. */
  lemma {:induction false} ShiftedUpAt(b: seq<Limb>, s: nat, carry: int, j: nat)
    requires s < 32 && 0 <= carry < Pow2(s) && j < |b|
    ensures MulAdd(Zeros(|b|), b, Pow2(s), carry)[j]
            == Pow2(s) * (b[j] % Pow2(32 - s)) + if j == 0 then carry else b[j - 1] / Pow2(32 - s)
  {
    SplitUp(b[0], s, carry);
    var n := carry + 0 + Pow2(s) * b[0];
    assert Zeros(|b|)[1..] == Zeros(|b| - 1);
    assert MulAdd(Zeros(|b|), b, Pow2(s), carry) == [n % BASE] + MulAdd(Zeros(|b| - 1), b[1..], Pow2(s), n / BASE);
    if j > 0 {
      ShiftedUpAt(b[1..], s, n / BASE, j - 1);
    }
  }

  /** The limbs moved up, with zeros below. */
  function MovedUp(a: seq<Limb>, k: nat): (r: seq<Limb>)
    ensures |r| == |a|
    ensures forall j :: 0 <= j < |a| ==> r[j] == if j < k then 0 else a[j - k]
  {
    if k >= |a| then Zeros(|a|) else Zeros(k) + a[..|a| - k]
  }

  lemma {:induction false} MovedUpValue(a: seq<Limb>, k: nat)
    ensures Value(MovedUp(a, k)) == (Range(k) * Value(a)) % Range(|a|)
    decreases k
  {
    if k == 0 || a == [] {
      NotMoved(a, k);
    } else {
      var low := a[..|a| - 1];
      MovedUpValue(low, k - 1);
      MovedUpOne(a, k);
      DropTop(a);
      RangeNext(k - 1);
      RangeNext(|a| - 1);
      hide Value, Range, MovedUp;
      UpOne(Range(k - 1), Value(a), Value(low), a[|a| - 1], Range(|a| - 1));
    }
  }

  lemma RangeNext(n: nat)
    ensures Range(n + 1) == BASE * Range(n)
  {
  }

  lemma NotMoved(a: seq<Limb>, k: nat)
    requires k == 0 || a == []
    ensures Value(MovedUp(a, k)) == (Range(k) * Value(a)) % Range(|a|)
  {
    if a == [] {
      assert Value(a) == 0 && Range(k) * 0 == 0;
      assert MovedUp(a, k) == [];
    } else {
      assert MovedUp(a, 0) == a;
      ValueBound(a);
      SmallMod(Value(a), Range(|a|));
    }
  }

  lemma SmallMod(x: int, d: int)
    requires 0 <= x < d
    ensures x % d == x
  {
  }

  lemma MovedUpOne(a: seq<Limb>, k: nat)
    requires a != [] && k > 0
    ensures Value(MovedUp(a, k)) == BASE * Value(MovedUp(a[..|a| - 1], k - 1))
  {
    hide MovedUp;
    assert MovedUp(a, k)[1..] == MovedUp(a[..|a| - 1], k - 1);
  }

  lemma UpOne(p: int, v: int, low: int, top: int, m: int)
    requires m > 0 && v == low + m * top
    ensures BASE * ((p * low) % m) == ((BASE * p) * v) % (BASE * m)
  {
    ModHorner(0, p * low, m);
    assert (BASE * p) * v == BASE * (p * low) + (BASE * m) * (p * top) by {
      assert p * v == p * low + p * (m * top);
      assert p * (m * top) == m * (p * top);
      assert (BASE * p) * v == BASE * (p * v);
      assert BASE * (m * (p * top)) == (BASE * m) * (p * top);
    }
    ModPlusMultiple(BASE * (p * low), p * top, BASE * m);
  }

  /** The number shifted up by a whole number of bits. */
  function ShiftedUp(a: seq<Limb>, shift: nat): (r: seq<Limb>)
    ensures |r| == |a|
  {
    MulAdd(Zeros(|a|), MovedUp(a, shift / 32), Pow2(shift % 32), 0)
  }

  lemma ShiftedUpValue(a: seq<Limb>, shift: nat)
    ensures Value(ShiftedUp(a, shift)) == (Pow2(shift) * Value(a)) % Range(|a|)
  {
    hide Value, Pow2, Range, MulAdd, MovedUp, Zeros;
    var k, s, m := shift / 32, shift % 32, Range(|a|);
    MulAddIs(Zeros(|a|), MovedUp(a, k), Pow2(s), 0);
    ZerosValue(|a|);
    MovedUpValue(a, k);
    RangeIsPow2(k);
    Pow2Add(s, 32 * k);
    ModFactor(Pow2(s), Range(k) * Value(a), m);
    MulAssoc(Pow2(s), Range(k), Value(a));
  }

  lemma MulAssoc(a: int, b: int, c: int)
    ensures a * (b * c) == (a * b) * c
  {
  }

  lemma ModFactor(f: int, x: int, m: int)
    requires m > 0
    ensures (f * (x % m)) % m == (f * x) % m
  {
    var q, t := x / m, x % m;
    assert x == m * q + t;
    assert f * x == f * t + m * (f * q) by {
      assert f * (m * q) == m * (f * q);
    }
    ModPlusMultiple(f * t, f * q, m);
  }

  // ---------- shifting down ----------

  /** Each limb: its own upper bits, and the lower ones of the limb above. */
  function BitsDown(a: seq<Limb>, s: nat): (r: seq<Limb>)
    requires s < 32
    ensures |r| == |a|
  {
    if a == [] then []
    else [LimbDown(a[0], if |a| > 1 then a[1] else 0, s)] + BitsDown(a[1..], s)
  }

  function LimbDown(x: Limb, above: Limb, s: nat): (r: Limb)
    requires s < 32
  {
    DownFits(x, above, s);
    x / Pow2(s) + Pow2(32 - s) * (above % Pow2(s))
  }

  lemma {:induction false} BitsDownAt(a: seq<Limb>, s: nat, j: nat)
    requires s < 32 && j < |a|
    ensures BitsDown(a, s)[j] == LimbDown(a[j], if j + 1 < |a| then a[j + 1] else 0, s)
  {
    hide LimbDown;
    if j > 0 {
      BitsDownAt(a[1..], s, j - 1);
    }
  }

  lemma DownFits(x: Limb, above: Limb, s: nat)
    requires s < 32
    ensures 0 <= x / Pow2(s) < Pow2(32 - s) && 0 <= Pow2(32 - s) * (above % Pow2(s))
    ensures x / Pow2(s) + Pow2(32 - s) * (above % Pow2(s)) < BASE
  {
    hide Pow2;
    Pow2Add(s, 32 - s);
    Pow2Word();
    DownFitsBy(x, above, Pow2(s), Pow2(32 - s));
  }

  lemma DownFitsBy(x: int, above: int, m: int, k: int)
    requires m > 0 && k > 0 && m * k == BASE && 0 <= x < BASE
    ensures 0 <= x / m < k && 0 <= k * (above % m) && x / m + k * (above % m) < BASE
  {
    var q := x / m;
    DivisionOf(x, m);
    DivisionOf(above, m);
    if q >= k {
      MulMonotone(m, k, q);
      assert false;
    }
    MulMonotone(k, above % m, m - 1);
    MulMonotone(k, 0, above % m);
    assert k * (m - 1) == m * k - k;
    assert x / m >= 0 by {
      DivPositive(x, m);
    }
  }

  lemma DivPositive(x: int, m: int)
    requires x >= 0 && m > 0
    ensures x / m >= 0
  {
  }

  lemma {:induction false} BitsDownValue(a: seq<Limb>, s: nat)
    requires s < 32
    ensures Value(BitsDown(a, s)) == Value(a) / Pow2(s)
  {
    hide Pow2;
    if a != [] {
      BitsDownValue(a[1..], s);
      assert BitsDown(a, s)[1..] == BitsDown(a[1..], s);
      Pow2Add(s, 32 - s);
      Pow2Word();
      var above, rest := if |a| > 1 then a[1] else 0, if |a| > 1 then Value(a[1..][1..]) else 0;
      assert Value(a[1..]) == above + BASE * rest;
      DownOne(a[0], above, rest, Value(a[1..]), Pow2(s), Pow2(32 - s));
    }
  }

  lemma DownOne(x: int, above: int, rest: int, v: int, m: int, k: int)
    requires m > 0 && k > 0 && m * k == BASE && x >= 0 && v == above + BASE * rest
    ensures x / m + k * (above % m) + BASE * (v / m) == (x + BASE * v) / m
  {
    var q, r := v / m, v % m;
    assert v == m * q + r;
    assert v % m == above % m by {
      assert BASE * rest == m * (k * rest);
      ModPlusMultiple(above, k * rest, m);
    }
    assert BASE * v == m * (k * v) && k * v == k * (m * q) + k * r && k * (m * q) == BASE * q;
    assert x == m * (x / m) + x % m;
    assert m * (x / m + k * v) == m * (x / m) + m * (k * v);
    DivMod(x + BASE * v, m, x / m + k * v, x % m);
  }

  /** The limbs moved down, with zeros above. */
  function MovedDown(a: seq<Limb>, k: nat): (r: seq<Limb>)
    ensures |r| == |a|
    ensures forall j :: 0 <= j < |a| ==> r[j] == if j + k < |a| then a[j + k] else 0
  {
    if k >= |a| then Zeros(|a|) else a[k..] + Zeros(k)
  }

  lemma {:induction false} WithZerosAbove(a: seq<Limb>, n: nat)
    ensures Value(a + Zeros(n)) == Value(a)
  {
    if a == [] {
      ZerosValue(n);
      assert a + Zeros(n) == Zeros(n);
    } else {
      WithZerosAbove(a[1..], n);
      assert (a + Zeros(n))[1..] == a[1..] + Zeros(n);
    }
  }

  lemma {:induction false} DropLow(a: seq<Limb>, k: nat)
    requires k <= |a|
    ensures Value(a[k..]) == Value(a) / Range(k)
    decreases k
  {
    if k == 0 {
      assert a[0..] == a;
    } else {
      DropLow(a[1..], k - 1);
      assert a[1..][k - 1..] == a[k..];
      DivTwice(a[0], Value(a[1..]), Range(k - 1));
    }
  }

  lemma DivTwice(x: int, v: int, p: int)
    requires 0 <= x < BASE && p > 0 && v >= 0
    ensures v / p == (x + BASE * v) / (BASE * p)
  {
    var q, r := v / p, v % p;
    assert v == p * q + r;
    assert BASE * (p * q) == (BASE * p) * q;
    DivMod(x + BASE * v, BASE * p, q, x + BASE * r);
  }

  lemma MovedDownValue(a: seq<Limb>, k: nat)
    ensures Value(MovedDown(a, k)) == Value(a) / Range(k)
  {
    hide Value, Range;
    if k >= |a| {
      ValueBound(a);
      ZerosValue(|a|);
      RangeGrows(|a|, k);
      SmallDiv(Value(a), Range(k));
    } else {
      DropLow(a, k);
      WithZerosAbove(a[k..], k);
    }
  }

  lemma SmallDiv(x: int, d: int)
    requires 0 <= x < d
    ensures x / d == 0
  {
  }

  lemma {:induction false} RangeGrows(n: nat, k: nat)
    requires n <= k
    ensures Range(n) <= Range(k)
    decreases k
  {
    if n < k {
      RangeGrows(n, k - 1);
    }
  }

  function ShiftedDown(a: seq<Limb>, shift: nat): (r: seq<Limb>)
    ensures |r| == |a|
  {
    BitsDown(MovedDown(a, shift / 32), shift % 32)
  }

  lemma ShiftedDownValue(a: seq<Limb>, shift: nat)
    ensures Value(ShiftedDown(a, shift)) == Value(a) / Pow2(shift)
  {
    hide Value, Range, Pow2, BitsDown, MovedDown;
    var k, s := shift / 32, shift % 32;
    BitsDownValue(MovedDown(a, k), s);
    MovedDownValue(a, k);
    RangeIsPow2(k);
    Pow2Add(32 * k, s);
    DivByProduct(Value(a), Range(k), Pow2(s));
  }

  lemma DivByProduct(v: int, p: int, m: int)
    requires v >= 0 && p > 0 && m > 0
    ensures p * m > 0 && (v / p) / m == v / (p * m)
  {
    var q, r := v / p, v % p;
    var q', r' := q / m, q % m;
    assert v == p * q + r && q == m * q' + r';
    assert p * (m * q') == (p * m) * q';
    assert p * q == (p * m) * q' + p * r';
    MulMonotone(p, r', m - 1);
    assert p * (m - 1) == p * m - p;
    DivMod(v, p * m, q', p * r' + r);
  }

  // ---------- order and length ----------

  /** The limbs above position i decide if they differ, else those up to it do. */
  lemma {:induction false} CompareSplit(a: seq<Limb>, b: seq<Limb>, i: nat)
    requires |a| == |b| && i < |a| && a[i + 1..] == b[i + 1..]
    ensures a[i] < b[i] ==> Value(a) < Value(b)
    ensures a[i] > b[i] ==> Value(a) > Value(b)
  {
    if i == 0 {
      assert a[1..] == b[1..];
    } else {
      assert a[1..][i..] == a[i + 1..] == b[1..][i..];
      CompareSplit(a[1..], b[1..], i - 1);
    }
  }

  /** Position of the highest bit, plus one. */
  lemma {:induction false} TopLimb(a: seq<Limb>, i: nat, t: nat)
    requires i < |a| && t < 32 && Pow2(t) <= a[i] < Pow2(t + 1)
    requires forall j :: i < j < |a| ==> a[j] == 0
    ensures Pow2(32 * i + t) <= Value(a) < Pow2(32 * i + t + 1)
  {
    if i == 0 {
      AllZero(a[1..]);
    } else {
      TopLimb(a[1..], i - 1, t);
      Pow2Word();
      Pow2Add(32, 32 * (i - 1) + t);
      Pow2Add(32, 32 * (i - 1) + t + 1);
      assert 32 + (32 * (i - 1) + t) == 32 * i + t;
    }
  }

  lemma {:induction false} AllZero(a: seq<Limb>)
    requires forall j :: 0 <= j < |a| ==> a[j] == 0
    ensures Value(a) == 0
  {
    if a != [] {
      AllZero(a[1..]);
    }
  }
}
