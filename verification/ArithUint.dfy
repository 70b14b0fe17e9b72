/** Unsigned integers of a fixed number of limbs, changed in place. */
module ArithUint {
  import opened Limbs
  import opened LimbShifts

  const WORD64 := 0x1_0000_0000_0000_0000

  /** What is carried into limb i of a sum. */
  function AddCarry(a: seq<Limb>, b: seq<Limb>, carry: int, i: nat): (c: int)
    requires |a| == |b| && i <= |a| && 0 <= carry <= 1
    ensures 0 <= c <= 1
  {
    if i == 0 then carry else (AddCarry(a, b, carry, i - 1) + a[i - 1] + b[i - 1]) / BASE
  }

  lemma {:induction false} AddCarryTail(a: seq<Limb>, b: seq<Limb>, carry: int, i: nat)
    requires |a| == |b| && 0 < i <= |a| && 0 <= carry <= 1
    ensures AddCarry(a[1..], b[1..], (carry + a[0] + b[0]) / BASE, i - 1) == AddCarry(a, b, carry, i)
  {
    if i > 1 {
      AddCarryTail(a, b, carry, i - 1);
    }
  }

  lemma {:induction false} AddAt(a: seq<Limb>, b: seq<Limb>, carry: int, i: nat)
    requires |a| == |b| && i < |a| && 0 <= carry <= 1
    ensures Limbs.Add(a, b, carry)[i] == (AddCarry(a, b, carry, i) + a[i] + b[i]) % BASE
  {
    if i > 0 {
      AddAt(a[1..], b[1..], (carry + a[0] + b[0]) / BASE, i - 1);
      AddCarryTail(a, b, carry, i);
    }
  }

  lemma AddFirst(a: seq<Limb>, b: seq<Limb>)
    requires |a| == |b|
    ensures AddCarry(a, b, 0, 0) == 0
  {
  }

  lemma AddNext(a: seq<Limb>, b: seq<Limb>, i: nat)
    requires |a| == |b| && i < |a|
    ensures AddCarry(a, b, 0, i + 1) == (AddCarry(a, b, 0, i) + a[i] + b[i]) / BASE
  {
  }

  /** What is carried into limb i of a product with one limb, added to something. */
  function MulCarry(acc: seq<Limb>, b: seq<Limb>, m: Limb, carry: int, i: nat): (c: int)
    requires |acc| == |b| && i <= |acc| && 0 <= carry < BASE
    ensures 0 <= c < BASE
  {
    if i == 0 then carry
    else
      NoOverflow(m, b[i - 1], acc[i - 1], MulCarry(acc, b, m, carry, i - 1));
      (MulCarry(acc, b, m, carry, i - 1) + acc[i - 1] + m * b[i - 1]) / BASE
  }

  lemma {:induction false} MulCarryTail(acc: seq<Limb>, b: seq<Limb>, m: Limb, carry: int, i: nat)
    requires |acc| == |b| && 0 < i <= |acc| && 0 <= carry < BASE
    ensures 0 <= (carry + acc[0] + m * b[0]) / BASE < BASE
    ensures MulCarry(acc[1..], b[1..], m, (carry + acc[0] + m * b[0]) / BASE, i - 1) == MulCarry(acc, b, m, carry, i)
  {
    NoOverflow(m, b[0], acc[0], carry);
    if i > 1 {
      MulCarryTail(acc, b, m, carry, i - 1);
    }
  }

  lemma {:induction false} MulAddAt(acc: seq<Limb>, b: seq<Limb>, m: Limb, carry: int, i: nat)
    requires |acc| == |b| && i < |acc| && 0 <= carry < BASE
    ensures MulAdd(acc, b, m, carry)[i] == (MulCarry(acc, b, m, carry, i) + acc[i] + m * b[i]) % BASE
  {
    NoOverflow(m, b[0], acc[0], carry);
    if i > 0 {
      MulAddAt(acc[1..], b[1..], m, (carry + acc[0] + m * b[0]) / BASE, i - 1);
      MulCarryTail(acc, b, m, carry, i);
    }
  }

  /** One step of a product of limbs with what is carried fits 64 bits. */
  lemma NoOverflow(m: Limb, x: Limb, acc: Limb, carry: int)
    requires 0 <= carry < BASE
    ensures 0 <= carry + acc + m * x < WORD64
    ensures 0 <= (carry + acc + m * x) / BASE < BASE
  {
    MulMonotone(m, x, BASE - 1);
    MulMonotone(m, 0, x);
    assert m * (BASE - 1) <= (BASE - 1) * (BASE - 1);
  }

  lemma Low64(s: seq<Limb>, b: nat)
    requires |s| >= 2 && b < WORD64 && s[0] == b % BASE && s[1] == b / BASE && forall j :: 2 <= j < |s| ==> s[j] == 0
    ensures Value(s) == b
  {
    AllZero(s[1..][1..]);
    assert Value(s) == s[0] + BASE * Value(s[1..]);
    assert Value(s[1..]) == s[1] + BASE * Value(s[1..][1..]);
  }

  // ---------- one more and one less ----------

  /** While a one is carried in, limbs that are full become zero. */
  lemma CarryInto(a: seq<Limb>, i: nat)
    requires i <= |a|
    ensures i == 0 ==> AddCarry(a, Zeros(|a|), 1, i) == 1
    ensures i > 0 ==> AddCarry(a, Zeros(|a|), 1, i) == (AddCarry(a, Zeros(|a|), 1, i - 1) + a[i - 1]) / BASE
  {
  }

  lemma CarryThrough(a: seq<Limb>, i: nat)
    requires i < |a|
    ensures Limbs.Add(a, Zeros(|a|), 1)[i] == (AddCarry(a, Zeros(|a|), 1, i) + a[i]) % BASE
  {
    AddAt(a, Zeros(|a|), 1, i);
  }

  lemma {:induction false} CarryStops(a: seq<Limb>, i: nat, j: nat)
    requires i <= j < |a| && AddCarry(a, Zeros(|a|), 1, i) == 0
    ensures AddCarry(a, Zeros(|a|), 1, j) == 0 && Limbs.Add(a, Zeros(|a|), 1)[j] == a[j]
    decreases j
  {
    if i < j {
      CarryStops(a, i, j - 1);
    }
    CarryThrough(a, j);
  }

  function Ones(n: nat): (r: seq<Limb>)
    ensures |r| == n && forall i :: 0 <= i < n ==> r[i] == BASE - 1
  {
    if n == 0 then [] else [BASE - 1] + Ones(n - 1)
  }

  lemma {:induction false} OnesValue(n: nat)
    ensures Value(Ones(n)) == Limbs.Range(n) - 1
  {
    if n > 0 {
      OnesValue(n - 1);
      assert Ones(n)[1..] == Ones(n - 1);
    }
  }

  /** Adding all ones takes one away: limbs that are zero become full. */
  lemma BorrowInto(a: seq<Limb>, i: nat)
    requires i < |a|
    ensures AddCarry(a, Ones(|a|), 0, 0) == 0
    ensures AddCarry(a, Ones(|a|), 0, i) == 0 ==>
              && Limbs.Add(a, Ones(|a|), 0)[i] == (if a[i] == 0 then BASE - 1 else a[i] - 1)
              && AddCarry(a, Ones(|a|), 0, i + 1) == (if a[i] == 0 then 0 else 1)
  {
    AddAt(a, Ones(|a|), 0, i);
  }

  lemma {:induction false} BorrowStops(a: seq<Limb>, i: nat, j: nat)
    requires i <= j < |a| && AddCarry(a, Ones(|a|), 0, i) == 1
    ensures AddCarry(a, Ones(|a|), 0, j) == 1 && Limbs.Add(a, Ones(|a|), 0)[j] == a[j]
    decreases j
  {
    if i < j {
      BorrowStops(a, i, j - 1);
    }
    AddAt(a, Ones(|a|), 0, j);
  }

  lemma {:induction false} Complement(a: seq<Limb>, b: seq<Limb>)
    requires |a| == |b| && forall i :: 0 <= i < |a| ==> b[i] == BASE - 1 - a[i]
    ensures Value(a) + Value(b) == Limbs.Range(|a|) - 1
  {
    if a != [] {
      Complement(a[1..], b[1..]);
    }
  }

  lemma SubMod(a: int, b: int, m: int)
    requires m > 0
    ensures (a + (-b) % m) % m == (a - b) % m
  {
    var q, r := (-b) / m, (-b) % m;
    assert -b == m * q + r;
    ModPlusMultiple(a + r, q, m);
  }

  lemma MulFirst(acc: seq<Limb>, b: seq<Limb>, m: Limb)
    requires |acc| == |b|
    ensures MulCarry(acc, b, m, 0, 0) == 0
  {
  }

  lemma MulNext(acc: seq<Limb>, b: seq<Limb>, m: Limb, i: nat)
    requires |acc| == |b| && i < |acc|
    ensures MulCarry(acc, b, m, 0, i + 1) == (MulCarry(acc, b, m, 0, i) + acc[i] + m * b[i]) / BASE
  {
  }

  // ---------- products, row by row ----------

  lemma ZeroProduct(m: int, x: int)
    ensures x == 0 ==> m * x == 0
  {
  }

  lemma RowsFirst(s: seq<Limb>, x: seq<Limb>, y: seq<Limb>, z: seq<Limb>)
    requires |s| == |x| == |y| == |z| && s == z
    ensures s[..0] + MulRows(s[0..], x[0..], y[..|y| - 0]) == MulRows(z, x, y)
  {
    hide MulRows;
    assert s[0..] == s && x[0..] == x && y[..|y|] == y;
  }

  lemma RowsStep(before: seq<Limb>, after: seq<Limb>, x: seq<Limb>, y: seq<Limb>, j: nat)
    requires |before| == |after| == |x| == |y| && j < |x| && after[..j] == before[..j]
    requires after[j..] == MulAdd(before[j..], y[..|y| - j], x[j], 0)
    ensures after[..j + 1] + MulRows(after[j + 1..], x[j + 1..], y[..|y| - (j + 1)])
            == before[..j] + MulRows(before[j..], x[j..], y[..|y| - j])
  {
    hide MulAdd;
    var row := MulAdd(before[j..], y[..|y| - j], x[j], 0);
    assert x[j..][1..] == x[j + 1..] && y[..|y| - j][..|y| - j - 1] == y[..|y| - (j + 1)];
    assert row[1..] == after[j + 1..];
    assert after[..j + 1] == after[..j] + [row[0]];
  }

  lemma RowsLast(s: seq<Limb>, x: seq<Limb>, y: seq<Limb>)
    requires |s| == |x| == |y|
    ensures s[..|s|] + MulRows(s[|s|..], x[|s|..], y[..|y| - |s|]) == s
  {
  }

  // ---------- bits of one limb ----------

  /** If a limb is below a power of two, the bit below that power tells whether it is below
      the next lower one. */
  lemma BitTest(x: Limb, bits: nat)
    requires bits > 0 && x < Pow2(bits + 1)
    ensures (x / Pow2(bits)) % 2 == 1 <==> Pow2(bits) <= x
    ensures (x / Pow2(bits)) % 2 != 1 ==> x < Pow2(bits)
  {
    var p := Pow2(bits);
    if x < p {
      SmallDiv(x, p);
    } else {
      DivMod(x, p, 1, x - p);
    }
  }

  lemma LowestBit(x: Limb)
    requires x != 0 && x < Pow2(1)
    ensures Pow2(0) <= x < Pow2(0 + 1)
  {
  }

  // ---------- shifts, limb by limb ----------

  function OrLimb(x: Limb, y: Limb): (r: Limb)
  {
    Pow2Word();
    OrFits(x, y, 32);
    Or(x, y)
  }

  lemma {:induction false} OrFits(x: nat, y: nat, n: nat)
    requires x < Pow2(n) && y < Pow2(n)
    ensures Or(x, y) < Pow2(n)
  {
    if n > 0 {
      OrFits(x / 2, y / 2, n - 1);
    }
  }

  /** Limb j once the limbs before the i-th were shifted up by k limbs and s bits. */
  function UpPart(a: seq<Limb>, k: nat, s: nat, i: nat, j: nat): int
    requires s < 32 && i <= |a| && j < |a|
  {
    (if s != 0 && k + 1 <= j < k + 1 + i then a[j - k - 1] / Pow2(32 - s) else 0)
    + (if k <= j < k + i then (Pow2(s) * a[j - k]) % BASE else 0)
  }

  /** The two limbs that limb i contributes to. The bits it adds are free there. */
  lemma UpNext(a: seq<Limb>, k: nat, s: nat, i: nat)
    requires s < 32 && i < |a|
    ensures 0 <= a[i] / Pow2(32 - s) && (s != 0 ==> a[i] / Pow2(32 - s) < BASE)
    ensures i + k + 1 < |a| && s != 0 ==>
              UpPart(a, k, s, i, i + k + 1) == 0 && OrLimb(0, a[i] / Pow2(32 - s)) == UpPart(a, k, s, i + 1, i + k + 1)
    ensures i + k < |a| ==>
              0 <= UpPart(a, k, s, i, i + k) < BASE
              && OrLimb(UpPart(a, k, s, i, i + k), (Pow2(s) * a[i]) % BASE) == UpPart(a, k, s, i + 1, i + k)
    ensures forall j ::
        0 <= j < |a| && j != i + k && (j != i + k + 1 || s == 0) ==> UpPart(a, k, s, i + 1, j) == UpPart(a, k, s, i, j)
  {
    hide Pow2, Or;
    SplitUp(a[i], s, 0);
    if i > 0 {
      SplitUp(a[i - 1], s, 0);
    }
    Pow2Fits(s);
    OrZero(a[i] / Pow2(32 - s));
    if i + k < |a| {
      var h := if s != 0 && i > 0 then a[i - 1] / Pow2(32 - s) else 0;
      OrDisjoint(h, a[i] % Pow2(32 - s), s);
    }
  }

  lemma Pow2Fits(s: nat)
    requires s < 32
    ensures 0 < Pow2(s) < BASE
  {
    hide Pow2;
    Pow2Word();
    Pow2Add(s, 32 - s);
    Pow2Bigger(32 - s);
    MulMonotone(Pow2(s), 2, Pow2(32 - s));
  }

  lemma Pow2Bigger(n: nat)
    requires n > 0
    ensures Pow2(n) >= 2
  {
  }

  lemma UpDone(a: seq<Limb>, shift: nat, j: nat)
    requires j < |a|
    ensures UpPart(a, shift / 32, shift % 32, |a|, j) == ShiftedUp(a, shift)[j]
  {
    hide Pow2, Or;
    var k, s := shift / 32, shift % 32;
    Pow2Zero();
    Pow2Word();
    ShiftedUpAt(MovedUp(a, k), s, 0, j);
    if j >= k {
      SplitUp(a[j - k], s, 0);
    } else {
      SplitUp(0, s, 0);
    }
    if s == 0 && j > 0 {
      SmallDiv(MovedUp(a, k)[j - 1], Pow2(32));
    }
    SmallDiv(0, Pow2(32 - s));
  }

  lemma Pow2Zero()
    ensures Pow2(0) == 1
  {
  }

  /** Limb j once the limbs before the i-th were shifted down by k limbs and s bits. */
  function DownPart(a: seq<Limb>, k: nat, s: nat, i: nat, j: nat): int
    requires s < 32 && i <= |a| && j < |a|
  {
    (if j + k < i then a[j + k] / Pow2(s) else 0)
    + (if s != 0 && j + k + 1 < i then (Pow2(32 - s) * a[j + k + 1]) % BASE else 0)
  }

  /** The two limbs that limb i contributes to. The bits it adds are free there. */
  lemma DownNext(a: seq<Limb>, k: nat, s: nat, i: nat)
    requires s < 32 && i < |a|
    ensures 0 <= a[i] / Pow2(s) < BASE
    ensures i >= k + 1 && s != 0 ==>
              0 <= DownPart(a, k, s, i, i - k - 1) < BASE
              && OrLimb(DownPart(a, k, s, i, i - k - 1), (Pow2(32 - s) * a[i]) % BASE)
                  == DownPart(a, k, s, i + 1, i - k - 1)
    ensures i >= k ==> DownPart(a, k, s, i, i - k) == 0 && OrLimb(0, a[i] / Pow2(s)) == DownPart(a, k, s, i + 1, i - k)
    ensures forall j ::
        0 <= j < |a| && j != i - k && (j != i - k - 1 || s == 0)
        ==> DownPart(a, k, s, i + 1, j) == DownPart(a, k, s, i, j)
  {
    hide Pow2, Or;
    DownFits(a[i], 0, s);
    Pow2Least(s);
    OrZero(a[i] / Pow2(s));
    if i >= k + 1 && s != 0 {
      DownFits(a[i - 1], a[i], s);
      SplitUp(a[i], 32 - s, 0);
      OrDisjoint(a[i - 1] / Pow2(s), a[i] % Pow2(s), 32 - s);
    }
  }

  /** A limb divided by a power of two is still a limb. */
  lemma Pow2Least(s: nat)
    requires s < 32
    ensures 0 < Pow2(32 - s) <= BASE
  {
    hide Pow2;
    Pow2Word();
    Pow2Add(s, 32 - s);
    MulMonotone(Pow2(32 - s), 1, Pow2(s));
  }

  lemma DownDone(a: seq<Limb>, shift: nat, j: nat)
    requires j < |a|
    ensures DownPart(a, shift / 32, shift % 32, |a|, j) == ShiftedDown(a, shift)[j]
  {
    hide Pow2, Or;
    var k, s := shift / 32, shift % 32;
    var moved := MovedDown(a, k);
    Pow2Zero();
    BitsDownAt(moved, s, j);
    SmallDiv(0, Pow2(s));
    if s != 0 && j + 1 < |a| {
      SplitUp(moved[j + 1], 32 - s, 0);
    }
    ZeroProduct(Pow2(32 - s), 0);
    SmallMod(0, Pow2(s));
  }

  // ---------- long division, bit by bit ----------

  /** Changing one limb changes the number by that much at its position. */
  lemma {:induction false} LimbChange(a: seq<Limb>, b: seq<Limb>, j: nat)
    requires |a| == |b| && j < |a| && forall i :: 0 <= i < |a| && i != j ==> a[i] == b[i]
    ensures Value(b) == Value(a) + Limbs.Range(j) * (b[j] as int - a[j])
  {
    if j == 0 {
      assert a[1..] == b[1..];
    } else {
      LimbChange(a[1..], b[1..], j - 1);
      assert BASE * (Limbs.Range(j - 1) * (b[j] as int - a[j])) == (BASE * Limbs.Range(j - 1)) * (b[j] as int - a[j]);
    }
  }

  /** No bit up to bit t is set. */
  predicate LowBitsClear(s: seq<Limb>, t: int) {
    t >= 0 ==>
      && t / 32 < |s|
      && (forall j :: 0 <= j < t / 32 ==> s[j] == 0)
      && s[t / 32] % Pow2(t % 32 + 1) == 0
  }

  /** Setting a clear bit of a limb adds its power of two and keeps those below clear. */
  lemma BitOfLimb(x: Limb, r: nat)
    requires r < 32 && x % Pow2(r + 1) == 0
    ensures Pow2(r) < BASE && OrLimb(x, Pow2(r)) == x + Pow2(r)
    ensures (x + Pow2(r)) % Pow2(r) == 0 && x % Pow2(r) == 0
  {
    hide Pow2, Or;
    Pow2Fits(r);
    Pow2Next(r);
    var y := Factor(x, Pow2(r + 1));
    OrDisjoint(Pow2(r), y, r + 1);
    OddMultiple(Pow2(r), y);
  }

  lemma Factor(x: nat, d: int) returns (y: nat)
    requires d > 0 && x % d == 0
    ensures x == d * y
  {
    y := x / d;
  }

  lemma OddMultiple(p: int, y: int)
    requires p > 0
    ensures (2 * p * y + p) % p == 0 && (2 * p * y) % p == 0
  {
    assert 2 * p * y == p * (2 * y);
    ModPlusMultiple(0, 2 * y, p);
    ModPlusMultiple(0, 2 * y + 1, p);
    assert p * (2 * y + 1) == 2 * p * y + p;
    SmallMod(0, p);
  }

  lemma Pow2Next(n: nat)
    ensures Pow2(n + 1) == 2 * Pow2(n)
  {
  }

  lemma BitAdds(a: seq<Limb>, b: seq<Limb>, t: nat)
    requires LowBitsClear(a, t) && |a| == |b| && forall i :: 0 <= i < |a| && i != t / 32 ==> a[i] == b[i]
    requires b[t / 32] == OrLimb(a[t / 32], (Pow2Fits(t % 32); Pow2(t % 32)))
    ensures Value(b) == Value(a) + Pow2(t) && LowBitsClear(b, t - 1)
  {
    hide Pow2, Value, OrLimb;
    var j, r := t / 32, t % 32;
    BitOfLimb(a[j], r);
    LimbChange(a, b, j);
    RangeIsPow2(j);
    Pow2Add(32 * j, r);
    ClearBelow(b, t);
  }

  lemma ClearBelow(b: seq<Limb>, t: nat)
    requires t / 32 < |b| && b[t / 32] % Pow2(t % 32) == 0 && forall j :: 0 <= j < t / 32 ==> b[j] == 0
    ensures LowBitsClear(b, t - 1)
  {
    hide Pow2;
    if t % 32 == 0 {
      SmallMod(0, Pow2(32));
    }
  }

  lemma BitSkipped(a: seq<Limb>, t: nat)
    requires LowBitsClear(a, t)
    ensures LowBitsClear(a, t - 1)
  {
    hide Pow2, OrLimb;
    BitOfLimb(a[t / 32], t % 32);
    ClearBelow(a, t);
  }

  lemma NothingSet(s: seq<Limb>, t: nat)
    requires t / 32 < |s| && forall j :: 0 <= j < |s| ==> s[j] == 0
    ensures LowBitsClear(s, t)
  {
    SmallMod(0, Pow2(t % 32 + 1));
  }

  /** Bits found down to bit t + 1: the quotient so far and what is left of the dividend. */
  predicate Dividing(n: int, d: int, quotient: int, left: int, t: int)
    requires t >= -1
  {
    d > 0 && 0 <= left < d * Pow2(t + 1) && n == left + quotient * d
  }

  lemma DividingTakes(n: int, d: int, quotient: int, left: int, t: nat)
    requires Dividing(n, d, quotient, left, t) && left >= d * Pow2(t)
    ensures Dividing(n, d, quotient + Pow2(t), left - d * Pow2(t), t - 1)
  {
    hide Pow2;
    Pow2Next(t);
    assert d * (2 * Pow2(t)) == 2 * (d * Pow2(t));
    assert (quotient + Pow2(t)) * d == quotient * d + d * Pow2(t);
  }

  lemma Divided(n: int, d: int, quotient: int, left: int)
    requires Dividing(n, d, quotient, left, -1)
    ensures quotient == n / d && left == n % d
  {
    Pow2Zero();
    assert n == d * quotient + left;
    DivMod(n, d, quotient, left);
  }

  /** Shifting the divisor up to the length of the dividend loses nothing. */
  lemma Aligned(n: nat, d: nat, nb: nat, db: nat, width: nat)
    requires n < Pow2(nb) && db > 0 && Pow2(db - 1) <= d < Pow2(db) && db <= nb <= 32 * width
    ensures Dividing(n, d, 0, n, nb - db)
    ensures 0 <= d * Pow2(nb - db) < Limbs.Range(width)
    ensures (Pow2(nb - db) * d) % Limbs.Range(width) == d * Pow2(nb - db)
  {
    hide Pow2;
    var s := nb - db;
    Pow2Add(db - 1, s + 1);
    Pow2Add(db, s);
    RangeIsPow2(width);
    Pow2Grows(nb, 32 * width);
    AlignedBy(d, Pow2(db - 1), Pow2(db), Pow2(s), Pow2(s + 1));
    SmallMod(d * Pow2(s), Limbs.Range(width));
    assert Pow2(s) * d == d * Pow2(s);
  }

  lemma AlignedBy(d: int, low: int, high: int, p: int, q: int)
    requires 0 < low <= d < high && 0 < p && 0 < q
    ensures low * q <= d * q && 0 <= d * p < high * p
  {
  }

  lemma {:induction false} Pow2Grows(a: nat, b: nat)
    requires a <= b
    ensures Pow2(a) <= Pow2(b)
    decreases b
  {
    if a < b {
      Pow2Grows(a, b - 1);
    }
  }

  lemma Fewer(n: nat, d: nat, nb: nat, db: nat)
    requires n < Pow2(nb) && nb < db && Pow2(db - 1) <= d
    ensures n / d == 0
  {
    Pow2Grows(nb, db - 1);
    SmallDiv(n, d);
  }

  lemma TakesExactly(a: seq<Limb>, b: seq<Limb>)
    requires |a| == |b| && Value(a) >= Value(b)
    ensures (Value(a) - Value(b)) % Limbs.Range(|a|) == Value(a) - Value(b)
  {
    hide Value, Limbs.Range;
    ValueBound(a);
    SmallMod(Value(a) - Value(b), Limbs.Range(|a|));
  }

  lemma DividingSkips(n: int, d: int, quotient: int, left: int, t: nat)
    requires Dividing(n, d, quotient, left, t) && left < d * Pow2(t)
    ensures Dividing(n, d, quotient, left, t - 1)
  {
  }

  lemma LowPart(s: seq<Limb>)
    requires |s| >= 2
    ensures Value(s) % WORD64 == s[0] + BASE * s[1]
  {
    var rest := Value(s[1..][1..]);
    assert Value(s) == s[0] + BASE * Value(s[1..]) && Value(s[1..]) == s[1] + BASE * rest;
    DivMod(Value(s), WORD64, rest, s[0] + BASE * s[1]);
  }

  lemma BackOne(d: int, t: nat)
    requires d >= 0
    ensures Pow2(1) == 2 && (t > 0 ==> (d * Pow2(t)) / 2 == d * Pow2(t - 1))
  {
    if t > 0 {
      assert d * Pow2(t) == 2 * (d * Pow2(t - 1));
    }
  }

  class BaseUint {
    const pn: array<Limb>

    function V(): (v: nat)
      reads pn
    {
      Value(pn[..])
    }

    constructor Zero(width: nat)
      ensures fresh(pn) && pn.Length == width && V() == 0
    {
      pn := new Limb[width](i => 0);
      new;
      AllZero(pn[..]);
    }

    constructor Copy(b: BaseUint)
      ensures fresh(pn) && pn.Length == b.pn.Length && pn[..] == b.pn[..]
    {
      var limbs := new Limb[b.pn.Length](i => 0);
      pn := limbs;
      new;
      for i := 0 to pn.Length
        invariant pn[..i] == b.pn[..i]
      {
        pn[i] := b.pn[i];
      }
      assert pn[..] == pn[..pn.Length] && b.pn[..] == b.pn[..pn.Length];
    }

    /** The low 64 bits are given, the rest is zero. */
    method Set64(b: nat)
      requires pn.Length >= 2 && b < WORD64
      modifies pn
      ensures V() == b
    {
      pn[0] := b % BASE;
      pn[1] := b / BASE;
      for i := 2 to pn.Length
        invariant pn[0] == b % BASE && pn[1] == b / BASE
        invariant forall j :: 2 <= j < i ==> pn[j] == 0
      {
        pn[i] := 0;
      }
      Low64(pn[..], b);
    }

    method AddIn(b: BaseUint)
      requires b.pn.Length == pn.Length
      modifies pn
      ensures V() == (old(V()) + old(b.V())) % Limbs.Range(pn.Length)
    {
      hide Value, Limbs.Add, AddCarry;
      ghost var a, c := pn[..], b.pn[..];
      var carry := 0;
      AddFirst(a, c);
      for i := 0 to pn.Length
        invariant 0 <= carry <= 1 && carry == AddCarry(a, c, 0, i)
        invariant forall j :: 0 <= j < i ==> pn[j] == Limbs.Add(a, c, 0)[j]
        invariant forall j :: i <= j < pn.Length ==> pn[j] == a[j] && b.pn[j] == c[j]
      {
        AddAt(a, c, 0, i);
        AddNext(a, c, i);
        var n := carry + pn[i] + b.pn[i];
        assert n < WORD64;
        pn[i] := n % BASE;
        carry := n / BASE;
      }
      AddIsSum(a, c, 0);
      assert pn[..] == Limbs.Add(a, c, 0);
    }

    method Increment()
      requires pn.Length >= 1
      modifies pn
      ensures V() == (old(V()) + 1) % Limbs.Range(pn.Length)
    {
      hide Value, Limbs.Add, AddCarry;
      ghost var a, z := pn[..], Zeros(pn.Length);
      var i := 0;
      ghost var sum := Limbs.Add(a, z, 1);
      CarryInto(a, 0);
      CarryThrough(a, 0);
      pn[i] := (pn[i] + 1) % BASE;
      while pn[i] == 0 && i < pn.Length - 1
        invariant 0 <= i < pn.Length && AddCarry(a, z, 1, i) == 1
        invariant forall j :: 0 <= j <= i ==> pn[j] == sum[j]
        invariant forall j :: i < j < pn.Length ==> pn[j] == a[j]
        invariant pn[i] == (a[i] + 1) % BASE
      {
        CarryInto(a, i + 1);
        i := i + 1;
        CarryThrough(a, i);
        pn[i] := (pn[i] + 1) % BASE;
      }
      forall j | i < j < pn.Length
        ensures pn[j] == sum[j]
      {
        CarryInto(a, i + 1);
        CarryStops(a, i + 1, j);
      }
      AddIsSum(a, z, 1);
      ZerosValue(pn.Length);
      assert pn[..] == sum;
    }

    method Decrement()
      requires pn.Length >= 1
      modifies pn
      ensures V() == (old(V()) - 1) % Limbs.Range(pn.Length)
    {
      hide Value, Limbs.Add, AddCarry;
      ghost var a, z := pn[..], Ones(pn.Length);
      var i := 0;
      ghost var sum := Limbs.Add(a, z, 0);
      BorrowInto(a, 0);
      pn[i] := if pn[i] == 0 then BASE - 1 else pn[i] - 1;
      while pn[i] == BASE - 1 && i < pn.Length - 1
        invariant 0 <= i < pn.Length && AddCarry(a, z, 0, i) == 0
        invariant forall j :: 0 <= j <= i ==> pn[j] == sum[j]
        invariant forall j :: i < j < pn.Length ==> pn[j] == a[j]
        invariant pn[i] == if a[i] == 0 then BASE - 1 else a[i] - 1
      {
        BorrowInto(a, i);
        i := i + 1;
        BorrowInto(a, i);
        pn[i] := if pn[i] == 0 then BASE - 1 else pn[i] - 1;
      }
      BorrowInto(a, i);
      forall j | i < j < pn.Length
        ensures pn[j] == sum[j]
      {
        BorrowStops(a, i + 1, j);
      }
      AddIsSum(a, z, 0);
      OnesValue(pn.Length);
      ModPlusMultiple(Value(a) - 1, 1, Limbs.Range(pn.Length));
      assert pn[..] == sum;
    }

    /** The number whose sum with this one is zero. */
    method Negated() returns (ret: BaseUint)
      requires pn.Length >= 1
      ensures fresh(ret) && fresh(ret.pn) && ret.pn.Length == pn.Length && ret.V() == (0 - V()) % Limbs.Range(pn.Length)
    {
      hide Value;
      ret := new BaseUint.Zero(pn.Length);
      for i := 0 to pn.Length
        invariant forall j :: 0 <= j < i ==> ret.pn[j] == BASE - 1 - pn[j]
      {
        ret.pn[i] := BASE - 1 - pn[i];
      }
      Complement(pn[..], ret.pn[..]);
      ModPlusMultiple(0 - V(), 1, Limbs.Range(pn.Length));
      ret.Increment();
    }

    method Sub(b: BaseUint)
      requires b.pn.Length == pn.Length >= 1
      modifies pn
      ensures V() == (old(V()) - old(b.V())) % Limbs.Range(pn.Length)
    {
      hide Value;
      var negative := b.Negated();
      SubMod(V(), b.V(), Limbs.Range(pn.Length));
      AddIn(negative);
    }

    method MulLimb(b32: Limb)
      modifies pn
      ensures V() == (b32 * old(V())) % Limbs.Range(pn.Length)
    {
      hide Value, MulAdd, MulCarry;
      ghost var a, z := pn[..], Zeros(pn.Length);
      ghost var product := MulAdd(z, a, b32, 0);
      var carry := 0;
      MulFirst(z, a, b32);
      for i := 0 to pn.Length
        invariant 0 <= carry < BASE && carry == MulCarry(z, a, b32, 0, i)
        invariant forall j :: 0 <= j < i ==> pn[j] == product[j]
        invariant forall j :: i <= j < pn.Length ==> pn[j] == a[j]
      {
        MulAddAt(z, a, b32, 0, i);
        MulNext(z, a, b32, i);
        NoOverflow(b32, pn[i], 0, carry);
        var n := carry + b32 * pn[i];
        assert n < WORD64;
        pn[i] := n % BASE;
        carry := n / BASE;
      }
      MulAddIs(z, a, b32, 0);
      ZerosValue(pn.Length);
      assert pn[..] == product;
    }

    /** Adds m times b, shifted up j limbs. */
    method MulRow(b: BaseUint, m: Limb, j: nat)
      requires b.pn.Length == pn.Length && j <= pn.Length
      modifies pn
      ensures b.pn != pn ==> pn[..j] == old(pn[..j]) && pn[j..] == MulAdd(old(pn[j..]), b.pn[..pn.Length - j], m, 0)
      ensures b.pn == pn && (forall i :: 0 <= i < pn.Length ==> old(pn[i]) == 0) ==> forall i ::
          0 <= i < pn.Length ==> pn[i] == 0
    {
      hide Value, MulAdd, MulCarry;
      ghost var a, c := pn[j..], b.pn[..pn.Length - j];
      ghost var row := MulAdd(a, c, m, 0);
      var carry := 0;
      MulFirst(a, c, m);
      for i := 0 to pn.Length - j
        invariant 0 <= carry < BASE
        invariant b.pn != pn ==> carry == MulCarry(a, c, m, 0, i)
        invariant b.pn != pn ==> forall k :: 0 <= k < i ==> pn[k + j] == row[k]
        invariant b.pn != pn ==> forall k :: i <= k < pn.Length - j ==> pn[k + j] == a[k]
        invariant forall k :: 0 <= k < j ==> b.pn != pn ==> pn[k] == old(pn[k])
        invariant b.pn == pn && (forall k :: 0 <= k < pn.Length ==> old(pn[k]) == 0) ==>
                    carry == 0 && forall k :: 0 <= k < pn.Length ==> pn[k] == 0
      {
        MulAddAt(a, c, m, 0, i);
        MulNext(a, c, m, i);
        NoOverflow(m, b.pn[i], pn[i + j], carry);
        ZeroProduct(m, b.pn[i]);
        var n := carry + pn[i + j] + m * b.pn[i];
        assert n < WORD64;
        pn[i + j] := n % BASE;
        carry := n / BASE;
      }
      if b.pn != pn {
        assert pn[j..] == row;
        assert pn[..j] == old(pn[..j]);
      }
    }

    /** The product modulo the range; but zero if a number is multiplied by itself in place,
        since it is cleared before it is read. */
    method Mul(b: BaseUint)
      requires b.pn.Length == pn.Length
      modifies pn
      ensures V() == if b.pn == pn then 0 else (old(V()) * old(b.V())) % Limbs.Range(pn.Length)
    {
      hide Value, MulRows, MulAdd;
      ghost var x, y, z := pn[..], b.pn[..], Zeros(pn.Length);
      var a := new BaseUint.Copy(this);
      for i := 0 to pn.Length
        invariant forall k :: 0 <= k < i ==> pn[k] == 0
        invariant a.pn[..] == x && (b.pn != pn ==> b.pn[..] == y)
      {
        pn[i] := 0;
      }
      assert pn[..] == z;
      AllZero(pn[..]);
      RowsFirst(pn[..], x, y, z);
      for j := 0 to pn.Length
        invariant a.pn[..] == x && (b.pn != pn ==> b.pn[..] == y)
        invariant b.pn == pn ==> forall k :: 0 <= k < pn.Length ==> pn[k] == 0
        invariant b.pn != pn ==> pn[..j] + MulRows(pn[j..], x[j..], y[..pn.Length - j]) == MulRows(z, x, y)
      {
        ghost var before := pn[..];
        MulRow(b, a.pn[j], j);
        if b.pn != pn {
          assert before[..j] == pn[..j];
          assert b.pn[..pn.Length - j] == y[..pn.Length - j];
          RowsStep(before, pn[..], x, y, j);
        }
      }
      if b.pn == pn {
        AllZero(pn[..]);
      } else {
        assert pn[pn.Length..] == [] && pn[..] == pn[..pn.Length];
        RowsLast(pn[..], x, y);
        MulRowsIs(z, x, y);
        ZerosValue(pn.Length);
      }
    }

    /** Less, equal or greater, from the top limb down. */
    method CompareTo(b: BaseUint) returns (c: int)
      requires b.pn.Length == pn.Length
      ensures (c == -1 <==> V() < b.V()) && (c == 0 <==> V() == b.V()) && (c == 1 <==> V() > b.V())
    {
      hide Value;
      for i := pn.Length downto 0
        invariant pn[i..] == b.pn[i..]
      {
        assert pn[i..] == [pn[i]] + pn[i + 1..] && b.pn[i..] == [b.pn[i]] + b.pn[i + 1..];
        if pn[i] < b.pn[i] {
          CompareSplit(pn[..], b.pn[..], i);
          return -1;
        }
        if pn[i] > b.pn[i] {
          CompareSplit(pn[..], b.pn[..], i);
          return 1;
        }
      }
      assert pn[..] == pn[0..] && b.pn[..] == b.pn[0..];
      return 0;
    }

    /** Position of the highest bit plus one, or zero. */
    method Bits() returns (n: nat)
      ensures n == 0 <==> V() == 0
      ensures n > 0 ==> Pow2(n - 1) <= V() < Pow2(n)
      ensures n <= 32 * pn.Length
    {
      hide Value, Pow2;
      for pos := pn.Length downto 0
        invariant forall j :: pos <= j < pn.Length ==> pn[j] == 0
      {
        if pn[pos] != 0 {
          Pow2Word();
          for bits := 32 downto 1
            invariant pn[pos] < Pow2(bits)
          {
            BitTest(pn[pos], bits);
            if pn[pos] / Pow2(bits) % 2 == 1 {
              TopLimb(pn[..], pos, bits);
              return 32 * pos + bits + 1;
            }
          }
          LowestBit(pn[pos]);
          TopLimb(pn[..], pos, 0);
          return 32 * pos + 1;
        }
      }
      AllZero(pn[..]);
      return 0;
    }

    /** Shifts up, modulo the range. */
    method ShiftLeft(shift: nat)
      modifies pn
      ensures V() == (Pow2(shift) * old(V())) % Limbs.Range(pn.Length)
    {
      hide Value, Pow2, ShiftedUp, Or;
      ghost var x := pn[..];
      var a := new BaseUint.Copy(this);
      Clear();
      var k, s := shift / 32, shift % 32;
      for i := 0 to pn.Length
        invariant a.pn[..] == x
        invariant forall j :: 0 <= j < pn.Length ==> pn[j] == UpPart(x, k, s, i, j)
      {
        UpNext(x, k, s, i);
        if i + k + 1 < pn.Length && s != 0 {
          pn[i + k + 1] := OrLimb(pn[i + k + 1], a.pn[i] / Pow2(32 - s));
        }
        if i + k < pn.Length {
          pn[i + k] := OrLimb(pn[i + k], Pow2(s) * a.pn[i] % BASE);
        }
      }
      forall j | 0 <= j < pn.Length
        ensures pn[j] == ShiftedUp(x, shift)[j]
      {
        UpDone(x, shift, j);
      }
      ShiftedUpValue(x, shift);
      assert pn[..] == ShiftedUp(x, shift);
    }

    /** Shifts down: the floor of the quotient by a power of two. */
    method ShiftRight(shift: nat)
      modifies pn
      ensures V() == old(V()) / Pow2(shift)
    {
      hide Value, Pow2, ShiftedDown, Or;
      ghost var x := pn[..];
      var a := new BaseUint.Copy(this);
      Clear();
      var k, s := shift / 32, shift % 32;
      for i := 0 to pn.Length
        invariant a.pn[..] == x
        invariant forall j :: 0 <= j < pn.Length ==> pn[j] == DownPart(x, k, s, i, j)
      {
        DownNext(x, k, s, i);
        if i - k - 1 >= 0 && s != 0 {
          pn[i - k - 1] := OrLimb(pn[i - k - 1], Pow2(32 - s) * a.pn[i] % BASE);
        }
        if i - k >= 0 {
          pn[i - k] := OrLimb(pn[i - k], a.pn[i] / Pow2(s));
        }
      }
      forall j | 0 <= j < pn.Length
        ensures pn[j] == ShiftedDown(x, shift)[j]
      {
        DownDone(x, shift, j);
      }
      ShiftedDownValue(x, shift);
      assert pn[..] == ShiftedDown(x, shift);
    }

    /** Sets bit t, which is clear like those below it. */
    method SetBit(t: nat)
      requires LowBitsClear(pn[..], t)
      modifies pn
      ensures V() == old(V()) + Pow2(t) && LowBitsClear(pn[..], t - 1)
    {
      hide Value, Pow2, OrLimb;
      ghost var a := pn[..];
      Pow2Fits(t % 32);
      pn[t / 32] := OrLimb(pn[t / 32], Pow2(t % 32));
      BitAdds(a, pn[..], t);
    }

    /** One bit of the quotient: whether the divisor, shifted up t bits, still fits. */
    method DivideBit(num: BaseUint, div: BaseUint, t: nat, ghost n: nat, ghost d: nat)
      requires pn.Length == num.pn.Length == div.pn.Length >= 1
      requires pn != num.pn && pn != div.pn && num.pn != div.pn
      requires div.V() == d * Pow2(t) && Dividing(n, d, V(), num.V(), t) && LowBitsClear(pn[..], t)
      modifies pn, num.pn, div.pn
      ensures Dividing(n, d, V(), num.V(), t - 1) && LowBitsClear(pn[..], t - 1)
      ensures t > 0 ==> div.V() == d * Pow2(t - 1)
    {
      hide Value, Pow2, Limbs.Range, LowBitsClear, Dividing;
      var c := num.CompareTo(div);
      if c >= 0 {
        DividingTakes(n, d, V(), num.V(), t);
        TakesExactly(num.pn[..], div.pn[..]);
        num.Sub(div);
        SetBit(t);
      } else {
        DividingSkips(n, d, V(), num.V(), t);
        BitSkipped(pn[..], t);
      }
      BackOne(d, t);
      div.ShiftRight(1);
    }

    /** Divides, rounding down. It fails on a zero divisor, having cleared the number. */
    method Div(b: BaseUint) returns (ok: bool)
      requires pn.Length == b.pn.Length >= 1
      modifies pn
      ensures ok <==> old(b.V()) != 0
      ensures V() == if old(b.V()) == 0 then 0 else old(V()) / old(b.V())
    {
      hide Value, Pow2, Limbs.Range, LowBitsClear, Dividing;
      ghost var n, d := V(), b.V();
      var div := new BaseUint.Copy(b);
      var num := new BaseUint.Copy(this);
      Clear();
      var numBits := num.Bits();
      var divBits := div.Bits();
      if divBits == 0 {
        return false;
      }
      if divBits > numBits {
        Fewer(n, d, numBits, divBits);
        return true;
      }
      var shift := numBits - divBits;
      Aligned(n, d, numBits, divBits, pn.Length);
      div.ShiftLeft(shift);
      NothingSet(pn[..], shift);
      while shift >= 0
        invariant -1 <= shift
        invariant shift >= 0 ==> div.V() == d * Pow2(shift)
        invariant Dividing(n, d, V(), num.V(), shift) && LowBitsClear(pn[..], shift)
      {
        DivideBit(num, div, shift, n, d);
        shift := shift - 1;
      }
      Divided(n, d, V(), num.V());
      return true;
    }

    /** The number modulo 2 to the 64. */
    method GetLow64() returns (low: nat)
      requires pn.Length >= 2
      ensures low == V() % WORD64
    {
      LowPart(pn[..]);
      low := pn[0] + BASE * pn[1];
    }

    method Clear()
      modifies pn
      ensures forall j :: 0 <= j < pn.Length ==> pn[j] == 0
      ensures V() == 0
    {
      for i := 0 to pn.Length
        invariant forall j :: 0 <= j < i ==> pn[j] == 0
      {
        pn[i] := 0;
      }
      AllZero(pn[..]);
    }
  }
}
