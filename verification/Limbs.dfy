/** Numbers as limbs of 32 bits, least significant first, and what carrying through them
    computes. */
module Limbs {

  const BASE := 0x1_0000_0000

  type Limb = x: int | 0 <= x < BASE

  function Value(s: seq<Limb>): (v: nat)
  {
    if s == [] then 0 else s[0] + BASE * Value(s[1..])
  }

  /** BASE to the power n. */
  function Range(n: nat): (r: int)
    ensures r > 0
  {
    if n == 0 then 1 else BASE * Range(n - 1)
  }

  function Pow2(n: nat): (r: int)
    ensures r > 0
  {
    if n == 0 then 1 else 2 * Pow2(n - 1)
  }

  lemma Regroup(x: int, y: int, z: int)
    ensures x * (y * z) == (x * y) * z
  {
  }

  lemma {:induction false} Pow2Add(a: nat, b: nat)
    ensures Pow2(a + b) == Pow2(a) * Pow2(b)
    decreases a
  {
    if a > 0 {
      Pow2Add(a - 1, b);
      assert a + b - 1 == a - 1 + b;
      Regroup(2, Pow2(a - 1), Pow2(b));
    }
  }

  lemma Pow2Word()
    ensures Pow2(8) == 0x100 && Pow2(16) == 0x1_0000 && Pow2(32) == BASE
  {
    Pow2Add(4, 4);
    assert Pow2(4) == 16;
    Pow2Add(8, 8);
    Pow2Add(16, 16);
  }

  lemma {:induction false} RangeIsPow2(n: nat)
    ensures Range(n) == Pow2(32 * n)
  {
    if n > 0 {
      RangeIsPow2(n - 1);
      Pow2Word();
      Pow2Add(32, 32 * (n - 1));
      assert 32 + 32 * (n - 1) == 32 * n;
    }
  }

  lemma {:induction false} ValueBound(s: seq<Limb>)
    ensures 0 <= Value(s) < Range(|s|)
  {
    if s != [] {
      ValueBound(s[1..]);
    }
  }

  // ---------- arithmetic modulo a power of the base ----------

  lemma MulBounds(d: int, z: int)
    requires d > 0
    ensures (z >= 1 ==> d * z >= d) && (z <= -1 ==> d * z <= -d) && (z == 0 ==> d * z == 0)
  {
  }

  lemma DivMod(x: int, d: int, q: int, r: int)
    requires d > 0 && 0 <= r < d && x == d * q + r
    ensures x / d == q && x % d == r
  {
    var z := x / d - q;
    assert x == d * (x / d) + x % d;
    assert d * z == d * (x / d) - d * q;
    MulBounds(d, z);
  }

  /** The remainder of a number with one more limb below. */
  lemma ModHorner(r: int, y: int, m: int)
    requires 0 <= r < BASE && m > 0
    ensures (r + BASE * y) % (BASE * m) == r + BASE * (y % m)
  {
    var q, t := y / m, y % m;
    assert y == m * q + t;
    assert BASE * (m * q) == (BASE * m) * q;
    DivMod(r + BASE * y, BASE * m, q, r + BASE * t);
  }

  lemma ModPlusMultiple(x: int, k: int, m: int)
    requires m > 0
    ensures (x + m * k) % m == x % m
  {
    var q, t := x / m, x % m;
    assert x == m * q + t;
    assert m * (q + k) == m * q + m * k;
    DivMod(x + m * k, m, q + k, t);
  }

  // ---------- adding ----------

  function Add(a: seq<Limb>, b: seq<Limb>, carry: int): (r: seq<Limb>)
    requires |a| == |b| && 0 <= carry
    ensures |r| == |a|
  {
    if a == [] then []
    else
      var n := carry + a[0] + b[0];
      [n % BASE] + Add(a[1..], b[1..], n / BASE)
  }

  lemma {:induction false} AddIsSum(a: seq<Limb>, b: seq<Limb>, carry: int)
    requires |a| == |b| && 0 <= carry
    ensures Value(Add(a, b, carry)) == (Value(a) + Value(b) + carry) % Range(|a|)
  {
    if a != [] {
      var n := carry + a[0] + b[0];
      AddIsSum(a[1..], b[1..], n / BASE);
      var y := Value(a[1..]) + Value(b[1..]) + n / BASE;
      ModHorner(n % BASE, y, Range(|a| - 1));
      assert Add(a, b, carry)[1..] == Add(a[1..], b[1..], n / BASE);
      assert n % BASE + BASE * y == Value(a) + Value(b) + carry;
    }
  }

  // ---------- multiplying by one limb and adding ----------

  function MulAdd(acc: seq<Limb>, b: seq<Limb>, m: int, carry: int): (r: seq<Limb>)
    requires |acc| == |b| && 0 <= carry && 0 <= m
    ensures |r| == |acc|
  {
    if acc == [] then []
    else
      var n := carry + acc[0] + m * b[0];
      [n % BASE] + MulAdd(acc[1..], b[1..], m, n / BASE)
  }

  lemma {:induction false} MulAddIs(acc: seq<Limb>, b: seq<Limb>, m: int, carry: int)
    requires |acc| == |b| && 0 <= carry && 0 <= m
    ensures Value(MulAdd(acc, b, m, carry)) == (Value(acc) + m * Value(b) + carry) % Range(|acc|)
  {
    if acc != [] {
      var n := carry + acc[0] + m * b[0];
      MulAddIs(acc[1..], b[1..], m, n / BASE);
      var y := Value(acc[1..]) + m * Value(b[1..]) + n / BASE;
      ModHorner(n % BASE, y, Range(|acc| - 1));
      assert MulAdd(acc, b, m, carry)[1..] == MulAdd(acc[1..], b[1..], m, n / BASE);
      Distribute(m, b[0], Value(b[1..]));
      assert n % BASE + BASE * y == Value(acc) + m * Value(b) + carry;
    }
  }

  lemma Distribute(m: int, x: int, y: int)
    ensures m * (x + BASE * y) == m * x + BASE * (m * y)
  {
  }

  function Zeros(n: nat): (r: seq<Limb>)
    ensures |r| == n && forall i :: 0 <= i < n ==> r[i] == 0
  {
    if n == 0 then [] else [0] + Zeros(n - 1)
  }

  lemma {:induction false} ZerosValue(n: nat)
    ensures Value(Zeros(n)) == 0
  {
    if n > 0 {
      ZerosValue(n - 1);
      assert Zeros(n)[1..] == Zeros(n - 1);
    }
  }

  // ---------- multiplying ----------

  /** One row after the other, each one limb further up. */
  function MulRows(acc: seq<Limb>, a: seq<Limb>, b: seq<Limb>): (r: seq<Limb>)
    requires |acc| == |a| == |b|
    ensures |r| == |acc|
    decreases |a|
  {
    if a == [] then []
    else
      var x := MulAdd(acc, b, a[0], 0);
      [x[0]] + MulRows(x[1..], a[1..], b[..|b| - 1])
  }

  lemma TopStep(first: int, low: int, range: int, top: int)
    ensures first + BASE * (low + range * top) == first + BASE * low + (BASE * range) * top
  {
    Regroup(BASE, range, top);
  }

  lemma {:induction false} DropTop(b: seq<Limb>)
    requires b != []
    ensures Value(b) == Value(b[..|b| - 1]) + Range(|b| - 1) * b[|b| - 1]
  {
    var last := |b| - 1;
    if last == 0 {
      assert Value(b[1..]) == 0 && Value(b[..0]) == 0;
    } else {
      var low := b[..last];
      DropTop(b[1..]);
      assert b[1..][..last - 1] == low[1..];
      TopStep(b[0], Value(low[1..]), Range(last - 1), b[last]);
      assert Range(last) == BASE * Range(last - 1);
    }
  }

  lemma {:induction false} MulRowsIs(acc: seq<Limb>, a: seq<Limb>, b: seq<Limb>)
    requires |acc| == |a| == |b|
    ensures Value(MulRows(acc, a, b)) == (Value(acc) + Value(a) * Value(b)) % Range(|acc|)
    decreases |a|
  {
    if a == [] {
      assert Value(a) * Value(b) == 0;
    } else {
      hide Value, MulAdd;
      var x := MulAdd(acc, b, a[0], 0);
      var low := b[..|b| - 1];
      MulAddIs(acc, b, a[0], 0);
      MulRowsIs(x[1..], a[1..], low);
      DropTop(b);
      RowsUnfold(acc, a, b);
      RowsCombine(Value(acc), a[0], Value(a[1..]), Value(b), Value(low), b[|b| - 1], x[0], Value(x[1..]),
          Range(|a| - 1));
    }
  }

  lemma RowsUnfold(acc: seq<Limb>, a: seq<Limb>, b: seq<Limb>)
    requires |acc| == |a| == |b| && a != []
    ensures var x := MulAdd(acc, b, a[0], 0);
            && Value(x) == x[0] + BASE * Value(x[1..]) && Value(a) == a[0] + BASE * Value(a[1..])
            && Value(MulRows(acc, a, b)) == x[0] + BASE * Value(MulRows(x[1..], a[1..], b[..|b| - 1]))
  {
    hide MulAdd;
    var x := MulAdd(acc, b, a[0], 0);
    assert MulRows(acc, a, b)[1..] == MulRows(x[1..], a[1..], b[..|b| - 1]);
  }

  lemma TwoMultiples(x: int, m: int, q: int, t: int)
    requires m > 0
    ensures (x + m * q + m * t) % m == x % m
  {
    ModPlusMultiple(x, q, m);
    ModPlusMultiple(x + m * q, t, m);
  }

  /** The arithmetic of one row: m is the range of one limb less. */
  lemma RowsCombine(acc: int, a0: int, a1: int, b: int, low: int, top: int, x0: int, x1: int, m: int)
    requires m > 0 && 0 <= x0 < BASE && b == low + m * top
    requires x0 + BASE * x1 == (acc + a0 * b) % (BASE * m)
    ensures x0 + BASE * ((x1 + a1 * low) % m) == (acc + (a0 + BASE * a1) * b) % (BASE * m)
  {
    var full, all := acc + a0 * b, BASE * m;
    RowsExpand(acc, a0, a1, b, low, top, m);
    ModHorner(x0, x1 + a1 * low, m);
    Assemble((acc + (a0 + BASE * a1) * b), full, x0 + BASE * x1, BASE * (a1 * low), all, a1 * top);
  }

  lemma Assemble(total: int, full: int, x: int, u: int, all: int, t: int)
    requires all > 0 && x == full % all && total == full + u + all * t
    ensures (x + u) % all == total % all
  {
    var q := full / all;
    assert full == all * q + x;
    TwoMultiples(x + u, all, q, t);
  }

  lemma RowsExpand(acc: int, a0: int, a1: int, b: int, low: int, top: int, m: int)
    requires b == low + m * top
    ensures acc + (a0 + BASE * a1) * b == acc + a0 * b + BASE * (a1 * low) + (BASE * m) * (a1 * top)
  {
    assert (a0 + BASE * a1) * b == a0 * b + BASE * (a1 * b);
    assert a1 * b == a1 * low + a1 * (m * top);
    assert a1 * (m * top) == m * (a1 * top);
    assert BASE * (m * (a1 * top)) == (BASE * m) * (a1 * top);
  }
}
