/** The compact form of a 256-bit number: a size in bytes, a sign and three leading bytes. */
module Compact {
  import opened Limbs
  import opened LimbShifts
  import opened ArithUint

  const SIGN := 0x80_0000
  const SIZE_UNIT := 0x100_0000

  /** 2 to the 256, in bytes. */
  function Whole(): (r: int) { Pow2(256) }

  function Size(c: Limb): (r: nat) { c / SIZE_UNIT }

  function Word(c: Limb): (r: nat) { c % SIGN }

  predicate Signed(c: Limb) { c / SIGN % 2 == 1 }

  /** The number a compact form stands for, however large. */
  function Denoted(c: Limb): (r: nat)
  {
    if Size(c) <= 3 then DivPositive(Word(c), Pow2(8 * (3 - Size(c)))); Word(c) / Pow2(8 * (3 - Size(c)))
    else Product(Word(c), Pow2(8 * (Size(c) - 3)))
  }

  function Product(x: nat, y: nat): (r: nat)
    ensures r == x * y
  {
    MulMonotone(x, 0, y);
    x * y
  }

  /** The size is the least that leaves room for the sign, and the word holds the leading
      bytes of the number. */
  ghost predicate Leads(word: int, size: nat, v: nat) {
    && word == v * SIZE_UNIT / Pow2(8 * size)
    && 0x8000 <= word < SIGN
  }

  ghost predicate CompactOf(c: Limb, v: nat, negative: bool) {
    if v == 0 then c == 0
    else Leads(Word(c), Size(c), v) && (Signed(c) <==> negative)
  }

  /** A form that the encoder can return: no leading byte to spare, no bits that are cut off. */
  ghost predicate Canonical(c: Limb) {
    || c == 0
    || (Word(c) >= 0x8000 && (Size(c) < 3 ==> Word(c) % Pow2(8 * (3 - Size(c))) == 0))
  }

  // ---------- what the encoder promises ----------

  lemma FieldsOf(c: Limb)
    ensures c == Size(c) * SIZE_UNIT + (if Signed(c) then SIGN else 0) + Word(c)
    ensures Word(c) < SIGN && Size(c) < 256
  {
  }

  /** A larger number never has a smaller form. */
  lemma EncodingIsMonotone(c: Limb, d: Limb, v: nat, u: nat)
    requires CompactOf(c, v, false) && CompactOf(d, u, false) && v <= u
    ensures c <= d
  {
    hide Pow2, Leads, Size, Word, Signed;
    FieldsOf(c);
    FieldsOf(d);
    if v > 0 {
      LeadsInOrder(Word(c), Size(c), v, Word(d), Size(d), u);
    }
  }

  lemma LeadsInOrder(w: int, s: nat, v: nat, x: int, t: nat, u: nat)
    requires Leads(w, s, v) && Leads(x, t, u) && v <= u
    ensures s <= t && (s == t ==> w <= x)
  {
    hide Pow2;
    DivMonotone(v * SIZE_UNIT, u * SIZE_UNIT, Pow2(8 * s));
    if s > t {
      LeadsBounds(w, s, v);
      LeadsBounds(x, t, u);
      Pow2Grows(8 * (t + 1), 8 * s);
      Pow2Word();
      Pow2Add(8, 8 * t);
      assert false;
    }
  }

  lemma LeadsBounds(w: int, s: nat, v: nat)
    requires Leads(w, s, v)
    ensures 0x8000 * Pow2(8 * s) <= v * SIZE_UNIT < SIGN * Pow2(8 * s)
  {
    hide Pow2;
    var p := Pow2(8 * s);
    DivisionOf(v * SIZE_UNIT, p);
    MulMonotone(p, 0x8000, w);
    MulMonotone(p, w, SIGN - 1);
  }

  lemma DivMonotone(x: int, y: int, d: int)
    requires d > 0 && x <= y
    ensures x / d <= y / d
  {
    DivisionOf(x, d);
    DivisionOf(y, d);
    if x / d > y / d {
      MulMonotone(d, y / d + 1, x / d);
      assert false;
    }
  }

  /** There is one form of each number and sign. */
  lemma EncodingIsUnique(c: Limb, d: Limb, v: nat, negative: bool)
    requires CompactOf(c, v, negative) && CompactOf(d, v, negative)
    ensures c == d
  {
    hide Pow2, Leads, Size, Word, Signed;
    FieldsOf(c);
    FieldsOf(d);
    if v > 0 {
      LeadsInOrder(Word(c), Size(c), v, Word(d), Size(d), v);
      LeadsInOrder(Word(d), Size(d), v, Word(c), Size(c), v);
    }
  }

  /** The value of one step of the word. */
  function Step(c: Limb): (r: int)
    ensures r > 0
  {
    Pow2(if Size(c) <= 3 then 0 else 8 * (Size(c) - 3))
  }

  /** Decoding an encoded number gives it back up to its leading bytes: never more, and less
      by less than one step. */
  lemma DecodeEncoded(c: Limb, v: nat, negative: bool)
    requires CompactOf(c, v, negative)
    ensures Denoted(c) <= v < Denoted(c) + Step(c)
  {
    hide Pow2, Leads;
    Pow2Zero();
    if v == 0 {
      SmallDiv(0, Pow2(24));
    } else {
      LeadsDecode(Word(c), Size(c), v);
    }
  }

  lemma LeadsDecode(w: nat, s: nat, v: nat)
    requires Leads(w, s, v)
    ensures s <= 3 ==> w / Pow2(8 * (3 - s)) == v && w % Pow2(8 * (3 - s)) == 0
    ensures s > 3 ==> w * Pow2(8 * (s - 3)) <= v < w * Pow2(8 * (s - 3)) + Pow2(8 * (s - 3))
  {
    hide Pow2;
    Pow2Word();
    Pow2Add(8, 16);
    if s <= 3 {
      Pow2Add(8 * (3 - s), 8 * s);
      assert 8 * (3 - s) + 8 * s == 24;
      CancelBelow(v, Pow2(8 * (3 - s)), Pow2(8 * s));
    } else {
      Pow2Add(8 * (s - 3), 24);
      assert 8 * (s - 3) + 24 == 8 * s;
      CancelAbove(v, Pow2(8 * (s - 3)), SIZE_UNIT);
    }
  }

  lemma CancelBelow(v: int, p: int, q: int)
    requires p > 0 && q > 0 && p * q == SIZE_UNIT
    ensures v * SIZE_UNIT / q == v * p && (v * p) / p == v && (v * p) % p == 0
  {
    assert v * SIZE_UNIT == q * (v * p);
    DivMod(v * SIZE_UNIT, q, v * p, 0);
    DivMod(v * p, p, v, 0);
  }

  lemma CancelAbove(v: int, p: int, u: int)
    requires p > 0 && u > 0 && v >= 0
    ensures p * u > 0 && v * u / (p * u) == v / p && v / p * p <= v < v / p * p + p
  {
    DivisionOf(v, p);
    assert v * u == (p * u) * (v / p) + (v % p) * u;
    MulMonotone(u, v % p, p - 1);
    MulMonotone(u, 0, v % p);
    assert u * (p - 1) == p * u - u;
    DivMod(v * u, p * u, v / p, (v % p) * u);
  }

  /** A canonical form is what its number encodes to. With one form for each number,
      encoding what was decoded gives the form back. */
  lemma EncodeDecoded(c: Limb)
    requires Canonical(c)
    ensures CompactOf(c, Denoted(c), c != 0 && Signed(c))
  {
    hide Pow2, Leads;
    if c == 0 {
      SmallDiv(0, Pow2(24));
    } else {
      FieldsOf(c);
      CanonicalLeads(Word(c), Size(c), Denoted(c));
    }
  }

  lemma CanonicalLeads(w: nat, s: nat, v: nat)
    requires 0x8000 <= w < SIGN && (s < 3 ==> w % Pow2(8 * (3 - s)) == 0)
    requires v == if s <= 3 then w / Pow2(8 * (3 - s)) else w * Pow2(8 * (s - 3))
    ensures v > 0 && Leads(w, s, v)
  {
    hide Pow2;
    Pow2Word();
    Pow2Add(8, 16);
    Pow2Zero();
    if s <= 3 {
      var p := Pow2(8 * (3 - s));
      Pow2Add(8 * (3 - s), 8 * s);
      assert 8 * (3 - s) + 8 * s == 24;
      DivisionOf(w, p);
      ExactlyDivided(w, p, v);
      CancelBelow(v, p, Pow2(8 * s));
      assert w == v * p;
    } else {
      Pow2Add(8 * (s - 3), 24);
      assert 8 * (s - 3) + 24 == 8 * s;
      CancelScaled(w, Pow2(8 * (s - 3)));
    }
  }

  lemma ExactlyDivided(w: nat, p: int, v: int)
    requires w > 0 && p > 0 && v == w / p && (p == 1 || w % p == 0)
    ensures w == p * v && v > 0
  {
    MulBounds(p, v);
  }

  lemma CancelScaled(w: nat, p: int)
    requires w > 0 && p > 0
    ensures w * p > 0 && (w * p) * SIZE_UNIT / (p * SIZE_UNIT) == w
  {
    assert (w * p) * SIZE_UNIT == (p * SIZE_UNIT) * w;
    DivMod((w * p) * SIZE_UNIT, p * SIZE_UNIT, w, 0);
  }

  /** Sizes and words that do not fit 256 bits. */
  lemma OverflowExactly(c: Limb, w: nat)
    requires w == if Size(c) <= 3 then Denoted(c) else Word(c)
    ensures Denoted(c) >= Whole()
            <==> w != 0 && (Size(c) > 34 || (w > 0xff && Size(c) > 33) || (w > 0xffff && Size(c) > 32))
  {
    hide Pow2;
    Pow2Word();
    if Size(c) <= 3 {
      SmallQuotient(Word(c), Pow2(8 * (3 - Size(c))));
      Pow2Grows(32, 256);
    } else {
      ScaledOverflow(w, Size(c));
    }
  }

  lemma SmallQuotient(w: nat, p: int)
    requires p > 0
    ensures 0 <= w / p <= w
  {
    DivisionOf(w, p);
    DivPositive(w, p);
    MulMonotone(w / p, 1, p);
  }

  lemma ScaledOverflow(w: nat, s: nat)
    requires 3 < s && w < SIGN
    ensures w * Pow2(8 * (s - 3)) >= Whole()
            <==> w != 0 && (s > 34 || (w > 0xff && s > 33) || (w > 0xffff && s > 32))
  {
    hide Pow2;
    var p := Pow2(8 * (s - 3));
    Pow2Word();
    Pow2Add(8, 16);
    MulMonotone(p, 0, w);
    if s > 34 {
      Pow2Grows(256, 8 * (s - 3));
      if w > 0 {
        MulMonotone(p, 1, w);
      }
    } else if s == 34 {
      Pow2Add(248, 8);
    } else if s == 33 {
      Pow2Add(240, 16);
    } else {
      Pow2Add(8 * (s - 3), 24);
      Pow2Grows(8 * (s - 3) + 24, 256);
    }
    if s <= 34 {
      MulCompare(p, w, if s == 34 then 0x100 else if s == 33 then 0x1_0000 else SIZE_UNIT);
    }
  }

  lemma MulCompare(p: int, w: int, bound: int)
    requires p > 0
    ensures w * p >= p * bound <==> w >= bound
  {
    if w >= bound {
      MulMonotone(p, bound, w);
    } else {
      MulMonotone(p, w + 1, bound);
    }
  }

  // ---------- decoding and encoding ----------

  /** Sets the number from its compact form, modulo 2 to the 256, and says exactly when that
      lost something. */
  method SetCompact(n: BaseUint, nCompact: Limb) returns (negative: bool, overflow: bool)
    requires n.pn.Length == 8
    modifies n.pn
    ensures n.V() == Denoted(nCompact) % Whole()
    ensures overflow <==> Denoted(nCompact) >= Whole()
    ensures negative <==> Denoted(nCompact) != 0 && Signed(nCompact)
  {
    hide Pow2, Value, BaseUint.V;
    var nSize, nWord := Size(nCompact), Word(nCompact);
    RangeIsPow2(8);
    if nSize <= 3 {
      SmallQuotient(nWord, Pow2(8 * (3 - nSize)));
      nWord := nWord / Pow2(8 * (3 - nSize));
      n.Set64(nWord);
      OverflowExactly(nCompact, nWord);
      SmallMod(nWord, Whole()) by { Pow2Word(); Pow2Grows(32, 256); }
    } else {
      n.Set64(nWord);
      n.ShiftLeft(8 * (nSize - 3));
      OverflowExactly(nCompact, nWord);
      ZeroWord(nWord, Pow2(8 * (nSize - 3)));
    }
    negative := nWord != 0 && Signed(nCompact);
    overflow := nWord != 0 && (nSize > 34 || (nWord > 0xff && nSize > 33) || (nWord > 0xffff && nSize > 32));
  }

  lemma ZeroWord(w: nat, p: int)
    requires p > 0
    ensures w * p == 0 <==> w == 0
    ensures p * w == w * p
  {
    MulBounds(p, w);
  }

  /** The three leading bytes, before the sign bit is cleared. */
  lemma LeadingBytes(v: nat, n: nat, size: nat, word: int)
    requires v > 0 && n > 0 && Pow2(n - 1) <= v < Pow2(n) && size == (n + 7) / 8
    requires word == if size <= 3 then v * Pow2(8 * (3 - size)) else v / Pow2(8 * (size - 3))
    ensures word == v * SIZE_UNIT / Pow2(8 * size) && 0x1_0000 <= word < SIZE_UNIT
  {
    hide Pow2;
    Pow2Word();
    Pow2Add(8, 16);
    Pow2Grows(8 * (size - 1), n - 1);
    Pow2Grows(n, 8 * size);
    Pow2Add(8 * (size - 1), 8);
    assert 8 * (size - 1) + 8 == 8 * size;
    QuotientBounds(v, Pow2(8 * (size - 1)));
    if size <= 3 {
      Pow2Add(8 * (3 - size), 8 * size);
      assert 8 * (3 - size) + 8 * size == 24;
      CancelBelow(v, Pow2(8 * (3 - size)), Pow2(8 * size));
    } else {
      Pow2Add(8 * (size - 3), 24);
      assert 8 * (size - 3) + 24 == 8 * size;
      CancelAbove(v, Pow2(8 * (size - 3)), SIZE_UNIT);
    }
  }

  lemma QuotientBounds(v: nat, p: int)
    requires p > 0 && p <= v < p * 0x100
    ensures 0x1_0000 <= v * SIZE_UNIT / (p * 0x100) < SIZE_UNIT
  {
    var x, d := v * SIZE_UNIT, p * 0x100;
    DivisionOf(x, d);
    if x / d < 0x1_0000 {
      MulMonotone(d, x / d, 0xffff);
      assert false;
    }
    if x / d >= SIZE_UNIT {
      MulMonotone(d, SIZE_UNIT, x / d);
      assert false;
    }
  }

  /** Making room for the sign. */
  lemma MakeRoom(v: nat, size: nat, word: int)
    requires word == v * SIZE_UNIT / Pow2(8 * size) && SIGN <= word < SIZE_UNIT
    ensures Leads(word / 0x100, size + 1, v)
  {
    hide Pow2;
    Pow2Word();
    Pow2Add(8 * size, 8);
    assert 8 * size + 8 == 8 * (size + 1);
    DivByProduct(v * SIZE_UNIT, Pow2(8 * size), 0x100);
  }

  /** Or with a number whose lower bits are clear. */
  lemma {:induction false} OrAbove(low: nat, x: nat, y: nat, s: nat)
    requires low < Pow2(s)
    ensures 0 <= Pow2(s) * x && 0 <= Pow2(s) * y
    ensures Or(low + Pow2(s) * x, Pow2(s) * y) == low + Pow2(s) * Or(x, y)
    decreases s
  {
    hide Or, Pow2;
    MulMonotone(Pow2(s), 0, x);
    MulMonotone(Pow2(s), 0, y);
    if s == 0 {
      Pow2Zero();
    } else {
      OrAbove(low / 2, x, y, s - 1) by { Pow2Next(s - 1); }
      OrHalves(low, Pow2(s - 1) * x, Pow2(s - 1) * y);
      Doubled(Pow2(s - 1), Pow2(s), x, y, Or(x, y)) by { Pow2Next(s - 1); }
    }
  }

  lemma Doubled(p: int, q: int, x: int, y: int, z: int)
    requires q == 2 * p
    ensures q * x == 2 * (p * x) && q * y == 2 * (p * y) && q * z == 2 * (p * z)
  {
  }

  lemma OrHalves(low: nat, x: nat, y: nat)
    ensures Or(low + 2 * x, 2 * y) == low % 2 + 2 * Or(low / 2 + x, y)
  {
    assert (low + 2 * x) / 2 == low / 2 + x && (low + 2 * x) % 2 == low % 2;
    assert 2 * y / 2 == y && 2 * y % 2 == 0;
  }

  lemma Fields(c: int, word: nat, size: nat, signed: bool)
    requires word < SIGN && size < 256 && c == word + SIZE_UNIT * size + if signed then SIGN else 0
    ensures 0 <= c < BASE && Size(c) == size && Word(c) == word && (Signed(c) <==> signed)
  {
  }

  lemma PutTogether(word: nat, size: nat)
    requires word < SIGN && size < 256
    ensures Or(word, SIZE_UNIT * size) == word + SIZE_UNIT * size
    ensures Or(word + SIZE_UNIT * size, SIGN) == word + SIZE_UNIT * size + SIGN
  {
    hide Or, Pow2;
    Pow2Word();
    Pow2Add(8, 16);
    Pow2Next(23);
    OrDisjoint(word, size, 24);
    OrAbove(word, 2 * size, 1, 23);
    OrOne(size);
  }

  /** Putting size, word and sign together, bit by bit. */
  method Assembled(word: nat, size: nat, signed: bool) returns (c: Limb)
    requires word < SIGN && size < 256
    ensures Size(c) == size && Word(c) == word && (Signed(c) <==> signed && word != 0)
  {
    hide Or, Size, Word, Signed;
    PutTogether(word, size);
    Fields(word + SIZE_UNIT * size, word, size, false);
    Fields(word + SIZE_UNIT * size + SIGN, word, size, true);
    c := Or(word, SIZE_UNIT * size);
    if signed && Word(c) != 0 {
      c := Or(c, SIGN);
    }
  }

  lemma OrOne(x: nat)
    ensures Or(2 * x, 1) == 2 * x + 1
  {
    OrZero(x);
  }

  /** The compact form, which is determined by the number and the sign. Neither assertion on
      the word and the size can fail. */
  method GetCompact(n: BaseUint, fNegative: bool) returns (c: Limb)
    requires n.pn.Length == 8
    ensures CompactOf(c, n.V(), fNegative)
  {
    hide Pow2, Value, BaseUint.V;
    var nBits := n.Bits();
    var nSize := (nBits + 7) / 8;
    Pow2Grows(nBits, 8 * nSize);
    var nWord := LeadingWord(n, nSize);
    if n.V() != 0 {
      LeadingBytes(n.V(), nBits, nSize, nWord);
    }
    if nWord / SIGN % 2 == 1 {
      MakeRoom(n.V(), nSize, nWord);
      nWord := nWord / 0x100;
      nSize := nSize + 1;
    }
    assert nWord < SIGN;
    assert nSize < 256;
    c := Assembled(nWord, nSize, fNegative);
    if n.V() == 0 {
      FieldsOf(c);
    }
  }

  lemma LeadingFits(v: nat, size: nat)
    requires v < Pow2(8 * size)
    ensures size <= 3 ==> v < SIZE_UNIT && 0 <= v * Pow2(8 * (3 - size)) < SIZE_UNIT
    ensures size > 3 ==> 0 <= v / Pow2(8 * (size - 3)) < SIZE_UNIT
  {
    hide Pow2;
    Pow2Word();
    Pow2Add(8, 16);
    if size <= 3 {
      var p := Pow2(8 * (3 - size));
      Pow2Add(8 * (3 - size), 8 * size);
      Pow2Grows(8 * size, 24);
      MulMonotone(p, 0, v);
      MulMonotone(p, v + 1, Pow2(8 * size));
    } else {
      var p := Pow2(8 * (size - 3));
      Pow2Add(8 * (size - 3), 24);
      assert 8 * (size - 3) + 24 == 8 * size;
      DivisionOf(v, p);
      DivPositive(v, p);
      MulCompare(p, v / p, SIZE_UNIT);
    }
  }

  method LeadingWord(n: BaseUint, nSize: nat) returns (nWord: nat)
    requires n.pn.Length == 8 && n.V() < Pow2(8 * nSize)
    ensures nWord == if nSize <= 3 then n.V() * Pow2(8 * (3 - nSize)) else n.V() / Pow2(8 * (nSize - 3))
  {
    hide Pow2, Value, BaseUint.V, Limbs.Range;
    LeadingFits(n.V(), nSize);
    if nSize <= 3 {
      var low := n.GetLow64();
      SmallMod(n.V(), WORD64);
      SmallMod(n.V() * Pow2(8 * (3 - nSize)), BASE);
      nWord := low * Pow2(8 * (3 - nSize)) % BASE;
    } else {
      var bn := new BaseUint.Copy(n);
      SameValue(bn, n);
      bn.ShiftRight(8 * (nSize - 3));
      SmallMod(bn.V(), WORD64);
      nWord := bn.GetLow64();
    }
  }

  lemma SameValue(a: BaseUint, b: BaseUint)
    requires a.pn[..] == b.pn[..]
    ensures a.V() == b.V()
  {
  }

  /** Decoding a canonical form that fits and encoding the number gives the form back. */
  method DecodeThenEncode(n: BaseUint, c: Limb) returns (again: Limb)
    requires n.pn.Length == 8 && Canonical(c) && Denoted(c) < Whole()
    modifies n.pn
    ensures again == c && n.V() == Denoted(c)
  {
    hide Pow2, Value, BaseUint.V, Size, Word, Signed, Denoted, Canonical;
    var negative, overflow := SetCompact(n, c);
    SmallMod(Denoted(c), Whole());
    again := GetCompact(n, negative);
    EncodeDecoded(c);
    if Denoted(c) != 0 {
      EncodingIsUnique(c, again, n.V(), negative);
    }
  }

  /** Encoding a number and decoding the form loses less than one step, and nothing overflows. */
  method EncodeThenDecode(n: BaseUint, fNegative: bool) returns (c: Limb, negative: bool, overflow: bool)
    requires n.pn.Length == 8
    modifies n.pn
    ensures n.V() <= old(n.V()) < n.V() + Step(c)
    ensures !overflow && (negative <==> fNegative && n.V() != 0)
  {
    hide Pow2, Value, BaseUint.V, Size, Word, Denoted, Leads;
    c := GetCompact(n, fNegative);
    DecodeEncoded(c, n.V(), fNegative);
    FitsWhole(n);
    SmallMod(Denoted(c), Whole());
    negative, overflow := SetCompact(n, c);
  }

  lemma FitsWhole(n: BaseUint)
    requires n.pn.Length == 8
    ensures n.V() < Whole()
  {
    hide Pow2, Value;
    ValueBound(n.pn[..]);
    RangeIsPow2(8);
  }

  // ---------- forms written out ----------

  lemma SmallPowers()
    ensures Pow2(0) == 1 && Pow2(8) == 0x100 && Pow2(16) == 0x10000 && Pow2(24) == 0x1000000
  {
    assert Pow2(4) == 16;
    assert Pow2(12) == 0x1000 by { assert Pow2(8) == 0x100; }
    assert Pow2(20) == 0x100000 by { assert Pow2(16) == 0x10000; }
  }

  /** What single compact forms denote: the bytes below the point are dropped, the sign bit and
      the size are no part of the mantissa. */
  lemma FormsWrittenOut()
    ensures Denoted(0x0092_3456) == 0 && Denoted(0x0112_3456) == 0x12 && Denoted(0x0212_3456) == 0x1234
    ensures Denoted(0x0312_3456) == 0x12_3456 && Denoted(0x0412_3456) == 0x1234_5600
    ensures Denoted(0x0492_3456) == 0x1234_5600 && Signed(0x0492_3456) && !Signed(0x0412_3456)
    ensures Denoted(0x0500_9234) == 0x9234_0000 && Denoted(0x01fe_dcba) == 0x7e && Signed(0x01fe_dcba)
    ensures Denoted(0x2012_3456) == 0x12_3456 * Pow2(232) && !Signed(0x0112_3456) && !Signed(0x0312_3456)
  {
    SmallPowers();
    hide Pow2;
  }

  /** And the one form of each of some numbers. */
  lemma NumbersWrittenOut()
    ensures CompactOf(0, 0, false) && CompactOf(0x0200_8000, 0x80, false) && CompactOf(0x0112_0000, 0x12, false)
    ensures CompactOf(0x01fe_0000, 0x7e, true) && CompactOf(0x0212_3400, 0x1234, false)
    ensures CompactOf(0x0312_3456, 0x12_3456, false) && CompactOf(0x0492_3456, 0x1234_5600, true)
  {
    SmallPowers();
    assert Pow2(32) == 0x1_0000_0000 by { Pow2Word(); }
    hide Pow2;
  }

  /** Decoding and encoding again. */
  method WrittenAndRead() returns (forms: seq<Limb>, flags: seq<(bool, bool)>)
    ensures forms == [0, 0x0112_0000, 0x0312_3456, 0x0492_3456]
    ensures flags == [(false, false), (false, false), (false, false), (true, false)]
  {
    hide Pow2, Value, BaseUint.V, Denoted, Signed, CompactOf;
    FormsWrittenOut();
    NumbersWrittenOut();
    BigEnough();
    var n := new BaseUint.Zero(8);
    var negative, overflow := SetCompact(n, 0x0092_3456);
    var c := GetCompact(n, negative);
    EncodingIsUnique(c, 0, 0, false);
    forms, flags := [c], [(negative, overflow)];
    negative, overflow := SetCompact(n, 0x0112_3456);
    c := GetCompact(n, negative);
    EncodingIsUnique(c, 0x0112_0000, 0x12, false);
    forms, flags := forms + [c], flags + [(negative, overflow)];
    negative, overflow := SetCompact(n, 0x0312_3456);
    c := GetCompact(n, negative);
    EncodingIsUnique(c, 0x0312_3456, 0x12_3456, false);
    forms, flags := forms + [c], flags + [(negative, overflow)];
    negative, overflow := SetCompact(n, 0x0492_3456);
    c := GetCompact(n, negative);
    EncodingIsUnique(c, 0x0492_3456, 0x1234_5600, true);
    forms, flags := forms + [c], flags + [(negative, overflow)];
  }

  lemma BigEnough()
    ensures Whole() > 0x1_0000_0000
    ensures forall v :: 0 <= v < 0x1_0000_0000 ==> v % Whole() == v
  {
    Pow2Word();
    Pow2Grows(32, 255);
    hide Pow2;
    assert Whole() == 2 * Pow2(255) by { Pow2Next(255); }
    forall v | 0 <= v < 0x1_0000_0000
      ensures v % Whole() == v
    {
      SmallMod(v, Whole());
    }
  }
}
