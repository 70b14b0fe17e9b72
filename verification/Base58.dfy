/** Bytes written with the 58 digits that are not easily mistaken for each other. */
module Base58 {
  import opened Radix

  type Byte = x: int | 0 <= x < 256

  datatype Option<T> = None | Some(value: T)

  const ALPHABET := "123456789" + "ABCDEFGHJKLMNPQRSTUVWXYZ" + "abcdefghijkmnopqrstuvwxyz"

  lemma AlphabetAscends()
    ensures |ALPHABET| == 58
    ensures forall i :: 0 <= i < 57 ==> ALPHABET[i] < ALPHABET[i + 1]
    ensures ALPHABET[0] == '1' && ALPHABET[57] == 'z'
  {
    var digits, upper, lower := "123456789", "ABCDEFGHJKLMNPQRSTUVWXYZ", "abcdefghijkmnopqrstuvwxyz";
    assert forall i :: 0 <= i < 8 ==> digits[i] < digits[i + 1];
    assert forall i :: 0 <= i < 23 ==> upper[i] < upper[i + 1];
    assert forall i :: 0 <= i < 24 ==> lower[i] < lower[i + 1];
  }

  lemma {:induction false} AlphabetInOrder(i: nat, j: nat)
    requires i < j < 58
    ensures |ALPHABET| == 58 && ALPHABET[i] < ALPHABET[j]
    decreases j
  {
    AlphabetAscends();
    if i < j - 1 {
      AlphabetInOrder(i, j - 1);
    }
  }

  /** Position of the first occurrence, or -1. */
  function Position(s: string, c: char): (p: int)
    ensures -1 <= p < |s|
    ensures p >= 0 ==> s[p] == c
    ensures p == -1 ==> c !in s
    ensures forall i :: 0 <= i < p ==> s[i] != c
  {
    if s == [] then -1
    else if s[0] == c then 0
    else
      var p := Position(s[1..], c);
      if p == -1 then -1 else p + 1
  }

  function Digit(c: char): (d: int)
    ensures -1 <= d < 58
  {
    AlphabetAscends();
    Position(ALPHABET, c)
  }

  function Letter(d: nat): (c: char)
    requires d < 58
  {
    AlphabetAscends();
    ALPHABET[d]
  }

  lemma DigitOfLetter(d: nat)
    requires d < 58
    ensures Digit(Letter(d)) == d
  {
    AlphabetAscends();
    var p := Position(ALPHABET, ALPHABET[d]);
    if p < d {
      AlphabetInOrder(p, d);
    }
  }

  lemma LetterOfDigit(c: char)
    requires Digit(c) != -1
    ensures Letter(Digit(c)) == c
  {
  }

  predicate IsSpace(c: char) { c == ' ' || '\t' <= c <= '\r' }

  lemma NoLetterIsSpace(c: char)
    ensures IsSpace(c) || c == '\0' ==> Digit(c) == -1
    ensures Digit(c) == 0 <==> c == '1'
  {
    AlphabetAscends();
    if Digit(c) > 0 {
      AlphabetInOrder(0, Digit(c));
    }
    if c == '1' {
      DigitOfLetter(0);
    }
  }

  // ---------- what a word stands for ----------

  predicate IsWord(s: string) { forall i :: 0 <= i < |s| ==> Digit(s[i]) != -1 }

  function Values(s: string): (r: seq<nat>)
    requires IsWord(s)
    ensures |r| == |s| && Digits(r, 58)
    ensures forall i :: 0 <= i < |s| ==> r[i] == Digit(s[i])
  {
    seq(|s|, i requires 0 <= i < |s| => Digit(s[i]))
  }

  /** The word has the number of the bytes, and a leading 1 for each leading zero byte. */
  ghost predicate Represents(s: string, b: seq<Byte>) {
    && IsWord(s)
    && Number(Values(s), 58) == Number(b, 256)
    && LeadingZeros(Values(s)) == LeadingZeros(b)
  }

  lemma OneWord(s: string, t: string, b: seq<Byte>)
    requires Represents(s, b) && Represents(t, b)
    ensures s == t
  {
    hide Number, LeadingZeros;
    SameNumeral(Values(s), Values(t), 58);
    forall i | 0 <= i < |s|
      ensures s[i] == t[i]
    {
      assert Values(s)[i] == Values(t)[i];
      LetterOfDigit(s[i]);
      LetterOfDigit(t[i]);
    }
  }

  lemma OneValue(s: string, a: seq<Byte>, b: seq<Byte>)
    requires Represents(s, a) && Represents(s, b)
    ensures a == b
  {
    SameNumeral(a, b, 256);
  }

  // ---------- the text around a word ----------

  /** What is before the first zero character: where a C string ends. */
  function CString(s: string): (r: string)
    ensures '\0' !in r
  {
    if s == [] || s[0] == '\0' then [] else [s[0]] + CString(s[1..])
  }

  function WithoutLeading(s: string): (r: string)
  {
    if s != [] && IsSpace(s[0]) then WithoutLeading(s[1..]) else s
  }

  function WithoutTrailing(s: string): (r: string)
  {
    if s != [] && IsSpace(s[|s| - 1]) then WithoutTrailing(s[..|s| - 1]) else s
  }

  function Trimmed(s: string): (r: string) { WithoutTrailing(WithoutLeading(s)) }

  lemma {:induction false} TrailingDropped(s: string, k: nat)
    requires k <= |s| && (forall i :: k <= i < |s| ==> IsSpace(s[i])) && (k > 0 ==> !IsSpace(s[k - 1]))
    ensures WithoutTrailing(s) == s[..k]
    decreases |s|
  {
    if k == |s| {
      assert s[..k] == s;
    } else {
      TrailingDropped(s[..|s| - 1], k);
      assert s[..|s| - 1][..k] == s[..k];
    }
  }

  lemma {:induction false} KeptBeforeTrailing(s: string, i: nat)
    requires i < |s| && !IsSpace(s[i])
    ensures i < |WithoutTrailing(s)| <= |s| && WithoutTrailing(s) == s[..|WithoutTrailing(s)|]
    decreases |s|
  {
    if IsSpace(s[|s| - 1]) {
      KeptBeforeTrailing(s[..|s| - 1], i);
    } else {
      assert s[..|s|] == s;
    }
  }

  /** A character that is no letter, and not only followed by spaces, spoils the word. */
  lemma Spoiled(s: string, i: nat, j: nat)
    requires i <= j < |s| && Digit(s[i]) == -1 && !IsSpace(s[j])
    ensures !IsWord(WithoutTrailing(s))
  {
    KeptBeforeTrailing(s, j);
    assert WithoutTrailing(s)[i] == s[i];
  }

  lemma {:induction false} WordIsTrimmed(s: string)
    requires IsWord(s)
    ensures CString(s) == s && Trimmed(s) == s
  {
    if s != [] {
      NoLetterIsSpace(s[0]);
      NoLetterIsSpace(s[|s| - 1]);
      WordIsCString(s);
    }
  }

  lemma {:induction false} WordIsCString(s: string)
    requires IsWord(s)
    ensures CString(s) == s
  {
    if s != [] {
      NoLetterIsSpace(s[0]);
      WordIsCString(s[1..]);
    }
  }

  // ---------- the digits in a buffer ----------

  /** Multiplies the number in the buffer by m and adds c, digit by digit from the right.
      What does not fit is returned. */
  method MultiplyAdd(a: array<nat>, m: nat, c: nat, base: nat) returns (carry: nat)
    requires base > 0 && Digits(a[..], base)
    modifies a
    ensures Digits(a[..], base)
    ensures Number(a[..], base) + carry * Pow(base, a.Length) == Number(old(a[..]), base) * m + c
  {
    hide Number, Pow;
    carry := c;
    ghost var was := a[..];
    var i := a.Length;
    NoDigitsYet(was, m, c, base);
    while i > 0
      invariant 0 <= i <= a.Length && Digits(a[..], base) && a[..i] == was[..i]
      invariant Upper(was[..i], a[i..], carry, m, base) == Number(was, base) * m + c
    {
      i := i - 1;
      ghost var rest := a[i + 1..];
      StepDown(was, i, rest, carry, m, base);
      var n := carry + m * a[i];
      a[i] := n % base;
      carry := n / base;
      assert a[i..] == [a[i]] + rest;
    }
    AllDigits(was, a[..], carry, m, base);
  }

  /** The digits not multiplied yet, with what is carried into them, above those that are. */
  function Upper(todo: seq<nat>, done: seq<nat>, carry: nat, m: nat, base: nat): (r: nat)
  {
    (Number(todo, base) * m + carry) * Pow(base, |done|) + Number(done, base)
  }

  lemma NoDigitsYet(was: seq<nat>, m: nat, c: nat, base: nat)
    ensures Upper(was[..|was|], was[|was|..], c, m, base) == Number(was, base) * m + c
  {
    assert was[..|was|] == was && was[|was|..] == [];
  }

  lemma {:induction false} DigitInFront(d: nat, s: seq<nat>, b: nat)
    ensures Number([d] + s, b) == d * Pow(b, |s|) + Number(s, b)
  {
    if s == [] {
      assert ([d] + s)[..0] == [];
      assert 0 * b == 0;
    } else {
      DigitInFront(d, s[..|s| - 1], b);
      assert ([d] + s)[..|s|] == [d] + s[..|s| - 1];
      Regroup(d, Pow(b, |s| - 1), Number(s[..|s| - 1], b), b);
    }
  }

  lemma Regroup(d: int, p: int, n: int, b: int)
    ensures (d * p + n) * b == d * (b * p) + n * b
  {
  }

  lemma StepDown(was: seq<nat>, i: nat, rest: seq<nat>, carry: nat, m: nat, base: nat)
    requires i < |was| && base > 0
    ensures var n := carry + m * was[i];
            0 <= n / base && 0 <= n % base < base
            && Upper(was[..i], [n % base] + rest, n / base, m, base) == Upper(was[..i + 1], rest, carry, m, base)
  {
    var n := carry + m * was[i];
    var head := Number(was[..i], base);
    assert was[..i + 1][..i] == was[..i];
    DigitInFront(n % base, rest, base);
    MoveCarry(head, was[i], carry, m, base, Pow(base, |rest|), n / base, n % base);
  }

  lemma Scaled(head: nat, d: nat, carry: nat, m: nat, base: nat)
    ensures (head * base + d) * m + carry == base * (head * m) + (carry + m * d)
  {
    assert (head * base + d) * m == (head * base) * m + d * m;
    assert (head * base) * m == base * (head * m);
  }

  lemma MoveCarry(head: nat, d: nat, carry: nat, m: nat, base: nat, p: nat, q: int, r: int)
    requires base > 0 && q == (carry + m * d) / base && r == (carry + m * d) % base
    ensures q >= 0
    ensures (head * m + q) * (base * p) + r * p == ((head * base + d) * m + carry) * p
  {
    var n, h := carry + m * d, head * m;
    assert n == base * q + r;
    Scaled(head, d, carry, m, base);
    Gather(h, q, r, base, p);
    assert base * h + (base * q + r) == (head * base + d) * m + carry;
  }

  lemma Gather(h: int, q: int, r: int, base: int, p: int)
    ensures (h + q) * (base * p) + r * p == (base * h + (base * q + r)) * p
  {
    assert (h + q) * (base * p) == (base * (h + q)) * p;
    assert base * (h + q) == base * h + base * q;
  }

  lemma AllDigits(was: seq<nat>, a: seq<nat>, carry: nat, m: nat, base: nat)
    requires |was| == |a|
    ensures Upper(was[..0], a[0..], carry, m, base) == carry * Pow(base, |a|) + Number(a, base)
  {
    assert was[..0] == [] && a[0..] == a;
    assert 0 * m == 0;
  }

  lemma NothingLost(number: nat, carry: nat, p: nat, total: nat)
    requires number + carry * p == total < p
    ensures carry == 0 && number == total
  {
    if carry > 0 {
      Scale(1, carry, p);
      assert false;
    }
  }

  /** Adds digit k of some digits to the buffer, which is large enough for all of them. */
  method TakeDigit(a: array<nat>, ghost digits: seq<nat>, k: nat, c: nat, from: nat, base: nat)
    requires base > 0 && from > 0 && k < |digits| && Digits(digits, from) && digits[k] == c
    requires Digits(a[..], base) && Number(a[..], base) == Number(digits[..k], from)
    requires Pow(from, |digits|) <= Pow(base, a.Length)
    modifies a
    ensures Digits(a[..], base) && Number(a[..], base) == Number(digits[..k + 1], from)
  {
    hide Pow, Number;
    Prefix(digits, k, from);
    NumberBound(digits[..k + 1], from);
    PowMonotone(from, k + 1, |digits|);
    var carry := MultiplyAdd(a, from, c, base);
    NothingLost(Number(a[..], base), carry, Pow(base, a.Length), Number(digits[..k + 1], from));
    assert carry == 0;
  }

  lemma Prefix(digits: seq<nat>, k: nat, b: nat)
    requires k < |digits|
    ensures Number(digits[..k + 1], b) == Number(digits[..k], b) * b + digits[k]
  {
    assert digits[..k + 1][..k] == digits[..k];
  }

  lemma {:induction false} AllZeros(s: seq<nat>, b: nat)
    requires forall i :: 0 <= i < |s| ==> s[i] == 0
    ensures Number(s, b) == 0
  {
    if s != [] {
      AllZeros(s[..|s| - 1], b);
      assert 0 * b == 0;
    }
  }

  /** Leading zeros and the digits after them, written anew. */
  lemma Rewritten(s: seq<nat>, b: nat, zeroes: nat, a: seq<nat>, it: nat, c: nat, t: seq<nat>)
    requires zeroes <= |s| && (forall i :: 0 <= i < zeroes ==> s[i] == 0) && (zeroes < |s| ==> s[zeroes] != 0)
    requires it <= |a| && (forall i :: 0 <= i < it ==> a[i] == 0) && (it < |a| ==> a[it] != 0)
    requires Number(a, c) == Number(s[zeroes..], b)
    requires |t| == zeroes + |a| - it && (forall i :: 0 <= i < zeroes ==> t[i] == 0) && t[zeroes..] == a[it..]
    ensures Number(t, c) == Number(s, b) && LeadingZeros(t) == LeadingZeros(s)
  {
    ZerosInFront(s, zeroes, b);
    ZerosInFront(a, it, c);
    ZerosInFront(t, zeroes, c);
    LeadingZerosAre(s, zeroes);
    if it < |a| {
      assert t[zeroes] == t[zeroes..][0] == a[it];
    }
    LeadingZerosAre(t, zeroes);
  }

  // ---------- encoding and decoding ----------

  method CountZeros(s: seq<nat>) returns (k: nat)
    ensures k <= |s| && (forall i :: 0 <= i < k ==> s[i] == 0) && (k < |s| ==> s[k] != 0)
  {
    k := 0;
    while k < |s| && s[k] == 0
      invariant k <= |s| && forall i :: 0 <= i < k ==> s[i] == 0
    {
      k := k + 1;
    }
  }

  /** The digits of the given base, in a buffer that starts at zero. */
  method Buffer(length: nat, base: nat) returns (a: array<nat>)
    requires base > 0
    ensures fresh(a) && a.Length == length && Digits(a[..], base) && Number(a[..], base) == 0
  {
    a := new nat[length](i => 0);
    AllZeros(a[..], base);
  }

  /** The word that represents the bytes. */
  method EncodeBase58(bytes: seq<Byte>) returns (str: string)
    ensures Represents(str, bytes)
  {
    hide Number, Pow, LeadingZeros;
    var zeroes := CountZeros(bytes);
    ghost var rest: seq<nat> := bytes[zeroes..];
    var b58 := Buffer((|bytes| - zeroes) * 138 / 100 + 1, 58);
    DigitsForBytes(|rest|);
    AllZeros(rest[..0], 256);
    for p := zeroes to |bytes|
      invariant Digits(b58[..], 58) && Number(b58[..], 58) == Number(rest[..p - zeroes], 256)
    {
      TakeDigit(b58, rest, p - zeroes, bytes[p], 256, 58);
    }
    assert rest[..|rest|] == rest;
    var it := CountZeros(b58[..]);
    str := Translated(zeroes, b58[..], it);
    Rewritten(bytes, 256, zeroes, b58[..], it, 58, Values(str));
  }

  method Translated(zeroes: nat, digits: seq<nat>, from: nat) returns (str: string)
    requires Digits(digits, 58) && from <= |digits|
    ensures IsWord(str) && |str| == zeroes + |digits| - from
    ensures forall i :: 0 <= i < zeroes ==> Values(str)[i] == 0
    ensures Values(str)[zeroes..] == digits[from..]
  {
    hide Digit;
    NoLetterIsSpace('1');
    str := seq(zeroes, i => '1');
    for it := from to |digits|
      invariant |str| == zeroes + it - from
      invariant forall i :: 0 <= i < |str| ==> Digit(str[i]) == if i < zeroes then 0 else digits[from + i - zeroes]
    {
      DigitOfLetter(digits[it]);
      str := str + [Letter(digits[it])];
    }
  }

  /** The bytes that the text represents, if it is a word with nothing but spaces around it. */
  method DecodeBase58(text: string) returns (r: Option<seq<Byte>>)
    ensures r.Some? <==> IsWord(Trimmed(CString(text)))
    ensures r.Some? ==> Represents(Trimmed(CString(text)), r.value)
  {
    var psz := CString(text);
    var p := SkipLeading(psz);
    var rest := psz[p..];
    r := DecodeWord(rest);
  }

  method SkipLeading(s: string) returns (p: nat)
    ensures p <= |s| && WithoutLeading(s) == s[p..]
    ensures p < |s| ==> !IsSpace(s[p])
  {
    p := 0;
    assert s[0..] == s;
    while p < |s| && IsSpace(s[p])
      invariant p <= |s| && WithoutLeading(s) == WithoutLeading(s[p..])
    {
      assert s[p..][1..] == s[p + 1..];
      p := p + 1;
    }
  }

  method CountOnes(s: string) returns (k: nat)
    ensures k <= |s| && (forall i :: 0 <= i < k ==> s[i] == '1') && (k < |s| ==> s[k] != '1')
  {
    k := 0;
    while k < |s| && s[k] == '1'
      invariant k <= |s| && forall i :: 0 <= i < k ==> s[i] == '1'
    {
      k := k + 1;
    }
  }

  /** The part after the leading spaces. */
  method DecodeWord(s: string) returns (r: Option<seq<Byte>>)
    requires s != [] ==> !IsSpace(s[0])
    ensures r.Some? <==> IsWord(WithoutTrailing(s))
    ensures r.Some? ==> Represents(WithoutTrailing(s), r.value)
  {
    hide Number, Pow, LeadingZeros, Digit, Represents, WithoutTrailing, IsSpace, Values;
    var zeroes := CountOnes(s);
    var b256 := Buffer((|s| - zeroes) * 733 / 1000 + 1, 256);
    var p := DecodeDigits(s, zeroes, b256);
    if p == -1 {
      return None;
    }
    var q := p;
    while q < |s| && IsSpace(s[q])
      invariant p <= q <= |s| && forall i :: p <= i < q ==> IsSpace(s[i])
    {
      q := q + 1;
    }
    if q < |s| {
      NoLetterIsSpace(s[p]);
      Spoiled(s, p, q);
      return None;
    }
    if p > 0 {
      NoLetterIsSpace(s[p - 1]);
    }
    TrailingDropped(s, p);
    var it := CountZeros(b256[..]);
    var vch: seq<Byte> := seq(zeroes, i => 0);
    vch := vch + b256[it..];
    Decoded(s[..p], zeroes, b256[..], it, vch);
    r := Some(vch);
  }

  lemma Decoded(word: string, zeroes: nat, digits: seq<nat>, it: nat, vch: seq<Byte>)
    requires IsWord(word) && zeroes <= |word| && it <= |digits|
    requires (forall i :: 0 <= i < zeroes ==> word[i] == '1') && (zeroes < |word| ==> word[zeroes] != '1')
    requires (forall i :: 0 <= i < it ==> digits[i] == 0) && (it < |digits| ==> digits[it] != 0)
    requires Number(digits, 256) == Number(Values(word)[zeroes..], 58)
    requires |vch| == zeroes + |digits| - it && (forall i :: 0 <= i < zeroes ==> vch[i] == 0)
        && vch[zeroes..] == digits[it..]
    ensures Represents(word, vch)
  {
    hide Number, LeadingZeros, Digit;
    forall i | 0 <= i < |word|
      ensures Digit(word[i]) == 0 <==> word[i] == '1'
    {
      NoLetterIsSpace(word[i]);
    }
    Rewritten(Values(word), 58, zeroes, digits, it, 256, vch);
  }

  /** Reads letters up to a space or the end. On anything else it fails. */
  method DecodeDigits(s: string, zeroes: nat, b256: array<nat>) returns (p: int)
    requires zeroes <= |s| && forall i :: 0 <= i < zeroes ==> s[i] == '1'
    requires Digits(b256[..], 256) && Number(b256[..], 256) == 0 && b256.Length == (|s| - zeroes) * 733 / 1000 + 1
    modifies b256
    ensures p == -1 ==> !IsWord(WithoutTrailing(s))
    ensures p != -1 ==> zeroes <= p <= |s| && IsWord(s[..p]) && (p < |s| ==> IsSpace(s[p]))
    ensures p != -1 ==> Digits(b256[..], 256) && Number(b256[..], 256) == Number(Values(s[..p])[zeroes..], 58)
  {
    hide Number, Pow, Digit;
    p := zeroes;
    NoLetterIsSpace('1');
    AllZeros(Values(s[..p])[zeroes..], 58);
    while p < |s| && !IsSpace(s[p])
      invariant zeroes <= p <= |s| && IsWord(s[..p])
      invariant Digits(b256[..], 256) && Number(b256[..], 256) == Number(Values(s[..p])[zeroes..], 58)
    {
      var carry := Digit(s[p]);
      if carry == -1 {
        Spoiled(s, p, p);
        return -1;
      }
      assert IsWord(s[..p + 1]);
      ghost var digits := Values(s[..p + 1])[zeroes..];
      assert digits[..p - zeroes] == Values(s[..p])[zeroes..];
      RoomFor(p + 1 - zeroes, |s| - zeroes);
      TakeDigit(b256, digits, p - zeroes, carry, 58, 256);
      assert digits[..p + 1 - zeroes] == digits;
      p := p + 1;
    }
  }

  lemma RoomFor(k: nat, n: nat)
    requires k <= n
    ensures Pow(58, k) <= Pow(256, n * 733 / 1000 + 1)
  {
    hide Pow;
    PowMonotone(58, k, n);
    BytesForDigits(n);
  }

  // ---------- round trips ----------

  /** Decoding what was encoded gives the bytes back. */
  method EncodeThenDecode(bytes: seq<Byte>) returns (again: Option<seq<Byte>>)
    ensures again == Some(bytes)
  {
    hide Represents, Trimmed, CString;
    var str := EncodeBase58(bytes);
    RepresentsWord(str, bytes);
    WordIsTrimmed(str);
    again := DecodeBase58(str);
    OneValue(str, bytes, again.value);
  }

  lemma RepresentsWord(s: string, b: seq<Byte>)
    requires Represents(s, b)
    ensures IsWord(s)
  {
  }

  /** Encoding what was decoded gives the text back, without the spaces around it and without
      what follows a zero character. */
  method DecodeThenEncode(text: string) returns (again: Option<string>)
    ensures again == if IsWord(Trimmed(CString(text))) then Some(Trimmed(CString(text))) else None
  {
    hide Represents, Trimmed, CString, IsWord;
    var r := DecodeBase58(text);
    if r.None? {
      return None;
    }
    var str := EncodeBase58(r.value);
    OneWord(Trimmed(CString(text)), str, r.value);
    again := Some(str);
  }

  // ---------- the alphabet, and words written out ----------

  const DIGITS := "123456789"
  const UPPER := "ABCDEFGHJKLMNPQRSTUVWXYZ"
  const LOWER := "abcdefghijkmnopqrstuvwxyz"

  lemma DigitsAre(c: char)
    ensures c in DIGITS <==> '1' <= c <= '9'
  {
  }

  lemma UpperAre(c: char)
    ensures c in UPPER <==> 'A' <= c <= 'Z' && c != 'I' && c != 'O'
  {
  }

  lemma LowerAre(c: char)
    ensures c in LOWER <==> 'a' <= c <= 'z' && c != 'l'
  {
  }

  lemma AlphabetParts()
    ensures ALPHABET == DIGITS + UPPER + LOWER
  {
  }

  /** The alphabet has the digits and letters but for 0, O, I and l. Since it ascends, that
      leaves one order. */
  lemma AlphabetIs(c: char)
    ensures c in ALPHABET <==>
            || '1' <= c <= '9'
            || ('A' <= c <= 'Z' && c != 'I' && c != 'O')
            || ('a' <= c <= 'z' && c != 'l')
  {
    DigitsAre(c);
    UpperAre(c);
    LowerAre(c);
    AlphabetParts();
    hide ALPHABET, DIGITS, UPPER, LOWER;
    assert c in DIGITS + UPPER + LOWER <==> c in DIGITS || c in UPPER || c in LOWER;
  }

  lemma SpacesAre(c: char)
    ensures IsSpace(c) <==> c == ' ' || c == '\t' || c == '\n' || c == '\r' || c as int == 11 || c as int == 12
  {
  }

  lemma OneDigit(s: seq<nat>, b: nat)
    requires |s| == 1
    ensures Number(s, b) == s[0]
  {
    assert s[..0] == [];
  }

  lemma NextDigit(s: seq<nat>, b: nat)
    requires s != []
    ensures Number(s, b) == Number(s[..|s| - 1], b) * b + s[|s| - 1]
  {
  }

  lemma LetterPlaces()
    ensures Digit('1') == 0 && Digit('2') == 1 && Digit('3') == 2 && Digit('V') == 28 && Digit('a') == 33
    ensures Digit('g') == 39 && Digit('z') == 57
  {
    AlphabetAscends();
    hide Digit, Position;
    DigitOfLetter(0);
    DigitOfLetter(1);
    DigitOfLetter(2);
    DigitOfLetter(28);
    DigitOfLetter(33);
    DigitOfLetter(39);
    DigitOfLetter(57);
    assert ALPHABET[28] == 'V' && ALPHABET[33] == 'a' && ALPHABET[39] == 'g' && ALPHABET[1] == '2';
  }

  lemma ShortWord()
    ensures Represents("2g", [0x61])
  {
    LetterPlaces();
    hide Digit, Position, Number, ALPHABET;
    assert Values("2g") == [1, 39] && [1, 39][..1] == [1];
    NextDigit([1, 39], 58);
    OneDigit([1], 58);
    OneDigit([0x61], 256);
  }

  lemma LongerWord()
    ensures Represents("a3gV", [0x62, 0x62, 0x62])
  {
    LetterPlaces();
    hide Digit, Position, Number, ALPHABET;
    var a, b := [33, 2, 39, 28], [0x62, 0x62, 0x62];
    assert Values("a3gV") == a && a[..3] == [33, 2, 39] && [33, 2, 39][..2] == [33, 2] && [33, 2][..1] == [33];
    assert b[..2] == [0x62, 0x62] && [0x62, 0x62][..1] == [0x62];
    NextDigit(a, 58);
    NextDigit([33, 2, 39], 58);
    NextDigit([33, 2], 58);
    OneDigit([33], 58);
    NextDigit(b, 256);
    NextDigit([0x62, 0x62], 256);
    OneDigit([0x62], 256);
  }

  /** Words written out: of one byte, and of three. */
  method WordsWrittenOut() returns (short: string, longer: string)
    ensures short == "2g" && longer == "a3gV"
  {
    hide Represents;
    ShortWord();
    LongerWord();
    short := EncodeBase58([0x61]);
    OneWord(short, "2g", [0x61]);
    longer := EncodeBase58([0x62, 0x62, 0x62]);
    OneWord(longer, "a3gV", [0x62, 0x62, 0x62]);
  }
}
