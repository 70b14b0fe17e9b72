/** Which numbers the hashed bytes spell, and hashes written out byte by byte. */
module ClaimNumerals {
  import opened ClaimTypes
  import opened NameTree
  import opened PathOps
  import opened TrieHash
  import Radix

  /** The eight bytes of a height are its big-endian numeral, of 32 bits. */
  lemma HeightNumeral(n: int)
    ensures Radix.Number(HeightBytes(n), 256) == n % 0x1_0000_0000
    ensures 0 <= n < 0x1_0000_0000 ==> Radix.Number(HeightBytes(n), 256) == n
  {
    Unrolled(HeightBytes(n));
    FourBytes(n);
  }

  lemma FourBytes(n: int)
    ensures (((n / 0x1000000) % 256 * 256 + (n / 0x10000) % 256) * 256 + (n / 0x100) % 256) * 256 + n % 256
            == n % 0x1_0000_0000
  {
    var a := n / 0x100;
    var b := a / 0x100;
    var c := b / 0x100;
    assert n == 0x100 * a + n % 256 && a == 0x100 * b + a % 256 && b == 0x100 * c + b % 256;
    assert n / 0x10000 == b && n / 0x1000000 == c;
    assert c == 0x100 * (c / 0x100) + c % 256;
    assert n == 0x1_0000_0000 * (c / 0x100) + (((c % 256) * 256 + b % 256) * 256 + a % 256) * 256 + n % 256;
  }

  lemma Unrolled(b: seq<nat>)
    requires |b| == 8 && b[0] == b[1] == b[2] == b[3] == 0
    ensures Radix.Number(b, 256) == ((b[4] * 256 + b[5]) * 256 + b[6]) * 256 + b[7]
  {
    Radix.ZerosInFront(b, 4, 256);
    var s := b[4..];
    assert Radix.Number(s[..0], 256) == 0;
    assert s[..1][..0] == s[..0] && s[..2][..1] == s[..1] && s[..3][..2] == s[..2] && s[..4] == s;
    assert Radix.Number(s[..1], 256) == b[4];
    assert Radix.Number(s[..2], 256) == b[4] * 256 + b[5];
    assert Radix.Number(s[..3], 256) == (b[4] * 256 + b[5]) * 256 + b[6];
  }

  /** The values of digit characters. */
  function DigitsOf(s: seq<int>): (r: seq<int>)
    ensures |r| == |s| && forall i :: 0 <= i < |s| ==> r[i] == s[i] - 48
  {
    if s == [] then [] else DigitsOf(s[..|s| - 1]) + [s[|s| - 1] - 48]
  }

  predicate DigitCharacters(s: seq<int>)
  {
    forall i :: 0 <= i < |s| ==> '0' as int <= s[i] <= '9' as int
  }

  /** The index of an outpoint is spelled in decimal, in the characters from 0 to 9, most
      significant first and without a zero in front. */
  lemma {:induction false} DecimalNumeral(n: nat)
    ensures var s := Decimal(n);
            && s != [] && DigitCharacters(s) && (forall i :: 0 <= i < |s| ==> DigitsOf(s)[i] >= 0)
            && Radix.Number(DigitsOf(s), 10) == n
            && (s[0] == '0' as int ==> s == ['0' as int])
  {
    hide DigitsOf, Radix.Number;
    if n < 10 {
      OneDigit(n);
    } else {
      DecimalNumeral(n / 10);
      NotZero(Decimal(n / 10), n / 10);
      MoreDigits(Decimal(n / 10), n % 10);
    }
  }

  lemma OneDigit(d: nat)
    ensures DigitsOf([48 + d]) == [d] && Radix.Number([d], 10) == d
  {
    assert [48 + d][..0] == [] && [d][..0] == [];
  }

  lemma MoreDigits(t: seq<int>, d: nat)
    requires forall i :: 0 <= i < |t| ==> DigitsOf(t)[i] >= 0
    ensures DigitsOf(t + [48 + d]) == DigitsOf(t) + [d]
    ensures Radix.Number(DigitsOf(t) + [d], 10) == Radix.Number(DigitsOf(t), 10) * 10 + d
  {
    assert (t + [48 + d])[..|t|] == t;
    assert (DigitsOf(t) + [d])[..|t|] == DigitsOf(t);
  }

  lemma NotZero(t: seq<int>, m: nat)
    requires t != [] && (t[0] == 48 ==> t == [48]) && m > 0
    requires DigitCharacters(t) && Radix.Number(DigitsOf(t), 10) == m
    ensures t[0] != 48
  {
    ZeroDigit();
  }

  lemma ZeroDigit()
    ensures DigitsOf([48]) == [0] && Radix.Number([0], 10) == 0
  {
    assert [48][..0] == [] && [0][..0] == [];
  }
}
