/** A filter that remembers at least the last keys put into it, made of two filters that
    are cleared in turn. */
module Bloom {

  type Key = seq<bv8>

  const WORD := 0x1_0000_0000

  // ---------- bits in bytes ----------

  function Mask(j: nat): (m: bv8)
    requires j < 8
  {
    (1 as bv8) << j
  }

  lemma MasksAreDistinct(i: nat, j: nat)
    requires i < 8 && j < 8
    ensures Mask(i) & Mask(j) == if i == j then Mask(i) else 0
    ensures Mask(i) != 0
  {
    var one: bv8 := 1;
    assert one << 0 == 1 && one << 1 == 2 && one << 2 == 4 && one << 3 == 8;
    assert one << 4 == 16 && one << 5 == 32 && one << 6 == 64 && one << 7 == 128;
  }

  lemma OrBits(b: bv8, x: bv8, m: bv8)
    ensures (b | x) & m == (b & m) | (x & m)
    ensures x & m == 0 ==> (b | x) & m == b & m
    ensures x & m != 0 ==> (b | x) & m != 0
  {
  }

  predicate Bit(data: seq<bv8>, n: nat)
    requires n < 8 * |data|
  {
    data[n / 8] & Mask(n % 8) != 0
  }

  /** Setting one bit leaves the others. */
  lemma OneBitSet(data: seq<bv8>, n: nat, k: nat)
    requires n < 8 * |data| && k < 8 * |data|
    ensures Bit(data[n / 8 := data[n / 8] | Mask(n % 8)], k) <==> k == n || Bit(data, k)
  {
    hide Mask;
    MasksAreDistinct(n % 8, k % 8);
    if n / 8 == k / 8 {
      OrBits(data[n / 8], Mask(n % 8), Mask(k % 8));
    }
  }

  lemma NoBits(data: seq<bv8>, k: nat)
    requires k < 8 * |data| && forall i :: 0 <= i < |data| ==> data[i] == 0
    ensures !Bit(data, k)
  {
  }

  // ---------- which bits a filter's keys set ----------

  /** How a filter hashes: an arbitrary 32-bit hash, seeded once for each function. */
  datatype Hashing = Hashing(murmur: (nat, Key) -> nat, size: nat, nHashFuncs: nat, nTweak: nat) {
    predicate Valid() { size > 0 || nHashFuncs == 0 }

    function Index(i: nat, key: Key): (n: nat)
      requires size > 0
      ensures n < 8 * size
    {
      murmur((i * 0xFBA4C795 + nTweak) % WORD, key) % (8 * size)
    }

    /** One of the first k functions sends the key to bit n. */
    ghost predicate Hits(key: Key, k: nat, n: nat)
      requires size > 0
    {
      exists i: nat :: i < k && Index(i, key) == n
    }

    ghost predicate SetBy(keys: seq<Key>, n: nat)
      requires size > 0
    {
      exists j :: 0 <= j < |keys| && Hits(keys[j], nHashFuncs, n)
    }

    /** Every bit of the key is also a bit of one of the keys. */
    ghost predicate Covered(keys: seq<Key>, key: Key)
      requires Valid()
    {
      keys != [] && forall i: nat :: i < nHashFuncs ==> SetBy(keys, Index(i, key))
    }
  }

  /** The bytes have exactly the bits of the keys. */
  ghost predicate BitsOf(h: Hashing, data: seq<bv8>, keys: seq<Key>)
    requires |data| == h.size
  {
    forall n: nat :: n < 8 * |data| ==> (Bit(data, n) <==> h.SetBy(keys, n))
  }

  /** ... and, of one more key, those of its first k functions. */
  ghost predicate BitsAnd(h: Hashing, data: seq<bv8>, keys: seq<Key>, key: Key, k: nat)
    requires |data| == h.size
  {
    forall n: nat :: n < 8 * |data| ==> (Bit(data, n) <==> h.SetBy(keys, n) || h.Hits(key, k, n))
  }

  lemma InsertStarts(h: Hashing, data: seq<bv8>, keys: seq<Key>, key: Key)
    requires |data| == h.size && BitsOf(h, data, keys)
    ensures BitsAnd(h, data, keys, key, 0)
  {
    hide Bit;
  }

  lemma InsertsOne(h: Hashing, data: seq<bv8>, keys: seq<Key>, key: Key, k: nat)
    requires |data| == h.size > 0 && BitsAnd(h, data, keys, key, k)
    ensures var n := h.Index(k, key); BitsAnd(h, data[n / 8 := data[n / 8] | Mask(n % 8)], keys, key, k + 1)
  {
    hide Bit, Mask, Hashing.Index, Hashing.SetBy;
    var m := h.Index(k, key);
    forall n: nat | n < 8 * |data|
      ensures Bit(data[m / 8 := data[m / 8] | Mask(m % 8)], n) <==> h.SetBy(keys, n) || h.Hits(key, k + 1, n)
    {
      OneBitSet(data, m, n);
      HitsNext(h, key, k, n);
    }
  }

  lemma HitsNext(h: Hashing, key: Key, k: nat, n: nat)
    requires h.size > 0
    ensures h.Hits(key, k + 1, n) <==> h.Hits(key, k, n) || h.Index(k, key) == n
  {
    hide Hashing.Index;
    if h.Index(k, key) == n {
      assert k < k + 1;
    }
  }

  lemma InsertDone(h: Hashing, data: seq<bv8>, keys: seq<Key>, key: Key)
    requires |data| == h.size && BitsAnd(h, data, keys, key, h.nHashFuncs)
    ensures BitsOf(h, data, keys + [key])
  {
    hide Bit, Hashing.Hits;
    forall n: nat | n < 8 * |data|
      ensures h.SetBy(keys + [key], n) <==> h.SetBy(keys, n) || h.Hits(key, h.nHashFuncs, n)
    {
      SetByOneMore(h, keys, key, n);
    }
  }

  lemma SetByOneMore(h: Hashing, keys: seq<Key>, key: Key, n: nat)
    requires h.size > 0
    ensures h.SetBy(keys + [key], n) <==> h.SetBy(keys, n) || h.Hits(key, h.nHashFuncs, n)
  {
    hide Hashing.Hits;
    var all := keys + [key];
    if h.SetBy(keys, n) {
      var j :| 0 <= j < |keys| && h.Hits(keys[j], h.nHashFuncs, n);
      assert all[j] == keys[j];
    }
    if h.Hits(key, h.nHashFuncs, n) {
      assert all[|keys|] == key;
    }
  }

  /** A key that was put in is covered. */
  lemma InsertedIsCovered(h: Hashing, keys: seq<Key>, key: Key)
    requires h.Valid() && key in keys
    ensures h.Covered(keys, key)
  {
    hide Hashing.Index;
    var j :| 0 <= j < |keys| && keys[j] == key;
    forall i: nat | i < h.nHashFuncs
      ensures h.SetBy(keys, h.Index(i, key))
    {
      assert h.Hits(keys[j], h.nHashFuncs, h.Index(i, key));
    }
  }

  class BloomFilter {
    const vData: array<bv8>
    const nHashFuncs: nat
    const murmur: (nat, Key) -> nat
    var isFull: bool
    var isEmpty: bool
    var nTweak: nat

    function H(): (h: Hashing)
      reads `nTweak
    {
      Hashing(murmur, vData.Length, nHashFuncs, nTweak)
    }

    /** The filter has seen exactly these keys since it was cleared. */
    ghost predicate Holds(keys: seq<Key>)
      reads this, vData
    {
      && H().Valid()
      && !isFull
      && (isEmpty <==> keys == [])
      && BitsOf(H(), vData[..], keys)
    }

    lemma HasHashing(keys: seq<Key>)
      requires Holds(keys)
      ensures H().Valid()
    {
    }

    constructor (size: nat, nHashFuncs: nat, nTweak: nat, murmur: (nat, Key) -> nat)
      requires size > 0 || nHashFuncs == 0
      ensures Holds([]) && fresh(vData)
      ensures this.nHashFuncs == nHashFuncs && vData.Length == size && this.nTweak == nTweak && this.murmur == murmur
    {
      vData := new bv8[size](i => 0);
      this.nHashFuncs := nHashFuncs;
      this.murmur := murmur;
      isFull := false;
      isEmpty := true;
      this.nTweak := nTweak;
      new;
      hide Mask, Hashing.Hits, Hashing.Index;
      forall n: nat | n < 8 * vData.Length
        ensures !Bit(vData[..], n)
      {
        NoBits(vData[..], n);
      }
    }

    method Insert(vKey: Key, ghost keys: seq<Key>)
      requires Holds(keys)
      modifies this`isEmpty, vData
      ensures Holds(keys + [vKey]) && H() == old(H())
    {
      hide Mask, Bit, BitsOf, BitsAnd, Hashing.Index;
      if isFull {
        return;
      }
      ghost var h := H();
      InsertStarts(h, vData[..], keys, vKey);
      for i := 0 to nHashFuncs
        invariant H() == h && !isFull && BitsAnd(h, vData[..], keys, vKey, i)
      {
        InsertsOne(h, vData[..], keys, vKey, i);
        var nIndex := H().Index(i, vKey);
        vData[nIndex / 8] := vData[nIndex / 8] | Mask(nIndex % 8);
      }
      InsertDone(h, vData[..], keys, vKey);
      isEmpty := false;
    }

    method Contains(vKey: Key, ghost keys: seq<Key>) returns (r: bool)
      requires Holds(keys)
      ensures r <==> H().Covered(keys, vKey)
    {
      hide Mask, Hashing.Index, Hashing.SetBy;
      if isFull {
        return true;
      }
      if isEmpty {
        return false;
      }
      for i := 0 to nHashFuncs
        invariant forall k: nat :: k < i ==> H().SetBy(keys, H().Index(k, vKey))
      {
        var nIndex := H().Index(i, vKey);
        assert Bit(vData[..], nIndex) <==> H().SetBy(keys, nIndex);
        if vData[nIndex / 8] & Mask(nIndex % 8) == 0 {
          return false;
        }
      }
      return true;
    }

    method Clear()
      requires H().Valid()
      modifies this`isFull, this`isEmpty, vData
      ensures Holds([]) && H() == old(H())
    {
      hide Mask, Hashing.Hits, Hashing.Index;
      for i := 0 to vData.Length
        invariant H() == old(H()) && forall k :: 0 <= k < i ==> vData[k] == 0
      {
        vData[i] := 0;
      }
      isFull := false;
      isEmpty := true;
      forall n: nat | n < 8 * vData.Length
        ensures !Bit(vData[..], n)
      {
        NoBits(vData[..], n);
      }
    }

    method Reset(nNewTweak: nat)
      requires H().Valid()
      modifies this, vData
      ensures Holds([]) && H() == old(H()).(nTweak := nNewTweak)
    {
      Clear();
      nTweak := nNewTweak;
      NothingSeen(H(), vData[..]);
    }
  }

  lemma NothingSeen(h: Hashing, data: seq<bv8>)
    requires |data| == h.size
    requires exists t: nat :: BitsOf(h.(nTweak := t), data, [])
    ensures BitsOf(h, data, [])
  {
    hide Mask, Bit, Hashing.Hits;
  }

  // ---------- two filters in turn ----------

  /** The last k keys, or all if there are fewer. */
  function Last(keys: seq<Key>, k: nat): (w: seq<Key>)
    ensures |w| == if |keys| <= k then |keys| else k
  {
    if |keys| <= k then keys else keys[|keys| - k..]
  }

  lemma LastNext(keys: seq<Key>, k: nat, key: Key)
    ensures Last(keys + [key], k + 1) == Last(keys, k) + [key]
  {
  }

  lemma LastOne(keys: seq<Key>, key: Key)
    ensures Last(keys + [key], 1) == [] + [key]
  {
  }

  lemma LastWithin(keys: seq<Key>, k: nat, m: nat, key: Key)
    requires k <= m && key in Last(keys, k)
    ensures key in Last(keys, m)
  {
    var j :| 0 <= j < |Last(keys, k)| && Last(keys, k)[j] == key;
    assert Last(keys, m)[|Last(keys, m)| - |Last(keys, k)| + j] == key;
  }

  /** How many of the last keys the first filter holds after c of 2n insertions. */
  function Held1(c: nat, n: nat): (k: nat) { if c == 0 then 2 * n else c }

  /** ... and the second, which is cleared half a turn later. */
  function Held2(c: nat, n: nat): (k: nat) { if c > n then c - n else n + c }

  /** Where a turn of 2n insertions stands, and where half a turn does. */
  lemma Turns(total: nat, n: nat)
    requires n > 0
    ensures (total + 1) % (2 * n) == if total % (2 * n) == 2 * n - 1 then 0 else total % (2 * n) + 1
    ensures total % n == if total % (2 * n) < n then total % (2 * n) else total % (2 * n) - n
  {
    var size := 2 * n;
    TurnNext(total, size);
    HalfTurn(total, n, size, total / size, total % size);
  }

  lemma TurnNext(total: nat, size: nat)
    requires size > 0
    ensures (total + 1) % size == if total % size == size - 1 then 0 else total % size + 1
  {
    var q, c := total / size, total % size;
    assert total == size * q + c;
    if c == size - 1 {
      assert size * (q + 1) == size * q + size;
      Remainder(total + 1, size, q + 1, 0);
    } else {
      Remainder(total + 1, size, q, c + 1);
    }
  }

  lemma HalfTurn(total: nat, n: nat, size: nat, q: nat, c: nat)
    requires n > 0 && size == 2 * n && total == size * q + c && c < size
    ensures total % n == if c < n then c else c - n
  {
    assert size * q == n * (2 * q);
    if c < n {
      Remainder(total, n, 2 * q, c);
    } else {
      assert n * (2 * q + 1) == n * (2 * q) + n;
      Remainder(total, n, 2 * q + 1, c - n);
    }
  }

  lemma Remainder(x: nat, d: nat, q: nat, r: nat)
    requires d > 0 && r < d && x == d * q + r
    ensures x % d == r
  {
    var z := x / d - q;
    assert x == d * (x / d) + x % d;
    assert d * z == d * (x / d) - d * q;
    Multiple(d, z);
  }

  lemma Multiple(d: int, z: int)
    requires d > 0
    ensures (z >= 1 ==> d * z >= d) && (z <= -1 ==> d * z <= -d)
  {
  }

  class RollingBloomFilter {
    const nBloomSize: nat
    const b1: BloomFilter
    const b2: BloomFilter
    var nInsertions: nat
    ghost var inserted: seq<Key>

    ghost predicate Valid()
      reads this, b1, b2, b1.vData, b2.vData
    {
      var n := nBloomSize / 2;
      && b1 != b2 && b1.vData != b2.vData && b1.H() == b2.H()
      && n > 0 && nBloomSize == 2 * n
      && nInsertions == |inserted| % nBloomSize
      && b1.Holds(Last(inserted, Held1(nInsertions, n)))
      && b2.Holds(Last(inserted, Held2(nInsertions, n)))
    }

    /** The size of the bit arrays and the number of hash functions are those that the wanted
        rate of false positives asks for. */
    constructor (nElements: nat, size: nat, nHashFuncs: nat, murmur: (nat, Key) -> nat, random: nat)
      requires 0 < nElements < WORD / 2 && (size > 0 || nHashFuncs == 0)
      ensures Valid() && inserted == [] && nBloomSize == 2 * nElements
      ensures fresh(b1) && fresh(b2) && fresh(b1.vData) && fresh(b2.vData)
    {
      var first := new BloomFilter(size, nHashFuncs, 0, murmur);
      var second := new BloomFilter(size, nHashFuncs, 0, murmur);
      b1 := first;
      b2 := second;
      nInsertions := 0;
      nBloomSize := nElements * 2;
      inserted := [];
      new;
      Reset(random);
    }

    method Insert(vKey: Key)
      requires Valid()
      modifies this, b1, b2, b1.vData, b2.vData
      ensures Valid() && inserted == old(inserted) + [vKey]
    {
      hide BloomFilter.Holds, BloomFilter.H, Last;
      ghost var n, c := nBloomSize / 2, nInsertions;
      ghost var keys1, keys2 := Last(inserted, Held1(c, n)), Last(inserted, Held2(c, n));
      b1.HasHashing(keys1);
      b2.HasHashing(keys2);
      Turns(|inserted|, n);
      if nInsertions == 0 {
        b1.Clear();
        keys1 := [];
      } else if nInsertions == nBloomSize / 2 {
        b2.Clear();
        keys2 := [];
      }
      b1.Insert(vKey, keys1);
      b2.Insert(vKey, keys2);
      nInsertions := nInsertions + 1;
      if nInsertions == nBloomSize {
        nInsertions := 0;
      }
      HeldNext(inserted, c, n, vKey);
      inserted := inserted + [vKey];
    }

    /** True exactly if the bits of the key are among those of the keys in the window, which
        always takes in the last n keys. */
    method Contains(vKey: Key) returns (r: bool)
      requires Valid()
      ensures var n := nBloomSize / 2;
              && (r <==> b1.H().Valid() && b1.H().Covered(Last(inserted, n + |inserted| % n), vKey))
              && (vKey in Last(inserted, n) ==> r)
    {
      hide BloomFilter.Holds, BloomFilter.H, Last, Hashing.Covered;
      ghost var n, c := nBloomSize / 2, nInsertions;
      Turns(|inserted|, n);
      b1.HasHashing(Last(inserted, Held1(c, n)));
      if vKey in Last(inserted, n) {
        LastWithin(inserted, n, n + |inserted| % n, vKey);
        InsertedIsCovered(b1.H(), Last(inserted, n + |inserted| % n), vKey);
      }
      if nInsertions < nBloomSize / 2 {
        r := b2.Contains(vKey, Last(inserted, Held2(c, n)));
      } else {
        r := b1.Contains(vKey, Last(inserted, Held1(c, n)));
      }
    }

    method Reset(nNewTweak: nat)
      requires b1 != b2 && b1.vData != b2.vData && b1.H() == b2.H() && b1.H().Valid()
      requires nBloomSize % 2 == 0 && nBloomSize > 0
      modifies this, b1, b2, b1.vData, b2.vData
      ensures Valid() && inserted == []
    {
      b1.Reset(nNewTweak);
      b2.Reset(nNewTweak);
      nInsertions := 0;
      inserted := [];
    }
  }

  lemma HeldNext(keys: seq<Key>, c: nat, n: nat, key: Key)
    requires n > 0 && c < 2 * n
    ensures var next := if c + 1 == 2 * n then 0 else c + 1;
            && Last(keys + [key], Held1(next, n)) == (if c == 0 then [] else Last(keys, Held1(c, n))) + [key]
            && Last(keys + [key], Held2(next, n)) == (if c == n then [] else Last(keys, Held2(c, n))) + [key]
  {
    hide Last;
    LastOne(keys, key);
    LastNext(keys, Held1(c, n), key);
    LastNext(keys, Held2(c, n), key);
  }

  // ---------- a filter written out ----------

  lemma MasksWrittenOut()
    ensures Mask(0) == 1 && Mask(1) == 2 && Mask(2) == 4 && Mask(3) == 8
    ensures Mask(4) == 16 && Mask(5) == 32 && Mask(6) == 64 && Mask(7) == 128
  {
  }

  /** Each hash function has a seed of its own, a multiple of one constant and the tweak on top. */
  lemma SeedsWrittenOut(h: Hashing, key: Key)
    requires h.size > 0 && h.nTweak == 5
    ensures h.Index(0, key) == h.murmur(5, key) % (8 * h.size)
    ensures h.Index(1, key) == h.murmur(4221880218, key) % (8 * h.size)
    ensures h.Index(2, key) == h.murmur(4148793135, key) % (8 * h.size)
  {
    assert 2 * 4221880213 == 4148793130 + 4294967296;
  }

  lemma OneKeyBits(h: Hashing, key: Key, data: seq<bv8>)
    requires h.size == 2 == |data| && h.nHashFuncs == 2 && h.nTweak == 5 && h.murmur(5, key) == 5
    requires h.murmur(4221880218, key) == 4221880218 && BitsOf(h, data, [key])
    ensures forall n: nat :: n < 16 ==> (Bit(data, n) <==> n == 5 || n == 10)
  {
    SeedsWrittenOut(h, key);
    hide Bit, Hashing.Index;
    forall n: nat | n < 16
      ensures Bit(data, n) <==> n == 5 || n == 10
    {
      assert h.Hits(key, 2, n) <==> n == 5 || n == 10;
      assert [key][0] == key;
      assert h.Hits([key][0], h.nHashFuncs, n) ==> h.SetBy([key], n);
    }
  }

  /** Two bytes, two functions, and a hash that is its seed: one key sets the bits 5 and 10. */
  method FilterWrittenOut(key: Key) returns (data: seq<bv8>)
    ensures data == [32, 4]
  {
    hide Bit, BitsOf, Hashing.Index, Hashing.Hits, Hashing.SetBy;
    var murmur: (nat, Key) -> nat := (seed, k) => seed;
    var filter := new BloomFilter(2, 2, 5, murmur);
    filter.Insert(key, []);
    data := filter.vData[..];
    assert [] + [key] == [key];
    OneKeyBits(filter.H(), key, data);
    TwoBytes(data);
  }

  /** What the hash of the next case gives. */
  function Picked(seed: nat, key: Key): nat
  {
    if key == [] then seed else if key == [1] then (if seed == 5 then 5 else 3) else if seed == 5 then 4 else 10
  }

  lemma PickedBits(h: Hashing)
    requires h.size == 2 && h.nHashFuncs == 2 && h.nTweak == 5
    requires forall key :: h.murmur(5, key) == Picked(5, key)
    requires forall key :: h.murmur(4221880218, key) == Picked(4221880218, key)
    ensures h.Covered([[]], []) && !h.Covered([[]], [1]) && !h.Covered([[]], [2])
  {
    SeedsWrittenOut(h, []);
    SeedsWrittenOut(h, [1]);
    SeedsWrittenOut(h, [2]);
    var keys: seq<Key> := [[]];
    assert keys[0] == [];
    hide Hashing.Index;
    assert h.Index(0, []) == 5 && h.Index(1, []) == 10;
    assert h.Index(0, [1]) == 5 && h.Index(1, [1]) == 3 && h.Index(0, [2]) == 4 && h.Index(1, [2]) == 10;
    assert h.Hits(keys[0], 2, 5) && h.Hits(keys[0], 2, 10) && !h.Hits(keys[0], 2, 3) && !h.Hits(keys[0], 2, 4);
    assert h.SetBy(keys, 5) && h.SetBy(keys, 10) && !h.SetBy(keys, 3) && !h.SetBy(keys, 4);
  }

  /** One key is in the filter. Of two others, that share the first or the second of its bits and
      not the other one, neither is. */
  method ContainedOrNot() returns (there: bool, first: bool, second: bool)
    ensures there && !first && !second
  {
    hide Bit, BitsOf, Hashing.Index, Hashing.Hits, Hashing.SetBy, Hashing.Covered;
    var filter := new BloomFilter(2, 2, 5, Picked);
    filter.Insert([], []);
    ghost var keys: seq<Key> := [[]];
    assert [] + [[]] == keys;
    PickedBits(filter.H());
    there := filter.Contains([], keys);
    first := filter.Contains([1], keys);
    second := filter.Contains([2], keys);
  }

  lemma TwoBytes(data: seq<bv8>)
    requires |data| == 2 && forall n: nat :: n < 16 ==> (Bit(data, n) <==> n == 5 || n == 10)
    ensures data == [32, 4]
  {
    hide Mask;
    MasksWrittenOut();
    forall j: nat | j < 8
      ensures data[0] & Mask(j) != 0 <==> j == 5
      ensures data[1] & Mask(j) != 0 <==> j == 2
    {
      assert Bit(data, j) <==> data[0] & Mask(j) != 0;
      assert Bit(data, 8 + j) <==> data[1] & Mask(j) != 0;
    }
    ByteOf(data[0], 32);
    ByteOf(data[1], 4);
  }

  lemma ByteOf(x: bv8, y: bv8)
    requires x & 1 == y & 1 && x & 2 == y & 2 && x & 4 == y & 4 && x & 8 == y & 8
    requires x & 16 == y & 16 && x & 32 == y & 32 && x & 64 == y & 64 && x & 128 == y & 128
    ensures x == y
  {
  }
}
