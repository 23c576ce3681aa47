/**
 The split-order arithmetic of lock_free_hash_table.cpp: bit reversal, the sort
 keys of regular and dummy nodes, and the parent of a bucket.  Machine words
 are natural numbers below 2^32; shifts and masks are written out.
 */
module SplitOrder {
  const WORD: nat := 0x1_0000_0000
  const TOP: nat := 0x8000_0000

  function Pow2(n: nat): (p: nat)
    ensures p > 0
  {
    if n == 0 then 1 else 2 * Pow2(n - 1)
  }

  /** The lowest bit of `x`, moved to where `p` has its bit. */
  function BitAt(x: nat, p: nat): nat {
    if x % 2 == 1 then p else 0
  }

  /** The low `n` bits of `x`, in reverse order. */
  function Rev(x: nat, n: nat): (r: nat)
    ensures r < Pow2(n)
  {
    if n == 0 then 0 else BitAt(x, Pow2(n - 1)) + Rev(x / 2, n - 1)
  }

  /** `key | 0x80000000` for a 32-bit key. */
  function WithTop(key: nat): nat {
    key % TOP + TOP
  }

  function RegularKey(key: nat): nat {
    Rev(WithTop(key), 32)
  }

  function DummyKey(index: nat): nat {
    Rev(index, 32)
  }

  lemma Pow2Word()
    ensures Pow2(32) == WORD && Pow2(31) == TOP
  {
    assert Pow2(8) == 256;
    assert Pow2(16) == 65536;
    assert Pow2(24) == 16777216;
  }

  lemma {:induction false} Pow2Mono(m: nat, n: nat)
    requires m <= n
    ensures Pow2(m) <= Pow2(n)
    decreases n - m
  {
    if m < n { Pow2Mono(m + 1, n); }
  }

  // ----- reversal -----

  /** The top bit of a word is the lowest bit of its reversal. */
  lemma {:induction false} RevTop(b: nat, z: nat, n: nat)
    requires n > 0 && b <= 1 && z < Pow2(n - 1)
    ensures Rev(BitAt(b, Pow2(n - 1)) + z, n) == 2 * Rev(z, n - 1) + b
  {
    if n > 1 {
      var v := BitAt(b, Pow2(n - 1)) + z;
      assert v % 2 == z % 2 && v / 2 == BitAt(b, Pow2(n - 2)) + z / 2;
      RevTop(b, z / 2, n - 1);
    }
  }

  /** Reversing the bits of a word twice gives the word back. */
  lemma {:induction false} RevInvolution(x: nat, n: nat)
    requires x < Pow2(n)
    ensures Rev(Rev(x, n), n) == x
  {
    if n > 0 {
      RevTop(x % 2, Rev(x / 2, n - 1), n);
      RevInvolution(x / 2, n - 1);
    }
  }

  lemma {:induction false} RevZero(n: nat)
    ensures Rev(0, n) == 0
  {
    if n > 0 { RevZero(n - 1); }
  }

  /** Setting bit `c` above the bits of `p` sets bit `n - 1 - c` of the reversal. */
  lemma {:induction false} RevSetBit(p: nat, c: nat, n: nat)
    requires p < Pow2(c) && c < n
    ensures Rev(p + Pow2(c), n) == Rev(p, n) + Pow2(n - 1 - c)
  {
    if c == 0 {
      RevZero(n - 1);
      RevZero(n);
    } else {
      assert (p + Pow2(c)) % 2 == p % 2 && (p + Pow2(c)) / 2 == p / 2 + Pow2(c - 1);
      RevSetBit(p / 2, c - 1, n - 1);
    }
  }

  /** `x` shifted left by `n` bits. */
  function Shl(x: nat, n: nat): nat
    decreases n
  {
    if n == 0 then x else Shl(2 * x, n - 1)
  }

  lemma {:induction false} ShlBit(x: nat, b: nat, n: nat)
    requires b <= 1
    ensures Shl(x + b, n) == Shl(x, n) + BitAt(b, Pow2(n))
  {
    ShlAdd(x, b, n);
    if b == 0 { ShlZero(n); } else { ShlOne(0, n); }
  }

  lemma {:induction false} ShlAdd(x: nat, y: nat, n: nat)
    ensures Shl(x + y, n) == Shl(x, n) + Shl(y, n)
    decreases n
  {
    if n > 0 { ShlAdd(2 * x, 2 * y, n - 1); }
  }

  lemma {:induction false} ShlZero(n: nat)
    ensures Shl(0, n) == 0
  {
    if n > 0 { ShlZero(n - 1); }
  }

  lemma {:induction false} ShlOne(m: nat, n: nat)
    ensures Shl(Pow2(m), n) == Pow2(m + n)
    decreases n
  {
    if n > 0 { ShlOne(m + 1, n - 1); }
  }

  /** The loop of `reverse` computes the reversal of a 32-bit word. */
  method Reverse(num: nat) returns (ret: nat)
    requires num < WORD
    ensures ret == Rev(num, 32)
    ensures ret < WORD
  {
    ret := 0;
    var rest := num;
    var i := 0;
    ShlZero(32);
    while i < 32
      invariant 0 <= i <= 32
      invariant Shl(ret, 32 - i) + Rev(rest, 32 - i) == Rev(num, 32)
      invariant ret < Pow2(i)
    {
      ShiftIn(ret, rest, i);
      ret := (ret * 2) % WORD + rest % 2;
      rest := rest / 2;
      i := i + 1;
    }
    Pow2Word();
  }

  lemma ShiftIn(ret: nat, rest: nat, i: nat)
    requires i < 32 && ret < Pow2(i)
    ensures (ret * 2) % WORD == ret * 2 && ret * 2 + rest % 2 < Pow2(i + 1)
    ensures Shl(ret * 2 + rest % 2, 31 - i) + Rev(rest / 2, 31 - i) == Shl(ret, 32 - i) + Rev(rest, 32 - i)
  {
    Pow2Mono(i + 1, 32);
    Pow2Word();
    ShlBit(ret * 2, rest % 2, 31 - i);
  }

  // ----- sort keys -----

  /** A regular key is the dummy key of its low 31 bits plus one: dummy keys are
      even, regular keys are odd, and each sorts right after the dummy of the
      same number. */
  lemma RegularAfterDummy(key: nat)
    ensures RegularKey(key) == DummyKey(key % TOP) + 1
    ensures DummyKey(key % TOP) % 2 == 0
    ensures RegularKey(key) < WORD
  {
    Pow2Word();
    RevTop(1, key % TOP, 32);
    RevTop(0, key % TOP, 32);
  }

  lemma RegularIsOdd(key: nat)
    ensures RegularKey(key) % 2 == 1
  {
    RegularAfterDummy(key);
  }

  lemma DummyIsEven(index: nat)
    requires index < TOP
    ensures DummyKey(index) % 2 == 0
  {
    RegularAfterDummy(index);
    ModSmall(index, TOP);
  }

  /** Distinct 31-bit keys have distinct regular keys. */
  lemma RegularInjective(j: nat, k: nat)
    requires RegularKey(j) == RegularKey(k)
    ensures j % TOP == k % TOP
  {
    Pow2Word();
    RevInvolution(WithTop(j), 32);
    RevInvolution(WithTop(k), 32);
  }

  /** Distinct buckets have distinct dummy keys. */
  lemma DummyInjective(i: nat, j: nat)
    requires i < WORD && j < WORD && DummyKey(i) == DummyKey(j)
    ensures i == j
  {
    Pow2Word();
    RevInvolution(i, 32);
    RevInvolution(j, 32);
  }

  // ----- parents -----

  /** The position of the highest set bit. */
  function Log2(index: nat): (c: nat)
    requires index > 0
    ensures Pow2(c) <= index < Pow2(c + 1)
  {
    if index == 1 then 0 else 1 + Log2(index / 2)
  }

  /** The bucket number without its highest set bit. */
  function Parent(index: nat): (p: nat)
    ensures index > 0 ==> p < index
  {
    if index == 0 then 0 else index - Pow2(Log2(index))
  }

  lemma ModOnce(i: nat, p: nat)
    requires p <= i < 2 * p
    ensures i % p == i - p
  {
    ModUnique(i, p, 1, i - p);
  }

  lemma MulAtLeast(d: int, k: int)
    requires d > 0 && k > 0
    ensures d * k >= d
  {
  }

  lemma MulBelow(d: int, k: int)
    requires d > 0 && -d < d * k < d
    ensures k == 0
  {
    if k > 0 { MulAtLeast(d, k); }
    if k < 0 { MulAtLeast(d, -k); }
  }

  lemma ModUnique(x: nat, d: nat, q: nat, r: nat)
    requires r < d && x == d * q + r
    ensures x % d == r
  {
    var q', r' := x / d, x % d;
    assert x == d * q' + r';
    assert d * (q' - q) == r - r';
    MulBelow(d, q' - q);
  }

  /** `GET_PARENT`: count the bits below the highest one and mask with them. */
  method GetParent(index: nat) returns (parent: nat)
    ensures parent == Parent(index)
  {
    var count: nat := 0;
    var temp := index;
    while temp / 2 != 0
      invariant if index == 0 then temp == 0 && count == 0 else temp > 0 && count + Log2(temp) == Log2(index)
    {
      temp := temp / 2;
      count := count + 1;
    }
    parent := index % Pow2(count);
    if index > 0 { ModOnce(index, Pow2(count)); }
  }

  /** A bucket sorts after its parent, so that it can be inserted from there. */
  lemma ParentSortsBefore(index: nat)
    requires 0 < index < TOP
    ensures DummyKey(Parent(index)) < DummyKey(index)
  {
    Pow2Word();
    var c := Log2(index);
    if c >= 31 { Pow2Mono(31, c); }
    RevSetBit(Parent(index), c, 32);
  }

  // ----- which keys their bucket reaches -----

  /** A traversal that starts at the dummy of the key's bucket can reach the
      place of the key. */
  predicate Fits(key: nat, buckets: nat)
    requires buckets > 0
  {
    DummyKey(key % buckets) < RegularKey(key)
  }

  lemma ModSmall(k: nat, m: nat)
    requires k < m
    ensures k % m == k
  {
    ModUnique(k, m, 0, k);
  }

  /** Keys that are bucket numbers themselves always fit. */
  lemma SmallKeysFit(key: nat, buckets: nat)
    requires key < buckets && key < TOP
    ensures Fits(key, buckets)
  {
    RegularAfterDummy(key);
    ModSmall(key, TOP);
    ModSmall(key, buckets);
  }

  lemma ModHalf(x: nat, p: nat)
    requires p > 0
    ensures (x % (2 * p)) % 2 == x % 2 && (x % (2 * p)) / 2 == (x / 2) % p
  {
    var h := x / 2;
    var q, r := h / p, h % p;
    assert h == q * p + r;
    assert x == (2 * p) * q + (2 * r + x % 2);
    ModUnique(x, 2 * p, q, 2 * r + x % 2);
  }

  lemma {:induction false} RevOfLowBits(x: nat, j: nat, n: nat)
    ensures Rev(x % Pow2(j), n) <= Rev(x, n)
  {
    if n > 0 {
      if j == 0 {
        assert x % Pow2(0) == 0;
        RevZero(n);
      } else {
        ModHalf(x, Pow2(j - 1));
        RevOfLowBits(x / 2, j - 1, n - 1);
      }
    }
  }

  /** With a power of two of buckets every 31-bit key fits. */
  lemma PowerOfTwoFits(key: nat, j: nat)
    requires key < TOP
    ensures Fits(key, Pow2(j))
  {
    RegularAfterDummy(key);
    ModSmall(key, TOP);
    RevOfLowBits(key, j, 32);
  }

  lemma Pow2Values()
    ensures Pow2(4) == 0x10 && Pow2(5) == 0x20 && Pow2(8) == 0x100 && Pow2(9) == 0x200 && Pow2(10) == 0x400
    ensures Pow2(13) == 0x2000 && Pow2(18) == 0x4_0000 && Pow2(21) == 0x20_0000 && Pow2(22) == 0x40_0000
    ensures Pow2(23) == 0x80_0000 && Pow2(26) == 0x400_0000 && Pow2(27) == 0x800_0000
  {
    assert Pow2(16) == 0x1_0000;
  }

  lemma DummyOf10016()
    ensures DummyKey(10016) == 0x4E4_0000
  {
    Pow2Values();
    RevZero(32);
    RevSetBit(0, 5, 32);
    RevSetBit(0x20, 8, 32);
    RevSetBit(0x120, 9, 32);
    RevSetBit(0x320, 10, 32);
    RevSetBit(0x720, 13, 32);
  }

  /** The bucket count of the table is not a power of two, and key 10016, which
      goes to bucket 16, sorts before the dummy of that bucket. */
  lemma LargeKeyDoesNotFit()
    ensures !Fits(10016, 10000)
  {
    Pow2Values();
    RevZero(32);
    RevSetBit(0, 4, 32);
    DummyOf10016();
    RegularAfterDummy(10016);
  }
}
