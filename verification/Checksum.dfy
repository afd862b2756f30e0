// The table-driven CRC-32 computes the bit-serial division of section 8 of
// RFC 1952, without the conditioning of the register before and after.

module SampleBytes {

  predicate Int32(x: int) { -0x8000_0000 <= x < 0x8000_0000 }

  /** The sample without its i least significant bytes, shifted arithmetically. */
  function Shifted(range: int, i: nat): int {
    if i == 0 then range else Shifted(range, i - 1) / 0x100
  }

  /** Byte i, least significant first, of a sample held in 32-bit two's complement. */
  function ByteOf(range: int, i: nat): bv8 {
    (Shifted(range, i) % 0x100) as bv8
  }

  lemma ByteValue(n: int)
    requires 0 <= n < 0x100
    ensures (n as bv8) as int == n
  {
    // By quarters of the range, on each of which the conversion is cheap.
    if n < 64 {
      assert (n as bv8) as int == n;
    } else if n < 128 {
      assert (n as bv8) as int == n;
    } else if n < 192 {
      assert (n as bv8) as int == n;
    } else {
      assert (n as bv8) as int == n;
    }
  }

  lemma LowDigit(range: int, i: nat)
    ensures Shifted(range, i) == Shifted(range, i + 1) * 0x100 + ByteOf(range, i) as int
    ensures 0 <= ByteOf(range, i) as int < 0x100
  {
    ByteValue(Shifted(range, i) % 0x100);
  }

  /** The four bytes are the digits, least significant first, of the sample as an
      unsigned 32-bit number. */
  lemma BytesMakeSample(range: int)
    ensures ByteOf(range, 0) as int + 0x100 * (ByteOf(range, 1) as int)
            + 0x1_0000 * (ByteOf(range, 2) as int) + 0x100_0000 * (ByteOf(range, 3) as int) == range % 0x1_0000_0000
  {
    LowDigit(range, 0);
    LowDigit(range, 1);
    LowDigit(range, 2);
    LowDigit(range, 3);
    FourDigits(range, Shifted(range, 4), ByteOf(range, 0) as int, ByteOf(range, 1) as int, ByteOf(range, 2) as int,
               ByteOf(range, 3) as int);
  }

  lemma FourDigits(range: int, top: int, b0: int, b1: int, b2: int, b3: int)
    requires 0 <= b0 < 0x100 && 0 <= b1 < 0x100 && 0 <= b2 < 0x100 && 0 <= b3 < 0x100
    requires range == (((top * 0x100 + b3) * 0x100 + b2) * 0x100 + b1) * 0x100 + b0
    ensures b0 + 0x100 * b1 + 0x1_0000 * b2 + 0x100_0000 * b3 == range % 0x1_0000_0000
  {
  }

  lemma SameByte(m: int, n: int)
    requires 0 <= m < 0x100 && 0 <= n < 0x100 && m as bv8 == n as bv8
    ensures m == n
  {
    ByteValue(m);
    ByteValue(n);
  }

  lemma SameQuotient(r: int, t: int)
    requires r / 0x100 == t / 0x100 && r % 0x100 == t % 0x100
    ensures r == t
  {
  }

  lemma TopByte(range: int)
    requires Int32(range)
    ensures -0x80 <= Shifted(range, 3) < 0x80
  {
    assert -0x80_0000 <= Shifted(range, 1) < 0x80_0000;
    assert -0x8000 <= Shifted(range, 2) < 0x8000;
  }

  lemma {:induction false} SameFrom(r: int, t: int, i: nat)
    requires i <= 3 && Int32(r) && Int32(t)
    requires forall j: nat :: j < 4 ==> ByteOf(r, j) == ByteOf(t, j)
    ensures Shifted(r, i) == Shifted(t, i)
    decreases 3 - i
  {
    assert ByteOf(r, i) == ByteOf(t, i);
    SameByte(Shifted(r, i) % 0x100, Shifted(t, i) % 0x100);
    if i == 3 {
      TopByte(r);
      TopByte(t);
    } else {
      SameFrom(r, t, i + 1);
      SameQuotient(Shifted(r, i), Shifted(t, i));
    }
  }

  /** The four bytes determine the sample. */
  lemma SameBytes(r: int, t: int)
    requires Int32(r) && Int32(t) && forall j: nat :: j < 4 ==> ByteOf(r, j) == ByteOf(t, j)
    ensures r == t
  {
    SameFrom(r, t, 0);
  }
}

module Checksum {
  import opened CrcTable
  import opened SampleBytes

  function Iterate<T>(g: T -> T, x: T, n: nat): T {
    if n == 0 then x else Iterate(g, g(x), n - 1)
  }

  lemma {:induction false} IterateAdds<T>(g: T -> T, x: T, m: nat, n: nat)
    ensures Iterate(g, Iterate(g, x, m), n) == Iterate(g, x, m + n)
    decreases m
  {
    if m > 0 {
      IterateAdds(g, g(x), m - 1, n);
    }
  }

  lemma IterateFour<T>(g: T -> T, x: T)
    ensures Iterate(g, x, 1) == g(x) && Iterate(g, x, 2) == g(g(x)) && Iterate(g, x, 3) == g(g(g(x)))
    ensures Iterate(g, x, 4) == g(g(g(g(x))))
  {
  }

  lemma IterateEight<T>(g: T -> T, x: T)
    ensures Iterate(g, x, 8) == g(g(g(g(g(g(g(g(x))))))))
  {
  }

  /** If g lets one even operand pass through, halved, then n steps let an
      operand pass through that stays even while it is halved. */
  lemma {:induction false} Carry<T(!new)>(g: T -> T, xor: (T, T) -> T, half: T -> T, even: T -> bool, u: T,
      h: T, n: nat)
    requires forall a, b :: even(b) ==> g(xor(a, b)) == xor(g(a), half(b))
    requires forall k: nat :: k < n ==> even(Iterate(half, h, k))
    ensures Iterate(g, xor(u, h), n) == xor(Iterate(g, u, n), Iterate(half, h, n))
    decreases n
  {
    if n > 0 {
      assert Iterate(half, h, 0) == h;
      forall k: nat | k < n - 1 ensures even(Iterate(half, half(h), k)) {
        assert Iterate(half, h, k + 1) == Iterate(half, half(h), k);
      }
      Carry(g, xor, half, even, g(u), half(h), n - 1);
    }
  }

  // Named operations of the register, so that the steps above apply to them.

  function Xor(x: bv32, y: bv32): bv32 { x ^ y }

  function Half(x: bv32): bv32 { x >> 1 }

  predicate Even(x: bv32) { x & 1 == 0 }

  function Low(x: bv32): bv32 { x & 0xff }

  predicate Clear(x: bv32) { x & 0xff == 0 }

  function Upper(x: bv32): bv32 { x & 0xffffff00 }

  function High(x: bv32): bv32 { x >> 8 }

  function Wide(b: bv8): bv32 { b as bv32 }

  function Index(sum: bv32, b: bv8): bv8 { ((sum & 0xff) as bv8) ^ b }

  /** Eight steps of the bit-serial register. */
  function EightBits(x: bv32): bv32 { Iterate(ShiftBit, x, 8) }

  lemma CarryOdd(u: bv32, h: bv32)
    requires h & 1 == 0 && u & 1 == 1
    ensures ShiftBit(u ^ h) == ShiftBit(u) ^ (h >> 1)
  {
  }

  lemma CarryEven(u: bv32, h: bv32)
    requires h & 1 == 0 && u & 1 == 0
    ensures ShiftBit(u ^ h) == ShiftBit(u) ^ (h >> 1)
  {
  }

  lemma LowBit(u: bv32)
    ensures u & 1 == 0 || u & 1 == 1
  {
  }

  lemma CarryBit(u: bv32, h: bv32)
    requires Even(h)
    ensures ShiftBit(Xor(u, h)) == Xor(ShiftBit(u), Half(h))
  {
    LowBit(u);
    if u & 1 == 1 {
      CarryOdd(u, h);
    } else {
      CarryEven(u, h);
    }
  }

  lemma CarryBits(u: bv32, h: bv32, n: nat)
    requires forall k: nat :: k < n ==> Even(Iterate(Half, h, k))
    ensures Iterate(ShiftBit, Xor(u, h), n) == Xor(Iterate(ShiftBit, u, n), Iterate(Half, h, n))
  {
    forall a, b | Even(b) ensures ShiftBit(Xor(a, b)) == Xor(ShiftBit(a), Half(b)) {
      CarryBit(a, b);
    }
    Carry(ShiftBit, Xor, Half, Even, u, h, n);
  }

  lemma EightHalves(h: bv32)
    ensures Half(Half(Half(Half(Half(Half(Half(Half(h)))))))) == h >> 8
  {
  }

  lemma FourHalves(h: bv32)
    ensures Half(Half(Half(Half(h)))) == h >> 4
  {
  }

  lemma FourEven(h: bv32)
    requires h & 0xf == 0
    ensures Even(h) && Even(Half(h)) && Even(Half(Half(h))) && Even(Half(Half(Half(h))))
  {
  }

  lemma TwoNibbles(h: bv32)
    requires h & 0xff == 0
    ensures h & 0xf == 0 && (h >> 4) & 0xf == 0
  {
  }

  lemma EvenForFour(h: bv32, k: nat)
    requires h & 0xf == 0 && k < 4
    ensures Even(Iterate(Half, h, k))
  {
    FourEven(h);
    IterateFour(Half, h);
    assert k == 0 || k == 1 || k == 2 || k == 3;
  }

  lemma EvenForEight(h: bv32, k: nat)
    requires h & 0xff == 0 && k < 8
    ensures Even(Iterate(Half, h, k))
  {
    TwoNibbles(h);
    if k < 4 {
      EvenForFour(h, k);
    } else {
      FourHalves(h);
      IterateFour(Half, h);
      EvenForFour(h >> 4, k - 4);
      IterateAdds(Half, h, 4, k - 4);
    }
  }

  /** Eight steps reduce the low byte; the bytes above it only move down. */
  lemma CarryByte(u: bv32, h: bv32)
    requires Clear(h)
    ensures EightBits(Xor(u, h)) == Xor(EightBits(u), High(h))
  {
    forall k: nat | k < 8 ensures Even(Iterate(Half, h, k)) {
      EvenForEight(h, k);
    }
    CarryBits(u, h, 8);
    IterateEight(Half, h);
    EightHalves(h);
  }

  // ---- One byte through the table ----

  lemma TableIndex(sum: bv32, b: bv8)
    ensures Wide(Index(sum, b)) == Xor(Low(sum), Wide(b))
  {
  }

  lemma SplitSum(sum: bv32, c: bv32)
    ensures Xor(sum, c) == Xor(Xor(Low(sum), c), Upper(sum))
  {
  }

  lemma UpperIsClear(x: bv32)
    ensures Clear(Upper(x))
  {
  }

  lemma UpperIsHigh(x: bv32)
    ensures High(Upper(x)) == High(x)
  {
  }

  lemma UpperGeneric<T(!new)>(eight: T -> T, xor: (T, T) -> T, clear: T -> bool, upper: T -> T, high: T -> T,
      u: T, x: T)
    requires forall v, h :: clear(h) ==> eight(xor(v, h)) == xor(eight(v), high(h))
    requires clear(upper(x)) && high(upper(x)) == high(x)
    ensures eight(xor(u, upper(x))) == xor(eight(u), high(x))
  {
  }

  lemma CarryUpper(u: bv32, x: bv32)
    ensures EightBits(Xor(u, Upper(x))) == Xor(EightBits(u), High(x))
  {
    UpperIsClear(x);
    UpperIsHigh(x);
    forall v, h | Clear(h) ensures EightBits(Xor(v, h)) == Xor(EightBits(v), High(h)) {
      CarryByte(v, h);
    }
    UpperGeneric(EightBits, Xor, Clear, Upper, High, u, x);
  }

  lemma SplitGeneric<T(!new)>(eight: T -> T, xor: (T, T) -> T, low: T -> T, upper: T -> T, high: T -> T, sum: T, c: T)
    requires forall s, d :: xor(s, d) == xor(xor(low(s), d), upper(s))
    requires forall u, s :: eight(xor(u, upper(s))) == xor(eight(u), high(s))
    ensures eight(xor(sum, c)) == xor(eight(xor(low(sum), c)), high(sum))
  {
  }

  lemma SplitShift(sum: bv32, c: bv32)
    ensures EightBits(Xor(sum, c)) == Xor(EightBits(Xor(Low(sum), c)), High(sum))
  {
    forall s, d ensures Xor(s, d) == Xor(Xor(Low(s), d), Upper(s)) {
      SplitSum(s, d);
    }
    forall u, s ensures EightBits(Xor(u, Upper(s))) == Xor(EightBits(u), High(s)) {
      CarryUpper(u, s);
    }
    SplitGeneric(EightBits, Xor, Low, Upper, High, sum, c);
  }

  lemma TableEntry(i: bv8)
    ensures Table(i) == EightBits(Wide(i))
  {
    TableIsShift(i);
    IterateEight(ShiftBit, i as bv32);
  }

  lemma TableGeneric<T(!new), B(!new)>(eight: T -> T, xor: (T, T) -> T, low: T -> T, high: T -> T,
                                       wide: B -> T, index: (T, B) -> B, table: B -> T, sum: T, b: B)
    requires forall s, d :: eight(xor(s, d)) == xor(eight(xor(low(s), d)), high(s))
    requires forall i :: table(i) == eight(wide(i))
    requires forall s, d :: wide(index(s, d)) == xor(low(s), wide(d))
    ensures xor(table(index(sum, b)), high(sum)) == eight(xor(sum, wide(b)))
  {
  }

  /** The table step is eight steps of the bit-serial register. */
  lemma TableStep(sum: bv32, b: bv8)
    ensures Xor(Table(Index(sum, b)), High(sum)) == EightBits(Xor(sum, Wide(b)))
  {
    forall s, d ensures EightBits(Xor(s, d)) == Xor(EightBits(Xor(Low(s), d)), High(s)) {
      SplitShift(s, d);
    }
    forall i ensures Table(i) == EightBits(Wide(i)) {
      TableEntry(i);
    }
    forall s, d ensures Wide(Index(s, d)) == Xor(Low(s), Wide(d)) {
      TableIndex(s, d);
    }
    TableGeneric(EightBits, Xor, Low, High, Wide, Index, Table, sum, b);
  }

  // ---- Four bytes ----

  function Word(b0: bv8, b1: bv8, b2: bv8, b3: bv8): bv32 {
    (b0 as bv32) ^ ((b1 as bv32) << 8) ^ ((b2 as bv32) << 16) ^ ((b3 as bv32) << 24)
  }

  lemma WordLow(b0: bv8, b1: bv8, b2: bv8, b3: bv8)
    ensures Low(Word(b0, b1, b2, b3)) == Wide(b0)
  {
  }

  lemma WordHigh(b0: bv8, b1: bv8, b2: bv8, b3: bv8)
    ensures High(Word(b0, b1, b2, b3)) == Word(b1, b2, b3, 0)
  {
  }

  lemma Commute(x: bv32, y: bv32)
    ensures Xor(x, y) == Xor(y, x)
  {
  }

  lemma WordGeneric<T(!new)>(eight: T -> T, xor: (T, T) -> T, low: T -> T, high: T -> T, sum: T, w: T)
    requires forall s, d :: eight(xor(s, d)) == xor(eight(xor(low(s), d)), high(s))
    requires forall x, y :: xor(x, y) == xor(y, x)
    ensures eight(xor(sum, w)) == xor(eight(xor(sum, low(w))), high(w))
  {
  }

  lemma WordSplit(sum: bv32, w: bv32)
    ensures EightBits(Xor(sum, w)) == Xor(EightBits(Xor(sum, Low(w))), High(w))
  {
    forall s, d ensures EightBits(Xor(s, d)) == Xor(EightBits(Xor(Low(s), d)), High(s)) {
      SplitShift(s, d);
    }
    forall x, y ensures Xor(x, y) == Xor(y, x) {
      Commute(x, y);
    }
    WordGeneric(EightBits, Xor, Low, High, sum, w);
  }

  /** The register divided through all 32 bits of one sample. */
  function BitSerial(sum: bv32, range: int): bv32 {
    Iterate(ShiftBit, Xor(sum, Pending(range, 0)), 32)
  }

  function ByteOrZero(range: int, i: nat): bv8 {
    if i < 4 then ByteOf(range, i) else 0
  }

  /** The bytes from i on, moved down to the low end of a word. */
  function Pending(range: int, i: nat): bv32 {
    Word(ByteOrZero(range, i), ByteOrZero(range, i + 1), ByteOrZero(range, i + 2), ByteOrZero(range, i + 3))
  }

  lemma NothingPending(sum: bv32, range: int)
    ensures Xor(sum, Pending(range, 4)) == sum
  {
  }

  lemma PendingHigh(range: int, i: nat)
    requires i < 4
    ensures Low(Pending(range, i)) == Wide(ByteOf(range, i)) && High(Pending(range, i)) == Pending(range, i + 1)
  {
    var b0, b1, b2, b3 := ByteOf(range, i), ByteOrZero(range, i + 1), ByteOrZero(range, i + 2),
        ByteOrZero(range, i + 3);
    WordLow(b0, b1, b2, b3);
    WordHigh(b0, b1, b2, b3);
  }

  lemma PendingStep(sum: bv32, range: int, i: nat)
    requires i < 4
    ensures Iterate(ShiftBit, Xor(sum, Pending(range, i)), 32 - 8 * i)
         == Iterate(ShiftBit, Xor(Xor(Table(Index(sum, ByteOf(range, i))), High(sum)), Pending(range, i + 1)),
             24 - 8 * i)
  {
    IterateAdds(ShiftBit, Xor(sum, Pending(range, i)), 8, 24 - 8 * i);
    WordSplit(sum, Pending(range, i));
    PendingHigh(range, i);
    TableStep(sum, ByteOf(range, i));
  }

  /** Each byte indexes the table with the low byte of the register, which moves
      down by a byte: kCrcTable[(sum & 0xff) ^ byte] ^ (sum >> 8). */
  method Crc32(seed: bv32, range: int) returns (sum: bv32)
    ensures sum == BitSerial(seed, range)
  {
    sum := seed;
    for i := 0 to 4
      invariant Iterate(ShiftBit, Xor(sum, Pending(range, i)), 32 - 8 * i) == BitSerial(seed, range)
    {
      PendingStep(sum, range, i);
      sum := Xor(Table(Index(sum, ByteOf(range, i))), High(sum));
    }
    NothingPending(sum, range);
  }

  // ---- No information is lost ----

  lemma ShiftBitInjective(x: bv32, y: bv32)
    requires ShiftBit(x) == ShiftBit(y)
    ensures x == y
  {
  }

  lemma {:induction false} IterateInjective<T(!new)>(g: T -> T, x: T, y: T, n: nat)
    requires forall a, b :: g(a) == g(b) ==> a == b
    requires Iterate(g, x, n) == Iterate(g, y, n)
    ensures x == y
    decreases n
  {
    if n > 0 {
      IterateInjective(g, g(x), g(y), n - 1);
    }
  }

  lemma XorInjective(x: bv32, y: bv32, z: bv32)
    requires Xor(x, y) == Xor(x, z)
    ensures y == z
  {
  }

  lemma WideInjective(b: bv8, c: bv8)
    requires Wide(b) == Wide(c)
    ensures b == c
  {
  }

  lemma {:induction false} SamePending(r: int, t: int, i: nat)
    requires i <= 4 && Pending(r, i) == Pending(t, i)
    ensures forall j: nat :: i <= j < 4 ==> ByteOf(r, j) == ByteOf(t, j)
    decreases 4 - i
  {
    if i < 4 {
      PendingHigh(r, i);
      PendingHigh(t, i);
      WideInjective(ByteOf(r, i), ByteOf(t, i));
      SamePending(r, t, i + 1);
    }
  }

  lemma RegisterInjective(x: bv32, y: bv32, n: nat)
    requires Iterate(ShiftBit, x, n) == Iterate(ShiftBit, y, n)
    ensures x == y
  {
    forall a, b | ShiftBit(a) == ShiftBit(b) ensures a == b {
      ShiftBitInjective(a, b);
    }
    IterateInjective(ShiftBit, x, y, n);
  }

  /** Crc32 is injective in the running sum. */
  lemma InjectiveInSum(x: bv32, y: bv32, range: int)
    requires BitSerial(x, range) == BitSerial(y, range)
    ensures x == y
  {
    var w := Pending(range, 0);
    RegisterInjective(Xor(x, w), Xor(y, w), 32);
    Commute(x, w);
    Commute(y, w);
    XorInjective(w, x, y);
  }

  /** Crc32 is injective in the sample. */
  lemma InjectiveInRange(sum: bv32, r: int, t: int)
    requires Int32(r) && Int32(t) && BitSerial(sum, r) == BitSerial(sum, t)
    ensures r == t
  {
    RegisterInjective(Xor(sum, Pending(r, 0)), Xor(sum, Pending(t, 0)), 32);
    XorInjective(sum, Pending(r, 0), Pending(t, 0));
    SamePending(r, t, 0);
    SameBytes(r, t);
  }

  /** The checksum of a run of boundaries, one Crc32 after another. */
  function Fold(seed: bv32, ranges: seq<int>): bv32
    decreases ranges
  {
    if ranges == [] then seed else Fold(BitSerial(seed, ranges[0]), ranges[1..])
  }

  lemma {:induction false} FoldAppends(seed: bv32, ranges: seq<int>, last: int)
    ensures Fold(seed, ranges + [last]) == BitSerial(Fold(seed, ranges), last)
    decreases ranges
  {
    var all := ranges + [last];
    if ranges == [] {
      assert all[1..] == [];
    } else {
      assert all[0] == ranges[0] && all[1..] == ranges[1..] + [last];
      FoldAppends(BitSerial(seed, ranges[0]), ranges[1..], last);
    }
  }

  lemma {:induction false} FoldInjective(x: bv32, y: bv32, ranges: seq<int>)
    requires Fold(x, ranges) == Fold(y, ranges)
    ensures x == y
    decreases ranges
  {
    if ranges != [] {
      FoldInjective(BitSerial(x, ranges[0]), BitSerial(y, ranges[0]), ranges[1..]);
      InjectiveInSum(x, y, ranges[0]);
    }
  }

  /** Changing exactly one boundary always changes the checksum. */
  lemma {:induction false} OneChangeShows(seed: bv32, r: seq<int>, t: seq<int>, k: nat)
    requires k < |r| == |t| && Int32(r[k]) && Int32(t[k]) && r[k] != t[k]
    requires forall i: nat :: i < |r| && i != k ==> r[i] == t[i]
    ensures Fold(seed, r) != Fold(seed, t)
    decreases r
  {
    if k == 0 {
      assert r[1..] == t[1..];
      if Fold(seed, r) == Fold(seed, t) {
        FoldInjective(BitSerial(seed, r[0]), BitSerial(seed, t[0]), r[1..]);
        InjectiveInRange(seed, r[0], t[0]);
      }
    } else {
      OneChangeShows(BitSerial(seed, r[0]), r[1..], t[1..], k - 1);
    }
  }
}
