module Crc32 {
  /**
   The CRC-32 of section 4.4.7 of PKWARE's APPNOTE, computed a byte at a time from a
   table, and the shift register that defines it, fed a bit at a time.

   Words are the naturals their bits spell: `v >>> 1` is `v / 2`, `v & 1` is `v % 2`,
   `v & 0xff` is `v % 256`, and exclusive-or is defined bit by bit.
   */

  import opened Numbers

  type Byte = b: int | 0 <= b < 256

  const POLYNOMIAL: nat := 0xedb88320
  const ALL_ONES: nat := 0xffffffff

  function Xor(a: nat, b: nat): nat
    decreases a + b
  {
    if a == 0 then b
    else if b == 0 then a
    else (a + b) % 2 + 2 * Xor(a / 2, b / 2)
  }

  /** One step of the register: out goes the low bit, and a one takes the polynomial with it. */
  function Shift(v: nat): nat {
    ShiftWith(POLYNOMIAL, v)
  }

  function ShiftWith(polynomial: nat, v: nat): nat {
    if v % 2 == 1 then Xor(polynomial, v / 2) else v / 2
  }

  function Shifts(v: nat, n: nat): nat
    decreases n
  {
    if n == 0 then v else Shifts(Shift(v), n - 1)
  }

  // --- The definition: message bits enter one by one, least significant first -----------

  /** The register after the low `n` bits of `b`. */
  function FeedBits(register: nat, b: nat, n: nat): nat
    decreases n
  {
    if n == 0 then register else FeedBits(Shift(Xor(register, b % 2)), b / 2, n - 1)
  }

  function Feed(register: nat, bytes: seq<Byte>): nat
    decreases |bytes|
  {
    if bytes == [] then register
    else
      var last := |bytes| - 1;
      FeedBits(Feed(register, bytes[..last]), bytes[last], 8)
  }

  /** The checksum of section 4.4.7: preset to ones, complemented at the end. */
  function Checksum(bytes: seq<Byte>): nat {
    Xor(Feed(ALL_ONES, bytes), ALL_ONES)
  }

  /**
   The polynomial is the standard's, of degree 32 with terms at 26, 23, 22, 16, 12, 11, 10,
   8, 7, 5, 4, 2, 1 and 0, its highest term first in the lowest bit; the preset is 32 ones.
   */
  lemma PolynomialIs()
    ensures POLYNOMIAL == Pow2(31 - 26) + Pow2(31 - 23) + Pow2(31 - 22) + Pow2(31 - 16) + Pow2(31 - 12) + Pow2(31 - 11)
                          + Pow2(31 - 10) + Pow2(31 - 8) + Pow2(31 - 7) + Pow2(31 - 5) + Pow2(31 - 4) + Pow2(31 - 2)
                          + Pow2(31 - 1) + Pow2(31 - 0)
    ensures ALL_ONES == Pow2(32) - 1
  {
    assert Pow2(8) == 0x100;
    assert Pow2(16) == 0x10000;
    assert Pow2(24) == 0x1000000;
  }

  // --- Exclusive-or ----------------------------------------------------------------------

  lemma {:induction false} XorHalves(a: nat, b: nat)
    ensures Xor(a, b) % 2 == (a + b) % 2
    ensures Xor(a, b) / 2 == Xor(a / 2, b / 2)
  {
  }

  lemma {:induction false} XorCommutes(a: nat, b: nat)
    ensures Xor(a, b) == Xor(b, a)
    decreases a + b
  {
    if a != 0 && b != 0 { XorCommutes(a / 2, b / 2); }
  }

  lemma XorZero(a: nat)
    ensures Xor(a, 0) == a
  {
  }

  lemma ParityOfThree(a: nat, b: nat, c: nat, ab: nat, bc: nat)
    requires ab % 2 == (a + b) % 2 && bc % 2 == (b + c) % 2
    ensures (ab + c) % 2 == (a + bc) % 2
  {
  }

  lemma SameBits(a: nat, b: nat)
    requires a % 2 == b % 2 && a / 2 == b / 2
    ensures a == b
  {
  }

  lemma {:induction false} XorAssociates(a: nat, b: nat, c: nat)
    ensures Xor(Xor(a, b), c) == Xor(a, Xor(b, c))
    decreases a + b + c
  {
    if a == 0 || b == 0 || c == 0 {
    } else {
      XorAssociates(a / 2, b / 2, c / 2);
      XorAssociatesStep(a, b, c, Xor(a, b), Xor(b, c));
    }
  }

  lemma XorAssociatesStep(a: nat, b: nat, c: nat, ab: nat, bc: nat)
    requires ab == Xor(a, b) && bc == Xor(b, c)
    requires Xor(Xor(a / 2, b / 2), c / 2) == Xor(a / 2, Xor(b / 2, c / 2))
    ensures Xor(ab, c) == Xor(a, bc)
  {
    XorHalves(a, b);
    XorHalves(b, c);
    XorHalves(ab, c);
    XorHalves(a, bc);
    ParityOfThree(a, b, c, ab, bc);
    SameBits(Xor(ab, c), Xor(a, bc));
  }

  lemma {:induction false} XorSelf(a: nat)
    ensures Xor(a, a) == 0
  {
    if a != 0 { XorSelf(a / 2); }
  }

  lemma {:induction false} XorBelow(a: nat, b: nat, n: nat)
    requires a < Pow2(n) && b < Pow2(n)
    ensures Xor(a, b) < Pow2(n)
    decreases n
  {
    if a != 0 && b != 0 { XorBelow(a / 2, b / 2, n - 1); }
  }

  /** Bits that do not meet add. */
  lemma {:induction false} XorOfParts(low: nat, high: nat, n: nat)
    requires low < Pow2(n)
    ensures Xor(low, Pow2(n) * high) == low + Pow2(n) * high
    decreases n
  {
    if n > 0 {
      XorOfParts(low / 2, high, n - 1);
      XorWithEven(low, Pow2(n - 1) * high);
      Doubled(Pow2(n - 1), high);
    }
  }

  lemma Doubled(p: nat, high: nat)
    ensures 2 * p * high == 2 * (p * high)
  {
  }

  lemma XorWithEven(low: nat, half: nat)
    ensures Xor(low, 2 * half) == low % 2 + 2 * Xor(low / 2, half)
  {
    hide Xor;
    XorHalves(low, 2 * half);
    EvenAddsNoBit(low, half);
  }

  lemma EvenAddsNoBit(low: nat, half: nat)
    ensures (low + 2 * half) % 2 == low % 2 && 2 * half / 2 == half
  {
  }

  // --- The register is linear -----------------------------------------------------------

  lemma XorRearranged(p: nat, x: nat, y: nat)
    ensures Xor(Xor(p, x), Xor(p, y)) == Xor(x, y)
    ensures Xor(Xor(p, x), y) == Xor(p, Xor(x, y)) == Xor(x, Xor(p, y))
  {
    XorAssociates(p, x, y);
    XorCommutes(p, x);
    XorAssociates(x, p, y);
    XorAssociates(x, p, Xor(p, y));
    XorAssociates(p, p, y);
    XorSelf(p);
    assert Xor(0, y) == y;
  }

  lemma ShiftIsLinear(a: nat, b: nat)
    ensures Shift(Xor(a, b)) == Xor(Shift(a), Shift(b))
  {
    hide Xor;
    XorHalves(a, b);
    FlaggedXor(POLYNOMIAL, a % 2 == 1, b % 2 == 1, a / 2, b / 2);
    assert (Xor(a, b) % 2 == 1) == ((a % 2 == 1) != (b % 2 == 1));
  }

  lemma FlaggedXor(p: nat, oddA: bool, oddB: bool, x: nat, y: nat)
    ensures (if oddA != oddB then Xor(p, Xor(x, y)) else Xor(x, y))
            == Xor(if oddA then Xor(p, x) else x, if oddB then Xor(p, y) else y)
  {
    XorRearranged(p, x, y);
  }

  lemma {:induction false} ShiftsAreLinear(a: nat, b: nat, n: nat)
    ensures Shifts(Xor(a, b), n) == Xor(Shifts(a, n), Shifts(b, n))
    decreases n
  {
    if n > 0 {
      ShiftIsLinear(a, b);
      ShiftsAreLinear(Shift(a), Shift(b), n - 1);
    }
  }

  lemma {:induction false} ShiftsOfHigh(high: nat, n: nat)
    ensures Shifts(Pow2(n) * high, n) == high
  {
    if n > 0 {
      assert Pow2(n) * high == 2 * (Pow2(n - 1) * high);
      ShiftsOfHigh(high, n - 1);
    }
  }

  /** What makes a table work: only the low bits decide what `n` steps do beyond shifting. */
  lemma ShiftsByLowBits(v: nat, n: nat, low: nat, high: nat)
    requires low < Pow2(n) && v == low + Pow2(n) * high
    ensures Shifts(v, n) == Xor(Shifts(low, n), high)
  {
    XorOfParts(low, high, n);
    ShiftsAreLinear(low, Pow2(n) * high, n);
    ShiftsOfHigh(high, n);
  }

  function ShiftDown(b: nat, n: nat): nat { Quotient(b, Pow2(n)) }

  /** One bit fed, and the rest still to add: the register takes both together. */
  lemma OneBitFed(register: nat, b: nat)
    ensures Shift(Xor(register, b)) == Xor(Shift(Xor(register, b % 2)), b / 2)
  {
    hide Xor;
    var rest := b / 2;
    assert Pow2(1) == 2 * Pow2(0) == 2;
    XorOfParts(b % 2, rest, 1);
    XorAssociates(register, b % 2, 2 * rest);
    ShiftIsLinear(Xor(register, b % 2), 2 * rest);
    assert Shift(2 * rest) == rest;
  }

  /** Feeding bits one by one is adding them all first and shifting after. */
  lemma {:induction false} BitsOrWord(register: nat, b: nat, n: nat)
    ensures Xor(FeedBits(register, b, n), ShiftDown(b, n)) == Shifts(Xor(register, b), n)
    decreases n
  {
    hide Xor;
    if n > 0 {
      OneBitFed(register, b);
      BitsOrWord(Shift(Xor(register, b % 2)), b / 2, n - 1);
      DivideTwice(b, Pow2(n - 1));
    }
  }

  lemma DivideTwice(b: nat, p: nat)
    requires p > 0
    ensures (b / 2) / p == b / (2 * p)
  {
    var q, r := (b / 2) / p, (b / 2) % p;
    Divide(b / 2, p);
    var pq := p * q;
    assert b == 2 * pq + (2 * r + b % 2);
    QuotientIs(b, 2 * p, q, 2 * r + b % 2);
  }

  lemma Pow2Of8()
    ensures Pow2(8) == 256
  {
  }

  // --- The code ------------------------------------------------------------------------

  ghost predicate IsTable(table: array<nat>)
    reads table
  {
    table.Length == 256 && forall i | 0 <= i < 256 :: table[i] == Shifts(i, 8)
  }

  lemma {:induction false} ShiftsEnd(v: nat, n: nat)
    ensures Shifts(v, n + 1) == Shift(Shifts(v, n))
    decreases n
  {
    if n > 0 { ShiftsEnd(Shift(v), n - 1); }
  }

  method BuildTable() returns (table: array<nat>)
    ensures fresh(table) && IsTable(table)
  {
    table := new nat[256];
    for index := 0 to 256
      invariant forall i | 0 <= i < index :: table[i] == Shifts(i, 8)
    {
      var value := index;
      for bit := 0 to 8
        invariant value == Shifts(index, bit)
        invariant forall i | 0 <= i < index :: table[i] == Shifts(i, 8)
      {
        ShiftsEnd(index, bit);
        value := if value % 2 == 1 then Xor(POLYNOMIAL, value / 2) else value / 2;
      }
      assert value == Shifts(index, 8);
      table[index] := value;
    }
  }

  lemma TableStep(register: nat, b: Byte)
    ensures FeedBits(register, b, 8) == Xor(Shifts(Xor(register, b) % 256, 8), register / 256)
  {
    hide Xor, Shifts, FeedBits, Pow2;
    var n := 8;
    Pow2Of8();
    BitsOrWord(register, b, n);
    XorZero(FeedBits(register, b, n));
    var mixed := Xor(register, b);
    ShiftsByLowBits(mixed, n, mixed % 256, mixed / 256);
    HighOfXor(register, b, n);
  }

  lemma {:induction false} HighOfXor(a: nat, b: nat, n: nat)
    requires b < Pow2(n)
    ensures Xor(a, b) / Pow2(n) == a / Pow2(n)
    decreases n
  {
    if n > 0 {
      XorHalves(a, b);
      HighOfXor(a / 2, b / 2, n - 1);
      DivideTwice(Xor(a, b), Pow2(n - 1));
      DivideTwice(a, Pow2(n - 1));
    } else {
      XorCommutes(a, b);
    }
  }

  /** The table-driven loop computes the bit-by-bit checksum, for every input. */
  method Compute(table: array<nat>, bytes: seq<Byte>) returns (crc: nat)
    requires IsTable(table)
    ensures crc == Checksum(bytes)
  {
    crc := ALL_ONES;
    for i := 0 to |bytes|
      invariant crc == Feed(ALL_ONES, bytes[..i])
    {
      TableStep(crc, bytes[i]);
      crc := Xor(table[Xor(crc, bytes[i]) % 256], crc / 256);
      assert bytes[..i + 1][..i] == bytes[..i];
    }
    assert bytes[..|bytes|] == bytes;
    crc := Xor(crc, ALL_ONES);
  }

  /** The register stays as wide as it was, if it holds the polynomial. */
  lemma {:induction false} FeedBitsBelow(register: nat, b: nat, n: nat, width: nat)
    requires register < Pow2(width) && POLYNOMIAL < Pow2(width) && width > 0
    ensures FeedBits(register, b, n) < Pow2(width)
    decreases n
  {
    if n > 0 {
      XorBelow(register, b % 2, width);
      var v := Xor(register, b % 2);
      XorBelow(POLYNOMIAL, v / 2, width);
      FeedBitsBelow(Shift(v), b / 2, n - 1, width);
    }
  }

  lemma Pow2Of32(n: nat)
    requires n == 32
    ensures Pow2(n) == 0x1_0000_0000
  {
    assert Pow2(n - 30) == 4;
    assert Pow2(n - 28) == 4 * Pow2(n - 30);
    assert Pow2(n - 26) == 4 * Pow2(n - 28);
    assert Pow2(n - 24) == 4 * Pow2(n - 26);
    assert Pow2(n - 22) == 4 * Pow2(n - 24);
    assert Pow2(n - 20) == 4 * Pow2(n - 22);
    assert Pow2(n - 18) == 4 * Pow2(n - 20);
    assert Pow2(n - 16) == 4 * Pow2(n - 18);
    assert Pow2(n - 14) == 4 * Pow2(n - 16);
    assert Pow2(n - 12) == 4 * Pow2(n - 14);
    assert Pow2(n - 10) == 4 * Pow2(n - 12);
    assert Pow2(n - 8) == 4 * Pow2(n - 10);
    assert Pow2(n - 6) == 4 * Pow2(n - 8);
    assert Pow2(n - 4) == 4 * Pow2(n - 6);
    assert Pow2(n - 2) == 4 * Pow2(n - 4);
  }

  lemma {:induction false} FeedBelow(bytes: seq<Byte>, width: nat)
    requires width > 0 && POLYNOMIAL < Pow2(width) && ALL_ONES < Pow2(width)
    ensures Feed(ALL_ONES, bytes) < Pow2(width)
    decreases |bytes|
  {
    if bytes != [] {
      var last := |bytes| - 1;
      FeedBelow(bytes[..last], width);
      FeedBitsBelow(Feed(ALL_ONES, bytes[..last]), bytes[last], 8, width);
    }
  }

  /** The checksum fits the 32-bit field that carries it. */
  lemma ChecksumFits(bytes: seq<Byte>)
    ensures Checksum(bytes) < 0x1_0000_0000
  {
    var width := 32;
    Pow2Of32(width);
    FeedBelow(bytes, width);
    XorBelow(Feed(ALL_ONES, bytes), ALL_ONES, width);
  }
}
