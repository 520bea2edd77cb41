/**
 The CRC-32 of quality archives (packages/cli/src/optimization/artifact-zip.ts, crc32; section 4.4.7 of PKWARE
 APPNOTE.TXT): the two loops, that every error in one byte is found, the residue every checked content leaves, and the
 standard check value. What needs no bit patterns is proved of any register and any step.
 */
module Checksums {
  type Byte = n: int | 0 <= n < 0x100
  type Bytes = seq<Byte>

  // ---- registers of any kind ----

  function Steps<S>(step: S -> S, v: S, n: nat): S { if n == 0 then v else step(Steps(step, v, n - 1)) }

  function Run<S, B>(items: seq<B>, start: S, take: (S, B) -> S): S {
    if items == [] then start else take(Run(items[..|items| - 1], start, take), items[|items| - 1])
  }

  // An item is mixed into the register, which then makes n steps.
  ghost predicate Takes<S(!new), B(!new)>(take: (S, B) -> S, step: S -> S, xor: (S, S) -> S, low: B -> S, n: nat) {
    forall v: S, x: B :: take(v, x) == Steps(step, xor(v, low(x)), n)
  }

  // ---- CRC-32 ----

  function BitStep(v: bv32): bv32 { (v >> 1) ^ (if v & 1 == 1 then 0xedb88320 else 0) }

  function Xor(v: bv32, w: bv32): bv32 { v ^ w }

  function Halved(x: nat, n: nat): nat { if n == 0 then x else Halved(x, n - 1) / 2 }

  predicate Bit(x: nat, n: nat) { Halved(x, n) % 2 == 1 }

  function Octet(bit: nat -> bool): bv32 {
    (if bit(0) then 0x1 else 0) | (if bit(1) then 0x2 else 0) | (if bit(2) then 0x4 else 0) | (if bit(3) then 0x8 else 0)
    | (if bit(4) then 0x10 else 0) | (if bit(5) then 0x20 else 0) | (if bit(6) then 0x40 else 0) | (if bit(7) then 0x80 else 0)
  }

  function BitsOf(x: nat): nat -> bool { (k: nat) => Bit(x, k) }

  // A byte as the low bits of a register.
  function Low(x: Byte): bv32 { Octet(BitsOf(x)) }

  function ByteStep(v: bv32, x: Byte): bv32 { Steps(BitStep, Xor(v, Low(x)), 8) }

  function Register(bytes: Bytes): bv32 { Run(bytes, 0xffffffff, ByteStep) }

  function Crc(bytes: Bytes): bv32 { Register(bytes) ^ 0xffffffff }

  method Crc32(bytes: Bytes) returns (crc: bv32)
    ensures crc == Crc(bytes)
  {
    var value: bv32 := 0xffffffff;
    for k := 0 to |bytes|
      invariant value == Run(bytes[..k], 0xffffffff, ByteStep)
    {
      RunNext(bytes, k, 0xffffffff, ByteStep);
      value := ShiftByte(value, Low(bytes[k]));
    }
    assert bytes[..|bytes|] == bytes;
    crc := value ^ 0xffffffff;
  }

  method ShiftByte(start: bv32, low: bv32) returns (value: bv32)
    ensures value == Steps(BitStep, Xor(start, low), 8)
  {
    value := start ^ low;
    ghost var mixed := value;
    for bit := 0 to 8
      invariant value == Steps(BitStep, mixed, bit)
    {
      value := (value >> 1) ^ (if value & 1 == 1 then 0xedb88320 else 0);
    }
  }

  // ---- runs ----

  lemma RunNext<S, B>(items: seq<B>, k: nat, start: S, take: (S, B) -> S)
    requires k < |items|
    ensures Run(items[..k + 1], start, take) == take(Run(items[..k], start, take), items[k])
  {
    assert items[..k + 1][..k] == items[..k];
  }

  lemma {:induction false} RunConcat<S, B>(a: seq<B>, b: seq<B>, start: S, take: (S, B) -> S)
    ensures Run(a + b, start, take) == Run(b, Run(a, start, take), take)
  {
    if b == [] {
      assert a + b == a;
    } else {
      assert (a + b)[..|a + b| - 1] == a + b[..|b| - 1];
      RunConcat(a, b[..|b| - 1], start, take);
    }
  }

  lemma RunOfFour<S, B>(items: seq<B>, start: S, take: (S, B) -> S)
    requires |items| == 4
    ensures Run(items, start, take) == take(take(take(take(start, items[0]), items[1]), items[2]), items[3])
  {
    assert items[..4] == items;
    RunNext(items, 0, start, take);
    RunNext(items, 1, start, take);
    RunNext(items, 2, start, take);
    RunNext(items, 3, start, take);
  }

  // ---- one byte is always found ----

  // A step loses neither the register it came from nor the item it took.
  ghost predicate TellsApart<S(!new), B(!new)>(take: (S, B) -> S) {
    && (forall v: S, w: S, x: B :: take(v, x) == take(w, x) ==> v == w)
    && (forall v: S, x: B, y: B :: take(v, x) == take(v, y) ==> x == y)
  }

  ghost predicate Injective<A(!new), B(!new)>(f: A -> B) { forall x: A, y: A :: f(x) == f(y) ==> x == y }

  // Mixing loses neither side.
  ghost predicate Cancels<S(!new)>(xor: (S, S) -> S) {
    && (forall v: S, w: S, x: S :: xor(v, x) == xor(w, x) ==> v == w)
    && (forall v: S, x: S, y: S :: xor(v, x) == xor(v, y) ==> x == y)
  }

  lemma {:induction false} StepsInjective<S(!new)>(step: S -> S, v: S, w: S, n: nat)
    requires Injective(step) && Steps(step, v, n) == Steps(step, w, n)
    ensures v == w
  {
    if n > 0 {
      StepsInjective(step, v, w, n - 1);
    }
  }

  lemma TakingTellsApart<S(!new), B(!new)>(take: (S, B) -> S, step: S -> S, xor: (S, S) -> S, low: B -> S, n: nat)
    requires Takes(take, step, xor, low, n) && Injective(step) && Cancels(xor) && Injective(low)
    ensures TellsApart(take)
  {
    forall v: S, w: S, x: B | take(v, x) == take(w, x) ensures v == w {
      StepsInjective(step, xor(v, low(x)), xor(w, low(x)), n);
    }
    forall v: S, x: B, y: B | take(v, x) == take(v, y) ensures x == y {
      StepsInjective(step, xor(v, low(x)), xor(v, low(y)), n);
      assert low(x) == low(y);
    }
  }

  // Once apart, registers stay apart over equal items.
  lemma {:induction false} RunsStayApart<S(!new), B(!new)>(items: seq<B>, v: S, w: S, take: (S, B) -> S)
    requires TellsApart(take) && v != w
    ensures Run(items, v, take) != Run(items, w, take)
  {
    if items != [] {
      RunsStayApart(items[..|items| - 1], v, w, take);
    }
  }

  lemma RunsApart<S(!new), B(!new)>(before: seq<B>, x: B, y: B, after: seq<B>, start: S, take: (S, B) -> S)
    requires TellsApart(take) && x != y
    ensures Run(before + [x] + after, start, take) != Run(before + [y] + after, start, take)
  {
    RunConcat(before + [x], after, start, take);
    RunConcat(before + [y], after, start, take);
    assert (before + [x])[..|before|] == before == (before + [y])[..|before|];
    RunsStayApart(after, Run(before + [x], start, take), Run(before + [y], start, take), take);
  }

  lemma BitStepApart(v: bv32, w: bv32)
    requires BitStep(v) == BitStep(w)
    ensures v == w
  {
  }

  lemma BitStepInjective()
    ensures Injective(BitStep)
  {
    forall v: bv32, w: bv32 | BitStep(v) == BitStep(w) ensures v == w {
      BitStepApart(v, w);
    }
  }

  lemma XorKeepsLeft(v: bv32, w: bv32, x: bv32)
    requires v ^ x == w ^ x
    ensures v == w
  {
  }

  lemma XorKeepsRight(v: bv32, x: bv32, y: bv32)
    requires v ^ x == v ^ y
    ensures x == y
  {
  }

  lemma XorCancels()
    ensures Cancels(Xor)
  {
    forall v: bv32, w: bv32, x: bv32 | Xor(v, x) == Xor(w, x) ensures v == w {
      XorKeepsLeft(v, w, x);
    }
    forall v: bv32, x: bv32, y: bv32 | Xor(v, x) == Xor(v, y) ensures x == y {
      XorKeepsRight(v, x, y);
    }
  }

  lemma OctetInjective(b: nat -> bool, c: nat -> bool)
    requires Octet(b) == Octet(c)
    ensures forall k :: 0 <= k < 8 ==> b(k) == c(k)
  {
  }

  lemma HalfBelow(x: nat, n: nat, bound: nat)
    requires Halved(x, n) < 2 * bound
    ensures Halved(x, n + 1) < bound
  {
  }

  lemma SevenBits(x: nat)
    requires x < 0x80
    ensures Halved(x, 7) == 0
  {
    HalfBelow(x, 0, 0x40);
    HalfBelow(x, 1, 0x20);
    HalfBelow(x, 2, 0x10);
    HalfBelow(x, 3, 8);
    HalfBelow(x, 4, 4);
    HalfBelow(x, 5, 2);
    HalfBelow(x, 6, 1);
  }

  lemma NothingLeft(x: nat)
    requires x < 0x100
    ensures Halved(x, 8) == 0
  {
    HalfBelow(x, 0, 0x80);
    HalfBelow(x, 1, 0x40);
    HalfBelow(x, 2, 0x20);
    HalfBelow(x, 3, 0x10);
    HalfBelow(x, 4, 8);
    HalfBelow(x, 5, 4);
    HalfBelow(x, 6, 2);
    HalfBelow(x, 7, 1);
  }

  lemma {:induction false} SameBits(x: nat, y: nat, n: nat)
    requires Halved(x, n) == Halved(y, n) && forall k :: 0 <= k < n ==> Bit(x, k) == Bit(y, k)
    ensures x == y
  {
    if n > 0 {
      assert Bit(x, n - 1) == Bit(y, n - 1);
      SameBits(x, y, n - 1);
    }
  }

  lemma SameLow(x: Byte, y: Byte)
    requires forall k :: 0 <= k < 8 ==> BitsOf(x)(k) == BitsOf(y)(k)
    ensures x == y
  {
    NothingLeft(x);
    NothingLeft(y);
    assert forall k :: 0 <= k < 8 ==> BitsOf(x)(k) == Bit(x, k) && BitsOf(y)(k) == Bit(y, k);
    SameBits(x, y, 8);
  }

  lemma LowInjective()
    ensures Injective(Low)
  {
    forall x: Byte, y: Byte | Low(x) == Low(y) ensures x == y {
      OctetInjective(BitsOf(x), BitsOf(y));
      SameLow(x, y);
    }
  }

  lemma ComplementApart(v: bv32, w: bv32)
    requires v != w
    ensures v ^ 0xffffffff != w ^ 0xffffffff
  {
  }

  lemma ByteStepTakes()
    ensures Takes(ByteStep, BitStep, Xor, Low, 8)
  {
  }

  lemma ByteStepTellsApart()
    ensures TellsApart(ByteStep)
  {
    BitStepInjective();
    XorCancels();
    LowInjective();
    ByteStepTakes();
    TakingTellsApart(ByteStep, BitStep, Xor, Low, 8);
  }

  // The checksum tells every two contents apart that differ in a single byte.
  lemma SingleByteDetected(before: Bytes, x: Byte, y: Byte, after: Bytes)
    requires x != y
    ensures Crc(before + [x] + after) != Crc(before + [y] + after)
  {
    ByteStepTellsApart();
    RunsApart(before, x, y, after, 0xffffffff, ByteStep);
    ComplementApart(Register(before + [x] + after), Register(before + [y] + after));
  }

  // ---- bytes in binary ----

  lemma {:induction false} HalvedDoubled(x: nat, d: nat, n: nat)
    requires d < 2
    ensures Halved(2 * x + d, n + 1) == Halved(x, n)
  {
    if n > 0 {
      HalvedDoubled(x, d, n - 1);
    }
  }

  lemma OctetDoubled(b: nat -> bool, c: nat -> bool)
    requires !b(7) && forall k :: 0 <= k < 7 ==> c(k + 1) == b(k)
    ensures Octet(c) == (Octet(b) << 1) | (if c(0) then 1 else 0)
  {
    assert c(1) == b(0) && c(2) == b(1) && c(3) == b(2) && c(4) == b(3) && c(5) == b(4) && c(6) == b(5) && c(7) == b(6);
  }

  lemma BitsDoubled(x: nat, d: nat)
    requires x < 0x80 && d < 2
    ensures !BitsOf(x)(7) && BitsOf(2 * x + d)(0) == (d == 1)
    ensures forall k :: 0 <= k < 7 ==> BitsOf(2 * x + d)(k + 1) == BitsOf(x)(k)
  {
    SevenBits(x);
    assert BitsOf(x)(7) == Bit(x, 7) && BitsOf(2 * x + d)(0) == Bit(2 * x + d, 0);
    forall k | 0 <= k < 7 ensures BitsOf(2 * x + d)(k + 1) == BitsOf(x)(k) {
      HalvedDoubled(x, d, k);
    }
  }

  // The low bits are the byte in binary: doubling shifts, and zero (LowOfZero) is zero.
  lemma LowIsBinary(x: nat, d: nat)
    requires x < 0x80 && d < 2
    ensures Low(2 * x + d) == (Low(x) << 1) | (if d == 1 then 1 else 0)
  {
    BitsDoubled(x, d);
    OctetDoubled(BitsOf(x), BitsOf(2 * x + d));
  }

  lemma {:induction false} ZeroHalved(n: nat)
    ensures Halved(0, n) == 0
  {
    if n > 0 {
      ZeroHalved(n - 1);
    }
  }

  lemma OctetOfNothing(b: nat -> bool)
    requires forall k :: 0 <= k < 8 ==> !b(k)
    ensures Octet(b) == 0
  {
  }

  lemma LowOfZero()
    ensures Low(0) == 0
  {
    forall k | 0 <= k < 8 ensures !BitsOf(0)(k) {
      ZeroHalved(k);
    }
    OctetOfNothing(BitsOf(0));
  }

  // ---- the bytes of a checksum ----

  predicate BitAt(v: bv32, k: nat) { if k == 0 then v & 1 == 1 else BitAt(v >> 1, k - 1) }

  function BitsAt(v: bv32): nat -> bool { (k: nat) => BitAt(v, k) }

  // The number with these n bits, the lowest first.
  function Number(bit: nat -> bool, i: nat, n: nat): nat
    decreases n
  {
    if n == 0 then 0 else 2 * Number(bit, i + 1, n - 1) + if bit(i) then 1 else 0
  }

  lemma NumberBelow(bit: nat -> bool, i: nat, n: nat, bound: nat)
    requires n > 0 && Number(bit, i + 1, n - 1) < bound
    ensures Number(bit, i, n) < 2 * bound
  {
  }

  lemma EightBitsFit(bit: nat -> bool)
    ensures Number(bit, 0, 8) < 0x100
  {
    NumberBelow(bit, 7, 1, 1);
    NumberBelow(bit, 6, 2, 2);
    NumberBelow(bit, 5, 3, 4);
    NumberBelow(bit, 4, 4, 8);
    NumberBelow(bit, 3, 5, 0x10);
    NumberBelow(bit, 2, 6, 0x20);
    NumberBelow(bit, 1, 7, 0x40);
    NumberBelow(bit, 0, 8, 0x80);
  }

  function ByteOf(bit: nat -> bool): Byte {
    EightBitsFit(bit);
    Number(bit, 0, 8)
  }

  lemma OddDoubled(m: nat, d: nat)
    requires d < 2
    ensures Bit(2 * m + d, 0) <==> d == 1
  {
  }

  lemma {:induction false} NumberBits(bit: nat -> bool, i: nat, n: nat, k: nat)
    requires k < n
    ensures Bit(Number(bit, i, n), k) <==> bit(i + k)
    decreases n
  {
    var d := if bit(i) then 1 else 0;
    assert Number(bit, i, n) == 2 * Number(bit, i + 1, n - 1) + d;
    if k == 0 {
      OddDoubled(Number(bit, i + 1, n - 1), d);
    } else {
      HalvedDoubled(Number(bit, i + 1, n - 1), d, k - 1);
      NumberBits(bit, i + 1, n - 1, k - 1);
    }
  }

  lemma LowMasks(v: bv32)
    ensures BitAt(v, 0) == (v & 1 == 1) && BitAt(v, 1) == (v & 2 == 2) && BitAt(v, 2) == (v & 4 == 4) && BitAt(v, 3) == (v & 8 == 8)
  {
    assert BitAt(v, 1) == BitAt(v >> 1, 0);
    assert BitAt(v, 2) == BitAt(v >> 1, 1) == BitAt(v >> 1 >> 1, 0);
    assert BitAt(v, 3) == BitAt(v >> 1, 2) == BitAt(v >> 1 >> 1, 1) == BitAt(v >> 1 >> 1 >> 1, 0);
  }

  lemma FourBitsOn(v: bv32, k: nat)
    ensures BitAt(v, k + 4) == BitAt(v >> 4, k)
  {
    assert BitAt(v, k + 4) == BitAt(v >> 1, k + 3) == BitAt(v >> 1 >> 1, k + 2) == BitAt(v >> 1 >> 1 >> 1, k + 1)
           == BitAt(v >> 1 >> 1 >> 1 >> 1, k);
    assert v >> 1 >> 1 >> 1 >> 1 == v >> 4;
  }

  lemma ShiftedMasks(v: bv32)
    ensures ((v >> 4) & 1 == 1) == (v & 0x10 == 0x10) && ((v >> 4) & 2 == 2) == (v & 0x20 == 0x20)
    ensures ((v >> 4) & 4 == 4) == (v & 0x40 == 0x40) && ((v >> 4) & 8 == 8) == (v & 0x80 == 0x80)
  {
  }

  lemma HighMasks(v: bv32)
    ensures BitAt(v, 4) == (v & 0x10 == 0x10) && BitAt(v, 5) == (v & 0x20 == 0x20)
    ensures BitAt(v, 6) == (v & 0x40 == 0x40) && BitAt(v, 7) == (v & 0x80 == 0x80)
  {
    FourBitsOn(v, 0);
    FourBitsOn(v, 1);
    FourBitsOn(v, 2);
    FourBitsOn(v, 3);
    LowMasks(v >> 4);
    ShiftedMasks(v);
  }

  lemma OctetOfMasks(b: nat -> bool, v: bv32)
    requires b(0) == (v & 1 == 1) && b(1) == (v & 2 == 2) && b(2) == (v & 4 == 4) && b(3) == (v & 8 == 8)
    requires b(4) == (v & 0x10 == 0x10) && b(5) == (v & 0x20 == 0x20) && b(6) == (v & 0x40 == 0x40) && b(7) == (v & 0x80 == 0x80)
    ensures Octet(b) == v & 0xff
  {
  }

  lemma ByteBits(bit: nat -> bool, k: nat)
    requires k < 8
    ensures BitsOf(ByteOf(bit))(k) == bit(k)
  {
    NumberBits(bit, 0, 8, k);
  }

  // A byte read back into a register is the low byte it was taken from.
  lemma LowOfByte(v: bv32)
    ensures Low(ByteOf(BitsAt(v))) == v & 0xff
  {
    forall k | 0 <= k < 8 ensures BitsOf(ByteOf(BitsAt(v)))(k) == BitAt(v, k) {
      ByteBits(BitsAt(v), k);
    }
    LowMasks(v);
    HighMasks(v);
    OctetOfMasks(BitsOf(ByteOf(BitsAt(v))), v);
  }

  function ByteIn(v: bv32): Byte { ByteOf(BitsAt(v)) }

  function LowByte(v: bv32): bv32 { v & 0xff }

  // The register from its k-th byte on.
  function Part(v: bv32, k: nat): bv32 { if k == 0 then v else if k == 1 then v >> 8 else if k == 2 then v >> 16 else v >> 24 }

  // A checksum's bytes, lowest first.
  function CrcBytes(crc: bv32): (r: Bytes)
    ensures |r| == 4
  {
    [ByteIn(Part(crc, 0)), ByteIn(Part(crc, 1)), ByteIn(Part(crc, 2)), ByteIn(Part(crc, 3))]
  }

  // The bytes of a checksum read back.
  lemma PartsRead(v: bv32, bytes: Bytes)
    requires bytes == CrcBytes(v)
    ensures |bytes| == 4 && Low(bytes[0]) == v & 0xff && Low(bytes[1]) == (v >> 8) & 0xff
    ensures Low(bytes[2]) == (v >> 16) & 0xff && Low(bytes[3]) == (v >> 24) & 0xff
  {
    LowOfByte(v);
    LowOfByte(v >> 8);
    LowOfByte(v >> 16);
    LowOfByte(v >> 24);
  }

  lemma Rejoined(v: bv32, a: bv32, b: bv32, c: bv32, d: bv32)
    requires v & 0xff == a && (v >> 8) & 0xff == b && (v >> 16) & 0xff == c && (v >> 24) & 0xff == d
    ensures a | (b << 8) | (c << 16) | (d << 24) == v
  {
  }

  lemma FourBytesApart(v: bv32, w: bv32, a: bv32, b: bv32, c: bv32, d: bv32)
    requires v & 0xff == a && (v >> 8) & 0xff == b && (v >> 16) & 0xff == c && (v >> 24) & 0xff == d
    requires w & 0xff == a && (w >> 8) & 0xff == b && (w >> 16) & 0xff == c && (w >> 24) & 0xff == d
    ensures v == w
  {
    Rejoined(v, a, b, c, d);
    Rejoined(w, a, b, c, d);
  }

  // Of any reading of bytes: one that reads the same four bytes back from both.
  lemma SameParts(low: Byte -> bv32, bytes: Bytes, v: bv32, w: bv32)
    requires |bytes| == 4
    requires v & 0xff == low(bytes[0]) && (v >> 8) & 0xff == low(bytes[1]) && (v >> 16) & 0xff == low(bytes[2]) && (v >> 24) & 0xff == low(bytes[3])
    requires w & 0xff == low(bytes[0]) && (w >> 8) & 0xff == low(bytes[1]) && (w >> 16) & 0xff == low(bytes[2]) && (w >> 24) & 0xff == low(bytes[3])
    ensures v == w
  {
    FourBytesApart(v, w, low(bytes[0]), low(bytes[1]), low(bytes[2]), low(bytes[3]));
  }

  // A checksum field holds one checksum only.
  lemma FieldHoldsOne(bytes: Bytes, v: bv32, w: bv32)
    requires bytes == CrcBytes(v) && bytes == CrcBytes(w)
    ensures v == w
  {
    PartsRead(v, bytes);
    PartsRead(w, bytes);
    SameParts(Low, bytes, v, w);
  }

  // ---- the residue, of any linear register ----

  ghost predicate Linear<S(!new)>(step: S -> S, xor: (S, S) -> S) { forall a: S, b: S :: step(xor(a, b)) == xor(step(a), step(b)) }

  lemma {:induction false} StepsLinear<S(!new)>(step: S -> S, xor: (S, S) -> S, a: S, b: S, n: nat)
    requires Linear(step, xor)
    ensures Steps(step, xor(a, b), n) == xor(Steps(step, a, n), Steps(step, b, n))
  {
    if n > 0 {
      StepsLinear(step, xor, a, b, n - 1);
    }
  }

  // A register, up to a constant, that takes in its own complement's low part leaves the part that is not low and ones.
  ghost predicate Splits<S(!new)>(xor: (S, S) -> S, high: S -> S, complement: S -> S, ones: S) {
    forall v: S, c: S :: xor(xor(v, c), complement(v)) == xor(high(v), xor(c, ones))
  }

  // The part that is not low is shifted down by n steps.
  ghost predicate ShiftsDown<S(!new)>(step: S -> S, high: S -> S, down: S -> S, n: nat) {
    forall v: S :: Steps(step, high(v), n) == down(v)
  }

  ghost predicate Residual<S(!new)>(step: S -> S, xor: (S, S) -> S, high: S -> S, complement: S -> S, down: S -> S, ones: S, n: nat) {
    Linear(step, xor) && Splits(xor, high, complement, ones) && ShiftsDown(step, high, down, n)
  }

  lemma OneRound<S(!new)>(step: S -> S, xor: (S, S) -> S, high: S -> S, complement: S -> S, down: S -> S, ones: S, n: nat, v: S, c: S, k: S)
    requires Residual(step, xor, high, complement, down, ones, n) && Steps(step, xor(c, ones), n) == k
    ensures Steps(step, xor(xor(v, c), complement(v)), n) == xor(down(v), k)
  {
    StepsLinear(step, xor, high(v), xor(c, ones), n);
  }

  // Four rounds leave the last constant, whatever the register was.
  lemma FourRounds<S(!new)>(step: S -> S, xor: (S, S) -> S, high: S -> S, complement: S -> S, down: S -> S, ones: S, n: nat,
                            zero: S, k1: S, k2: S, k3: S, k4: S, v: S, a: S, b: S, c: S, d: S)
    requires Residual(step, xor, high, complement, down, ones, n)
    requires Steps(step, xor(zero, ones), n) == k1 && Steps(step, xor(k1, ones), n) == k2
    requires Steps(step, xor(k2, ones), n) == k3 && Steps(step, xor(k3, ones), n) == k4
    requires xor(v, zero) == v && down(down(down(down(v)))) == zero && xor(zero, k4) == k4
    requires a == complement(v) && b == complement(down(v)) && c == complement(down(down(v))) && d == complement(down(down(down(v))))
    ensures Steps(step, xor(Steps(step, xor(Steps(step, xor(Steps(step, xor(v, a), n), b), n), c), n), d), n) == k4
  {
    OneRound(step, xor, high, complement, down, ones, n, v, zero, k1);
    OneRound(step, xor, high, complement, down, ones, n, down(v), k1, k2);
    OneRound(step, xor, high, complement, down, ones, n, down(down(v)), k2, k3);
    OneRound(step, xor, high, complement, down, ones, n, down(down(down(v))), k3, k4);
  }

  // ---- the residue of CRC-32 ----

  lemma BothOdd(a: bv32, b: bv32)
    requires a & 1 == 1 && b & 1 == 1
    ensures BitStep(a ^ b) == BitStep(a) ^ BitStep(b)
  {
  }

  lemma NoneOdd(a: bv32, b: bv32)
    requires a & 1 == 0 && b & 1 == 0
    ensures BitStep(a ^ b) == BitStep(a) ^ BitStep(b)
  {
  }

  lemma LeftOdd(a: bv32, b: bv32)
    requires a & 1 == 1 && b & 1 == 0
    ensures BitStep(a ^ b) == BitStep(a) ^ BitStep(b)
  {
  }

  lemma RightOdd(a: bv32, b: bv32)
    requires a & 1 == 0 && b & 1 == 1
    ensures BitStep(a ^ b) == BitStep(a) ^ BitStep(b)
  {
  }

  lemma OddOrEven(a: bv32)
    ensures a & 1 == 1 || a & 1 == 0
  {
  }

  lemma StepLinear(a: bv32, b: bv32)
    ensures BitStep(a ^ b) == BitStep(a) ^ BitStep(b)
  {
    OddOrEven(a);
    OddOrEven(b);
    if a & 1 == 1 && b & 1 == 1 {
      BothOdd(a, b);
    } else if a & 1 == 1 {
      LeftOdd(a, b);
    } else if b & 1 == 1 {
      RightOdd(a, b);
    } else {
      NoneOdd(a, b);
    }
  }

  lemma BitStepLinear()
    ensures Linear(BitStep, Xor)
  {
    forall a: bv32, b: bv32 ensures BitStep(Xor(a, b)) == Xor(BitStep(a), BitStep(b)) {
      StepLinear(a, b);
    }
  }

  function High(v: bv32): bv32 { v & 0xffffff00 }

  function ComplementLow(v: bv32): bv32 { (v ^ 0xffffffff) & 0xff }

  function Down(v: bv32): bv32 { v >> 8 }

  lemma SplitAt(v: bv32, c: bv32)
    ensures (v ^ c) ^ ((v ^ 0xffffffff) & 0xff) == (v & 0xffffff00) ^ (c ^ 0xff)
  {
  }

  lemma BitsSplit()
    ensures Splits(Xor, High, ComplementLow, 0xff)
  {
    forall v: bv32, c: bv32 ensures Xor(Xor(v, c), ComplementLow(v)) == Xor(High(v), Xor(c, 0xff)) {
      SplitAt(v, c);
    }
  }

  lemma OneMoreStep<S>(step: S -> S, v: S, n: nat, s: S, t: S)
    requires Steps(step, v, n) == s && step(s) == t
    ensures Steps(step, v, n + 1) == t
  {
  }

  lemma EightSteps<S>(step: S -> S, x: S, a: S, b: S, c: S, d: S, e: S, f: S, g: S, h: S)
    requires step(x) == a && step(a) == b && step(b) == c && step(c) == d
    requires step(d) == e && step(e) == f && step(f) == g && step(g) == h
    ensures Steps(step, x, 8) == h
  {
    assert Steps(step, x, 0) == x;
    OneMoreStep(step, x, 0, x, a);
    OneMoreStep(step, x, 1, a, b);
    OneMoreStep(step, x, 2, b, c);
    OneMoreStep(step, x, 3, c, d);
    OneMoreStep(step, x, 4, d, e);
    OneMoreStep(step, x, 5, e, f);
    OneMoreStep(step, x, 6, f, g);
    OneMoreStep(step, x, 7, g, h);
  }

  lemma ShiftsDown0(x: bv32)
    ensures BitStep(x & 0xffffff00) == (x & 0xffffff00) >> 1
  {
  }

  lemma ShiftsDown1(x: bv32)
    ensures BitStep((x & 0xffffff00) >> 1) == (x & 0xffffff00) >> 2
  {
  }

  lemma ShiftsDown2(x: bv32)
    ensures BitStep((x & 0xffffff00) >> 2) == (x & 0xffffff00) >> 3
  {
  }

  lemma ShiftsDown3(x: bv32)
    ensures BitStep((x & 0xffffff00) >> 3) == (x & 0xffffff00) >> 4
  {
  }

  lemma ShiftsDown4(x: bv32)
    ensures BitStep((x & 0xffffff00) >> 4) == (x & 0xffffff00) >> 5
  {
  }

  lemma ShiftsDown5(x: bv32)
    ensures BitStep((x & 0xffffff00) >> 5) == (x & 0xffffff00) >> 6
  {
  }

  lemma ShiftsDown6(x: bv32)
    ensures BitStep((x & 0xffffff00) >> 6) == (x & 0xffffff00) >> 7
  {
  }

  lemma ShiftsDown7(x: bv32)
    ensures BitStep((x & 0xffffff00) >> 7) == (x & 0xffffff00) >> 8
  {
  }

  lemma HighThenDown(x: bv32)
    ensures (x & 0xffffff00) >> 8 == x >> 8
  {
  }

  lemma HighShiftsDown(x: bv32)
    ensures Steps(BitStep, High(x), 8) == Down(x)
  {
    ShiftsDown0(x);
    ShiftsDown1(x);
    ShiftsDown2(x);
    ShiftsDown3(x);
    ShiftsDown4(x);
    ShiftsDown5(x);
    ShiftsDown6(x);
    ShiftsDown7(x);
    HighThenDown(x);
    EightSteps(BitStep, x & 0xffffff00, (x & 0xffffff00) >> 1, (x & 0xffffff00) >> 2, (x & 0xffffff00) >> 3, (x & 0xffffff00) >> 4, (x & 0xffffff00) >> 5, (x & 0xffffff00) >> 6, (x & 0xffffff00) >> 7, (x & 0xffffff00) >> 8);
  }

  lemma BitsShiftDown()
    ensures ShiftsDown(BitStep, High, Down, 8)
  {
    forall v: bv32 ensures Steps(BitStep, High(v), 8) == Down(v) {
      HighShiftsDown(v);
    }
  }

  lemma FirstConstant()
    ensures Steps(BitStep, 0x000000ff, 8) == 0x2d02ef8d
  {
    EightSteps(BitStep, 0x000000ff, 0xedb8835f, 0x9b64c28f, 0xa00ae267, 0xbdbdf213, 0xb3667a29, 0xb40bbe34, 0x5a05df1a, 0x2d02ef8d);
  }

  lemma SecondConstant()
    ensures Steps(BitStep, 0x2d02ef72, 8) == 0xbe2612ff
  {
    EightSteps(BitStep, 0x2d02ef72, 0x168177b9, 0xe6f838fc, 0x737c1c7e, 0x39be0e3f, 0xf167843f, 0x950b413f, 0xa73d23bf, 0xbe2612ff);
  }

  lemma ThirdConstant()
    ensures Steps(BitStep, 0xbe261200, 8) == 0x00be2612
  {
    EightSteps(BitStep, 0xbe261200, 0x5f130900, 0x2f898480, 0x17c4c240, 0x0be26120, 0x05f13090, 0x02f89848, 0x017c4c24, 0x00be2612);
  }

  lemma LastConstant()
    ensures Steps(BitStep, 0x00be26ed, 8) == 0xdebb20e3
  {
    EightSteps(BitStep, 0x00be26ed, 0xede79056, 0x76f3c82b, 0xd6c16735, 0x86d830ba, 0x436c185d, 0xcc0e8f0e, 0x66074787, 0xdebb20e3);
  }

  lemma Constants()
    ensures Steps(BitStep, Xor(0, 0xff), 8) == 0x2d02ef8d && Steps(BitStep, Xor(0x2d02ef8d, 0xff), 8) == 0xbe2612ff
    ensures Steps(BitStep, Xor(0xbe2612ff, 0xff), 8) == 0x00be2612 && Steps(BitStep, Xor(0x00be2612, 0xff), 8) == 0xdebb20e3
  {
    ConstantsMixed();
    FirstConstant();
    SecondConstant();
    ThirdConstant();
    LastConstant();
  }

  lemma ConstantsMixed()
    ensures Xor(0, 0xff) == 0x000000ff && Xor(0x2d02ef8d, 0xff) == 0x2d02ef72
    ensures Xor(0xbe2612ff, 0xff) == 0xbe261200 && Xor(0x00be2612, 0xff) == 0x00be26ed
  {
  }

  lemma ZeroLaws(v: bv32)
    ensures Xor(v, 0) == v && Xor(0, 0xdebb20e3) == 0xdebb20e3 && Down(Down(Down(Down(v)))) == 0
  {
  }

  lemma ComplementShifts(v: bv32)
    ensures ((v ^ 0xffffffff) >> 8) & 0xff == ComplementLow(Down(v))
    ensures ((v ^ 0xffffffff) >> 16) & 0xff == ComplementLow(Down(Down(v)))
    ensures ((v ^ 0xffffffff) >> 24) & 0xff == ComplementLow(Down(Down(Down(v))))
  {
  }

  // The bytes of a checksum, as they enter the register.
  lemma ChecksumBytes(v: bv32)
    ensures var bytes := CrcBytes(v ^ 0xffffffff);
            && Low(bytes[0]) == ComplementLow(v) && Low(bytes[1]) == ComplementLow(Down(v))
            && Low(bytes[2]) == ComplementLow(Down(Down(v))) && Low(bytes[3]) == ComplementLow(Down(Down(Down(v))))
  {
    LowOfByte(v ^ 0xffffffff);
    LowOfByte((v ^ 0xffffffff) >> 8);
    LowOfByte((v ^ 0xffffffff) >> 16);
    LowOfByte((v ^ 0xffffffff) >> 24);
    ComplementShifts(v);
  }

  lemma BitsResidual()
    ensures Residual(BitStep, Xor, High, ComplementLow, Down, 0xff, 8)
  {
    BitStepLinear();
    BitsSplit();
    BitsShiftDown();
  }

  lemma BitsFourRounds(v: bv32, a: bv32, b: bv32, c: bv32, d: bv32)
    requires a == ComplementLow(v) && b == ComplementLow(Down(v)) && c == ComplementLow(Down(Down(v))) && d == ComplementLow(Down(Down(Down(v))))
    ensures Steps(BitStep, Xor(Steps(BitStep, Xor(Steps(BitStep, Xor(Steps(BitStep, Xor(v, a), 8), b), 8), c), 8), d), 8) == 0xdebb20e3
  {
    BitsResidual();
    Constants();
    ZeroLaws(v);
    FourRounds(BitStep, Xor, High, ComplementLow, Down, 0xff, 8, 0, 0x2d02ef8d, 0xbe2612ff, 0x00be2612, 0xdebb20e3, v, a, b, c, d);
  }

  lemma ChecksumTaken(v: bv32, bytes: Bytes)
    requires bytes == CrcBytes(v ^ 0xffffffff)
    ensures Run(bytes, v, ByteStep) == 0xdebb20e3
  {
    ChecksumBytes(v);
    RunOfFour(bytes, v, ByteStep);
    BitsFourRounds(v, Low(bytes[0]), Low(bytes[1]), Low(bytes[2]), Low(bytes[3]));
  }

  // Whatever the content, the register that has taken in content and checksum holds the same residue.
  lemma ResidueIsConstant(content: Bytes)
    ensures Register(content + CrcBytes(Crc(content))) == 0xdebb20e3
  {
    var bytes := CrcBytes(Crc(content));
    RunConcat(content, bytes, 0xffffffff, ByteStep);
    ChecksumTaken(Register(content), bytes);
  }

  // ---- the check value ----

  const DIGITS: Bytes := [0x31, 0x32, 0x33, 0x34, 0x35, 0x36, 0x37, 0x38, 0x39]

  lemma BitValues(x: nat, a: nat, b: nat, c: nat, d: nat, e: nat, f: nat, g: nat)
    requires a == x / 2 && b == a / 2 && c == b / 2 && d == c / 2 && e == d / 2 && f == e / 2 && g == f / 2
    ensures Bit(x, 0) == (x % 2 == 1) && Bit(x, 1) == (a % 2 == 1) && Bit(x, 2) == (b % 2 == 1) && Bit(x, 3) == (c % 2 == 1)
    ensures Bit(x, 4) == (d % 2 == 1) && Bit(x, 5) == (e % 2 == 1) && Bit(x, 6) == (f % 2 == 1) && Bit(x, 7) == (g % 2 == 1)
  {
    assert Halved(x, 1) == a && Halved(x, 2) == b && Halved(x, 3) == c && Halved(x, 4) == d;
    assert Halved(x, 5) == e && Halved(x, 6) == f && Halved(x, 7) == g;
  }

  lemma LowOf31()
    ensures Low(0x31) == 0x31
  {
    BitValues(0x31, 0x18, 0xc, 0x6, 0x3, 0x1, 0x0, 0x0);
    OctetOfMasks(BitsOf(0x31), 0x31);
  }

  lemma LowOf32()
    ensures Low(0x32) == 0x32
  {
    BitValues(0x32, 0x19, 0xc, 0x6, 0x3, 0x1, 0x0, 0x0);
    OctetOfMasks(BitsOf(0x32), 0x32);
  }

  lemma LowOf33()
    ensures Low(0x33) == 0x33
  {
    BitValues(0x33, 0x19, 0xc, 0x6, 0x3, 0x1, 0x0, 0x0);
    OctetOfMasks(BitsOf(0x33), 0x33);
  }

  lemma LowOf34()
    ensures Low(0x34) == 0x34
  {
    BitValues(0x34, 0x1a, 0xd, 0x6, 0x3, 0x1, 0x0, 0x0);
    OctetOfMasks(BitsOf(0x34), 0x34);
  }

  lemma LowOf35()
    ensures Low(0x35) == 0x35
  {
    BitValues(0x35, 0x1a, 0xd, 0x6, 0x3, 0x1, 0x0, 0x0);
    OctetOfMasks(BitsOf(0x35), 0x35);
  }

  lemma LowOf36()
    ensures Low(0x36) == 0x36
  {
    BitValues(0x36, 0x1b, 0xd, 0x6, 0x3, 0x1, 0x0, 0x0);
    OctetOfMasks(BitsOf(0x36), 0x36);
  }

  lemma LowOf37()
    ensures Low(0x37) == 0x37
  {
    BitValues(0x37, 0x1b, 0xd, 0x6, 0x3, 0x1, 0x0, 0x0);
    OctetOfMasks(BitsOf(0x37), 0x37);
  }

  lemma LowOf38()
    ensures Low(0x38) == 0x38
  {
    BitValues(0x38, 0x1c, 0xe, 0x7, 0x3, 0x1, 0x0, 0x0);
    OctetOfMasks(BitsOf(0x38), 0x38);
  }

  lemma LowOf39()
    ensures Low(0x39) == 0x39
  {
    BitValues(0x39, 0x1c, 0xe, 0x7, 0x3, 0x1, 0x0, 0x0);
    OctetOfMasks(BitsOf(0x39), 0x39);
  }

  lemma FirstDigit()
    ensures Steps(BitStep, 0xffffffce, 8) == 0x7c231048
  {
    EightSteps(BitStep, 0xffffffce, 0x7fffffe7, 0xd2477cd3, 0x849b3d49, 0xaff51d84, 0x57fa8ec2, 0x2bfd4761, 0xf8462090, 0x7c231048);
  }

  lemma SecondDigit()
    ensures Steps(BitStep, 0x7c23107a, 8) == 0xb0acbb32
  {
    EightSteps(BitStep, 0x7c23107a, 0x3e11883d, 0xf2b0473e, 0x7958239f, 0xd11492ef, 0x8532ca57, 0xaf21e60b, 0xba287025, 0xb0acbb32);
  }

  lemma ThirdDigit()
    ensures Steps(BitStep, 0xb0acbb01, 8) == 0x77b79c2d
  {
    EightSteps(BitStep, 0xb0acbb01, 0xb5eedea0, 0x5af76f50, 0x2d7bb7a8, 0x16bddbd4, 0x0b5eedea, 0x05af76f5, 0xef6f385a, 0x77b79c2d);
  }

  lemma FourthDigit()
    ensures Steps(BitStep, 0x77b79c19, 8) == 0x641c1f5c
  {
    EightSteps(BitStep, 0x77b79c19, 0xd6634d2c, 0x6b31a696, 0x3598d34b, 0xf774ea85, 0x9602f662, 0x4b017b31, 0xc8383eb8, 0x641c1f5c);
  }

  lemma FifthDigit()
    ensures Steps(BitStep, 0x641c1f69, 8) == 0x340ac5e3
  {
    EightSteps(BitStep, 0x641c1f69, 0xdfb68c94, 0x6fdb464a, 0x37eda325, 0xf64e52b2, 0x7b272959, 0xd02b178c, 0x68158bc6, 0x340ac5e3);
  }

  lemma SixthDigit()
    ensures Steps(BitStep, 0x340ac5d5, 8) == 0xf68d2c9e
  {
    EightSteps(BitStep, 0x340ac5d5, 0xf7bde1ca, 0x7bdef0e5, 0xd057fb52, 0x682bfda9, 0xd9ad7df4, 0x6cd6befa, 0x366b5f7d, 0xf68d2c9e);
  }

  lemma SeventhDigit()
    ensures Steps(BitStep, 0xf68d2ca9, 8) == 0xaffc9660
  {
    EightSteps(BitStep, 0xf68d2ca9, 0x96fe1574, 0x4b7f0aba, 0x25bf855d, 0xff67418e, 0x7fb3a0c7, 0xd2615343, 0x84882a81, 0xaffc9660);
  }

  lemma EighthDigit()
    ensures Steps(BitStep, 0xaffc9658, 8) == 0x651f2550
  {
    EightSteps(BitStep, 0xaffc9658, 0x57fe4b2c, 0x2bff2596, 0x15ff92cb, 0xe7474a45, 0x9e1b2602, 0x4f0d9301, 0xca3e4aa0, 0x651f2550);
  }

  lemma NinthDigit()
    ensures Steps(BitStep, 0x651f2569, 8) == 0x340bc6d9
  {
    EightSteps(BitStep, 0x651f2569, 0xdf371194, 0x6f9b88ca, 0x37cdc465, 0xf65e6112, 0x7b2f3089, 0xd02f1b64, 0x68178db2, 0x340bc6d9);
  }

  lemma ByteTaken(v: bv32, x: Byte, low: bv32, mixed: bv32, w: bv32)
    requires Low(x) == low && Xor(v, low) == mixed && Steps(BitStep, mixed, 8) == w
    ensures ByteStep(v, x) == w
  {
  }

  lemma FirstMixed()
    ensures Xor(0xffffffff, 0x31) == 0xffffffce
  {
  }

  lemma FirstTaken()
    ensures ByteStep(0xffffffff, 0x31) == 0x7c231048
  {
    LowOf31();
    FirstMixed();
    FirstDigit();
    ByteTaken(0xffffffff, 0x31, 0x31, 0xffffffce, 0x7c231048);
  }

  lemma SecondMixed()
    ensures Xor(0x7c231048, 0x32) == 0x7c23107a
  {
  }

  lemma SecondTaken()
    ensures ByteStep(0x7c231048, 0x32) == 0xb0acbb32
  {
    LowOf32();
    SecondMixed();
    SecondDigit();
    ByteTaken(0x7c231048, 0x32, 0x32, 0x7c23107a, 0xb0acbb32);
  }

  lemma ThirdMixed()
    ensures Xor(0xb0acbb32, 0x33) == 0xb0acbb01
  {
  }

  lemma ThirdTaken()
    ensures ByteStep(0xb0acbb32, 0x33) == 0x77b79c2d
  {
    LowOf33();
    ThirdMixed();
    ThirdDigit();
    ByteTaken(0xb0acbb32, 0x33, 0x33, 0xb0acbb01, 0x77b79c2d);
  }

  lemma FourthMixed()
    ensures Xor(0x77b79c2d, 0x34) == 0x77b79c19
  {
  }

  lemma FourthTaken()
    ensures ByteStep(0x77b79c2d, 0x34) == 0x641c1f5c
  {
    LowOf34();
    FourthMixed();
    FourthDigit();
    ByteTaken(0x77b79c2d, 0x34, 0x34, 0x77b79c19, 0x641c1f5c);
  }

  lemma FifthMixed()
    ensures Xor(0x641c1f5c, 0x35) == 0x641c1f69
  {
  }

  lemma FifthTaken()
    ensures ByteStep(0x641c1f5c, 0x35) == 0x340ac5e3
  {
    LowOf35();
    FifthMixed();
    FifthDigit();
    ByteTaken(0x641c1f5c, 0x35, 0x35, 0x641c1f69, 0x340ac5e3);
  }

  lemma SixthMixed()
    ensures Xor(0x340ac5e3, 0x36) == 0x340ac5d5
  {
  }

  lemma SixthTaken()
    ensures ByteStep(0x340ac5e3, 0x36) == 0xf68d2c9e
  {
    LowOf36();
    SixthMixed();
    SixthDigit();
    ByteTaken(0x340ac5e3, 0x36, 0x36, 0x340ac5d5, 0xf68d2c9e);
  }

  lemma SeventhMixed()
    ensures Xor(0xf68d2c9e, 0x37) == 0xf68d2ca9
  {
  }

  lemma SeventhTaken()
    ensures ByteStep(0xf68d2c9e, 0x37) == 0xaffc9660
  {
    LowOf37();
    SeventhMixed();
    SeventhDigit();
    ByteTaken(0xf68d2c9e, 0x37, 0x37, 0xf68d2ca9, 0xaffc9660);
  }

  lemma EighthMixed()
    ensures Xor(0xaffc9660, 0x38) == 0xaffc9658
  {
  }

  lemma EighthTaken()
    ensures ByteStep(0xaffc9660, 0x38) == 0x651f2550
  {
    LowOf38();
    EighthMixed();
    EighthDigit();
    ByteTaken(0xaffc9660, 0x38, 0x38, 0xaffc9658, 0x651f2550);
  }

  lemma NinthMixed()
    ensures Xor(0x651f2550, 0x39) == 0x651f2569
  {
  }

  lemma NinthTaken()
    ensures ByteStep(0x651f2550, 0x39) == 0x340bc6d9
  {
    LowOf39();
    NinthMixed();
    NinthDigit();
    ByteTaken(0x651f2550, 0x39, 0x39, 0x651f2569, 0x340bc6d9);
  }

  lemma NineTaken<S>(take: (S, Byte) -> S, a: S, b: S, c: S, d: S, e: S, f: S, g: S, h: S, i: S, j: S)
    requires take(a, 0x31) == b && take(b, 0x32) == c && take(c, 0x33) == d && take(d, 0x34) == e && take(e, 0x35) == f
    requires take(f, 0x36) == g && take(g, 0x37) == h && take(h, 0x38) == i && take(i, 0x39) == j
    ensures Run(DIGITS, a, take) == j
  {
    assert DIGITS[..9] == DIGITS;
    RunNext(DIGITS, 0, a, take);
    RunNext(DIGITS, 1, a, take);
    RunNext(DIGITS, 2, a, take);
    RunNext(DIGITS, 3, a, take);
    RunNext(DIGITS, 4, a, take);
    RunNext(DIGITS, 5, a, take);
    RunNext(DIGITS, 6, a, take);
    RunNext(DIGITS, 7, a, take);
    RunNext(DIGITS, 8, a, take);
  }

  lemma DigitsRun()
    ensures Register(DIGITS) == 0x340bc6d9
  {
    FirstTaken();
    SecondTaken();
    ThirdTaken();
    FourthTaken();
    FifthTaken();
    SixthTaken();
    SeventhTaken();
    EighthTaken();
    NinthTaken();
    NineTaken(ByteStep, 0xffffffff, 0x7c231048, 0xb0acbb32, 0x77b79c2d, 0x641c1f5c, 0x340ac5e3, 0xf68d2c9e, 0xaffc9660, 0x651f2550, 0x340bc6d9);
  }

  lemma CheckComplement()
    ensures 0x340bc6d9 ^ 0xffffffff == 0xcbf43926 as bv32
  {
  }

  // The checksum of the nine digits is the one every implementation of this CRC gives.
  lemma CheckValue()
    ensures Crc(DIGITS) == 0xcbf43926
  {
    DigitsRun();
    CheckComplement();
  }

  lemma NumberOfEight(bit: nat -> bool, x: nat)
    requires x == (if bit(0) then 1 else 0) + (if bit(1) then 2 else 0) + (if bit(2) then 4 else 0) + (if bit(3) then 8 else 0)
                  + (if bit(4) then 0x10 else 0) + (if bit(5) then 0x20 else 0) + (if bit(6) then 0x40 else 0) + (if bit(7) then 0x80 else 0)
    ensures Number(bit, 0, 8) == x
  {
  }

  lemma CheckByte0()
    ensures ByteIn(0xcbf43926) == 0x26
  {
    LowMasks(0xcbf43926);
    HighMasks(0xcbf43926);
    NumberOfEight(BitsAt(0xcbf43926), 0x26);
  }

  lemma CheckByte1()
    ensures ByteIn(0x00cbf439) == 0x39
  {
    LowMasks(0x00cbf439);
    HighMasks(0x00cbf439);
    NumberOfEight(BitsAt(0x00cbf439), 0x39);
  }

  lemma CheckByte2()
    ensures ByteIn(0x0000cbf4) == 0xf4
  {
    LowMasks(0x0000cbf4);
    HighMasks(0x0000cbf4);
    NumberOfEight(BitsAt(0x0000cbf4), 0xf4);
  }

  lemma CheckByte3()
    ensures ByteIn(0x000000cb) == 0xcb
  {
    LowMasks(0x000000cb);
    HighMasks(0x000000cb);
    NumberOfEight(BitsAt(0x000000cb), 0xcb);
  }

  lemma CheckShifts()
    ensures 0xcbf43926 >> 8 == 0x00cbf439 as bv32 && 0xcbf43926 >> 16 == 0x0000cbf4 as bv32 && 0xcbf43926 >> 24 == 0x000000cb as bv32
  {
  }

  // The bytes of the check value.
  lemma CheckBytes()
    ensures CrcBytes(0xcbf43926) == [0x26, 0x39, 0xf4, 0xcb]
  {
    CheckShifts();
    CheckByte0();
    CheckByte1();
    CheckByte2();
    CheckByte3();
  }
}
