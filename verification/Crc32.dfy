/** The CRC-32 of the ZIP writer (api/src/exports/soc2-package.ts).

    JavaScript's bit operators work on 32-bit patterns, so the running value is a `bv32`
    throughout and the final `>>> 0` only re-reads the pattern as an unsigned number. */
module Crc32 {
  import opened Basics

  const POLYNOMIAL: bv32 := 0xEDB8_8320
  const ALL_ONES: bv32 := 0xFFFF_FFFF

  function Xor(a: bv32, b: bv32): bv32 {
    a ^ b
  }

  /** A buffer byte widened to the register. */
  function Widen(b: bv8): bv32 {
    b as bv32
  }

  /** One turn of the inner loop. */
  function BitStep(c: bv32): bv32 {
    if c & 1 == 1 then (c >> 1) ^ POLYNOMIAL else c >> 1
  }

  function BitSteps(c: bv32, n: nat): bv32 {
    if n == 0 then c else BitStep(BitSteps(c, n - 1))
  }

  /** One turn of the outer loop: absorb a byte, then eight bit steps. */
  function ByteStep(c: bv32, b: bv8): bv32 {
    BitSteps(Xor(c, Widen(b)), 8)
  }

  /** The register after absorbing `data`, starting from `c`. */
  function Register(c: bv32, data: Bytes): bv32
    decreases |data|
  {
    if data == [] then c else ByteStep(Register(c, data[..|data| - 1]), data[|data| - 1])
  }

  function Checksum(data: Bytes): bv32 {
    Xor(Register(ALL_ONES, data), ALL_ONES)
  }

  method Compute(data: Bytes) returns (result: bv32)
    ensures result == Checksum(data)
  {
    var crc := ALL_ONES;
    for i := 0 to |data|
      invariant crc == Register(ALL_ONES, data[..i])
    {
      ghost var before := crc;
      crc := crc ^ (data[i] as bv32);
      ghost var mixed := crc;
      for j := 0 to 8
        invariant crc == BitSteps(mixed, j)
      {
        if crc & 1 == 1 {
          crc := (crc >> 1) ^ POLYNOMIAL;
        } else {
          crc := crc >> 1;
        }
      }
      assert data[..i + 1][..i] == data[..i];
      assert crc == ByteStep(before, data[i]);
    }
    assert data[..|data|] == data;
    result := crc ^ ALL_ONES;
  }

  // ----- Bit-vector facts, each small enough to be decided bit by bit -----

  lemma XorCommutes(a: bv32, b: bv32)
    ensures Xor(a, b) == Xor(b, a)
  {}

  lemma XorAssociates(a: bv32, b: bv32, c: bv32)
    ensures Xor(Xor(a, b), c) == Xor(a, Xor(b, c))
  {}

  lemma XorCancels(a: bv32, b: bv32)
    ensures Xor(Xor(a, b), b) == a
    ensures Xor(a, a) == 0
    ensures Xor(a, 0) == a
  {}

  lemma XorRegroups(a: bv32, b: bv32, p: bv32, q: bv32)
    ensures Xor(Xor(a, b), Xor(p, q)) == Xor(Xor(a, p), Xor(b, q))
  {
    hide Xor;
    XorAssociates(a, b, Xor(p, q));
    XorAssociates(b, p, q);
    XorCommutes(b, p);
    XorAssociates(p, b, q);
    XorAssociates(a, p, Xor(b, q));
  }

  lemma WidenXor(p: bv8, q: bv8)
    ensures Widen(p ^ q) == Xor(Widen(p), Widen(q))
    ensures Widen(p) == Widen(q) ==> p == q
  {}

  lemma SplitByte(x: bv32)
    ensures x == Xor(x & 0xFF, x & 0xFFFF_FF00)
    ensures (x & 0xFFFF_FF00) & 0xFF == 0
    ensures (x & 0xFFFF_FF00) >> 8 == x >> 8
  {}

  lemma WidenedByteHasEightBits(c: bv32, b: bv8)
    ensures Xor(c, Widen(b)) >> 8 == c >> 8
  {}

  lemma LowByteClear(y: bv32)
    requires y & 0xFF == 0
    ensures y & 1 == 0 && (y >> 1) & 1 == 0 && (y >> 2) & 1 == 0 && (y >> 3) & 1 == 0
    ensures (y >> 4) & 1 == 0 && (y >> 5) & 1 == 0 && (y >> 6) & 1 == 0 && (y >> 7) & 1 == 0
    ensures (y >> 1) >> 1 == y >> 2 && (y >> 2) >> 1 == y >> 3 && (y >> 3) >> 1 == y >> 4
    ensures (y >> 4) >> 1 == y >> 5 && (y >> 5) >> 1 == y >> 6 && (y >> 6) >> 1 == y >> 7
    ensures (y >> 7) >> 1 == y >> 8
  {}

  // ----- The bit step is linear over GF(2) and invertible -----

  function BitUnstep(c: bv32): bv32 {
    if c & 0x8000_0000 != 0 then ((c ^ POLYNOMIAL) << 1) | 1 else c << 1
  }

  lemma BitStepInvertible(c: bv32)
    ensures BitUnstep(BitStep(c)) == c
  {}

  function Half(c: bv32): bv32 {
    c >> 1
  }

  predicate Low(c: bv32) {
    c & 1 == 1
  }

  lemma BitStepCases(c: bv32)
    ensures BitStep(c) == if Low(c) then Xor(Half(c), POLYNOMIAL) else Half(c)
  {}

  lemma BitsOfXor(a: bv32, b: bv32)
    ensures (a ^ b) >> 1 == (a >> 1) ^ (b >> 1)
    ensures (a ^ b) & 1 == 1 <==> (a & 1 == 1) != (b & 1 == 1)
  {}

  lemma PartsOfXor(a: bv32, b: bv32)
    ensures Half(Xor(a, b)) == Xor(Half(a), Half(b))
    ensures Low(Xor(a, b)) <==> Low(a) != Low(b)
  {
    BitsOfXor(a, b);
  }

  lemma BitStepLinear(a: bv32, b: bv32)
    ensures BitStep(Xor(a, b)) == Xor(BitStep(a), BitStep(b))
  {
    hide BitStep, Xor, Half, Low;
    BitStepCases(a);
    BitStepCases(b);
    BitStepCases(Xor(a, b));
    PartsOfXor(a, b);
    XorRegroups(Half(a), Half(b), if Low(a) then POLYNOMIAL else 0, if Low(b) then POLYNOMIAL else 0);
    XorCancels(Half(a), POLYNOMIAL);
    XorCancels(Half(b), POLYNOMIAL);
    XorCancels(POLYNOMIAL, POLYNOMIAL);
    XorCommutes(0, POLYNOMIAL);
    XorCancels(Xor(Half(a), Half(b)), 0);
  }

  lemma {:induction false} BitStepsLinear(a: bv32, b: bv32, n: nat)
    ensures BitSteps(Xor(a, b), n) == Xor(BitSteps(a, n), BitSteps(b, n))
  {
    hide Xor, BitStep;
    if n > 0 {
      BitStepsLinear(a, b, n - 1);
      BitStepLinear(BitSteps(a, n - 1), BitSteps(b, n - 1));
    }
  }

  lemma {:induction false} BitStepsInjective(a: bv32, b: bv32, n: nat)
    requires BitSteps(a, n) == BitSteps(b, n)
    ensures a == b
  {
    hide BitStep, BitUnstep;
    if n > 0 {
      BitStepInvertible(BitSteps(a, n - 1));
      BitStepInvertible(BitSteps(b, n - 1));
      BitStepsInjective(a, b, n - 1);
    }
  }

  lemma {:induction false} BitStepsCompose(c: bv32, m: nat, n: nat)
    ensures BitSteps(BitSteps(c, m), n) == BitSteps(c, m + n)
  {
    hide BitStep;
    if n > 0 {
      BitStepsCompose(c, m, n - 1);
    }
  }

  lemma EvenStep(y: bv32, n: nat)
    requires BitSteps(y, n) & 1 == 0
    ensures BitSteps(y, n + 1) == BitSteps(y, n) >> 1
  {}

  lemma ByteShiftsOut(y: bv32)
    requires y & 0xFF == 0
    ensures BitSteps(y, 8) == y >> 8
  {
    LowByteClear(y);
    assert BitSteps(y, 0) == y;
    hide BitSteps;
    EvenStep(y, 0);
    EvenStep(y, 1);
    EvenStep(y, 2);
    EvenStep(y, 3);
    EvenStep(y, 4);
    EvenStep(y, 5);
    EvenStep(y, 6);
    EvenStep(y, 7);
  }

  // ----- Continuing from a register; the table-driven form of RFC 1952 section 8 -----

  lemma {:induction false} RegisterConcat(c: bv32, a: Bytes, b: Bytes)
    ensures Register(c, a + b) == Register(Register(c, a), b)
    decreases |b|
  {
    hide ByteStep;
    if b == [] {
      assert a + b == a;
    } else {
      var k := |b| - 1;
      assert (a + b)[..|a + b| - 1] == a + b[..k];
      RegisterConcat(c, a, b[..k]);
    }
  }

  lemma RegisterFirst(c: bv32, data: Bytes)
    requires data != []
    ensures Register(c, data) == Register(ByteStep(c, data[0]), data[1..])
  {
    hide ByteStep;
    RegisterConcat(c, [data[0]], data[1..]);
    assert [data[0]] + data[1..] == data;
    assert [data[0]][..0] == [];
  }

  /** `crc_table[n]`: the register of the single byte `n` without pre-conditioning. */
  function TableEntry(n: bv32): bv32 {
    BitSteps(n, 8)
  }

  function TableStep(c: bv32, b: bv8): bv32 {
    Xor(TableEntry(Xor(c, Widen(b)) & 0xFF), c >> 8)
  }

  function TableRegister(c: bv32, data: Bytes): bv32
    decreases |data|
  {
    if data == [] then c else TableRegister(TableStep(c, data[0]), data[1..])
  }

  lemma TableStepAgrees(c: bv32, b: bv8)
    ensures TableStep(c, b) == ByteStep(c, b)
  {
    hide Xor, Widen, BitSteps;
    var x := Xor(c, Widen(b));
    SplitByte(x);
    ByteShiftsOut(x & 0xFFFF_FF00);
    BitStepsLinear(x & 0xFF, x & 0xFFFF_FF00, 8);
    WidenedByteHasEightBits(c, b);
  }

  lemma {:induction false} TableFormAgrees(c: bv32, data: Bytes)
    ensures TableRegister(c, data) == Register(c, data)
    decreases |data|
  {
    hide TableStep, ByteStep;
    if data != [] {
      TableStepAgrees(c, data[0]);
      TableFormAgrees(TableStep(c, data[0]), data[1..]);
      RegisterFirst(c, data);
    }
  }

  // ----- Linearity over whole buffers: which pairs of buffers collide -----

  function Difference(x: Bytes, y: Bytes): (d: Bytes)
    requires |x| == |y|
    ensures |d| == |x|
  {
    seq(|x|, i requires 0 <= i < |x| => x[i] ^ y[i])
  }

  lemma ByteStepLinear(a: bv32, b: bv32, p: bv8, q: bv8)
    ensures ByteStep(Xor(a, b), p ^ q) == Xor(ByteStep(a, p), ByteStep(b, q))
  {
    hide Xor, Widen, BitSteps;
    WidenXor(p, q);
    XorRegroups(a, b, Widen(p), Widen(q));
    BitStepsLinear(Xor(a, Widen(p)), Xor(b, Widen(q)), 8);
  }

  lemma {:induction false} RegisterLinear(a: bv32, b: bv32, x: Bytes, y: Bytes)
    requires |x| == |y|
    ensures Register(Xor(a, b), Difference(x, y)) == Xor(Register(a, x), Register(b, y))
    decreases |x|
  {
    hide Xor, ByteStep;
    if x != [] {
      var k := |x| - 1;
      RegisterLinear(a, b, x[..k], y[..k]);
      assert Difference(x, y)[..k] == Difference(x[..k], y[..k]);
      ByteStepLinear(Register(a, x[..k]), Register(b, y[..k]), x[k], y[k]);
    }
  }

  /** Two buffers of one length collide exactly when their difference leaves no remainder. */
  lemma CollisionIffNoRemainder(x: Bytes, y: Bytes)
    requires |x| == |y|
    ensures Checksum(x) == Checksum(y) <==> Register(0, Difference(x, y)) == 0
  {
    hide Xor, Register;
    RegisterLinear(ALL_ONES, ALL_ONES, x, y);
    XorCancels(ALL_ONES, ALL_ONES);
    var a, b := Register(ALL_ONES, x), Register(ALL_ONES, y);
    XorCancels(a, ALL_ONES);
    XorCancels(b, ALL_ONES);
    XorCancels(a, b);
    XorCancels(b, b);
    XorCommutes(0, b);
  }

  // ----- Every burst of at most four bytes is detected -----

  /** Up to four bytes as one little-endian word. */
  function Pack(p: Bytes): bv32
    requires |p| <= 4
    decreases |p|
  {
    if p == [] then 0 else PackByte(p[0], Pack(p[1..]))
  }

  function PackByte(b: bv8, rest: bv32): bv32 {
    Xor(Widen(b), rest << 8)
  }

  /** `w` has no bits beyond its lowest `n` bytes. */
  predicate WithinBytes(w: bv32, n: nat) {
    w & (if n == 0 then 0xFFFF_FFFF else if n == 1 then 0xFFFF_FF00 else if n == 2 then 0xFFFF_0000
         else if n == 3 then 0xFF00_0000 else 0) == 0
  }

  lemma PackByteFits(b: bv8, rest: bv32, n: nat)
    requires n <= 3 && WithinBytes(rest, n)
    ensures WithinBytes(PackByte(b, rest), n + 1)
    ensures WithinBytes(rest, 3)
  {}

  lemma PackByteParts(b: bv8, rest: bv32)
    requires WithinBytes(rest, 3)
    ensures PackByte(b, rest) & 0xFF == Widen(b)
    ensures PackByte(b, rest) >> 8 == rest
    ensures (rest << 8) & 0xFF == 0 && (rest << 8) >> 8 == rest
  {}

  lemma {:induction false} PackFits(p: Bytes)
    requires |p| <= 4
    ensures WithinBytes(Pack(p), |p|)
    ensures |p| <= 3 ==> WithinBytes(Pack(p), 3)
    decreases |p|
  {
    hide PackByte;
    if p != [] {
      PackFits(p[1..]);
      PackByteFits(p[0], Pack(p[1..]), |p| - 1);
    }
    if |p| <= 3 {
      PackByteFits(0, Pack(p), |p|);
    }
  }

  /** The first byte is the low byte of the word, and the others are the word without it. */
  lemma PackStep(p: Bytes)
    requires 0 < |p| <= 4
    ensures Pack(p) & 0xFF == Widen(p[0]) && Pack(p) >> 8 == Pack(p[1..])
  {
    hide PackByte, Widen, WithinBytes;
    PackFits(p[1..]);
    PackByteParts(p[0], Pack(p[1..]));
  }

  lemma {:induction false} PackInjective(p: Bytes, q: Bytes)
    requires |p| == |q| <= 4 && Pack(p) == Pack(q)
    ensures p == q
    decreases |p|
  {
    hide Pack, Widen;
    if p != [] {
      PackStep(p);
      PackStep(q);
      WidenXor(p[0], q[0]);
      PackInjective(p[1..], q[1..]);
      assert p == [p[0]] + p[1..] && q == [q[0]] + q[1..];
    }
  }

  /** Eight bit steps absorb the low byte of a word and leave the rest to be absorbed. */
  lemma AbsorbPacked(c: bv32, b: bv8, rest: bv32)
    requires WithinBytes(rest, 3)
    ensures BitSteps(Xor(c, PackByte(b, rest)), 8) == Xor(ByteStep(c, b), rest)
  {
    hide Xor, Widen, BitSteps, WithinBytes;
    PackByteParts(b, rest);
    XorAssociates(c, Widen(b), rest << 8);
    ByteShiftsOut(rest << 8);
    BitStepsLinear(Xor(c, Widen(b)), rest << 8, 8);
  }

  /** Absorbing up to four bytes one by one is absorbing them as one word. */
  lemma {:induction false} RegisterOfWord(c: bv32, p: Bytes)
    requires |p| <= 4
    ensures Register(c, p) == BitSteps(Xor(c, Pack(p)), 8 * |p|)
    decreases |p|
  {
    hide Xor, ByteStep, BitStep, PackByte, WithinBytes;
    if p == [] {
      XorCancels(c, c);
    } else {
      var rest := p[1..];
      RegisterFirst(c, p);
      RegisterOfWord(ByteStep(c, p[0]), rest);
      PackFits(rest);
      AbsorbPacked(c, p[0], Pack(rest));
      BitStepsCompose(Xor(c, Pack(p)), 8, 8 * |rest|);
    }
  }

  lemma XorInjective(a: bv32, b: bv32, w: bv32)
    requires Xor(a, w) == Xor(b, w) || Xor(w, a) == Xor(w, b)
    ensures a == b
  {
    hide Xor;
    XorCancels(a, w);
    XorCancels(b, w);
    XorCommutes(a, w);
    XorCommutes(b, w);
  }

  lemma {:induction false} RegisterInjective(a: bv32, b: bv32, data: Bytes)
    requires Register(a, data) == Register(b, data)
    ensures a == b
    decreases |data|
  {
    hide Xor, Widen, BitSteps;
    if data != [] {
      var k := |data| - 1;
      var p, q := Register(a, data[..k]), Register(b, data[..k]);
      BitStepsInjective(Xor(p, Widen(data[k])), Xor(q, Widen(data[k])), 8);
      XorInjective(p, q, Widen(data[k]));
      RegisterInjective(a, b, data[..k]);
    }
  }

  /** Two buffers of one length that differ only inside one stretch of at most four
      consecutive bytes never share a checksum. */
  lemma BurstDetected(before: Bytes, x: Bytes, y: Bytes, after: Bytes)
    requires |x| == |y| <= 4 && x != y
    ensures Checksum(before + x + after) != Checksum(before + y + after)
  {
    hide Xor, Register, BitSteps, Pack;
    if Checksum(before + x + after) == Checksum(before + y + after) {
      var c := Register(ALL_ONES, before);
      XorInjective(Register(ALL_ONES, before + x + after), Register(ALL_ONES, before + y + after), ALL_ONES);
      RegisterConcat(ALL_ONES, before + x, after);
      RegisterConcat(ALL_ONES, before + y, after);
      RegisterConcat(ALL_ONES, before, x);
      RegisterConcat(ALL_ONES, before, y);
      RegisterInjective(Register(c, x), Register(c, y), after);
      RegisterOfWord(c, x);
      RegisterOfWord(c, y);
      BitStepsInjective(Xor(c, Pack(x)), Xor(c, Pack(y)), 8 * |x|);
      XorInjective(Pack(x), Pack(y), c);
      PackInjective(x, y);
    }
  }

  lemma TableEntryOfOne()
    ensures TableEntry(1) == 0x7707_3096
  {}

  /** Four is the exact bound: these two five-byte buffers share a checksum. */
  lemma FiveByteBurstMissed()
    ensures Checksum([0x01, 0x96, 0x30, 0x07, 0x77]) == Checksum([0x00, 0x00, 0x00, 0x00, 0x00])
  {
    var x, y: Bytes, tail: Bytes := [0x01, 0x96, 0x30, 0x07, 0x77], [0x00, 0x00, 0x00, 0x00, 0x00], [0x96, 0x30, 0x07, 0x77];
    assert Difference(x, y) == x && x[1..] == tail;
    TableEntryOfOne();
    assert Register(0, x) == 0 by {
      RegisterFirst(0, x);
      assert ByteStep(0, 0x01) == TableEntry(1);
      RegisterOfWord(0x7707_3096, tail);
      PackTail();
      XorCancels(0x7707_3096, 0);
      ZeroStays(32);
    }
    CollisionIffNoRemainder(x, y);
  }

  lemma PackTail()
    ensures Pack([0x96, 0x30, 0x07, 0x77]) == 0x7707_3096
  {}

  lemma {:induction false} ZeroStays(n: nat)
    ensures BitSteps(0, n) == 0
  {
    if n > 0 {
      ZeroStays(n - 1);
    }
  }

  // ----- The standard's initial value, final mask and polynomial -----

  lemma OnesPacked()
    ensures Pack([0xFF, 0xFF, 0xFF, 0xFF]) == 0xFFFF_FFFF
  {
    var p: Bytes, q: Bytes, r: Bytes := [0xFF, 0xFF, 0xFF, 0xFF], [0xFF, 0xFF, 0xFF], [0xFF, 0xFF];
    assert p[1..] == q && q[1..] == r && r[1..] == [0xFF];
  }

  /** The register starts with all bits set: four bytes of all ones clear it, whatever follows; and the
      result is inverted once more. */
  lemma {:induction false} StartsWithOnes(data: Bytes)
    ensures Checksum([0xFF, 0xFF, 0xFF, 0xFF] + data) == Register(0, data) ^ 0xFFFF_FFFF
  {
    hide Register, BitSteps, Pack;
    var ones: Bytes := [0xFF, 0xFF, 0xFF, 0xFF];
    RegisterConcat(ALL_ONES, ones, data);
    RegisterOfWord(ALL_ONES, ones);
    OnesPacked();
    XorCancels(ALL_ONES, ALL_ONES);
    ZeroStays(32);
  }

  /** The four bytes of a checksum as the ZIP fields store it, lowest first. */
  function BytesOf(w: bv32): Bytes {
    [(w & 0xFF) as bv8, ((w >> 8) & 0xFF) as bv8, ((w >> 16) & 0xFF) as bv8, ((w >> 24) & 0xFF) as bv8]
  }

  lemma BytesPacked(w: bv32)
    ensures Pack(BytesOf(w)) == w
  {
    var p := BytesOf(w);
    PackedWord(w);
    hide PackByte;
    var p1, p2, p3 := p[1..], p[2..], p[3..];
    assert p1[1..] == p2 && p2[1..] == p3 && p3[1..] == [];
    assert Pack(p3) == PackByte(p[3], 0);
    assert Pack(p2) == PackByte(p[2], Pack(p3));
    assert Pack(p1) == PackByte(p[1], Pack(p2));
    assert Pack(p) == PackByte(p[0], Pack(p1));
  }

  lemma PackedWord(w: bv32)
    ensures PackByte((w & 0xFF) as bv8, PackByte(((w >> 8) & 0xFF) as bv8,
            PackByte(((w >> 16) & 0xFF) as bv8, PackByte(((w >> 24) & 0xFF) as bv8, 0)))) == w
  {}

  lemma OnesThrough()
    ensures BitSteps(0xFFFF_FFFF, 32) == 0xDEBB_20E3
  {
    BitStepsCompose(0xFFFF_FFFF, 8, 8);
    BitStepsCompose(0xFFFF_FFFF, 16, 8);
    BitStepsCompose(0xFFFF_FFFF, 24, 8);
    EightSteps();
    hide BitSteps;
  }

  lemma EightSteps()
    ensures BitSteps(0xFFFF_FFFF, 8) == 0x2DFD_1072
    ensures BitSteps(0x2DFD_1072, 8) == 0xBE26_ED00
    ensures BitSteps(0xBE26_ED00, 8) == 0x00BE_26ED
    ensures BitSteps(0x00BE_26ED, 8) == 0xDEBB_20E3
  {}

  /** Any data followed by its own checksum leaves the residue of the standard CRC-32: this fixes the
      polynomial and the final mask. */
  lemma {:induction false} Residue(data: Bytes)
    ensures Register(0xFFFF_FFFF, data + BytesOf(Checksum(data))) == 0xDEBB_20E3
  {
    hide Register, BitSteps, Pack, BytesOf, Xor;
    var c := Register(ALL_ONES, data);
    RegisterConcat(ALL_ONES, data, BytesOf(Checksum(data)));
    FourBytes(Checksum(data));
    RegisterOfWord(c, BytesOf(Checksum(data)));
    BytesPacked(Checksum(data));
    XorAssociates(c, c, ALL_ONES);
    XorCancels(c, c);
    XorCommutes(0, ALL_ONES);
    XorCancels(ALL_ONES, 0);
    OnesThrough();
  }

  lemma FourBytes(w: bv32)
    ensures |BytesOf(w)| == 4
  {}
}
