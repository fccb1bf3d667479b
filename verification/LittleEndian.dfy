/** Little-endian unsigned fields in byte buffers, as `writeUInt16LE` and `writeUInt32LE` lay them out. */
module LittleEndian {
  import opened Basics

  const LIMIT16: nat := 0x1_0000
  const LIMIT32: nat := 0x1_0000_0000

  function ByteOf(n: nat): bv8
    requires n < 256
  {
    n as bv8
  }

  function ByteValue(b: bv8): (v: nat)
    ensures v < 256
  {
    b as nat
  }

  lemma Successor(b: bv8)
    requires b != 255
    ensures (b + 1) as nat == b as nat + 1
  {}

  /** Every number below 256 is the value of a byte. */
  lemma {:induction false} ByteWith(n: nat) returns (b: bv8)
    requires n < 256
    ensures b as nat == n
  {
    if n == 0 {
      b := 0;
    } else {
      var c := ByteWith(n - 1);
      Successor(c);
      b := c + 1;
    }
  }

  lemma ValueIdentifies(b: bv8)
    ensures (b as nat) as bv8 == b
  {}

  lemma ByteRoundTrip(n: nat)
    requires n < 256
    ensures ByteValue(ByteOf(n)) == n
  {
    var b := ByteWith(n);
    ValueIdentifies(b);
  }

  function LE16(v: nat): (r: Bytes)
    requires v < LIMIT16
    ensures |r| == 2
  {
    [ByteOf(v % 256), ByteOf(v / 256)]
  }

  function LE32(v: nat): (r: Bytes)
    requires v < LIMIT32
    ensures |r| == 4
  {
    LE16(v % LIMIT16) + LE16(v / LIMIT16)
  }

  function U16(s: Bytes, p: nat): (v: nat)
    requires p + 2 <= |s|
    ensures v < LIMIT16
  {
    ByteValue(s[p]) + 256 * ByteValue(s[p + 1])
  }

  function U32(s: Bytes, p: nat): (v: nat)
    requires p + 4 <= |s|
    ensures v < LIMIT32
  {
    U16(s, p) + LIMIT16 * U16(s, p + 2)
  }

  /** `piece` stands in `s` at offset `p`. */
  predicate At(s: Bytes, p: nat, piece: Bytes) {
    p + |piece| <= |s| && s[p..p + |piece|] == piece
  }

  lemma AtSplit(s: Bytes, p: nat, a: Bytes, b: Bytes)
    requires At(s, p, a + b)
    ensures At(s, p, a) && At(s, p + |a|, b)
  {
    var whole := s[p..p + |a + b|];
    assert whole[..|a|] == a && whole[|a|..] == b;
    assert s[p..p + |a|] == whole[..|a|];
    assert s[p + |a|..p + |a| + |b|] == whole[|a|..];
  }

  lemma Read16(s: Bytes, p: nat, v: nat)
    requires v < LIMIT16 && At(s, p, LE16(v))
    ensures p + 2 <= |s| && U16(s, p) == v
  {
    hide ByteOf, ByteValue;
    assert s[p] == s[p..p + 2][0] && s[p + 1] == s[p..p + 2][1];
    ByteRoundTrip(v % 256);
    ByteRoundTrip(v / 256);
  }

  lemma Read32(s: Bytes, p: nat, v: nat)
    requires v < LIMIT32 && At(s, p, LE32(v))
    ensures p + 4 <= |s| && U32(s, p) == v
  {
    hide LE16, U16;
    AtSplit(s, p, LE16(v % LIMIT16), LE16(v / LIMIT16));
    Read16(s, p, v % LIMIT16);
    Read16(s, p + 2, v / LIMIT16);
  }

  /** The lowest byte comes first. */
  lemma Weights16(v: nat)
    requires v < LIMIT16
    ensures LE16(v)[0] as nat + 256 * (LE16(v)[1] as nat) == v
  {
    ByteRoundTrip(v % 256);
    ByteRoundTrip(v / 256);
    hide ByteOf;
  }

  lemma Weights32(v: nat)
    requires v < LIMIT32
    ensures LE32(v)[0] as nat + 0x100 * (LE32(v)[1] as nat) + 0x1_0000 * (LE32(v)[2] as nat)
            + 0x100_0000 * (LE32(v)[3] as nat) == v
  {
    hide ByteOf;
    Weights16(v % LIMIT16);
    Weights16(v / LIMIT16);
  }
}
