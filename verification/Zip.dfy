/** The hand-written ZIP writer of the SOC 2 package export, and a reader that follows the
    records of PKWARE APPNOTE.TXT sections 4.3.7 (local file header), 4.3.12 (central directory
    header) and 4.3.16 (end of central directory record). */
module Zip {
  import opened Basics
  import opened Crc32
  import opened LittleEndian

  const LOCAL_SIGNATURE: nat := 0x0403_4B50
  const CENTRAL_SIGNATURE: nat := 0x0201_4B50
  const END_SIGNATURE: nat := 0x0605_4B50

  /** An entry to store: its name as UTF-8 bytes, and its contents. */
  datatype Entry = Entry(name: Bytes, data: Bytes)

  /** An entry as an archive records it. */
  datatype Member = Member(name: Bytes, data: Bytes, crc: nat)

  // ----- The three records, as the writer lays them out -----

  function CrcOf(data: Bytes): (c: nat)
    ensures c < LIMIT32
  {
    Checksum(data) as nat
  }

  predicate Encodable(m: Member) {
    |m.name| < LIMIT16 && |m.data| < LIMIT32 && m.crc < LIMIT32
  }

  /** `start` and then the fields both headers share: version needed, flags, method (stored),
      modification time and date, CRC, the two sizes, name length and extra length. */
  function WithShared(start: Bytes, m: Member): (r: Bytes)
    requires Encodable(m)
    ensures |r| == |start| + 26
  {
    start + LE16(20) + LE16(0) + LE16(0) + LE16(0) + LE16(0)
    + LE32(m.crc) + LE32(|m.data|) + LE32(|m.data|) + LE16(|m.name|) + LE16(0)
  }

  function LocalHeader(m: Member): (r: Bytes)
    requires Encodable(m)
    ensures |r| == 30
  {
    WithShared(LE32(LOCAL_SIGNATURE), m)
  }

  function CentralHeader(m: Member, offset: nat): (r: Bytes)
    requires Encodable(m) && offset < LIMIT32
    ensures |r| == 46
  {
    WithShared(LE32(CENTRAL_SIGNATURE) + LE16(20), m)
    + LE16(0) + LE16(0) + LE16(0) + LE32(0) + LE32(offset)
  }

  function EndRecord(count: nat, size: nat, offset: nat): (r: Bytes)
    requires count < LIMIT16 && size < LIMIT32 && offset < LIMIT32
    ensures |r| == 22
  {
    LE32(END_SIGNATURE) + LE16(0) + LE16(0) + LE16(count) + LE16(count)
    + LE32(size) + LE32(offset) + LE16(0)
  }

  function LocalEntry(m: Member): (r: Bytes)
    requires Encodable(m)
    ensures |r| == 30 + |m.name| + |m.data|
  {
    LocalHeader(m) + m.name + m.data
  }

  function CentralEntry(m: Member, offset: nat): (r: Bytes)
    requires Encodable(m) && offset < LIMIT32
    ensures |r| == 46 + |m.name|
  {
    CentralHeader(m, offset) + m.name
  }

  // ----- The whole archive -----

  predicate AllEncodable(ms: seq<Member>) {
    forall i :: 0 <= i < |ms| ==> Encodable(ms[i])
  }

  /** The local headers with their contents, one after another. */
  function Locals(ms: seq<Member>): Bytes
    requires AllEncodable(ms)
    decreases |ms|
  {
    if ms == [] then [] else Locals(ms[..|ms| - 1]) + LocalEntry(ms[|ms| - 1])
  }

  /** Every local header starts at an offset its central header can hold. */
  predicate Placeable(ms: seq<Member>) {
    AllEncodable(ms) && forall i :: 0 <= i < |ms| ==> |Locals(ms[..i])| < LIMIT32
  }

  lemma PlaceablePrefix(ms: seq<Member>, k: nat)
    requires k <= |ms| && Placeable(ms)
    ensures Placeable(ms[..k])
  {
    forall i | 0 <= i < k ensures |Locals(ms[..k][..i])| < LIMIT32 {
      assert ms[..k][..i] == ms[..i];
    }
  }

  function Centrals(ms: seq<Member>): Bytes
    requires Placeable(ms)
    decreases |ms|
  {
    if ms == [] then []
    else
      var k := |ms| - 1;
      PlaceablePrefix(ms, k);
      Centrals(ms[..k]) + CentralEntry(ms[k], |Locals(ms[..k])|)
  }

  /** What the 16- and 32-bit fields can express. */
  predicate Fits(ms: seq<Member>) {
    && Placeable(ms)
    && |ms| < LIMIT16
    && |Locals(ms)| < LIMIT32
    && |Centrals(ms)| < LIMIT32
  }

  function Image(ms: seq<Member>): Bytes
    requires Fits(ms)
  {
    Locals(ms) + Centrals(ms) + EndRecord(|ms|, |Centrals(ms)|, |Locals(ms)|)
  }

  function Recorded(e: Entry): Member {
    Member(e.name, e.data, CrcOf(e.data))
  }

  function RecordedAll(entries: seq<Entry>): (ms: seq<Member>)
    ensures |ms| == |entries|
    ensures forall i :: 0 <= i < |ms| ==> ms[i] == Recorded(entries[i])
  {
    seq(|entries|, i requires 0 <= i < |entries| => Recorded(entries[i]))
  }

  // ----- The limits in closed form -----

  function LocalSize(ms: seq<Member>): nat
    decreases |ms|
  {
    if ms == [] then 0
    else LocalSize(ms[..|ms| - 1]) + 30 + |ms[|ms| - 1].name| + |ms[|ms| - 1].data|
  }

  function CentralSize(ms: seq<Member>): nat
    decreases |ms|
  {
    if ms == [] then 0 else CentralSize(ms[..|ms| - 1]) + 46 + |ms[|ms| - 1].name|
  }

  lemma {:induction false} SizesOf(ms: seq<Member>)
    ensures AllEncodable(ms) ==> |Locals(ms)| == LocalSize(ms)
    ensures Placeable(ms) ==> |Centrals(ms)| == CentralSize(ms)
    decreases |ms|
  {
    hide LocalEntry, CentralEntry;
    if ms != [] {
      SizesOf(ms[..|ms| - 1]);
      if Placeable(ms) {
        PlaceablePrefix(ms, |ms| - 1);
      }
    }
  }

  lemma {:induction false} SizesGrow(ms: seq<Member>, i: nat)
    requires i < |ms|
    ensures LocalSize(ms[..i]) + 30 + |ms[i].name| + |ms[i].data| <= LocalSize(ms)
    decreases |ms|
  {
    var k := |ms| - 1;
    if i < k {
      SizesGrow(ms[..k], i);
      assert ms[..k][..i] == ms[..i];
    }
  }

  /** The archive can be written exactly when the entry count and every name length fit 16 bits
      and the two totals fit 32 bits. */
  lemma FitsExactly(entries: seq<Entry>)
    ensures var ms := RecordedAll(entries);
            Fits(ms) <==>
            && |entries| <= 65_535
            && (forall i :: 0 <= i < |entries| ==> |entries[i].name| <= 65_535)
            && LocalSize(ms) <= 4_294_967_295
            && CentralSize(ms) <= 4_294_967_295
  {
    hide Locals, Centrals, LocalSize, CentralSize, CrcOf;
    var ms := RecordedAll(entries);
    SizesOf(ms);
    if LocalSize(ms) < LIMIT32 && forall i :: 0 <= i < |entries| ==> |entries[i].name| < LIMIT16 {
      forall i | 0 <= i < |ms| ensures Encodable(ms[i]) {
        SizesGrow(ms, i);
      }
      forall i | 0 <= i < |ms| ensures |Locals(ms[..i])| < LIMIT32 {
        SizesGrow(ms, i);
        SizesOf(ms[..i]);
      }
    }
    if Fits(ms) {
      forall i | 0 <= i < |entries| ensures |entries[i].name| < LIMIT16 {
        assert Encodable(ms[i]);
      }
    }
  }

  // ----- The writer -----

  method WriteUInt16LE(buffer: array<bv8>, value: nat, pos: nat)
    requires pos + 2 <= buffer.Length && value < LIMIT16
    modifies buffer
    ensures buffer[..pos + 2] == old(buffer[..pos]) + LE16(value)
    ensures buffer[pos + 2..] == old(buffer[pos + 2..])
  {
    buffer[pos] := ByteOf(value % 256);
    buffer[pos + 1] := ByteOf(value / 256);
    assert buffer[..pos] == old(buffer[..pos]);
  }

  method WriteUInt32LE(buffer: array<bv8>, value: nat, pos: nat)
    requires pos + 4 <= buffer.Length && value < LIMIT32
    modifies buffer
    ensures buffer[..pos + 4] == old(buffer[..pos]) + LE32(value)
    ensures buffer[pos + 4..] == old(buffer[pos + 4..])
  {
    hide ByteOf;
    var low, high := value % LIMIT16, value / LIMIT16;
    buffer[pos] := ByteOf(low % 256);
    buffer[pos + 1] := ByteOf(low / 256);
    buffer[pos + 2] := ByteOf(high % 256);
    buffer[pos + 3] := ByteOf(high / 256);
    assert buffer[..pos] == old(buffer[..pos]);
  }

  method WriteLocalHeader(m: Member) returns (header: Bytes)
    requires Encodable(m)
    ensures header == LocalHeader(m)
  {
    hide LE16, LE32;
    var h := new bv8[30](_ => 0);
    WriteUInt32LE(h, LOCAL_SIGNATURE, 0);
    WriteUInt16LE(h, 20, 4);
    WriteUInt16LE(h, 0, 6);
    WriteUInt16LE(h, 0, 8);
    WriteUInt16LE(h, 0, 10);
    WriteUInt16LE(h, 0, 12);
    WriteUInt32LE(h, m.crc, 14);
    WriteUInt32LE(h, |m.data|, 18);
    WriteUInt32LE(h, |m.data|, 22);
    WriteUInt16LE(h, |m.name|, 26);
    WriteUInt16LE(h, 0, 28);
    header := h[..];
    assert header == h[..30];
    assert [] + LE32(LOCAL_SIGNATURE) == LE32(LOCAL_SIGNATURE);
  }

  method WriteCentralHeader(m: Member, offset: nat) returns (header: Bytes)
    requires Encodable(m) && offset < LIMIT32
    ensures header == CentralHeader(m, offset)
  {
    hide LE16, LE32;
    var h := new bv8[46](_ => 0);
    WriteUInt32LE(h, CENTRAL_SIGNATURE, 0);
    WriteUInt16LE(h, 20, 4);
    WriteUInt16LE(h, 20, 6);
    WriteUInt16LE(h, 0, 8);
    WriteUInt16LE(h, 0, 10);
    WriteUInt16LE(h, 0, 12);
    WriteUInt16LE(h, 0, 14);
    WriteUInt32LE(h, m.crc, 16);
    WriteUInt32LE(h, |m.data|, 20);
    WriteUInt32LE(h, |m.data|, 24);
    WriteUInt16LE(h, |m.name|, 28);
    WriteUInt16LE(h, 0, 30);
    assert [] + LE32(CENTRAL_SIGNATURE) == LE32(CENTRAL_SIGNATURE);
    assert h[..32] == WithShared(LE32(CENTRAL_SIGNATURE) + LE16(20), m);
    hide WithShared;
    WriteUInt16LE(h, 0, 32);
    WriteUInt16LE(h, 0, 34);
    WriteUInt16LE(h, 0, 36);
    WriteUInt32LE(h, 0, 38);
    WriteUInt32LE(h, offset, 42);
    header := h[..];
    assert header == h[..46];
  }

  method WriteEndRecord(count: nat, size: nat, offset: nat) returns (record: Bytes)
    requires count < LIMIT16 && size < LIMIT32 && offset < LIMIT32
    ensures record == EndRecord(count, size, offset)
  {
    hide LE16, LE32;
    var h := new bv8[22](_ => 0);
    WriteUInt32LE(h, END_SIGNATURE, 0);
    WriteUInt16LE(h, 0, 4);
    WriteUInt16LE(h, 0, 6);
    WriteUInt16LE(h, count, 8);
    WriteUInt16LE(h, count, 10);
    WriteUInt32LE(h, size, 12);
    WriteUInt32LE(h, offset, 16);
    WriteUInt16LE(h, 0, 20);
    record := h[..];
    assert record == h[..22];
    assert [] + LE32(END_SIGNATURE) == LE32(END_SIGNATURE);
  }

  /** `None` is the RangeError a field write raises for a value its width cannot hold. */
  method BuildZipBuffer(entries: seq<Entry>) returns (zip: Option<Bytes>)
    ensures zip.Some? <==> Fits(RecordedAll(entries))
    ensures zip.Some? ==> zip.value == Image(RecordedAll(entries))
  {
    hide LocalHeader, CentralHeader, EndRecord, Checksum, CrcOf, Encodable;
    ghost var ms := RecordedAll(entries);
    var locals, centrals, offset := [], [], 0;
    for i := 0 to |entries|
      invariant Placeable(ms[..i])
      invariant locals == Locals(ms[..i]) && centrals == Centrals(ms[..i]) && offset == |locals|
    {
      var entry := entries[i];
      var crc := Compute(entry.data);
      var m := Member(entry.name, entry.data, crc as nat);
      CrcIsRecorded(entry, crc);
      assert ms[..i + 1][..i] == ms[..i] && ms[..i + 1][i] == m;
      if |entry.name| >= LIMIT16 || |entry.data| >= LIMIT32 || offset >= LIMIT32 {
        TooLarge(ms, i);
        return None;
      }
      CanEncode(m);
      PlaceableNext(ms, i);
      var localHeader := WriteLocalHeader(m);
      var localEntry := localHeader + entry.name + entry.data;
      locals := locals + localEntry;
      var centralHeader := WriteCentralHeader(m, offset);
      centrals := centrals + (centralHeader + entry.name);
      offset := offset + |localEntry|;
    }
    assert ms[..|entries|] == ms;
    if |entries| >= LIMIT16 || |centrals| >= LIMIT32 || offset >= LIMIT32 {
      return None;
    }
    var end := WriteEndRecord(|entries|, |centrals|, offset);
    zip := Some(locals + centrals + end);
  }

  lemma CrcIsRecorded(e: Entry, crc: bv32)
    requires crc == Checksum(e.data)
    ensures Member(e.name, e.data, crc as nat) == Recorded(e)
  {}

  lemma CanEncode(m: Member)
    ensures m.crc < LIMIT32 ==> (Encodable(m) <==> |m.name| < LIMIT16 && |m.data| < LIMIT32)
    ensures Encodable(m) ==> |m.name| < LIMIT16 && |m.data| < LIMIT32
  {}

  lemma TooLarge(ms: seq<Member>, i: nat)
    requires i < |ms| && Placeable(ms[..i])
    requires |ms[i].name| >= LIMIT16 || |ms[i].data| >= LIMIT32 || |Locals(ms[..i])| >= LIMIT32
    ensures !Fits(ms)
  {}

  lemma PlaceableNext(ms: seq<Member>, i: nat)
    requires i < |ms| && Placeable(ms[..i]) && Encodable(ms[i]) && |Locals(ms[..i])| < LIMIT32
    ensures Placeable(ms[..i + 1])
  {
    hide Encodable, Locals;
    var next := ms[..i + 1];
    assert forall j :: 0 <= j < i ==> next[j] == ms[..i][j];
    forall j | 0 <= j < |next| ensures |Locals(next[..j])| < LIMIT32 {
      assert next[..j] == ms[..j];
      if j < i {
        assert ms[..i][..j] == ms[..j];
      }
    }
  }

  // ----- A reader: end record, central directory, local headers -----

  /** The signatures are those of PKWARE APPNOTE.TXT; the reader knows version 2.0, no flags and stored
      contents. What it returns are the contents behind one central header, or `None` when the local header is not
      there, disagrees with the central one, or the contents fail their CRC. */
  function ReadLocal(z: Bytes, p: nat, name: Bytes, crc: nat, size: nat): Option<Member> {
    if p + 30 > |z| || U32(z, p) != 0x0403_4B50 then None
    else if U16(z, p + 4) > 20 || U16(z, p + 6) != 0 || U16(z, p + 8) != 0 then None
    else if U32(z, p + 14) != crc || U32(z, p + 18) != size || U32(z, p + 22) != size then None
    else
      var n, extra := U16(z, p + 26), U16(z, p + 28);
      var start := p + 30 + n + extra;
      if start + size > |z| || z[p + 30..p + 30 + n] != name then None
      else
        var data := z[start..start + size];
        if CrcOf(data) != crc then None else Some(Member(name, data, crc))
  }

  /** The `count` members listed from offset `p`; the list has to end exactly at `end`. */
  function ReadCentral(z: Bytes, p: nat, count: nat, end: nat): Option<seq<Member>>
    decreases count
  {
    if count == 0 then (if p == end then Some([]) else None)
    else if p + 46 > |z| || U32(z, p) != 0x0201_4B50 then None
    else if U16(z, p + 6) > 20 || U16(z, p + 8) != 0 || U16(z, p + 10) != 0 then None
    else
      var n, extra, comment := U16(z, p + 28), U16(z, p + 30), U16(z, p + 32);
      var next := p + 46 + n + extra + comment;
      if next > |z| || U32(z, p + 20) != U32(z, p + 24) then None
      else
        var first := ReadLocal(z, U32(z, p + 42), z[p + 46..p + 46 + n], U32(z, p + 16), U32(z, p + 20));
        var rest := ReadCentral(z, next, count - 1, end);
        if first.None? || rest.None? then None else Some([first.value] + rest.value)
  }

  function ReadArchive(z: Bytes): Option<seq<Member>> {
    if |z| < 22 then None
    else
      var p := |z| - 22;
      if U32(z, p) != 0x0605_4B50 || U16(z, p + 8) != U16(z, p + 10) || U16(z, p + 20) != 0 then None
      else if U32(z, p + 16) + U32(z, p + 12) != p then None
      else ReadCentral(z, U32(z, p + 16), U16(z, p + 10), p)
  }

  // ----- Where the records land -----

  lemma SharedFieldsAt(start: Bytes, m: Member, s: Bytes, p: nat)
    requires Encodable(m) && At(s, p, WithShared(start, m))
    ensures At(s, p, start) && p + |start| + 26 <= |s|
    ensures U16(s, p + |start|) == 20 && U16(s, p + |start| + 2) == 0 && U16(s, p + |start| + 4) == 0
    ensures U16(s, p + |start| + 6) == 0 && U16(s, p + |start| + 8) == 0 && U32(s, p + |start| + 10) == m.crc
    ensures U32(s, p + |start| + 14) == U32(s, p + |start| + 18) == |m.data|
    ensures U16(s, p + |start| + 22) == |m.name| && U16(s, p + |start| + 24) == 0
  {
    hide LE16, LE32, U16, U32, At;
    var w, z := LE16(20), LE16(0);
    var crc, size, name := LE32(m.crc), LE32(|m.data|), LE16(|m.name|);
    AtSplit(s, p, start + w + z + z + z + z + crc + size + size + name, z);
    AtSplit(s, p, start + w + z + z + z + z + crc + size + size, name);
    AtSplit(s, p, start + w + z + z + z + z + crc + size, size);
    AtSplit(s, p, start + w + z + z + z + z + crc, size);
    AtSplit(s, p, start + w + z + z + z + z, crc);
    AtSplit(s, p, start + w + z + z + z, z);
    AtSplit(s, p, start + w + z + z, z);
    AtSplit(s, p, start + w + z, z);
    AtSplit(s, p, start + w, z);
    AtSplit(s, p, start, w);
    var q := p + |start|;
    Read16(s, q, 20);
    Read16(s, q + 2, 0);
    Read16(s, q + 4, 0);
    Read16(s, q + 6, 0);
    Read16(s, q + 8, 0);
    Read32(s, q + 10, m.crc);
    Read32(s, q + 14, |m.data|);
    Read32(s, q + 18, |m.data|);
    Read16(s, q + 22, |m.name|);
    Read16(s, q + 24, 0);
  }

  /** Every field of a local header, at the offset APPNOTE.TXT section 4.3.7 gives it, then name and contents. */
  lemma LocalFieldsAt(m: Member, s: Bytes, p: nat)
    requires Encodable(m) && At(s, p, LocalEntry(m))
    ensures p + 30 + |m.name| + |m.data| <= |s|
    ensures U32(s, p) == 0x0403_4B50 && U16(s, p + 4) == 20
    ensures U16(s, p + 6) == 0 && U16(s, p + 8) == 0 && U16(s, p + 10) == 0 && U16(s, p + 12) == 0
    ensures U32(s, p + 14) == m.crc
    ensures U32(s, p + 18) == U32(s, p + 22) == |m.data|
    ensures U16(s, p + 26) == |m.name| && U16(s, p + 28) == 0
    ensures At(s, p + 30, m.name) && At(s, p + 30 + |m.name|, m.data)
  {
    hide LE16, LE32, U16, U32, At, WithShared;
    AtSplit(s, p, LocalHeader(m) + m.name, m.data);
    AtSplit(s, p, LocalHeader(m), m.name);
    SharedFieldsAt(LE32(LOCAL_SIGNATURE), m, s, p);
    Read32(s, p, LOCAL_SIGNATURE);
    AtBounds(s, p + 30 + |m.name|, m.data);
  }

  lemma AtBounds(s: Bytes, p: nat, piece: Bytes)
    requires At(s, p, piece)
    ensures p + |piece| <= |s| && s[p..p + |piece|] == piece
  {}

  /** Every field of a central header, at the offset APPNOTE.TXT section 4.3.12 gives it, then the name. */
  lemma CentralFieldsAt(m: Member, offset: nat, s: Bytes, p: nat)
    requires Encodable(m) && offset < LIMIT32 && At(s, p, CentralEntry(m, offset))
    ensures p + 46 + |m.name| <= |s|
    ensures U32(s, p) == 0x0201_4B50 && U16(s, p + 4) == 20 && U16(s, p + 6) == 20
    ensures U16(s, p + 8) == 0 && U16(s, p + 10) == 0 && U16(s, p + 12) == 0 && U16(s, p + 14) == 0
    ensures U32(s, p + 16) == m.crc
    ensures U32(s, p + 20) == U32(s, p + 24) == |m.data|
    ensures U16(s, p + 28) == |m.name| && U16(s, p + 30) == 0 && U16(s, p + 32) == 0
    ensures U16(s, p + 34) == 0 && U16(s, p + 36) == 0 && U32(s, p + 38) == 0
    ensures U32(s, p + 42) == offset && At(s, p + 46, m.name)
  {
    hide LE16, LE32, U16, U32, At, WithShared;
    var start, z := LE32(CENTRAL_SIGNATURE) + LE16(20), LE16(0);
    var shared := WithShared(start, m);
    AtSplit(s, p, CentralHeader(m, offset), m.name);
    AtSplit(s, p, shared + z + z + z + LE32(0), LE32(offset));
    AtSplit(s, p, shared + z + z + z, LE32(0));
    AtSplit(s, p, shared + z + z, z);
    AtSplit(s, p, shared + z, z);
    AtSplit(s, p, shared, z);
    SharedFieldsAt(start, m, s, p);
    AtSplit(s, p, LE32(CENTRAL_SIGNATURE), LE16(20));
    Read32(s, p, CENTRAL_SIGNATURE);
    Read16(s, p + 4, 20);
    Read16(s, p + 32, 0);
    Read16(s, p + 34, 0);
    Read16(s, p + 36, 0);
    Read32(s, p + 38, 0);
    Read32(s, p + 42, offset);
    AtBounds(s, p + 46, m.name);
  }

  /** Every field of the end record, at the offset APPNOTE.TXT section 4.3.16 gives it. */
  lemma EndFieldsAt(count: nat, size: nat, offset: nat, s: Bytes, p: nat)
    requires count < LIMIT16 && size < LIMIT32 && offset < LIMIT32
    requires At(s, p, EndRecord(count, size, offset))
    ensures p + 22 <= |s|
    ensures U32(s, p) == 0x0605_4B50 && U16(s, p + 4) == 0 && U16(s, p + 6) == 0
    ensures U16(s, p + 8) == U16(s, p + 10) == count
    ensures U32(s, p + 12) == size && U32(s, p + 16) == offset && U16(s, p + 20) == 0
  {
    hide LE16, LE32, U16, U32, At;
    var sig, z, n := LE32(END_SIGNATURE), LE16(0), LE16(count);
    AtSplit(s, p, sig + z + z + n + n + LE32(size) + LE32(offset), z);
    AtSplit(s, p, sig + z + z + n + n + LE32(size), LE32(offset));
    AtSplit(s, p, sig + z + z + n + n, LE32(size));
    AtSplit(s, p, sig + z + z + n, n);
    AtSplit(s, p, sig + z + z, n);
    AtSplit(s, p, sig + z, z);
    AtSplit(s, p, sig, z);
    Read32(s, p, END_SIGNATURE);
    Read16(s, p + 4, 0);
    Read16(s, p + 6, 0);
    Read16(s, p + 8, count);
    Read16(s, p + 10, count);
    Read32(s, p + 12, size);
    Read32(s, p + 16, offset);
    Read16(s, p + 20, 0);
  }

  /** The local header of member `i` starts right after the local entries before it. */
  lemma {:induction false} LocalLandsAt(ms: seq<Member>, i: nat, s: Bytes, p: nat)
    requires i < |ms| && AllEncodable(ms) && At(s, p, Locals(ms))
    ensures At(s, p + |Locals(ms[..i])|, LocalEntry(ms[i]))
    decreases |ms|
  {
    hide At, LocalEntry;
    var k := |ms| - 1;
    AtSplit(s, p, Locals(ms[..k]), LocalEntry(ms[k]));
    if i < k {
      LocalLandsAt(ms[..k], i, s, p);
      assert ms[..k][..i] == ms[..i];
    }
  }

  lemma {:induction false} CentralLandsAt(ms: seq<Member>, i: nat, s: Bytes, p: nat)
    requires i < |ms| && Placeable(ms) && At(s, p, Centrals(ms))
    ensures Placeable(ms[..i]) && |Locals(ms[..i])| < LIMIT32
    ensures At(s, p + |Centrals(ms[..i])|, CentralEntry(ms[i], |Locals(ms[..i])|))
    decreases |ms|
  {
    hide At, CentralEntry, Locals;
    var k := |ms| - 1;
    PlaceablePrefix(ms, k);
    PlaceablePrefix(ms, i);
    AtSplit(s, p, Centrals(ms[..k]), CentralEntry(ms[k], |Locals(ms[..k])|));
    if i < k {
      CentralLandsAt(ms[..k], i, s, p);
      assert ms[..k][..i] == ms[..i];
    }
  }

  // ----- Reading an archive back -----

  predicate Sound(m: Member) {
    CrcOf(m.data) == m.crc
  }

  predicate AllSound(ms: seq<Member>) {
    forall i :: 0 <= i < |ms| ==> Sound(ms[i])
  }

  lemma ReadLocalBack(m: Member, s: Bytes, p: nat)
    requires Encodable(m) && At(s, p, LocalEntry(m))
    ensures ReadLocal(s, p, m.name, m.crc, |m.data|) == if Sound(m) then Some(m) else None
  {
    hide U16, U32, CrcOf, LocalEntry;
    LocalFieldsAt(m, s, p);
  }

  /** One turn of the reader over a central header and the local entry it points at. */
  lemma ReadCentralStep(m: Member, offset: nat, s: Bytes, p: nat, count: nat, end: nat)
    requires Encodable(m) && offset < LIMIT32 && 0 < count
    requires At(s, p, CentralEntry(m, offset)) && At(s, offset, LocalEntry(m))
    ensures var rest := ReadCentral(s, p + 46 + |m.name|, count - 1, end);
            ReadCentral(s, p, count, end)
            == if Sound(m) && rest.Some? then Some([m] + rest.value) else None
  {
    hide U16, U32, LocalEntry, CentralEntry, Sound, ReadLocal;
    CentralFieldsAt(m, offset, s, p);
    ReadLocalBack(m, s, offset);
  }

  lemma AllSoundFrom(ms: seq<Member>, i: nat)
    requires i < |ms|
    ensures AllSound(ms[i..]) <==> Sound(ms[i]) && AllSound(ms[i + 1..])
    ensures ms[i..] == [ms[i]] + ms[i + 1..]
  {
    hide Sound;
    var tail, rest := ms[i..], ms[i + 1..];
    assert tail == [ms[i]] + rest;
    if AllSound(tail) {
      forall j | 0 <= j < |rest| ensures Sound(rest[j]) {
        assert rest[j] == tail[j + 1];
      }
    }
  }

  lemma {:induction false} ReadCentralBack(ms: seq<Member>, i: nat, s: Bytes, base: nat)
    requires i <= |ms| && Placeable(ms) && Placeable(ms[..i])
    requires At(s, 0, Locals(ms)) && At(s, base, Centrals(ms))
    ensures ReadCentral(s, base + |Centrals(ms[..i])|, |ms| - i, base + |Centrals(ms)|)
            == if AllSound(ms[i..]) then Some(ms[i..]) else None
    decreases |ms| - i
  {
    hide At, Locals, LocalEntry, CentralEntry, Sound, AllSound, ReadCentral;
    if i == |ms| {
      assert ms[..i] == ms && ms[i..] == [];
      NothingLeft(s, base + |Centrals(ms)|);
    } else {
      var m, p := ms[i], base + |Centrals(ms[..i])|;
      CentralLandsAt(ms, i, s, base);
      LocalLandsAt(ms, i, s, 0);
      PlaceablePrefix(ms, i + 1);
      assert ms[..i + 1][..i] == ms[..i];
      ReadCentralStep(m, |Locals(ms[..i])|, s, p, |ms| - i, base + |Centrals(ms)|);
      ReadCentralBack(ms, i + 1, s, base);
      AllSoundFrom(ms, i);
    }
  }

  lemma NothingLeft(s: Bytes, p: nat)
    ensures ReadCentral(s, p, 0, p) == Some([]) && AllSound([])
  {}

  lemma NoCentrals()
    ensures Placeable([]) && Centrals([]) == []
  {}

  /** Any archive image reads back as its members in order if every recorded CRC is that of the
      stored contents, and is refused otherwise. */
  lemma ReadBack(ms: seq<Member>)
    requires Fits(ms)
    ensures ReadArchive(Image(ms)) == if AllSound(ms) then Some(ms) else None
  {
    hide U16, U32, Locals, Centrals, EndRecord, AllSound, ReadCentral;
    var z := Image(ms);
    var l, c, e := Locals(ms), Centrals(ms), EndRecord(|ms|, |Centrals(ms)|, |Locals(ms)|);
    AtSplit(z, 0, l + c, e);
    AtSplit(z, 0, l, c);
    EndFieldsAt(|ms|, |c|, |l|, z, |l| + |c|);
    assert ms[..0] == [] && ms[0..] == ms;
    NoCentrals();
    ReadCentralBack(ms, 0, z, |l|);
  }

  /** The archive of any expressible entry list reads back as exactly the same names, contents
      and CRCs in the same order. */
  lemma RoundTrip(entries: seq<Entry>)
    requires Fits(RecordedAll(entries))
    ensures ReadArchive(Image(RecordedAll(entries))) == Some(RecordedAll(entries))
  {
    ReadBack(RecordedAll(entries));
  }

  lemma ArchiveInjective(a: seq<Entry>, b: seq<Entry>)
    requires Fits(RecordedAll(a)) && Fits(RecordedAll(b))
    requires Image(RecordedAll(a)) == Image(RecordedAll(b))
    ensures a == b
  {
    RoundTrip(a);
    RoundTrip(b);
    var ra, rb := RecordedAll(a), RecordedAll(b);
    assert |a| == |b|;
    forall i | 0 <= i < |a| ensures a[i] == b[i] {
      assert ra[i] == rb[i];
    }
  }

  // ----- A damaged archive -----

  /** The stored contents of member `i` replaced, every header left as written. */
  function Damaged(ms: seq<Member>, i: nat, data: Bytes): (r: seq<Member>)
    requires i < |ms|
    ensures |r| == |ms|
  {
    ms[i := ms[i].(data := data)]
  }

  lemma HeadersIgnoreContents(m: Member, data: Bytes, offset: nat)
    requires Encodable(m) && |data| == |m.data| && offset < LIMIT32
    ensures CentralEntry(m.(data := data), offset) == CentralEntry(m, offset)
  {}

  lemma DamagedPrefix(ms: seq<Member>, i: nat, data: Bytes, k: nat)
    requires i < |ms| && k <= |ms|
    ensures Damaged(ms, i, data)[..k] == if i < k then Damaged(ms[..k], i, data) else ms[..k]
  {}

  lemma {:induction false} DamageKeepsLengths(ms: seq<Member>, i: nat, data: Bytes)
    requires i < |ms| && |data| == |ms[i].data| && AllEncodable(ms)
    ensures AllEncodable(Damaged(ms, i, data))
    ensures |Locals(Damaged(ms, i, data))| == |Locals(ms)|
    decreases |ms|
  {
    hide LocalEntry;
    var k := |ms| - 1;
    DamagedPrefix(ms, i, data, k);
    if i < k {
      DamageKeepsLengths(ms[..k], i, data);
    }
  }

  lemma {:induction false} DamageKeepsLayout(ms: seq<Member>, i: nat, data: Bytes)
    requires i < |ms| && |data| == |ms[i].data| && Placeable(ms)
    ensures Placeable(Damaged(ms, i, data))
    ensures Centrals(Damaged(ms, i, data)) == Centrals(ms)
    decreases |ms|
  {
    hide Locals, CentralEntry, Damaged;
    var k, ds := |ms| - 1, Damaged(ms, i, data);
    DamageKeepsLengths(ms, i, data);
    forall j | 0 <= j < |ds| ensures |Locals(ds[..j])| < LIMIT32 {
      DamagedPrefix(ms, i, data, j);
      if i < j {
        DamageKeepsLengths(ms[..j], i, data);
      }
    }
    PlaceablePrefix(ms, k);
    DamagedPrefix(ms, i, data, k);
    if i < k {
      DamageKeepsLengths(ms[..k], i, data);
      DamageKeepsLayout(ms[..k], i, data);
      DamagedElsewhere(ms, i, data, k);
    } else {
      HeadersIgnoreContents(ms[k], data, |Locals(ms[..k])|);
      DamagedElsewhere(ms, i, data, k);
    }
  }

  lemma DamagedElsewhere(ms: seq<Member>, i: nat, data: Bytes, k: nat)
    requires i < |ms| && k < |ms|
    ensures Damaged(ms, i, data)[k] == if k == i then ms[k].(data := data) else ms[k]
  {}

  /** The bytes of `z` from `p` on replaced by `y`. */
  function Spliced(z: Bytes, p: nat, y: Bytes): (r: Bytes)
    requires p + |y| <= |z|
    ensures |r| == |z|
  {
    z[..p] + y + z[p + |y|..]
  }

  lemma SpliceLeft(a: Bytes, b: Bytes, p: nat, y: Bytes)
    requires p + |y| <= |a|
    ensures Spliced(a + b, p, y) == Spliced(a, p, y) + b
    ensures (a + b)[p..p + |y|] == a[p..p + |y|]
  {}

  lemma SpliceRight(a: Bytes, b: Bytes, p: nat, y: Bytes)
    requires p + |y| <= |b|
    ensures Spliced(a + b, |a| + p, y) == a + Spliced(b, p, y)
    ensures (a + b)[|a| + p..|a| + p + |y|] == b[p..p + |y|]
  {}

  lemma SpliceMiddle(before: Bytes, x: Bytes, y: Bytes, after: Bytes)
    requires |x| == |y|
    ensures Spliced(before + x + after, |before|, y) == before + y + after
    ensures (before + x + after)[|before|..|before| + |y|] == x
  {}

  lemma LocalHeaderIgnoresContents(m: Member, data: Bytes)
    requires Encodable(m) && |data| == |m.data|
    ensures LocalHeader(m.(data := data)) == LocalHeader(m)
  {}

  lemma LocalsLast(ms: seq<Member>)
    requires AllEncodable(ms) && ms != []
    ensures Locals(ms) == Locals(ms[..|ms| - 1]) + LocalEntry(ms[|ms| - 1])
  {}

  /** Where the byte at `at` of the stored contents of member `i` lies in the archive. */
  function ContentsAt(ms: seq<Member>, i: nat, at: nat): nat
    requires i < |ms| && AllEncodable(ms)
  {
    |Locals(ms[..i])| + 30 + |ms[i].name| + at
  }

  /** The local entry is its header, the name and the contents; the header ignores the contents. */
  lemma LocalEntryContents(m: Member, before: Bytes, x: Bytes, y: Bytes, after: Bytes)
    requires Encodable(m) && m.data == before + x + after && |x| == |y|
    ensures var p := 30 + |m.name| + |before|;
            && p + |y| <= |LocalEntry(m)| && LocalEntry(m)[p..p + |x|] == x
            && LocalEntry(m.(data := before + y + after)) == Spliced(LocalEntry(m), p, y)
  {
    hide LocalHeader, Spliced;
    var front := LocalHeader(m) + m.name;
    LocalHeaderIgnoresContents(m, before + y + after);
    SpliceMiddle(before, x, y, after);
    SpliceRight(front, m.data, |before|, y);
  }

  lemma {:induction false} LocalsSpliced(ms: seq<Member>, i: nat, before: Bytes, x: Bytes, y: Bytes, after: Bytes)
    requires i < |ms| && AllEncodable(ms) && ms[i].data == before + x + after && |x| == |y|
    ensures var p, ds := ContentsAt(ms, i, |before|), Damaged(ms, i, before + y + after);
            && AllEncodable(ds) && p + |y| <= |Locals(ms)| && Locals(ms)[p..p + |x|] == x
            && Locals(ds) == Spliced(Locals(ms), p, y)
    decreases |ms|
  {
    hide Locals, LocalEntry, Spliced, Damaged;
    var k, p, data := |ms| - 1, ContentsAt(ms, i, |before|), before + y + after;
    var ds := Damaged(ms, i, data);
    DamageKeepsLengths(ms, i, data);
    DamagedPrefix(ms, i, data, k);
    DamagedElsewhere(ms, i, data, k);
    LocalsLast(ms);
    LocalsLast(ds);
    if i < k {
      assert ms[..k][..i] == ms[..i];
      LocalsSpliced(ms[..k], i, before, x, y, after);
      SpliceLeft(Locals(ms[..k]), LocalEntry(ms[k]), p, y);
    } else {
      LocalEntryContents(ms[k], before, x, y, after);
      SpliceRight(Locals(ms[..k]), LocalEntry(ms[k]), 30 + |ms[k].name| + |before|, y);
    }
  }

  /** Flipping bits of the written archive inside any stretch of at most four consecutive bytes of any
      stored contents is noticed: the damaged bytes are refused. */
  lemma BurstDamageRefused(entries: seq<Entry>, i: nat, before: Bytes, x: Bytes, y: Bytes, after: Bytes)
    requires Fits(RecordedAll(entries)) && i < |entries|
    requires entries[i].data == before + x + after && |x| == |y| <= 4 && x != y
    ensures var z, p := Image(RecordedAll(entries)), ContentsAt(RecordedAll(entries), i, |before|);
            && p + |y| <= |z| && z[p..p + |x|] == x
            && ReadArchive(z[..p] + y + z[p + |y|..]) == None
  {
    hide Checksum, Locals, Centrals, EndRecord, ReadArchive;
    var ms := RecordedAll(entries);
    var ds := Damaged(ms, i, before + y + after);
    DamageKeepsLengths(ms, i, before + y + after);
    DamageKeepsLayout(ms, i, before + y + after);
    BurstDetected(before, x, y, after);
    CrcInjective(entries[i].data, before + y + after);
    assert !Sound(ds[i]);
    ReadBack(ds);
    ImageSpliced(ms, i, before, x, y, after);
  }

  /** The image with the contents of one member replaced is the image with only those bytes replaced. */
  lemma {:induction false} ImageSpliced(ms: seq<Member>, i: nat, before: Bytes, x: Bytes, y: Bytes, after: Bytes)
    requires Fits(ms) && i < |ms| && ms[i].data == before + x + after && |x| == |y|
    ensures var p, ds := ContentsAt(ms, i, |before|), Damaged(ms, i, before + y + after);
            && Fits(ds) && p + |y| <= |Image(ms)| && Image(ms)[p..p + |x|] == x
            && Image(ds) == Spliced(Image(ms), p, y)
  {
    hide Locals, Centrals, EndRecord, Spliced;
    DamageKeepsLengths(ms, i, before + y + after);
    DamageKeepsLayout(ms, i, before + y + after);
    LocalsSpliced(ms, i, before, x, y, after);
    var l, rest := Locals(ms), Centrals(ms) + EndRecord(|ms|, |Centrals(ms)|, |Locals(ms)|);
    var p := ContentsAt(ms, i, |before|);
    SpliceLeft(l, rest, p, y);
    assert Image(ms) == l + rest;
    assert Image(Damaged(ms, i, before + y + after)) == Spliced(l, p, y) + rest;
  }

  lemma CrcInjective(a: Bytes, b: Bytes)
    requires Checksum(a) != Checksum(b)
    ensures CrcOf(a) != CrcOf(b)
  {
    WordFaithful(Checksum(a));
    WordFaithful(Checksum(b));
  }

  lemma WordFaithful(w: bv32)
    ensures (w as nat) as bv32 == w
  {}
}
