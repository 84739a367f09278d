/** The wire layer of efp_internal.h: packed little-endian headers, the type/flags byte
    and the NACK message, as encoders to bytes and decoders from bytes. */
module Wire {
  newtype Byte = x: int | 0 <= x < 0x100
  type Word16 = x: int | 0 <= x < 0x1_0000
  type Word32 = x: int | 0 <= x < 0x1_0000_0000
  type Word64 = x: int | 0 <= x < 0x1_0000_0000_0000_0000

  /** The four high bits of the first byte; the four low bits carry the frame type. */
  type Flags = f: Byte | f % 16 == 0

  const HEADER1: nat := 8
  const HEADER2: nat := 27
  const HEADER3: nat := 8
  const HEADER4: nat := 2

  const NACK_SUBTYPE: Byte := 1
  const UINT16_MAX: Word16 := 0xFFFF
  const UINT32_MAX: Word32 := 0xFFFF_FFFF
  const UINT64_MAX: Word64 := 0xFFFF_FFFF_FFFF_FFFF

  /** One fragment frame: header fields plus the bytes that follow the header. */
  datatype Packet =
    | Type1(flags: Flags, stream: Byte, frameNo: Word16, fragmentNo: Word16, ofNo: Word16,
            payload: seq<Byte>)
    | Type2(flags: Flags, stream: Byte, payloadType: Byte, sizeOfData: Word16, frameNo: Word16,
            ofNo: Word16, type1Size: Word16, pts: Word64, dtsPtsDiff: Word32, code: Word32,
            payload: seq<Byte>)
    | Type3(flags: Flags, stream: Byte, frameNo: Word16, type1Size: Word16, ofNo: Word16,
            payload: seq<Byte>)

  datatype NackEntry = NackEntry(stream: Byte, frameNo: Word16, fragmentNo: Word16, extra: Byte)

  // ----- first byte -----

  function GetFrameType(first: Byte): Byte { first % 16 }

  function GetFlags(first: Byte): Flags { first - first % 16 }

  function MakeFrameTypeByte(kind: Byte, flags: Byte): (first: Byte)
    requires kind < 16
    ensures GetFrameType(first) == kind && GetFlags(first) == GetFlags(flags)
  {
    kind + GetFlags(flags)
  }

  // ----- little-endian integers -----

  function Bytes16(x: Word16): seq<Byte> { [(x % 0x100) as Byte, (x / 0x100) as Byte] }

  function Read16(s: seq<Byte>, i: nat): Word16
    requires i + 2 <= |s|
  {
    s[i] as int + 0x100 * s[i + 1] as int
  }

  function LittleEndian(x: nat, n: nat): (s: seq<Byte>)
    ensures |s| == n
  {
    if n == 0 then [] else [(x % 0x100) as Byte] + LittleEndian(x / 0x100, n - 1)
  }

  function FromLittleEndian(s: seq<Byte>): nat {
    if s == [] then 0 else s[0] as int + 0x100 * FromLittleEndian(s[1..])
  }

  function Range256(n: nat): nat { if n == 0 then 1 else 0x100 * Range256(n - 1) }

  lemma {:induction false} LittleEndianRoundTrip(x: nat, n: nat)
    requires x < Range256(n)
    ensures FromLittleEndian(LittleEndian(x, n)) == x
  {
    if n != 0 {
      LittleEndianRoundTrip(x / 0x100, n - 1);
      assert LittleEndian(x, n)[1..] == LittleEndian(x / 0x100, n - 1);
    }
  }

  lemma {:induction false} FromLittleEndianRoundTrip(s: seq<Byte>)
    ensures FromLittleEndian(s) < Range256(|s|)
    ensures LittleEndian(FromLittleEndian(s), |s|) == s
  {
    if s != [] {
      FromLittleEndianRoundTrip(s[1..]);
      assert FromLittleEndian(s) / 0x100 == FromLittleEndian(s[1..]);
    }
  }

  lemma Widths()
    ensures Range256(4) == 0x1_0000_0000 && Range256(8) == 0x1_0000_0000_0000_0000
  {
    assert Range256(4) == 0x1_0000_0000;
    assert Range256(6) == 0x1_0000 * Range256(4);
    assert Range256(8) == 0x1_0000 * Range256(6);
  }

  function Read32(s: seq<Byte>, i: nat): Word32
    requires i + 4 <= |s|
  {
    FromLittleEndianRoundTrip(s[i..i + 4]); Widths();
    FromLittleEndian(s[i..i + 4])
  }

  function Read64(s: seq<Byte>, i: nat): Word64
    requires i + 8 <= |s|
  {
    FromLittleEndianRoundTrip(s[i..i + 8]); Widths();
    FromLittleEndian(s[i..i + 8])
  }

  // ----- fragment frames -----

  function Header(p: Packet): (h: seq<Byte>)
    ensures |h| == HeaderSize(p) && GetFrameType(h[0]) == Kind(p) && GetFlags(h[0]) == p.flags
  {
    match p
    case Type1(flags, stream, frameNo, fragmentNo, ofNo, _) =>
      [MakeFrameTypeByte(1, flags), stream] + Bytes16(frameNo) + Bytes16(fragmentNo) + Bytes16(ofNo)
    case Type2(flags, stream, payloadType, size, frameNo, ofNo, type1Size, pts, diff, code, _) =>
      [MakeFrameTypeByte(2, flags), stream, payloadType] + Bytes16(size) + Bytes16(frameNo) + Bytes16(ofNo)
      + Bytes16(type1Size) + LittleEndian(pts, 8) + LittleEndian(diff, 4) + LittleEndian(code, 4)
    case Type3(flags, stream, frameNo, type1Size, ofNo, _) =>
      [MakeFrameTypeByte(3, flags), stream] + Bytes16(frameNo) + Bytes16(type1Size) + Bytes16(ofNo)
  }

  function HeaderSize(p: Packet): nat { if p.Type2? then HEADER2 else HEADER1 }

  function Kind(p: Packet): Byte { if p.Type1? then 1 else if p.Type2? then 2 else 3 }

  function ByteAt(p: Packet, i: nat): Byte
    requires i < HeaderSize(p) + |p.payload|
  {
    if i == 0 then MakeFrameTypeByte(Kind(p), p.flags)
    else if i < HeaderSize(p) then Header(p)[i] else p.payload[i - HeaderSize(p)]
  }

  /** The frame of a packet, byte by byte: its header, and its payload behind that. */
  function Encode(p: Packet): (s: seq<Byte>)
    ensures |s| == HeaderSize(p) + |p.payload|
  {
    seq(HeaderSize(p) + |p.payload|, i requires 0 <= i < HeaderSize(p) + |p.payload| => ByteAt(p, i))
  }

  lemma EncodeIs(p: Packet)
    ensures Encode(p) == Header(p) + p.payload
  {
    HeaderStarts(p);
    hide Header, MakeFrameTypeByte;
  }

  lemma HeaderStarts(p: Packet)
    ensures Header(p)[0] == MakeFrameTypeByte(Kind(p), p.flags)
  {
  }

  function Decode1(s: seq<Byte>): (p: Packet)
    requires |s| >= HEADER1
    ensures p.Type1? && |p.payload| == |s| - HEADER1
  {
    Type1(GetFlags(s[0]), s[1], Read16(s, 2), Read16(s, 4), Read16(s, 6), s[HEADER1..])
  }

  function Decode2(s: seq<Byte>): (p: Packet)
    requires |s| >= HEADER2
    ensures p.Type2? && |p.payload| == |s| - HEADER2
  {
    Type2(GetFlags(s[0]), s[1], s[2], Read16(s, 3), Read16(s, 5), Read16(s, 7), Read16(s, 9),
          Read64(s, 11), Read32(s, 19), Read32(s, 23), s[HEADER2..])
  }

  function Decode3(s: seq<Byte>): (p: Packet)
    requires |s| >= HEADER3
    ensures p.Type3? && |p.payload| == |s| - HEADER3
  {
    Type3(GetFlags(s[0]), s[1], Read16(s, 2), Read16(s, 4), Read16(s, 6), s[HEADER3..])
  }

  /** The reading of a frame that its own type nibble selects, if the header fits. */
  predicate Readable(s: seq<Byte>) {
    s != [] && var kind := GetFrameType(s[0]);
    || (kind == 1 && |s| >= HEADER1) || (kind == 2 && |s| >= HEADER2) || (kind == 3 && |s| >= HEADER3)
  }

  function Decode(s: seq<Byte>): Packet
    requires Readable(s)
  {
    if GetFrameType(s[0]) == 1 then Decode1(s)
    else if GetFrameType(s[0]) == 2 then Decode2(s)
    else Decode3(s)
  }

  /** Every packet survives the wire. */
  lemma DecodeEncode(p: Packet)
    ensures Readable(Encode(p)) && Decode(Encode(p)) == p
    ensures GetFrameType(Encode(p)[0]) == Kind(p) && |Encode(p)| == HeaderSize(p) + |p.payload|
  {
    EncodeIs(p);
    assert Encode(p)[0] == Header(p)[0];
    if p.Type2? {
      DecodeEncode2(p);
    } else {
      assert Encode(p)[8..] == p.payload;
    }
  }

  lemma DecodeEncode2(p: Packet)
    requires p.Type2?
    ensures Decode2(Encode(p)) == p
  {
    var s := Encode(p);
    EncodeIs(p);
    Widths();
    LittleEndianRoundTrip(p.pts, 8);
    LittleEndianRoundTrip(p.dtsPtsDiff, 4);
    LittleEndianRoundTrip(p.code, 4);
    hide LittleEndian, FromLittleEndian, Range256, MakeFrameTypeByte, Bytes16;
    Pieces([MakeFrameTypeByte(2, p.flags), p.stream, p.payloadType], Bytes16(p.sizeOfData), Bytes16(p.frameNo),
           Bytes16(p.ofNo), Bytes16(p.type1Size), LittleEndian(p.pts, 8), LittleEndian(p.dtsPtsDiff, 4),
           LittleEndian(p.code, 4), p.payload);
    Read16At(s, 3, p.sizeOfData); Read16At(s, 5, p.frameNo); Read16At(s, 7, p.ofNo); Read16At(s, 9, p.type1Size);
  }

  /** Where the fields of a concatenated Type2 header lie. */
  lemma Pieces(a: seq<Byte>, b: seq<Byte>, c: seq<Byte>, d: seq<Byte>, e: seq<Byte>,
               f: seq<Byte>, g: seq<Byte>, h: seq<Byte>, t: seq<Byte>)
    requires |a| == 3 && |b| == |c| == |d| == |e| == 2 && |f| == 8 && |g| == |h| == 4
    ensures var s := a + b + c + d + e + f + g + h + t;
      && s[..3] == a && s[3..5] == b && s[5..7] == c && s[7..9] == d && s[9..11] == e
      && s[11..19] == f && s[19..23] == g && s[23..27] == h && s[27..] == t
      && s[0] == a[0] && s[1] == a[1] && s[2] == a[2]
  {
  }

  lemma Read16At(s: seq<Byte>, i: nat, x: Word16)
    requires i + 2 <= |s| && s[i..i + 2] == Bytes16(x)
    ensures Read16(s, i) == x
  {
    assert s[i] == s[i..i + 2][0] && s[i + 1] == s[i..i + 2][1];
  }

  /** Every readable frame is the encoding of exactly what was read: no header bit is lost. */
  lemma EncodeDecode(s: seq<Byte>)
    requires Readable(s)
    ensures Encode(Decode(s)) == s
  {
    hide Encode, Decode1, Decode2, Decode3, GetFrameType;
    if GetFrameType(s[0]) == 2 { EncodeDecode2(s); } else { EncodeDecode8(s); }
  }

  lemma EncodeDecode8(s: seq<Byte>)
    requires Readable(s) && GetFrameType(s[0]) != 2
    ensures Encode(Decode(s)) == s
  {
    hide Encode, Bytes16, Read16, MakeFrameTypeByte, GetFlags, GetFrameType;
    EncodeIs(Decode(s));
    Read16RoundTrip(s, 2); Read16RoundTrip(s, 4); Read16RoundTrip(s, 6);
    TypeByteBack(s[0]);
    Split8(s);
  }

  lemma Split8(s: seq<Byte>)
    requires |s| >= 8
    ensures s == [s[0], s[1]] + s[2..4] + s[4..6] + s[6..8] + s[8..]
  {
  }

  lemma Read16RoundTrip(s: seq<Byte>, i: nat)
    requires i + 2 <= |s|
    ensures Bytes16(Read16(s, i)) == s[i..i + 2]
  {
  }

  lemma Split27(s: seq<Byte>)
    requires |s| >= 27
    ensures s == s[..3] + s[3..5] + s[5..7] + s[7..9] + s[9..11] + s[11..19] + s[19..23] + s[23..27] + s[27..]
  {
  }

  lemma EncodeDecode2(s: seq<Byte>)
    requires |s| >= 27 && GetFrameType(s[0]) == 2
    ensures Encode(Decode2(s)) == s
  {
    hide Bytes16, Read16, LittleEndian, FromLittleEndian, MakeFrameTypeByte, GetFlags, Encode;
    EncodeIs(Decode2(s));
    TypeByteBack(s[0]);
    FromLittleEndianRoundTrip(s[11..19]);
    FromLittleEndianRoundTrip(s[19..23]);
    FromLittleEndianRoundTrip(s[23..27]);
    Read16RoundTrip(s, 3); Read16RoundTrip(s, 5); Read16RoundTrip(s, 7); Read16RoundTrip(s, 9);
    Split27(s);
    assert [s[0], s[1], s[2]] == s[..3];
  }

  lemma TypeByteBack(b: Byte)
    ensures GetFrameType(b) < 16 && MakeFrameTypeByte(GetFrameType(b), GetFlags(b)) == b
  {
  }

  // ----- Type4 bundle -----

  function Flatten(frames: seq<seq<Byte>>): seq<Byte> {
    if frames == [] then [] else frames[0] + Flatten(frames[1..])
  }

  function BundleHeader(flags: Byte, count: Byte): seq<Byte> { [MakeFrameTypeByte(4, flags), count] }

  // ----- NACK message -----

  function EncodeEntry(e: NackEntry): (s: seq<Byte>)
    ensures |s| == 6
  {
    [e.stream] + Bytes16(e.frameNo) + Bytes16(e.fragmentNo) + [e.extra]
  }

  function DecodeEntry(s: seq<Byte>, i: nat): NackEntry
    requires i + 6 <= |s|
  {
    NackEntry(s[i], Read16(s, i + 1), Read16(s, i + 3), s[i + 5])
  }

  function EncodeEntries(entries: seq<NackEntry>): (s: seq<Byte>)
    ensures |s| == 6 * |entries|
  {
    if entries == [] then [] else EncodeEntry(entries[0]) + EncodeEntries(entries[1..])
  }

  /** A three-byte header (type 0 without flags, subtype, entry count), then six bytes an entry. */
  function EncodeNack(entries: seq<NackEntry>): (s: seq<Byte>)
    requires |entries| < 0x100
  {
    [0, NACK_SUBTYPE, |entries| as Byte] + EncodeEntries(entries)
  }

  lemma {:induction false} EntryAt(entries: seq<NackEntry>, k: nat)
    requires k < |entries|
    ensures EncodeEntries(entries)[6 * k..6 * k + 6] == EncodeEntry(entries[k])
  {
    if k != 0 {
      EntryAt(entries[1..], k - 1);
      var s, tail := EncodeEntries(entries), EncodeEntries(entries[1..]);
      assert s[6..] == tail;
      assert s[6 * k..6 * k + 6] == tail[6 * (k - 1)..6 * (k - 1) + 6];
    }
  }

  /** What `receiveNack` reads at entry `k` of a message is the `k`-th entry written. */
  lemma NackEntryRoundTrip(entries: seq<NackEntry>, k: nat)
    requires k < |entries| < 0x100
    ensures |EncodeNack(entries)| == 3 + 6 * |entries|
    ensures DecodeEntry(EncodeNack(entries), 3 + 6 * k) == entries[k]
  {
    EntryAt(entries, k);
    var s, body, e := EncodeNack(entries), EncodeEntries(entries), EncodeEntry(entries[k]);
    assert s[3..] == body;
    assert s[3 + 6 * k..3 + 6 * k + 6] == body[6 * k..6 * k + 6] == e;
    EntryFields(s, 3 + 6 * k, entries[k]);
  }

  lemma EntryFields(s: seq<Byte>, i: nat, e: NackEntry)
    requires i + 6 <= |s| && s[i..i + 6] == EncodeEntry(e)
    ensures DecodeEntry(s, i) == e
  {
    var t := s[i..i + 6];
    assert s[i] == t[0] && s[i + 1] == t[1] && s[i + 2] == t[2];
    assert s[i + 3] == t[3] && s[i + 4] == t[4] && s[i + 5] == t[5];
  }
}
