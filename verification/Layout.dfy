/** Where each field lies on the wire (efp_internal.h, the packed structs): offsets from the first byte, the least
    significant byte first. */
module Layout {
  import opened Wire

  /** The bytes from `i` on, weighted by powers of 256, make up this number. */
  predicate Is16(s: seq<Byte>, i: nat, x: int) {
    i + 2 <= |s| && s[i] as int + 0x100 * s[i + 1] as int == x
  }

  function Four(s: seq<Byte>, i: nat): int
    requires i + 4 <= |s|
  {
    s[i] as int + 0x100 * s[i + 1] as int + 0x1_0000 * s[i + 2] as int + 0x100_0000 * s[i + 3] as int
  }

  predicate Is32(s: seq<Byte>, i: nat, x: int) { i + 4 <= |s| && Four(s, i) == x }

  predicate Is64(s: seq<Byte>, i: nat, x: int) { i + 8 <= |s| && Four(s, i) + 0x1_0000_0000 * Four(s, i + 4) == x }

  /** This is that frame, byte for byte. */
  predicate LaidOut(s: seq<Byte>, p: Packet) {
    match p
    case Type1(flags, stream, frameNo, fragmentNo, ofNo, payload) =>
      && |s| == 8 + |payload| && s[8..] == payload && s[0] as int == flags as int + 1 && s[1] == stream
      && Is16(s, 2, frameNo) && Is16(s, 4, fragmentNo) && Is16(s, 6, ofNo)
    case Type2(flags, stream, payloadType, size, frameNo, ofNo, type1Size, pts, diff, code, payload) =>
      && |s| == 27 + |payload| && s[27..] == payload && s[0] as int == flags as int + 2 && s[1] == stream
      && s[2] == payloadType && Is16(s, 3, size) && Is16(s, 5, frameNo) && Is16(s, 7, ofNo) && Is16(s, 9, type1Size)
      && Is64(s, 11, pts) && Is32(s, 19, diff) && Is32(s, 23, code)
    case Type3(flags, stream, frameNo, type1Size, ofNo, payload) =>
      && |s| == 8 + |payload| && s[8..] == payload && s[0] as int == flags as int + 3 && s[1] == stream
      && Is16(s, 2, frameNo) && Is16(s, 4, type1Size) && Is16(s, 6, ofNo)
  }

  lemma Digits4(s: seq<Byte>)
    requires |s| == 4
    ensures Four(s, 0) == FromLittleEndian(s)
  {
    assert s[1..][1..] == s[2..] && s[2..][1..] == s[3..] && s[3..][1..] == [];
    assert FromLittleEndian(s[3..]) == s[3] as int;
    assert FromLittleEndian(s[2..]) == s[2] as int + 0x100 * FromLittleEndian(s[3..]);
    assert FromLittleEndian(s[1..]) == s[1] as int + 0x100 * FromLittleEndian(s[2..]);
  }

  lemma Digits8(s: seq<Byte>)
    requires |s| == 8
    ensures Is64(s, 0, FromLittleEndian(s))
  {
    Digits4(s[..4]);
    Digits4(s[4..]);
    Halves(s, 4);
    Widths();
    hide FromLittleEndian, Range256;
  }

  lemma {:induction false} Halves(s: seq<Byte>, n: nat)
    requires n <= |s|
    ensures FromLittleEndian(s) == FromLittleEndian(s[..n]) + Range256(n) * FromLittleEndian(s[n..])
  {
    if n == 0 {
      assert s[0..] == s;
    } else {
      Halves(s[1..], n - 1);
      assert s[..n][1..] == s[1..][..n - 1] && s[1..][n - 1..] == s[n..];
      Scale(Range256(n - 1), FromLittleEndian(s[n..]));
    }
  }

  lemma Scale(r: nat, x: nat)
    ensures 0x100 * (r * x) == (0x100 * r) * x
  {
  }

  lemma Digits4At(s: seq<Byte>, i: nat)
    requires i + 4 <= |s|
    ensures Is32(s, i, Read32(s, i))
  {
    Digits4(s[i..i + 4]);
  }

  lemma Digits8At(s: seq<Byte>, i: nat)
    requires i + 8 <= |s|
    ensures Is64(s, i, Read64(s, i))
  {
    Digits8(s[i..i + 8]);
  }

  /** What is read from a frame is what its bytes say, and so what is written is laid out like that, too. */
  lemma DecodeLaidOut(s: seq<Byte>)
    requires Readable(s)
    ensures LaidOut(s, Decode(s))
  {
    hide Read32, Read64, Four;
    if GetFrameType(s[0]) == 2 {
      Digits8At(s, 11);
      Digits4At(s, 19);
      Digits4At(s, 23);
    }
  }

  lemma EncodeLaidOut(p: Packet)
    ensures LaidOut(Encode(p), p)
  {
    DecodeEncode(p);
    DecodeLaidOut(Encode(p));
    hide Encode, Decode;
  }

  /** There is one such packet, and one such frame. */
  lemma LayoutDecides(s: seq<Byte>, p: Packet)
    ensures LaidOut(s, p) <==> s == Encode(p)
  {
    EncodeLaidOut(p);
    if LaidOut(s, p) { SameLayout(s, Encode(p), p); }
    hide Encode;
  }

  lemma Same16(s: seq<Byte>, t: seq<Byte>, i: nat, x: int)
    requires Is16(s, i, x) && Is16(t, i, x)
    ensures s[i..i + 2] == t[i..i + 2]
  {
    assert s[i] == t[i] && s[i + 1] == t[i + 1];
  }

  /** A number has one remainder and one quotient. */
  lemma OneDigit(base: nat, a: nat, x: nat, b: nat, y: nat)
    requires a < base && b < base && a + x * base == b + y * base
    ensures a == b && x == y
  {
    if x < y { Farther(base, x, y); }
    if y < x { Farther(base, y, x); }
  }

  lemma {:induction false} Farther(base: nat, x: nat, y: nat)
    requires x < y
    ensures x * base + base <= y * base
  {
    Times(y - 1, base);
    if x < y - 1 { Farther(base, x, y - 1); }
  }

  lemma SameFour(s: seq<Byte>, t: seq<Byte>, i: nat)
    requires i + 4 <= |s| && i + 4 <= |t| && Four(s, i) == Four(t, i)
    ensures s[i..i + 4] == t[i..i + 4]
  {
    var a, b, c, d := s[i] as int, s[i + 1] as int, s[i + 2] as int, s[i + 3] as int;
    var e, f, g, h := t[i] as int, t[i + 1] as int, t[i + 2] as int, t[i + 3] as int;
    SameDigits(a, b, c, d, e, f, g, h);
  }

  lemma SameDigits(a: nat, b: nat, c: nat, d: nat, e: nat, f: nat, g: nat, h: nat)
    requires a < 0x100 && b < 0x100 && c < 0x100 && e < 0x100 && f < 0x100 && g < 0x100
    requires a + 0x100 * b + 0x1_0000 * c + 0x100_0000 * d == e + 0x100 * f + 0x1_0000 * g + 0x100_0000 * h
    ensures a == e && b == f && c == g && d == h
  {
    OneDigit(0x100, a, b + 0x100 * (c + 0x100 * d), e, f + 0x100 * (g + 0x100 * h));
    OneDigit(0x100, b, c + 0x100 * d, f, g + 0x100 * h);
    OneDigit(0x100, c, d, g, h);
  }

  lemma Same64(s: seq<Byte>, t: seq<Byte>, i: nat, x: int)
    requires Is64(s, i, x) && Is64(t, i, x)
    ensures s[i..i + 8] == t[i..i + 8]
  {
    hide Four;
    FourRange(s, i); FourRange(s, i + 4); FourRange(t, i); FourRange(t, i + 4);
    OneDigit(0x1_0000_0000, Four(s, i), Four(s, i + 4), Four(t, i), Four(t, i + 4));
    SameFour(s, t, i);
    SameFour(s, t, i + 4);
    assert s[i..i + 8] == s[i..i + 4] + s[i + 4..i + 8] && t[i..i + 8] == t[i..i + 4] + t[i + 4..i + 8];
  }

  lemma FourRange(s: seq<Byte>, i: nat)
    requires i + 4 <= |s|
    ensures 0 <= Four(s, i) < 0x1_0000_0000
  {
  }

  lemma SameLayout(s: seq<Byte>, t: seq<Byte>, p: Packet)
    requires LaidOut(s, p) && LaidOut(t, p)
    ensures s == t
  {
    match p
    case Type1(flags, stream, frameNo, fragmentNo, ofNo, payload) =>
      Same16(s, t, 2, frameNo); Same16(s, t, 4, fragmentNo); Same16(s, t, 6, ofNo);
      EightBytes(s, t);
    case Type2(flags, stream, payloadType, size, frameNo, ofNo, type1Size, pts, diff, code, payload) =>
      Same16(s, t, 3, size); Same16(s, t, 5, frameNo); Same16(s, t, 7, ofNo); Same16(s, t, 9, type1Size);
      Same64(s, t, 11, pts); SameFour(s, t, 19); SameFour(s, t, 23);
      Split27(s); Split27(t);
      assert s[..3] == [s[0], s[1], s[2]] == t[..3];
    case Type3(flags, stream, frameNo, type1Size, ofNo, payload) =>
      Same16(s, t, 2, frameNo); Same16(s, t, 4, type1Size); Same16(s, t, 6, ofNo);
      EightBytes(s, t);
  }

  lemma EightBytes(s: seq<Byte>, t: seq<Byte>)
    requires |s| >= 8 && |t| >= 8 && s[0] == t[0] && s[1] == t[1] && s[2..4] == t[2..4] && s[4..6] == t[4..6]
    requires s[6..8] == t[6..8] && s[8..] == t[8..]
    ensures s == t
  {
    assert s[..2] == [s[0], s[1]] == t[..2];
    assert s == s[..2] + s[2..4] + s[4..6] + s[6..8] + s[8..];
    assert t == t[..2] + t[2..4] + t[4..6] + t[6..8] + t[8..];
  }

  /** A NACK message: type 0, subtype 1, the number of entries, and then for each entry the stream, the superframe, the
      first fragment and how many more. */
  lemma NackLaidOut(entries: seq<NackEntry>, k: nat)
    requires k < |entries| < 0x100
    ensures var s, at, e := EncodeNack(entries), 3 + 6 * k, entries[k];
      && |s| == 3 + 6 * |entries| && s[0] == 0 && s[1] == 1 && s[2] as int == |entries|
      && s[at] == e.stream && Is16(s, at + 1, e.frameNo) && Is16(s, at + 3, e.fragmentNo) && s[at + 5] == e.extra
  {
    NackEntryRoundTrip(entries, k);
    hide EncodeEntries;
  }

  /** A bundle: type 4 with the flags, the number of members, and then the members, one behind the other. */
  lemma BundleLaidOut(flags: Flags, frames: seq<seq<Byte>>, size: nat, k: nat)
    requires k < |frames| < 0x100 && forall f <- frames :: |f| == size
    ensures var s := BundleHeader(flags, |frames| as Byte) + Flatten(frames);
      && s[0] as int == flags as int + 4 && s[1] as int == |frames| && |s| == 2 + |frames| * size
      && 0 <= 2 + k * size <= 2 + (k + 1) * size <= |s| && s[2 + k * size..2 + (k + 1) * size] == frames[k]
  {
    FlattenAt(frames, size, k);
    var s, t := BundleHeader(flags, |frames| as Byte) + Flatten(frames), Flatten(frames);
    assert s[2..] == t;
    assert s[2 + k * size..2 + (k + 1) * size] == t[k * size..(k + 1) * size];
  }

  lemma {:induction false} FlattenAt(frames: seq<seq<Byte>>, size: nat, k: nat)
    requires k < |frames| && forall f <- frames :: |f| == size
    ensures |Flatten(frames)| == |frames| * size
    ensures 0 <= k * size <= (k + 1) * size <= |Flatten(frames)|
    ensures Flatten(frames)[k * size..(k + 1) * size] == frames[k]
  {
    var rest := frames[1..];
    assert frames[0] in frames;
    if rest == [] {
      assert Flatten(rest) == [];
    } else {
      FlattenAt(rest, size, if k == 0 then 0 else k - 1);
      Times(|rest|, size);
      Times(k, size);
      if k > 0 {
        Times(k - 1, size);
        assert Flatten(frames)[size..] == Flatten(rest);
        assert Flatten(frames)[k * size..(k + 1) * size] == Flatten(rest)[(k - 1) * size..k * size];
      }
    }
  }

  lemma Times(k: int, size: int)
    ensures (k + 1) * size == k * size + size
  {
  }
}
