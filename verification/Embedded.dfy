/** Embedded sections in front of a payload (efp_c_api.cpp): the writer, the reader for one section, and
    the walk the C receive callback makes over all of them. */
module Embedded {
  import opened Wire
  import opened NackRanges
  import opened Results

  const LAST: Byte := 0x80
  const INLINE_PAYLOAD: Byte := 0x10
  const SIZE_LIMIT: nat := 0x1_0000_0000_0000_0000

  datatype Section = Section(kind: Byte, data: seq<Byte>)

  // ----- writing -----

  function TypeByte(kind: Byte, last: bool): Byte { if last && kind < LAST then kind + LAST else kind }

  /** The size field has 16 bits; a longer section is copied whole but announced modulo 65536. */
  function Wrap(kind: Byte, last: bool, section: seq<Byte>, payload: seq<Byte>): (f: seq<Byte>)
    ensures |f| == 3 + |section| + |payload|
  {
    [TypeByte(kind, last)] + Bytes16(|section| % 0x1_0000) + section + payload
  }

  /** Without a destination the call returns the size that is needed. */
  method AddEmbeddedData(dst: array?<Byte>, section: seq<Byte>, payload: seq<Byte>, kind: Byte, last: bool)
    returns (size: nat)
    requires dst != null ==> dst.Length >= 3 + |section| + |payload|
    modifies if dst == null then {} else {dst}
    ensures dst == null ==> size == |Wrap(kind, last, section, payload)|
    ensures dst != null ==> size == 0
    ensures dst != null ==> dst[..] == Wrap(kind, last, section, payload) + old(dst[3 + |section| + |payload|..])
  {
    var total := 3 + |section| + |payload|;
    if dst == null {
      return total;
    }
    dst[0] := TypeByte(kind, last);
    dst[1] := (|section| % 0x100) as Byte;
    dst[2] := (|section| / 0x100 % 0x100) as Byte;
    forall i | 0 <= i < |section| {
      dst[3 + i] := section[i];
    }
    forall i | 0 <= i < |payload| {
      dst[3 + |section| + i] := payload[i];
    }
    SizeBytes(|section|);
    assert dst[..3] == [TypeByte(kind, last)] + Bytes16(|section| % 0x1_0000);
    assert dst[3..3 + |section|] == section;
    assert dst[3 + |section|..total] == payload;
    assert dst[..] == dst[..3] + dst[3..3 + |section|] + dst[3 + |section|..total] + dst[total..];
    return 0;
  }

  lemma SizeBytes(n: nat)
    ensures Bytes16(n % 0x1_0000) == [(n % 0x100) as Byte, (n / 0x100 % 0x100) as Byte]
  {
    var q, m := n / 0x1_0000, n % 0x1_0000;
    var a, b := m % 0x100, m / 0x100;
    assert n == 0x100 * (0x100 * q + b) + a;
    assert n / 0x100 == 0x100 * q + b && n % 0x100 == a;
  }

  // ----- reading one section -----

  /** What the out-parameters are set to; `None` leaves them all alone, `Empty` the type. */
  datatype Extraction = None | Empty | Found(section: Section, payloadOffset: nat)

  function Extracted(frame: seq<Byte>): (Result, Extraction) {
    if |frame| < 3 then (InvalidParameter, None)
    else if frame[0] == 0 then (Ok, Empty)
    else
      var end := 3 + Read16(frame, 1);
      if end > |frame| then (BufferOutOfBounds, None)
      else (Ok, Found(Section(frame[0] % LAST, frame[3..end]), end))
  }

  /** The caller's buffer, if there is one, holds whatever the section brings. */
  method ExtractEmbeddedData(frame: seq<Byte>, buffer: array?<Byte>) returns (r: Result, e: Extraction)
    requires buffer != null && Extracted(frame).1.Found? ==> |Extracted(frame).1.section.data| <= buffer.Length
    modifies if buffer == null then {} else {buffer}
    ensures (r, e) == Extracted(frame)
    ensures buffer != null && e.Found? ==> buffer[..] == e.section.data + old(buffer[|e.section.data|..])
    ensures buffer != null && !e.Found? ==> buffer[..] == old(buffer[..])
  {
    if |frame| < 3 {
      return InvalidParameter, None;
    }
    var kind := frame[0];
    if kind == 0 {
      return Ok, Empty;
    }
    var size := Read16(frame, 1);
    if 3 + size > |frame| {
      return BufferOutOfBounds, None;
    }
    var data := frame[3..3 + size];
    if buffer != null {
      forall i | 0 <= i < size {
        buffer[i] := data[i];
      }
      assert buffer[..size] == data;
    }
    return Ok, Found(Section(kind % LAST, data), 3 + size);
  }

  // ----- the walk of the receive callback -----

  /** The sections reported from `at` on, and where the payload is taken to start. */
  function Walk(frame: seq<Byte>, at: nat): (seq<Section>, nat)
    decreases |frame| - at
  {
    if at + 3 > |frame| || frame[at] == 0 then ([], 0)
    else
      var next := at + 3 + Read16(frame, at + 1);
      var found := if next <= |frame| then [Section(frame[at] % LAST, frame[at + 3..next])] else [];
      if frame[at] >= LAST then (found, next)
      else (found + Walk(frame, next).0, Walk(frame, next).1)
  }

  /** One call of the user's frame callback: the payload's offset in the frame and the size passed on. */
  datatype Call = Call(sections: seq<Section>, offset: nat, size: Word64)

  function Received(frame: seq<Byte>, broken: bool, flags: Byte, wanted: bool): Call
    requires |frame| < SIZE_LIMIT
  {
    var (sections, offset) := if wanted && flags / INLINE_PAYLOAD % 2 == 1 && !broken then Walk(frame, 0) else ([], 0);
    Call(sections, offset, (|frame| - offset) % SIZE_LIMIT)
  }

  method ReceiveFrame(frame: seq<Byte>, broken: bool, flags: Byte, wanted: bool) returns (c: Call)
    requires |frame| < SIZE_LIMIT
    ensures c == Received(frame, broken, flags, wanted)
  {
    var payloadOffset := 0;
    var sections: seq<Section> := [];
    if wanted && flags / INLINE_PAYLOAD % 2 == 1 && !broken {
      var offset := 0;
      var more := true;
      while more && offset + 3 <= |frame|
        invariant more ==> payloadOffset == 0
        invariant more ==>
          sections + Walk(frame, offset).0 == Walk(frame, 0).0 && Walk(frame, offset).1 == Walk(frame, 0).1
        invariant !more ==> (sections, payloadOffset) == Walk(frame, 0)
        decreases |frame| - offset, more
      {
        var kind := frame[offset];
        assert sections + [] == sections;
        if kind == 0 {
          more := false;
        } else {
          var size := Read16(frame, offset + 1);
          ghost var rest := Walk(frame, offset + 3 + size).0;
          if offset + 3 + size <= |frame| {
            Associative(sections, [Section(kind % LAST, frame[offset + 3..offset + 3 + size])], rest);
            sections := sections + [Section(kind % LAST, frame[offset + 3..offset + 3 + size])];
          }
          offset := offset + 3 + size;
          if kind >= LAST {
            payloadOffset := offset;
            more := false;
          }
        }
      }
    }
    c := Call(sections, payloadOffset, (|frame| - payloadOffset) % SIZE_LIMIT);
  }

  // ----- round trip -----

  /** A user section: a type the marker leaves room for, and a size the field can hold. */
  predicate Proper(s: Section) { 0 < s.kind < LAST && |s.data| < 0x1_0000 }

  predicate AllProper(sections: seq<Section>) { forall i | 0 <= i < |sections| :: Proper(sections[i]) }

  /** The innermost section is written first and marked last, the others around it. */
  function Nested(sections: seq<Section>, payload: seq<Byte>): seq<Byte>
    requires sections != []
  {
    var s := sections[0];
    if |sections| == 1 then Wrap(s.kind, true, s.data, payload)
    else Wrap(s.kind, false, s.data, Nested(sections[1..], payload))
  }

  /** Where a wrapped section's parts are found, anywhere in a frame. */
  lemma WrapAt(before: seq<Byte>, kind: Byte, last: bool, section: seq<Byte>, payload: seq<Byte>)
    ensures var frame, at, n := before + Wrap(kind, last, section, payload), |before|, |section| % 0x1_0000;
      && at + 3 <= |frame| && frame[at] == TypeByte(kind, last) && Read16(frame, at + 1) == n
      && frame[at + 3..at + 3 + |section|] == section && frame[at + 3 + |section|..] == payload
      && frame == (before + Wrap(kind, last, section, [])) + payload
  {
    var frame, at := before + Wrap(kind, last, section, payload), |before|;
    var size := Bytes16(|section| % 0x1_0000);
    assert frame[at + 1] == size[0] && frame[at + 2] == size[1];
    hide Bytes16, TypeByte;
    assert Wrap(kind, last, section, payload) == Wrap(kind, last, section, []) + payload;
  }

  /** One round of the walk at a section that fits. */
  lemma WalkAt(frame: seq<Byte>, at: nat, s: Section, last: bool)
    requires Proper(s) && at + 3 + |s.data| <= |frame|
    requires frame[at] == TypeByte(s.kind, last) && Read16(frame, at + 1) == |s.data|
    requires frame[at + 3..at + 3 + |s.data|] == s.data
    ensures var next := at + 3 + |s.data|;
      Walk(frame, at) == if last then ([s], next) else ([s] + Walk(frame, next).0, Walk(frame, next).1)
  {
    assert frame[at] % LAST == s.kind;
  }

  lemma NestedStep(sections: seq<Section>, payload: seq<Byte>)
    requires sections != [] && AllProper(sections)
    ensures var s, last := sections[0], |sections| == 1;
      && Proper(s) && AllProper(sections[1..]) && |s.data| % 0x1_0000 == |s.data|
      && sections == [s] + sections[1..]
      && Nested(sections, payload) == 
           Wrap(s.kind, last, s.data, if last then payload else Nested(sections[1..], payload))
  {
    assert Proper(sections[0]);
    forall i | 0 <= i < |sections| - 1 ensures Proper(sections[1..][i]) { assert Proper(sections[i + 1]); }
  }

  lemma {:induction false} WalkNested(before: seq<Byte>, sections: seq<Section>, payload: seq<Byte>)
    requires sections != [] && AllProper(sections)
    ensures var frame := before + Nested(sections, payload);
      Walk(frame, |before|) == (sections, |frame| - |payload|)
    decreases |sections|
  {
    hide Walk, Wrap, Nested, Proper, AllProper, Read16, TypeByte;
    NestedStep(sections, payload);
    var s, last := sections[0], |sections| == 1;
    var inner := if last then payload else Nested(sections[1..], payload);
    var frame := before + Nested(sections, payload);
    WrapAt(before, s.kind, last, s.data, inner);
    WalkAt(frame, |before|, s, last);
    if last {
      assert sections == [s];
    } else {
      WalkNested(before + Wrap(s.kind, last, s.data, []), sections[1..], payload);
    }
  }

  /** Nest any non-empty list of sections in front of a payload, send it flagged, and receive it whole:
      the callback gets the sections in order and then exactly the payload. */
  lemma NestParse(sections: seq<Section>, payload: seq<Byte>, flags: Byte)
    requires sections != [] && AllProper(sections) && flags / INLINE_PAYLOAD % 2 == 1
    requires |Nested(sections, payload)| < SIZE_LIMIT
    ensures var frame := Nested(sections, payload);
      var c := Received(frame, false, flags, true);
      c.sections == sections && c.offset + c.size == |frame| && frame[c.offset..] == payload
  {
    hide Walk, Nested, AllProper, Proper;
    var frame := Nested(sections, payload);
    WalkNested([], sections, payload);
    assert [] + frame == frame;
    PayloadBehind(sections, payload);
    assert Received(frame, false, flags, true) == Call(sections, |frame| - |payload|, |payload|);
    hide Received;
  }

  lemma {:induction false} PayloadBehind(sections: seq<Section>, payload: seq<Byte>)
    requires sections != []
    ensures |Nested(sections, payload)| >= |payload|
    ensures Nested(sections, payload)[|Nested(sections, payload)| - |payload|..] == payload
    decreases |sections|
  {
    var frame := Nested(sections, payload);
    if |sections| > 1 {
      var inner := Nested(sections[1..], payload);
      PayloadBehind(sections[1..], payload);
      assert frame[|frame| - |inner|..] == inner;
      assert frame[|frame| - |payload|..] == inner[|inner| - |payload|..];
    }
  }

  /** Outside those bounds the section is not read back: the size field holds sizes up to 65535, type 0
      ends the walk, and a type of 128 and above reads as another type that is marked last. */
  lemma SectionRoundTrip(kind: Byte, section: seq<Byte>, payload: seq<Byte>)
    ensures Extracted(Wrap(kind, false, section, payload)) == (Ok, Found(Section(kind, section), 3 + |section|))
      <==> Proper(Section(kind, section))
  {
    WrapAt([], kind, false, section, payload);
    var frame := Wrap(kind, false, section, payload);
    assert [] + frame == frame;
    hide Wrap;
    if |section| < 0x1_0000 {
      assert |section| % 0x1_0000 == |section|;
    } else {
      assert 3 + |section| % 0x1_0000 < 3 + |section|;
    }
  }

  // ----- reader and walk agree -----

  /** The one-section reader does what the walk does first: the same section, and the same payload offset
      if it is marked last; after an unmarked one the walk goes on at that offset. */
  lemma ExtractIsFirstStep(frame: seq<Byte>)
    ensures var (r, e) := Extracted(frame);
      var (sections, offset) := Walk(frame, 0);
      && (e.Found? ==> sections != [] && sections[0] == e.section
                       && (frame[0] >= LAST ==> sections == [e.section] && offset == e.payloadOffset)
                       && (frame[0] < LAST ==> (sections[1..], offset) == Walk(frame, e.payloadOffset)))
      && (e.Empty? ==> sections == [] && offset == 0)
      && (e.None? ==> sections == [] && (offset == 0 || (r == BufferOutOfBounds && offset > |frame|)))
  {
    if |frame| >= 3 && frame[0] != 0 {
      var next := 3 + Read16(frame, 1);
      if next > |frame| { assert Walk(frame, next) == ([], 0); }
    }
  }

  // ----- where the payload is taken to start -----

  /** The walk ends at a section that is marked last but runs past the end of the frame. */
  predicate MarkedPastEnd(frame: seq<Byte>, at: nat)
    decreases |frame| - at
  {
    && at + 3 <= |frame| && frame[at] != 0
    && var next := at + 3 + Read16(frame, at + 1);
       if frame[at] >= LAST then next > |frame| else MarkedPastEnd(frame, next)
  }

  /** The payload handed on lies inside the frame exactly if that does not happen. */
  lemma {:induction false} PayloadInside(frame: seq<Byte>, at: nat)
    ensures Walk(frame, at).1 <= |frame| <==> !MarkedPastEnd(frame, at)
    decreases |frame| - at
  {
    if at + 3 <= |frame| && frame[at] != 0 && frame[at] < LAST {
      PayloadInside(frame, at + 3 + Read16(frame, at + 1));
    }
  }

  /** An instance: four bytes that announce a marked section of 65535. */
  lemma PayloadOutside()
    ensures var c := Received([0x81, 0xFF, 0xFF, 0], false, INLINE_PAYLOAD, true);
      c.sections == [] && c.offset == 65538 && c.size == SIZE_LIMIT - 65534
  {
  }
}
