/** The bucket class of efp.h: the fields a receiver updates in place and the frame memory behind them.
    Each method is proved to compute the functions of FrameMemory and ReceiverSpec. */
module BucketClass {
  import opened Wire
  import opened Fragmenter
  import opened FrameMemory
  import opened NackRanges
  import opened Results
  import opened ReceiverSpec

  lemma Type2At(a: Assembly)
    requires a.type3 > 0 ==> a.of > 0
    ensures Type2Offset(a) == if a.type3 > 0 then a.fragSize * (a.of - 1) + a.type3 else a.fragSize * a.of
  {
    SlotIsProduct(a.fragSize, a.of);
    if a.type3 > 0 { SlotIsProduct(a.fragSize, a.of - 1); }
  }

  lemma AcceptIs2(b: ReceiverSpec.Bucket, p: Packet)
    requires p.Type2? && b.asm.Ok() && Placeable(b.asm, p)
    ensures p.ofNo == b.asm.of && p.sizeOfData == |p.payload| && (b.asm.type3 > 0 ==> b.asm.of > 0)
    ensures Type2Offset(b.asm) + |p.payload| <= |b.asm.mem|
    ensures Type2Offset(b.asm) == if b.asm.type3 > 0 then b.asm.fragSize * (b.asm.of - 1) + b.asm.type3
      else b.asm.fragSize * b.asm.of
    ensures Accept(b, p) == b.(meta := b.meta.(payloadType := p.payloadType, code := p.code, pts := p.pts,
                                               flags := p.flags, dts := DtsFrom(p.pts, p.dtsPtsDiff)),
                               asm := Place2(b.asm, p.payload))
  {
    PlaceFits(b.asm, p);
    Type2At(b.asm);
  }

  lemma AcceptIs3(b: ReceiverSpec.Bucket, p: Packet)
    requires p.Type3? && b.asm.Ok() && Placeable(b.asm, p)
    ensures p.ofNo == b.asm.of > 0
    ensures Slot(b.asm.fragSize, b.asm.of - 1) + |p.payload| <= Slot(b.asm.fragSize, b.asm.of) <= |b.asm.mem|
    ensures b.asm.type2 > 0 ==> Slot(b.asm.fragSize, b.asm.of) + b.asm.type2 <= |b.asm.mem|
    ensures Accept(b, p) == b.(asm := Place3(b.asm, p.payload))
  {
    PlaceFits(b.asm, p);
  }

  class Bucket {
    var active: bool
    var payloadType: Byte
    var payloadCode: Word32
    var savedFrameNo: Word16
    var timeoutUs: int
    var fragmentCount: nat
    var ofFragmentNo: nat
    var deliveryOrder: int
    var fragmentSize: nat
    var type3Size: nat
    var type2Size: nat
    var pts: int
    var dts: int
    var streamId: Byte
    var sourceId: Byte
    var flags: Byte
    var firstArrivalUs: int
    var lastNackUs: int
    var nackCount: nat
    var receivedFragments: set<nat>
    var frame: array<Cell>
    var frameSize: nat

    ghost function Memory(): Assembly
      reads this, frame
    {
      Assembly(ofFragmentNo, fragmentSize, type3Size, type2Size, fragmentCount, receivedFragments, frame[..], frameSize)
    }

    ghost function View(): ReceiverSpec.Bucket
      reads this, frame
    {
      ReceiverSpec.Bucket(active, deliveryOrder, savedFrameNo,
                          Meta(payloadType, payloadCode, pts, dts, flags, streamId, sourceId),
                          Timing(timeoutUs, firstArrivalUs, lastNackUs, nackCount), Memory())
    }

    constructor ()
      ensures fresh(frame) && View() == Unused()
    {
      active, payloadType, payloadCode, savedFrameNo, timeoutUs := false, 0, UINT32_MAX, 0, 0;
      fragmentCount, ofFragmentNo, deliveryOrder, fragmentSize, type3Size, type2Size := 0, 0, INT64_MAX, 0, 0, 0;
      pts, dts, streamId, sourceId, flags := UINT64_MAX, UINT64_MAX, 0, 0, 0;
      firstArrivalUs, lastNackUs, nackCount, receivedFragments := 0, 0, 0, {};
      frame, frameSize := new Cell[0], 0;
    }

    // ----- frame memory -----

    /** memcpy. */
    method CopyIn(at: nat, bytes: seq<Byte>)
      requires at + |bytes| <= frame.Length
      modifies frame
      ensures frame[..] == Write(old(frame[..]), at, bytes)
    {
      forall i | 0 <= i < |bytes| {
        frame[at + i] := Written(bytes[i]);
      }
    }

    /** memmove: the areas may overlap. */
    method MoveWithin(from: nat, to: nat, n: nat)
      requires from + n <= frame.Length && to + n <= frame.Length
      modifies frame
      ensures frame[..] == Move(old(frame[..]), from, to, n)
    {
      forall i | 0 <= i < n {
        frame[to + i] := frame[from + i];
      }
    }

    // ----- the first fragment -----

    method Allocate(size: nat)
      modifies this`frame, this`frameSize
      ensures fresh(frame) && frame[..] == Blank(size) && frameSize == size
    {
      frame := new Cell[size](i => Uninit);
      frameSize := size;
      assert frame[..] == Blank(size);
    }

    /** The fields every opener sets alike, and the memory for the frame. */
    method Begin(order: int, p: Packet, no: nat, source: Byte, now: int, timeout: nat, fragSize: nat, size: nat)
      modifies this
      ensures fresh(frame) && frame[..] == Blank(size) && frameSize == size
      ensures Claimed(order, p, source) && Started(p, no, now, timeout, fragSize)
      ensures unchanged(this`payloadType, this`payloadCode, this`pts, this`dts, this`type2Size, this`type3Size)
    {
      hide Blank;
      Claim(order, p, source);
      Start(p, no, now, timeout, fragSize);
      Allocate(size);
    }

    ghost predicate Claimed(order: int, p: Packet, source: Byte)
      reads this
    {
      && active && deliveryOrder == order && savedFrameNo == p.frameNo
      && flags == p.flags && streamId == p.stream && sourceId == source
    }

    method Claim(order: int, p: Packet, source: Byte)
      modifies this`active, this`deliveryOrder, this`savedFrameNo, this`flags, this`streamId, this`sourceId
      ensures Claimed(order, p, source)
    {
      deliveryOrder := order;
      active := true;
      sourceId := source;
      flags := p.flags;
      streamId := p.stream;
      savedFrameNo := p.frameNo;
    }

    ghost predicate Started(p: Packet, no: nat, now: int, timeout: nat, fragSize: nat)
      reads this
    {
      && timeoutUs == now + timeout && firstArrivalUs == now && lastNackUs == 0 && nackCount == 0
      && ofFragmentNo == p.ofNo && fragmentSize == fragSize && fragmentCount == 1 && receivedFragments == {no}
    }

    method Start(p: Packet, no: nat, now: int, timeout: nat, fragSize: nat)
      modifies this`timeoutUs, this`firstArrivalUs, this`lastNackUs, this`nackCount
      modifies this`ofFragmentNo, this`fragmentSize, this`fragmentCount, this`receivedFragments
      ensures Started(p, no, now, timeout, fragSize)
    {
      receivedFragments := {no};
      timeoutUs := now + timeout;
      fragmentCount := 1;
      ofFragmentNo := p.ofNo;
      fragmentSize := fragSize;
      firstArrivalUs := now;
      lastNackUs := 0;
      nackCount := 0;
    }

    /** What only a Type2 frame knows. */
    method Describe(p: Packet)
      requires p.Type2?
      modifies this`pts, this`dts, this`payloadType, this`payloadCode, this`flags
      ensures payloadType == p.payloadType && payloadCode == p.code && flags == p.flags
      ensures pts == p.pts && dts == DtsFrom(p.pts, p.dtsPtsDiff)
    {
      payloadType := p.payloadType;
      payloadCode := p.code;
      flags := p.flags;
      pts := p.pts;
      dts := if p.dtsPtsDiff == UINT32_MAX then UINT64_MAX else p.pts - p.dtsPtsDiff;
    }

    method OpenType1(order: int, p: Packet, source: Byte, now: int, timeout: nat, info: StreamInfo)
      requires p.Type1? && InBounds(p)
      modifies this
      ensures fresh(frame)
      ensures View() == ReceiverSpec.Bucket(true, order, p.frameNo,
                          Meta(info.payloadType, info.code, UINT64_MAX, UINT64_MAX, p.flags, p.stream, source),
                          Timing(now + timeout, now, 0, 0), Open(p))
    {
      OpenFits(p);
      SlotIsProduct(|p.payload|, p.ofNo + 1);
      SlotIsProduct(|p.payload|, p.fragmentNo);
      hide Slot;
      type3Size, type2Size, pts, dts := 0, 0, UINT64_MAX, UINT64_MAX;
      payloadType, payloadCode := info.payloadType, info.code;
      Begin(order, p, p.fragmentNo, source, now, timeout, |p.payload|, |p.payload| * (p.ofNo + 1));
      CopyIn(|p.payload| * p.fragmentNo, p.payload);
    }

    method OpenType2(order: int, p: Packet, source: Byte, now: int, timeout: nat)
      requires p.Type2? && InBounds(p)
      modifies this
      ensures fresh(frame)
      ensures View() == ReceiverSpec.Bucket(true, order, p.frameNo,
                          Meta(p.payloadType, p.code, p.pts, DtsFrom(p.pts, p.dtsPtsDiff), p.flags, p.stream, source),
                          Timing(now + timeout, now, 0, 0), Open(p))
    {
      SlotIsProduct(p.type1Size, p.ofNo);
      hide Slot;
      type3Size, type2Size := 0, p.sizeOfData;
      Describe(p);
      Begin(order, p, p.ofNo, source, now, timeout, p.type1Size, p.type1Size * p.ofNo + p.sizeOfData);
      CopyIn(p.type1Size * p.ofNo, p.payload);
    }

    method OpenType3(order: int, p: Packet, source: Byte, now: int, timeout: nat, info: StreamInfo)
      requires p.Type3? && InBounds(p)
      modifies this
      ensures fresh(frame)
      ensures View() == ReceiverSpec.Bucket(true, order, p.frameNo,
                          Meta(info.payloadType, info.code, UINT64_MAX, UINT64_MAX, p.flags, p.stream, source),
                          Timing(now + timeout, now, 0, 0), Open(p))
    {
      OpenFits(p);
      SlotIsProduct(p.type1Size, p.ofNo + 1);
      SlotIsProduct(p.type1Size, p.ofNo - 1);
      hide Slot;
      type3Size, type2Size, pts, dts := |p.payload|, 0, UINT64_MAX, UINT64_MAX;
      payloadType, payloadCode := info.payloadType, info.code;
      Begin(order, p, p.ofNo - 1, source, now, timeout, p.type1Size, p.type1Size * (p.ofNo + 1));
      CopyIn(p.type1Size * (p.ofNo - 1), p.payload);
    }

    // ----- later fragments -----

    method PlaceType1(p: Packet)
      requires p.Type1? && Memory().Ok() && Placeable(Memory(), p)
      modifies this, frame
      ensures frame == old(frame) && View() == old(Accept(View(), p))
    {
      PlaceFits(Memory(), p);
      SlotIsProduct(fragmentSize, p.fragmentNo);
      hide Slot, Write;
      receivedFragments := receivedFragments + {p.fragmentNo};
      fragmentCount := fragmentCount + 1;
      CopyIn(fragmentSize * p.fragmentNo, p.payload);
    }

    method PlaceType2(p: Packet)
      requires p.Type2? && Memory().Ok() && Placeable(Memory(), p)
      modifies this, frame
      ensures frame == old(frame) && View() == old(Accept(View(), p))
    {
      hide Type2Offset, Accept, Placeable, Assembly.Ok, Place, InBounds, DtsFrom, Place2;
      AcceptIs2(View(), p);
      Describe(p);
      Store2(p);
    }

    method Store2(p: Packet)
      requires p.Type2? && p.ofNo == ofFragmentNo && p.sizeOfData == |p.payload| && (type3Size > 0 ==> ofFragmentNo > 0)
      requires Type2Offset(Memory()) + |p.payload| <= frame.Length
      requires Type2Offset(Memory()) == if type3Size > 0 then fragmentSize * (ofFragmentNo - 1) + type3Size
        else fragmentSize * ofFragmentNo
      modifies this`receivedFragments, this`fragmentCount, this`type2Size, this`frameSize, frame
      ensures Memory() == old(Place2(Memory(), p.payload))
    {
      hide Type2Offset, Write;
      var offset := if type3Size > 0 then fragmentSize * (p.ofNo - 1) + type3Size else fragmentSize * p.ofNo;
      receivedFragments := receivedFragments + {p.ofNo};
      fragmentCount := fragmentCount + 1;
      type2Size := p.sizeOfData;
      frameSize := offset + p.sizeOfData;
      CopyIn(offset, p.payload);
    }

    /** Relocates the Type2 bytes if they came first. */
    method PlaceType3(p: Packet)
      requires p.Type3? && Memory().Ok() && Placeable(Memory(), p)
      modifies this, frame
      ensures frame == old(frame) && View() == old(Accept(View(), p))
    {
      hide Slot, Write, Move, Accept, Placeable, Assembly.Ok, Place, InBounds;
      AcceptIs3(View(), p);
      SlotIsProduct(fragmentSize, ofFragmentNo);
      SlotIsProduct(fragmentSize, ofFragmentNo - 1);
      var offset := fragmentSize * (p.ofNo - 1);
      receivedFragments := receivedFragments + {p.ofNo - 1};
      fragmentCount := fragmentCount + 1;
      type3Size := |p.payload|;
      if p.ofNo in receivedFragments && type2Size > 0 {
        MoveWithin(fragmentSize * p.ofNo, offset + |p.payload|, type2Size);
        frameSize := offset + |p.payload| + type2Size;
      } else if p.ofNo !in receivedFragments {
        frameSize := offset + |p.payload|;
      }
      CopyIn(offset, p.payload);
    }

    // ----- whether a later fragment is accepted -----

    method CheckType1(p: Packet, source: Byte) returns (r: Result)
      requires p.Type1? && HeaderError(p) == Ok && Memory().Ok()
      ensures r == BucketError(View(), p, source)
    {
      hide HeaderError, Assembly.Ok;
      if p.frameNo != savedFrameNo {
        return BufferOutOfResources;
      }
      if p.stream != streamId || source != sourceId {
        return InvalidParameter;
      }
      HeaderOkInBounds(p);
      if p.ofNo != ofFragmentNo || p.fragmentNo > ofFragmentNo {
        return BufferOutOfBounds;
      }
      if p.fragmentNo in receivedFragments {
        return DuplicateFragment;
      }
      if |p.payload| != fragmentSize {
        return FrameSizeMismatch;
      }
      return Ok;
    }

    method CheckType2(p: Packet, source: Byte) returns (r: Result)
      requires p.Type2? && HeaderError(p) == Ok && Memory().Ok()
      ensures r == BucketError(View(), p, source)
    {
      if p.frameNo != savedFrameNo {
        return BufferOutOfResources;
      }
      if p.stream != streamId || source != sourceId {
        return InvalidParameter;
      }
      if p.ofNo != ofFragmentNo {
        return BufferOutOfBounds;
      }
      if p.ofNo > 0 && p.type1Size != fragmentSize {
        return FrameSizeMismatch;
      }
      if p.ofNo in receivedFragments {
        return DuplicateFragment;
      }
      SlotIsProduct(fragmentSize, ofFragmentNo + 1);
      Type2At(Memory());
      hide HeaderError, Assembly.Ok, Slot, Type2Offset;
      var offset := if type3Size > 0 then fragmentSize * (p.ofNo - 1) + type3Size else p.type1Size * p.ofNo;
      if offset + p.sizeOfData > fragmentSize * (ofFragmentNo + 1) {
        return BufferOutOfBounds;
      }
      return Ok;
    }

    method CheckType3(p: Packet, source: Byte) returns (r: Result)
      requires p.Type3? && HeaderError(p) == Ok && Memory().Ok()
      ensures r == BucketError(View(), p, source)
    {
      hide Assembly.Ok;
      if p.frameNo != savedFrameNo {
        return BufferOutOfResources;
      }
      if p.stream != streamId || source != sourceId {
        return InvalidParameter;
      }
      var fragmentNo := p.ofNo - 1;
      if p.ofNo != ofFragmentNo || fragmentNo > ofFragmentNo {
        return BufferOutOfBounds;
      }
      if p.type1Size != fragmentSize {
        return FrameSizeMismatch;
      }
      if fragmentNo in receivedFragments {
        return DuplicateFragment;
      }
      SlotIsProduct(fragmentSize, ofFragmentNo + 1);
      SlotIsProduct(fragmentSize, ofFragmentNo - 1);
      hide Slot;
      if fragmentSize * fragmentNo + |p.payload| > fragmentSize * (ofFragmentNo + 1) {
        return BufferOutOfBounds;
      }
      return Ok;
    }

    // ----- what is missing -----

    method BuildNack() returns (message: seq<Byte>)
      requires Memory().Ok()
      ensures message == NackMessage(View())
    {
      hide Gaps, EncodeNack, EntryList;
      var gaps := ScanGaps(receivedFragments, ofFragmentNo);
      assert Limited(gaps) == NackGaps(View());
      if gaps == [] {
        return [];
      }
      if |gaps| > 255 {
        gaps := gaps[..255];
      }
      message := EncodeNack(EntryList(streamId, savedFrameNo, gaps));
    }

    /** The frame as the user gets it. */
    method Finished() returns (f: Delivered)
      requires Memory().Ok()
      ensures f == DeliveredFrame(View())
    {
      var meta := Meta(payloadType, payloadCode, pts, dts, flags, streamId, sourceId);
      var broken := fragmentCount != ofFragmentNo + 1;
      f := Delivered(deliveryOrder, savedFrameNo, frame[..frameSize], meta, broken);
    }
  }
}
