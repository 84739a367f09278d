/** Type4 bundles: the equal-division parser of handleType4 handles the members one after the other. */
module Bundles {
  import opened Wire
  import opened Fragmenter
  import opened FrameMemory
  import opened NackRanges
  import opened Results
  import opened ReceiverSpec
  import opened ReceiverRuns

  /** handleType1 on each frame, left to right, up to and including the first whose result is neither
      OK nor DUPLICATE. */
  function Members(cfg: Settings, s: Receiver, ps: seq<Packet>, source: Byte, now: int): (Receiver, Result)
    requires s.TableOk()
    decreases |ps|
  {
    if ps == [] then (s, Ok)
    else
      HandleKeepsTable(cfg, s, ps[0], source, now);
      var (t, r) := Handle(cfg, s, ps[0], source, now);
      if r != Ok && r != DuplicateFragment then (t, r) else Members(cfg, t, ps[1..], source, now)
  }

  function Encoded(ps: seq<Packet>): (e: seq<seq<Byte>>)
    ensures |e| == |ps|
  {
    if ps == [] then [] else [Encode(ps[0])] + Encoded(ps[1..])
  }

  predicate EqualType1s(ps: seq<Packet>, size: nat) {
    forall p <- ps :: p.Type1? && |p.payload| + 8 == size
  }

  lemma {:induction false} FlattenSize(ps: seq<Packet>, size: nat)
    requires EqualType1s(ps, size)
    ensures |Flatten(Encoded(ps))| == Slot(size, |ps|)
  {
    hide Encode;
    if ps != [] {
      DecodeEncode(ps[0]);
      FlattenSize(ps[1..], size);
      assert Encoded(ps)[1..] == Encoded(ps[1..]);
    }
  }

  lemma SlotMod(size: nat, n: nat, rest: nat)
    requires Multiple(rest, size)
    ensures Multiple(Slot(size, n) + rest, size)
  {
    var q := rest / size;
    DivMod(rest, size);
    SlotIsProduct(size, n);
    assert size * n + size * q == size * (n + q);
    DivExactMod(Slot(size, n) + rest, size, n + q);
  }

  /** A list of equal-sized Type1 frames, followed by nothing or by a frame that is not Type1. */
  predicate Leftover(tail: seq<Byte>, size: nat)
    requires 0 < size
  {
    Multiple(|tail|, size) && (tail == [] || (|tail| >= size && GetFrameType(tail[0]) != 1))
  }

  lemma OneMember(cfg: Settings, s: Receiver, p: Packet, rest: seq<Byte>, size: nat, source: Byte, now: int)
    requires s.TableOk() && size >= 8 && EqualType1s([p], size) && Multiple(|rest|, size)
    ensures Multiple(|Encode(p) + rest|, size)
    ensures Handle(cfg, s, p, source, now).0.TableOk()
    ensures var (t, r) := Handle(cfg, s, p, source, now);
      BundleLoop(cfg, s, Encode(p) + rest, size, source, now)
        == if r != Ok && r != DuplicateFragment then (t, r) else BundleLoop(cfg, t, rest, size, source, now)
  {
    hide Multiple;
    var data := Encode(p) + rest;
    assert p in [p];
    DecodeEncode(p);
    SlotMod(size, 1, |rest|);
    assert Slot(size, 1) == size;
    HandleKeepsTable(cfg, s, p, source, now);
    hide Encode, Decode1, Handle, Receiver.Pending, Receiver.Listed, Assembly.Ok, GetFrameType;
    assert data[..size] == Encode(p) && data[size..] == rest && data[0] == Encode(p)[0];
  }

  lemma FlattenStep(ps: seq<Packet>, tail: seq<Byte>)
    requires ps != []
    ensures Flatten(Encoded(ps)) + tail == Encode(ps[0]) + (Flatten(Encoded(ps[1..])) + tail)
  {
    hide Encode;
    assert Encoded(ps)[1..] == Encoded(ps[1..]);
    Associative(Encode(ps[0]), Flatten(Encoded(ps[1..])), tail);
  }

  lemma {:induction false} LoopMembers(cfg: Settings, s: Receiver, ps: seq<Packet>, tail: seq<Byte>, size: nat,
                                       source: Byte, now: int)
    requires s.TableOk() && size >= 8 && EqualType1s(ps, size) && Leftover(tail, size)
    ensures Multiple(|Flatten(Encoded(ps)) + tail|, size)
    ensures var (t, r) := Members(cfg, s, ps, source, now);
      BundleLoop(cfg, s, Flatten(Encoded(ps)) + tail, size, source, now)
        == if r != Ok || tail == [] then (t, r) else (t, InvalidParameter)
    decreases |ps|
  {
    hide Multiple, Encode, Encoded, Flatten, Handle, Receiver.TableOk, Receiver.Sized, Receiver.BucketsOk, Slot;
    TableIsSized(s);
    FlattenSize(ps, size);
    SlotMod(size, |ps|, |tail|);
    if ps == [] {
      assert Flatten(Encoded(ps)) + tail == tail by { NoMembers(); }
    } else {
      hide BundleLoop;
      FlattenSize(ps[1..], size);
      SlotMod(size, |ps| - 1, |tail|);
      FlattenStep(ps, tail);
      OneMember(cfg, s, ps[0], Flatten(Encoded(ps[1..])) + tail, size, source, now);
      var (t, r) := Handle(cfg, s, ps[0], source, now);
      if r == Ok || r == DuplicateFragment {
        LoopMembers(cfg, t, ps[1..], tail, size, source, now);
      }
    }
  }

  lemma NoMembers()
    ensures Flatten(Encoded([])) == []
  {
  }

  /** Type4 refinement. With only Type1 members of one size, the bundle does what its members would do
      alone; a member of the same size that is not Type1 ends the bundle with an error after the ones
      before it, and nothing behind it is handled. */
  lemma BundleRefines(cfg: Settings, s: Receiver, flags: Byte, ps: seq<Packet>, tail: seq<Byte>, size: nat, count: Byte,
                      source: Byte, now: int)
    requires s.TableOk() && size >= 8 && EqualType1s(ps, size) && Leftover(tail, size)
    requires 0 < count && |Flatten(Encoded(ps))| + |tail| == size * (count as nat)
    ensures var (t, r) := Members(cfg, s, ps, source, now);
      Dispatch(cfg, s, BundleHeader(flags, count) + (Flatten(Encoded(ps)) + tail), source, now)
        == if r != Ok || tail == [] then (t, r) else (t, InvalidParameter)
  {
    hide Flatten, Encoded, MakeFrameTypeByte, BundleLoop, Members, Receiver.Pending, Receiver.Listed, Multiple;
    var body := Flatten(Encoded(ps)) + tail;
    var data := BundleHeader(flags, count) + body;
    assert data[2..] == body && |data| - 2 == size * (count as nat);
    assert data[0] == BundleHeader(flags, count)[0] && data[1] == count;
    EqualDivision(size, count as nat);
    LoopMembers(cfg, s, ps, tail, size, source, now);
  }

  lemma EqualDivision(size: nat, count: nat)
    requires 0 < size && 0 < count
    ensures (size * count) % count == 0 && (size * count) / count == size
  {
    assert size * count == count * size;
    DivExactMod(size * count, count, size);
    DivExact(count, size);
  }

  /** A standalone fragment frame is handled as the packet it encodes. */
  lemma FrameRefines(cfg: Settings, s: Receiver, p: Packet, source: Byte, now: int)
    requires s.TableOk()
    ensures Dispatch(cfg, s, Encode(p), source, now) == Handle(cfg, s, p, source, now)
  {
    DecodeEncode(p);
    hide Encode, Decode, Handle;
  }
}
