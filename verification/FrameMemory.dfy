/** The frame memory of one receiver bucket (efp.h, handleType1/2/3): where each fragment's bytes
    go, how a late Type3 relocates the Type2 bytes, and why no write leaves the allocation and no
    received byte is lost. */
module FrameMemory {
  import opened Wire
  import opened Fragmenter

  /** A byte of frame memory. Allocated memory starts uninitialised. */
  datatype Cell = Uninit | Written(b: Byte)

  function Cells(s: seq<Byte>): (c: seq<Cell>)
    ensures |c| == |s|
  {
    seq(|s|, i requires 0 <= i < |s| => Written(s[i]))
  }

  function Blank(n: nat): (c: seq<Cell>)
    ensures |c| == n
  {
    seq(n, i => Uninit)
  }

  /** memcpy into frame memory. */
  function Write(mem: seq<Cell>, off: nat, bytes: seq<Byte>): (m: seq<Cell>)
    requires off + |bytes| <= |mem|
    ensures |m| == |mem|
  {
    mem[..off] + Cells(bytes) + mem[off + |bytes|..]
  }

  /** memmove inside frame memory. */
  function Move(mem: seq<Cell>, from: nat, to: nat, n: nat): (m: seq<Cell>)
    requires from + n <= |mem| && to + n <= |mem|
    ensures |m| == |mem|
  {
    mem[..to] + mem[from..from + n] + mem[to + n..]
  }

  /** The reassembly part of a bucket. `type3`/`type2` are 0 until that frame has arrived. */
  datatype Assembly = Assembly(of: nat, fragSize: nat, type3: nat, type2: nat, count: nat,
                               received: set<nat>, mem: seq<Cell>, size: nat)
  {
    /** What every packet sequence keeps, well-formed or not: bits within 0..of, the counter counts
        them, and enough memory for every write that can still be accepted. */
    predicate Ok() {
      && of < MAX_FRAGMENTS
      && (forall k <- received :: k <= of)
      && count == |received|
      && size <= |mem|
      && type3 <= fragSize
      && Slot(fragSize, of) <= |mem|
      && (of !in received ==> type2 == 0 && |mem| == Slot(fragSize, of + 1))
      && (type2 > 0 && of - 1 !in received ==> Slot(fragSize, of) + type2 <= |mem|)
      && (of - 1 !in received ==> type3 == 0)
    }

    predicate Complete() { count == of + 1 }
  }

  // ----- the first fragment allocates -----

  /** Bytes allocated by whichever frame opens the bucket. */
  function AllocSize(p: Packet): nat {
    match p
    case Type1(_, _, _, _, of, payload) => Slot(|payload|, of + 1)
    case Type2(_, _, _, size, _, of, f, _, _, _, _) => Slot(f, of) + size
    case Type3(_, _, _, f, of, _) => Slot(f, of + 1)
  }

  /** Header checks made before a bucket is looked at. */
  predicate InBounds(p: Packet) {
    match p
    case Type1(_, _, _, k, of, _) => k <= of < MAX_FRAGMENTS
    case Type2(_, _, _, size, _, of, f, pts, diff, _, payload) => of < MAX_FRAGMENTS && size == |payload|
    case Type3(_, _, _, f, of, payload) => 0 < of < MAX_FRAGMENTS && |payload| <= f
  }

  function Open(p: Packet): (a: Assembly)
    requires InBounds(p)
  {
    OpenFits(p);
    var mem := Blank(AllocSize(p));
    match p
    case Type1(_, _, _, k, of, payload) =>
      Assembly(of, |payload|, 0, 0, 1, {k}, Write(mem, Slot(|payload|, k), payload), AllocSize(p))
    case Type2(_, _, _, size, _, of, f, _, _, _, payload) =>
      Assembly(of, f, 0, size, 1, {of}, Write(mem, Slot(f, of), payload), AllocSize(p))
    case Type3(_, _, _, f, of, payload) =>
      Assembly(of, f, |payload|, 0, 1, {of - 1}, Write(mem, Slot(f, of - 1), payload), AllocSize(p))
  }

  lemma OpenFits(p: Packet)
    requires InBounds(p)
    ensures p.Type1? ==> Slot(|p.payload|, p.fragmentNo) + |p.payload| <= AllocSize(p)
    ensures p.Type3? ==> Slot(p.type1Size, p.ofNo - 1) + |p.payload| <= AllocSize(p)
  {
    if p.Type1? {
      SlotMono(|p.payload|, p.fragmentNo, p.ofNo + 1);
    } else if p.Type3? {
      SlotMono(p.type1Size, p.ofNo - 1, p.ofNo + 1);
    }
  }

  lemma OpenOk(p: Packet)
    requires InBounds(p)
    ensures Open(p).Ok()
  {
    OpenFits(p);
    match p
    case Type1(_, _, _, k, of, payload) => SlotMono(|payload|, of, of + 1);
    case Type2(_, _, _, size, _, of, f, _, _, _, payload) =>
    case Type3(_, _, _, f, of, payload) => SlotMono(f, of, of + 1);
  }

  // ----- later fragments -----

  /** Offset of the Type2 bytes: behind Type3 once that has arrived, else in their own slot. */
  function Type2Offset(a: Assembly): nat
    requires a.type3 > 0 ==> a.of > 0
  {
    if a.type3 > 0 then Slot(a.fragSize, a.of - 1) + a.type3 else Slot(a.fragSize, a.of)
  }

  /** The fragment number is new, the size fits the bucket, and the write stays inside. */
  predicate Placeable(a: Assembly, p: Packet) {
    && InBounds(p) && p.ofNo == a.of && FragmentNoOf(p) !in a.received
    && match p
       case Type1(_, _, _, k, of, payload) => |payload| == a.fragSize
       case Type2(_, _, _, size, _, of, f, _, _, _, payload) =>
         && (of > 0 ==> f == a.fragSize)
         && (a.type3 > 0 ==> of > 0)
         && Type2Offset(a) + size <= Slot(a.fragSize, of + 1)
       case Type3(_, _, _, f, of, payload) => f == a.fragSize
  }

  function Place(a: Assembly, p: Packet): Assembly
    requires a.Ok() && Placeable(a, p)
  {
    PlaceFits(a, p);
    match p
    case Type1(_, _, _, k, _, payload) => Place1(a, k, payload)
    case Type2(_, _, _, _, _, _, _, _, _, _, payload) => Place2(a, payload)
    case Type3(_, _, _, _, _, payload) => Place3(a, payload)
  }

  function Place1(a: Assembly, k: nat, payload: seq<Byte>): Assembly
    requires Slot(a.fragSize, k) + |payload| <= |a.mem|
  {
    a.(count := a.count + 1, received := a.received + {k}, mem := Write(a.mem, Slot(a.fragSize, k), payload))
  }

  function Place2(a: Assembly, payload: seq<Byte>): Assembly
    requires (a.type3 > 0 ==> a.of > 0) && Type2Offset(a) + |payload| <= |a.mem|
  {
    a.(count := a.count + 1, received := a.received + {a.of}, type2 := |payload|,
       mem := Write(a.mem, Type2Offset(a), payload), size := Type2Offset(a) + |payload|)
  }

  /** If Type2 is already there its bytes are moved behind the place Type3 takes. */
  function Place3(a: Assembly, payload: seq<Byte>): Assembly
    requires 0 < a.of && Slot(a.fragSize, a.of - 1) + |payload| <= Slot(a.fragSize, a.of) <= |a.mem|
    requires a.type2 > 0 ==> Slot(a.fragSize, a.of) + a.type2 <= |a.mem|
  {
    var off := Slot(a.fragSize, a.of - 1);
    var late := a.of in a.received && a.type2 > 0;
    var mem := if late then Move(a.mem, Slot(a.fragSize, a.of), off + |payload|, a.type2) else a.mem;
    a.(count := a.count + 1, received := a.received + {a.of - 1}, type3 := |payload|,
       mem := Write(mem, off, payload),
       size := if late then off + |payload| + a.type2
               else if a.of !in a.received then off + |payload| else a.size)
  }

  /** Every write and the memmove stay inside the memory that the opener allocated. */
  lemma PlaceFits(a: Assembly, p: Packet)
    requires a.Ok() && Placeable(a, p)
    ensures p.Type1? ==> Slot(a.fragSize, p.fragmentNo) + |p.payload| <= |a.mem|
    ensures p.Type2? ==> Type2Offset(a) + |p.payload| <= |a.mem|
    ensures p.Type3? ==> Slot(a.fragSize, p.ofNo - 1) + |p.payload| <= Slot(a.fragSize, p.ofNo) <= |a.mem|
    ensures p.Type3? && a.type2 > 0 ==> Slot(a.fragSize, p.ofNo) + a.type2 <= |a.mem|
  {
    match p
    case Type1(_, _, _, k, of, payload) => SlotMono(a.fragSize, k, of); SlotMono(a.fragSize, k, of + 1);
    case Type2(_, _, _, size, _, of, f, _, _, _, payload) =>
    case Type3(_, _, _, f, of, payload) => SlotMono(a.fragSize, of - 1, of);
  }

  lemma PlaceOk(a: Assembly, p: Packet)
    requires a.Ok() && Placeable(a, p)
    ensures Place(a, p).Ok()
  {
    PlaceFits(a, p);
  }

  /** A bucket is complete exactly when every fragment index 0..of was received. */
  lemma CompleteMeansAll(a: Assembly)
    requires a.Ok()
    ensures a.Complete() <==> a.received == Upto(a.of + 1)
  {
    assert a.received <= Upto(a.of + 1);
    if a.Complete() {
      SubsetSameSize(a.received, Upto(a.of + 1));
    }
  }

  function Upto(n: nat): (u: set<nat>)
    ensures |u| == n && forall k: nat :: k in u <==> k < n
  {
    if n == 0 then {} else Upto(n - 1) + {n - 1}
  }

  lemma SubsetSameSize(a: set<nat>, b: set<nat>)
    requires a <= b && |a| == |b|
    ensures a == b
  {
    assert b == a + (b - a);
    assert |b| == |a| + |b - a|;
  }
}
