/** The placement invariant: for frames of one sender job arriving in any order, each received
    fragment's bytes sit at its place in the frame memory, and a complete bucket holds the payload. */
module Placement {
  import opened Wire
  import opened Fragmenter
  import opened FrameMemory

  /** The bytes `s` are in memory at `off`. */
  predicate At(mem: seq<Cell>, off: nat, s: seq<Byte>) {
    off + |s| <= |mem| && mem[off..off + |s|] == Cells(s)
  }

  lemma WriteHits(mem: seq<Cell>, off: nat, s: seq<Byte>)
    requires off + |s| <= |mem|
    ensures At(Write(mem, off, s), off, s)
  {
  }

  lemma WriteKeeps(mem: seq<Cell>, off: nat, s: seq<Byte>, o: nat, t: seq<Byte>)
    requires off + |s| <= |mem| && At(mem, o, t)
    requires o + |t| <= off || off + |s| <= o
    ensures At(Write(mem, off, s), o, t)
  {
    var m := Write(mem, off, s);
    assert m[o..o + |t|] == mem[o..o + |t|];
  }

  lemma MoveHits(mem: seq<Cell>, from: nat, to: nat, s: seq<Byte>)
    requires At(mem, from, s) && to + |s| <= |mem|
    ensures At(Move(mem, from, to, |s|), to, s)
  {
  }

  lemma MoveKeeps(mem: seq<Cell>, from: nat, to: nat, n: nat, o: nat, t: seq<Byte>)
    requires from + n <= |mem| && to + n <= |mem| && At(mem, o, t)
    requires o + |t| <= to || to + n <= o
    ensures At(Move(mem, from, to, n), o, t)
  {
    var m := Move(mem, from, to, n);
    assert m[o..o + |t|] == mem[o..o + |t|];
  }

  // ----- the invariant -----

  /** Fragments before Type2 are in their slots. */
  ghost predicate SlotsHold(mem: seq<Cell>, job: Job, got: set<nat>)
    requires job.Valid()
  {
    forall k <- got :: k < job.Of() ==> At(mem, Slot(job.f, k), job.Payload(k))
  }

  predicate LateType3(job: Job, got: set<nat>) {
    job.cut.type3 > 0 && job.Of() - 1 in got
  }

  /** Type2 sits in slot Of until Type3 has arrived, and right behind Type3's bytes from then on. */
  function Type2Place(job: Job, got: set<nat>): nat
    requires job.Valid()
  {
    if LateType3(job, got) then job.Start(job.Of()) else Slot(job.f, job.Of())
  }

  ghost predicate Shape(a: Assembly, job: Job)
    requires job.Valid()
  {
    && a.of == job.Of() && a.fragSize == job.f
    && a.type3 == (if LateType3(job, a.received) then job.cut.type3 else 0)
    && a.type2 == (if job.Of() in a.received then job.cut.type2 else 0)
    && (job.Of() in a.received ==> a.size == Type2Place(job, a.received) + job.cut.type2)
  }

  ghost predicate Placed(a: Assembly, job: Job) {
    && job.Valid() && a.received != {} && Shape(a, job) && SlotsHold(a.mem, job, a.received)
    && (job.Of() in a.received ==> At(a.mem, Type2Place(job, a.received), job.Payload(job.Of())))
  }

  /** Slots of different fragments do not overlap, and all lie below Type2's place. */
  lemma SlotsApart(job: Job, k: nat, j: nat)
    requires job.Valid() && k < job.Of() && j < job.Of()
    ensures job.Size(k) <= job.f
    ensures k < j ==> Slot(job.f, k) + job.Size(k) <= Slot(job.f, j)
    ensures Slot(job.f, k) == job.Start(k)
    ensures Slot(job.f, k) + job.Size(k) <= job.Start(job.Of()) <= Slot(job.f, job.Of())
  {
    if k < j { SlotMono(job.f, k, j); }
    SlotMono(job.f, k, job.cut.type1s);
  }

  lemma WriteSlotKeeps(mem: seq<Cell>, job: Job, got: set<nat>, k: nat)
    requires job.Valid() && SlotsHold(mem, job, got) && k < job.Of() && k !in got
    requires Slot(job.f, k) + job.Size(k) <= |mem|
    ensures SlotsHold(Write(mem, Slot(job.f, k), job.Payload(k)), job, got + {k})
  {
    hide Cells, Write, At, Slot, Job.Payload;
    var s := job.Payload(k);
    WriteHits(mem, Slot(job.f, k), s);
    forall j <- got | j < job.Of()
      ensures At(Write(mem, Slot(job.f, k), s), Slot(job.f, j), job.Payload(j))
    {
      SlotsApart(job, k, j); SlotsApart(job, j, k);
      WriteKeeps(mem, Slot(job.f, k), s, Slot(job.f, j), job.Payload(j));
    }
  }

  lemma WriteBehindKeeps(mem: seq<Cell>, job: Job, got: set<nat>, off: nat, s: seq<Byte>)
    requires job.Valid() && SlotsHold(mem, job, got)
    requires job.Start(job.Of()) <= off && off + |s| <= |mem|
    ensures SlotsHold(Write(mem, off, s), job, got)
  {
    forall j <- got | j < job.Of()
      ensures At(Write(mem, off, s), Slot(job.f, j), job.Payload(j))
    {
      SlotsApart(job, j, j);
      WriteKeeps(mem, off, s, Slot(job.f, j), job.Payload(j));
    }
  }

  lemma MoveBehindKeeps(mem: seq<Cell>, job: Job, got: set<nat>, from: nat, to: nat, n: nat)
    requires job.Valid() && SlotsHold(mem, job, got)
    requires job.Start(job.Of()) <= to && to + n <= |mem| && from + n <= |mem|
    ensures SlotsHold(Move(mem, from, to, n), job, got)
  {
    forall j <- got | j < job.Of()
      ensures At(Move(mem, from, to, n), Slot(job.f, j), job.Payload(j))
    {
      SlotsApart(job, j, j);
      MoveKeeps(mem, from, to, n, Slot(job.f, j), job.Payload(j));
    }
  }

  /** Any fragment may open the bucket. */
  lemma OpenPlaced(job: Job, k: nat)
    requires job.Valid() && k <= job.Of()
    ensures InBounds(job.Fragment(k)) && Placed(Open(job.Fragment(k)), job)
    ensures Open(job.Fragment(k)).received == {k}
  {
    var p := job.Fragment(k);
    FragmentNumbers(job, k);
    OpenFits(p);
    var a := Open(p);
    assert a.received == {k} && Shape(a, job);
    assert a.mem == Write(Blank(AllocSize(p)), Slot(job.f, k), job.Payload(k));
    hide Open, AllocSize, Slot, Blank, Write, Shape, At;
    WriteHits(Blank(AllocSize(p)), Slot(job.f, k), job.Payload(k));
  }

  lemma PlaceType1(a: Assembly, job: Job, k: nat)
    requires Placed(a, job) && k < job.cut.type1s && k !in a.received
    requires Slot(job.f, k) + job.f <= |a.mem|
    ensures Placed(Place1(a, k, job.Payload(k)), job)
  {
    hide Cells, Write, At, Slot, SlotsHold;
    WriteSlotKeeps(a.mem, job, a.received, k);
    SlotsApart(job, k, k);
    if job.Of() in a.received {
      WriteKeeps(a.mem, Slot(job.f, k), job.Payload(k), Type2Place(job, a.received), job.Payload(job.Of()));
    }
  }

  lemma PlaceType2(a: Assembly, job: Job)
    requires Placed(a, job) && job.Of() !in a.received
    requires Type2Place(job, a.received) == Type2Offset(a)
    requires Type2Place(job, a.received) + job.cut.type2 <= |a.mem|
    ensures Placed(Place2(a, job.Payload(job.Of())), job)
  {
    hide Cells, At, Write, Slot;
    var off, s := Type2Place(job, a.received), job.Payload(job.Of());
    if job.Of() > 0 { SlotsApart(job, job.Of() - 1, job.Of() - 1); }
    WriteHits(a.mem, off, s);
    WriteBehindKeeps(a.mem, job, a.received, off, s);
    assert SlotsHold(Write(a.mem, off, s), job, a.received + {job.Of()});
  }

  /** A late Type3 first moves the Type2 bytes behind its own place, then writes itself; neither
      touches any other received byte although the moved regions may overlap. */
  lemma RelocateKeeps(mem: seq<Cell>, job: Job, got: set<nat>)
    requires job.Valid() && job.cut.type3 > 0 && job.Of() - 1 !in got && SlotsHold(mem, job, got)
    requires At(mem, Slot(job.f, job.Of()), job.Payload(job.Of()))
    requires job.Start(job.Of()) <= Slot(job.f, job.Of())
    ensures var moved := Move(mem, Slot(job.f, job.Of()), job.Start(job.Of()), job.cut.type2);
      && Slot(job.f, job.Of() - 1) + job.cut.type3 <= |mem|
      && var m := Write(moved, Slot(job.f, job.Of() - 1), job.Payload(job.Of() - 1));
      SlotsHold(m, job, got + {job.Of() - 1}) && At(m, job.Start(job.Of()), job.Payload(job.Of()))
  {
    var of := job.Of();
    hide SlotsHold, Move, Write, Cells, Slot;
    var from, to, off := Slot(job.f, of), job.Start(of), Slot(job.f, of - 1);
    SlotsApart(job, of - 1, of - 1);
    var moved := Move(mem, from, to, job.cut.type2);
    MoveHits(mem, from, to, job.Payload(of));
    MoveBehindKeeps(mem, job, got, from, to, job.cut.type2);
    WriteSlotKeeps(moved, job, got, of - 1);
    WriteKeeps(moved, off, job.Payload(of - 1), to, job.Payload(of));
  }

  lemma PlaceType3(a: Assembly, job: Job)
    requires Placed(a, job) && job.cut.type3 > 0 && job.Of() - 1 !in a.received
    requires Slot(job.f, job.Of() - 1) + job.cut.type3 <= Slot(job.f, job.Of()) <= |a.mem|
    requires a.type2 > 0 ==> Slot(job.f, job.Of()) + a.type2 <= |a.mem|
    ensures Placed(Place3(a, job.Payload(job.Of() - 1)), job)
  {
    hide Cells, At, SlotsHold, Write, Move, Slot;
    var of := job.Of();
    SlotsApart(job, of - 1, of - 1);
    if of in a.received {
      RelocateKeeps(a.mem, job, a.received);
    } else {
      WriteSlotKeeps(a.mem, job, a.received, of - 1);
    }
  }

  /** The next fragment, whichever it is, is accepted. */
  lemma FragmentPlaceable(a: Assembly, job: Job, k: nat)
    requires a.Ok() && Placed(a, job) && k <= job.Of() && k !in a.received
    ensures Placeable(a, job.Fragment(k))
    ensures k == job.Of() ==> Type2Place(job, a.received) == Type2Offset(a)
  {
    hide SlotsHold, At;
    FragmentNumbers(job, k);
    if k == job.Of() {
      assert Slot(job.f, k + 1) == Slot(job.f, k) + job.f;
      hide Slot;
      SlotsApart(job, k - 1, k - 1);
    }
  }

  /** Whatever arrived before, a new fragment keeps the placement invariant. */
  lemma PlaceKeeps(a: Assembly, job: Job, k: nat)
    requires a.Ok() && Placed(a, job) && k <= job.Of() && k !in a.received
    ensures Placeable(a, job.Fragment(k))
    ensures Place(a, job.Fragment(k)).Ok() && Placed(Place(a, job.Fragment(k)), job)
    ensures Place(a, job.Fragment(k)).received == a.received + {k}
  {
    hide SlotsHold, At, Slot, Write, Move, Job.Payload;
    var p := job.Fragment(k);
    FragmentPlaceable(a, job, k);
    FragmentNumbers(job, k);
    assert a.of == job.Of() && a.fragSize == job.f && a.type2 <= job.cut.type2;
    hide Shape, Placed, Job.Valid, Placeable, Assembly.Ok;
    PlaceFits(a, p); PlaceOk(a, p);
    assert Place(a, p).received == a.received + {k};
    hide Place1, Place2, Place3;
    if k == job.Of() {
      PlaceType2(a, job);
    } else if k < job.cut.type1s {
      PlaceType1(a, job, k);
    } else {
      PlaceType3(a, job);
    }
  }

  // ----- a complete bucket holds the payload -----

  lemma AtExtends(mem: seq<Cell>, data: seq<Byte>, lo: nat, hi: nat)
    requires lo <= hi <= |data| && At(mem, lo, data[lo..hi]) && mem[..lo] == Cells(data[..lo])
    ensures hi <= |mem| && mem[..hi] == Cells(data[..hi])
  {
    assert mem[..hi] == mem[..lo] + mem[lo..hi];
    assert Cells(data[..hi]) == Cells(data[..lo]) + Cells(data[lo..hi]);
  }

  lemma SlotAt(mem: seq<Cell>, job: Job, got: set<nat>, k: nat)
    requires job.Valid() && SlotsHold(mem, job, got) && k in got && k < job.Of()
    ensures job.Start(k) <= job.Start(k + 1) && At(mem, job.Start(k), job.data[job.Start(k)..job.Start(k + 1)])
  {
    hide At, Slot;
    job.StartFits(k);
    SlotsApart(job, k, k);
  }

  lemma {:induction false} PrefixFilled(mem: seq<Cell>, job: Job, got: set<nat>, k: nat)
    requires job.Valid() && SlotsHold(mem, job, got) && k <= job.Of() && (forall j: nat :: j < job.Of() ==> j in got)
    ensures job.Start(k) <= |mem| && mem[..job.Start(k)] == Cells(job.data[..job.Start(k)])
  {
    assert Slot(job.f, 0) == 0;
    hide At, Slot, SlotsHold, Cells;
    if k > 0 {
      PrefixFilled(mem, job, got, k - 1);
      assert k - 1 in got;
      SlotAt(mem, job, got, k - 1);
      AtExtends(mem, job.data, job.Start(k - 1), job.Start(k));
    }
  }

  lemma CompleteIsData(a: Assembly, job: Job)
    requires Placed(a, job) && a.received == Upto(a.of + 1)
    ensures a.size == |job.data| && a.mem[..a.size] == Cells(job.data)
  {
    hide Upto, Slot, At;
    var of := job.Of();
    job.StartFits(of);
    assert of in a.received && (job.cut.type3 > 0 ==> of - 1 in a.received);
    PrefixFilled(a.mem, job, a.received, of);
    AtExtends(a.mem, job.data, job.Start(of), |job.data|);
    assert job.data[..|job.data|] == job.data;
  }

  // ----- the size limit -----

  /** Which fragments may open a bucket: all of them exactly when `f * (Of + 1)` is within the
      limit; Type2 alone is held to the smaller `f * Of + type2`. */
  lemma OpenersWithinLimit(job: Job)
    requires job.Valid() && job.Of() > 0
    ensures WithinReceiverLimit(job) <==>
            forall k | 0 <= k <= job.Of() :: AllocSize(job.Fragment(k)) <= MAX_SUPERFRAME_SIZE
  {
    forall k | 0 <= k <= job.Of()
      ensures AllocSize(job.Fragment(k)) <= Slot(job.f, job.Of() + 1)
      ensures k < job.Of() ==> AllocSize(job.Fragment(k)) == Slot(job.f, job.Of() + 1)
    {
    }
    assert 0 < job.Of() && AllocSize(job.Fragment(0)) == Slot(job.f, job.Of() + 1);
  }
}
