/** Gap ranges of a NACK message (efp.h, buildNack): the missing fragment numbers of a bucket,
    coalesced into ranges of at most 256. */
module NackRanges {
  import opened Wire

  datatype Gap = Gap(start: nat, extra: nat)

  /** The numbers in lo..hi-1 that were not received, ascending. */
  function Missing(received: set<nat>, lo: nat, hi: nat): (m: seq<nat>)
    decreases hi - lo
  {
    if lo >= hi then []
    else (if lo in received then [] else [lo]) + Missing(received, lo + 1, hi)
  }

  lemma {:induction false} MissingIs(received: set<nat>, lo: nat, hi: nat)
    ensures forall k :: k in Missing(received, lo, hi) <==> lo <= k < hi && k !in received
    ensures forall i, j | 0 <= i < j < |Missing(received, lo, hi)| ::
              Missing(received, lo, hi)[i] < Missing(received, lo, hi)[j]
    decreases hi - lo
  {
    if lo < hi {
      var rest := Missing(received, lo + 1, hi);
      MissingIs(received, lo + 1, hi);
      assert forall i | 0 <= i < |rest| :: rest[i] in rest;
    }
  }

  /** One past the range that starts at `lo`: the next received number, 256 further on, or `hi`. */
  function RangeEnd(received: set<nat>, lo: nat, i: nat, hi: nat): (e: nat)
    requires i <= hi
    ensures i <= e <= hi
    decreases hi - i
  {
    if i == hi || i in received || i - lo >= 256 then i else RangeEnd(received, lo, i + 1, hi)
  }

  /** Greedy ranges: each as long as the gap and the one-byte count allow. */
  function Gaps(received: set<nat>, lo: nat, hi: nat): seq<Gap>
    decreases hi - lo
  {
    if lo >= hi then []
    else if lo in received then Gaps(received, lo + 1, hi)
    else
      var e := RangeEnd(received, lo, lo + 1, hi);
      [Gap(lo, e - lo - 1)] + Gaps(received, e, hi)
  }

  function Span(start: nat, n: nat): (r: seq<nat>)
    ensures |r| == n && forall i | 0 <= i < n :: r[i] == start + i
  {
    seq(n, i => start + i)
  }

  /** The fragment numbers a message asks for, in order. */
  function Expand(gaps: seq<Gap>): seq<nat> {
    if gaps == [] then [] else Span(gaps[0].start, gaps[0].extra + 1) + Expand(gaps[1..])
  }

  lemma {:induction false} MissingSpan(received: set<nat>, lo: nat, i: nat, hi: nat)
    requires lo <= i <= hi
    requires forall k | lo <= k < i :: k !in received
    ensures Missing(received, lo, hi) == Span(lo, i - lo) + Missing(received, i, hi)
    decreases i - lo
  {
    if lo < i {
      MissingSpan(received, lo + 1, i, hi);
      assert Span(lo, i - lo) == [lo] + Span(lo + 1, i - lo - 1);
    } else {
      assert Span(lo, 0) == [];
    }
  }

  lemma {:induction false} RangeMissing(received: set<nat>, lo: nat, i: nat, hi: nat)
    requires lo < i <= hi && i - lo <= 256
    requires forall k | lo <= k < i :: k !in received
    ensures var e := RangeEnd(received, lo, i, hi);
      e - lo <= 256 && forall k | lo <= k < e :: k !in received
    decreases hi - i
  {
    if !(i == hi || i in received || i - lo >= 256) {
      RangeMissing(received, lo, i + 1, hi);
    }
  }

  /** The ranges ask for exactly the missing numbers, once each and in order, at most 256 a range. */
  lemma {:induction false} GapsExact(received: set<nat>, lo: nat, hi: nat)
    ensures Expand(Gaps(received, lo, hi)) == Missing(received, lo, hi)
    ensures forall i | 0 <= i < |Gaps(received, lo, hi)| ::
              var g := Gaps(received, lo, hi)[i]; lo <= g.start && g.extra <= 255 && g.start + g.extra < hi
    decreases hi - lo
  {
    if lo < hi {
      if lo in received {
        GapsExact(received, lo + 1, hi);
      } else {
        var e := RangeEnd(received, lo, lo + 1, hi);
        RangeMissing(received, lo, lo + 1, hi);
        MissingSpan(received, lo, e, hi);
        GapsExact(received, e, hi);
        var gaps := Gaps(received, lo, hi);
        assert gaps[0] == Gap(lo, e - lo - 1) && gaps[1..] == Gaps(received, e, hi);
      }
    }
  }

  lemma Associative<T>(x: seq<T>, y: seq<T>, z: seq<T>)
    ensures (x + y) + z == x + (y + z)
  {
  }

  lemma {:induction false} ExpandConcat(a: seq<Gap>, b: seq<Gap>)
    ensures Expand(a + b) == Expand(a) + Expand(b)
  {
    hide Span;
    if a == [] {
      assert a + b == b;
    } else {
      ExpandConcat(a[1..], b);
      assert (a + b)[1..] == a[1..] + b;
      Associative(Span(a[0].start, a[0].extra + 1), Expand(a[1..]), Expand(b));
    }
  }

  /** A NACK message carries at most 255 ranges; cutting the list asks for a prefix of the missing
      numbers, and asks for something whenever something is missing. */
  function Limited(gaps: seq<Gap>): seq<Gap> { if |gaps| > 255 then gaps[..255] else gaps }

  lemma LimitedPrefix(received: set<nat>, of: nat)
    ensures var asked, missing := Expand(Limited(Gaps(received, 0, of + 1))), Missing(received, 0, of + 1);
      && asked <= missing
      && (|Gaps(received, 0, of + 1)| <= 255 ==> asked == missing)
      && (missing != [] ==> asked != [])
  {
    var gaps := Gaps(received, 0, of + 1);
    GapsExact(received, 0, of + 1);
    if |gaps| > 255 {
      ExpandConcat(gaps[..255], gaps[255..]);
      assert gaps == gaps[..255] + gaps[255..];
    }
  }

  // ----- what is left after an answer -----

  lemma {:induction false} RangeEndSame(a: set<nat>, b: set<nat>, lo: nat, i: nat, hi: nat)
    requires i <= hi && forall k | i <= k < hi :: k in a <==> k in b
    ensures RangeEnd(a, lo, i, hi) == RangeEnd(b, lo, i, hi)
    decreases hi - i
  {
    if i < hi { RangeEndSame(a, b, lo, i + 1, hi); }
  }

  lemma {:induction false} GapsSame(a: set<nat>, b: set<nat>, lo: nat, hi: nat)
    requires forall k | lo <= k < hi :: k in a <==> k in b
    ensures Gaps(a, lo, hi) == Gaps(b, lo, hi)
    decreases hi - lo
  {
    if lo < hi {
      GapsSame(a, b, lo + 1, hi);
      if lo !in a {
        RangeEndSame(a, b, lo, lo + 1, hi);
        GapsSame(a, b, RangeEnd(a, lo, lo + 1, hi), hi);
      }
    }
  }

  lemma {:induction false} GapsSkip(received: set<nat>, lo: nat, e: nat, hi: nat)
    requires lo <= e <= hi && forall k | lo <= k < e :: k in received
    ensures Gaps(received, lo, hi) == Gaps(received, e, hi)
    decreases e - lo
  {
    if lo < e { GapsSkip(received, lo + 1, e, hi); }
  }

  /** Once the first `n` ranges are filled and nothing else has come, the other ranges are what is left. */
  lemma {:induction false} GapsAfter(received: set<nat>, more: set<nat>, lo: nat, hi: nat, n: nat)
    requires n <= |Gaps(received, lo, hi)|
    requires forall k | lo <= k < hi :: k in more <==> k in received || k in Expand(Gaps(received, lo, hi)[..n])
    ensures Gaps(more, lo, hi) == Gaps(received, lo, hi)[n..]
    decreases hi - lo
  {
    var gaps := Gaps(received, lo, hi);
    if n == 0 {
      assert Expand(gaps[..0]) == [];
      GapsSame(more, received, lo, hi);
    } else if lo in received {
      GapsAfter(received, more, lo + 1, hi, n);
    } else {
      var e := RangeEnd(received, lo, lo + 1, hi);
      var rest := Gaps(received, e, hi);
      assert gaps == [Gap(lo, e - lo - 1)] + rest;
      assert gaps[..n][1..] == rest[..n - 1] && gaps[n..] == rest[n - 1..];
      assert Expand(gaps[..n]) == Span(lo, e - lo) + Expand(rest[..n - 1]);
      SpanHas(lo, e - lo);
      GapsSkip(more, lo, e, hi);
      GapsAfter(received, more, e, hi, n - 1);
    }
  }

  lemma SpanHas(start: nat, n: nat)
    ensures forall k :: k in Span(start, n) <==> start <= k < start + n
  {
    forall k | start <= k < start + n ensures k in Span(start, n) { assert Span(start, n)[k - start] == k; }
  }

  // ----- as message entries -----

  function EntryOf(stream: Byte, frameNo: Word16, g: Gap): NackEntry
    requires g.extra <= 255 && g.start <= UINT16_MAX
  {
    NackEntry(stream, frameNo, g.start, g.extra as Byte)
  }

  predicate Sendable(g: Gap) { g.extra <= 255 && g.start + g.extra <= UINT16_MAX }

  predicate AllSendable(gaps: seq<Gap>) { forall i | 0 <= i < |gaps| :: Sendable(gaps[i]) }

  function EntryList(stream: Byte, frameNo: Word16, gaps: seq<Gap>): (e: seq<NackEntry>)
    requires AllSendable(gaps)
    ensures |e| == |gaps|
  {
    if gaps == [] then [] else [EntryOf(stream, frameNo, gaps[0])] + EntryList(stream, frameNo, gaps[1..])
  }

  /** The scanning loop of buildNack. `rangeStart == UINT16_MAX` means no range is pending. */
  method ScanGaps(received: set<nat>, of: nat) returns (gaps: seq<Gap>)
    requires of < 8192
    ensures gaps == Gaps(received, 0, of + 1)
  {
    gaps := [];
    var rangeStart: nat, rangeCount: nat := UINT16_MAX, 0;
    var i := 0;
    while i <= of
      invariant 0 <= i <= of + 1
      invariant rangeStart != UINT16_MAX ==>
                  && rangeStart + rangeCount + 1 == i && rangeCount <= 255
                  && RangeEnd(received, rangeStart, rangeStart + 1, of + 1) == RangeEnd(received, rangeStart, i, of + 1)
                  && rangeStart !in received
      invariant Gaps(received, 0, of + 1)
             == gaps + Gaps(received, if rangeStart == UINT16_MAX then i else rangeStart, of + 1)
    {
      if i !in received {
        if rangeStart == UINT16_MAX {
          rangeStart, rangeCount := i, 0;
        } else if rangeCount < 255 {
          rangeCount := rangeCount + 1;
        } else {
          gaps := gaps + [Gap(rangeStart, rangeCount)];
          rangeStart, rangeCount := i, 0;
        }
      } else if rangeStart != UINT16_MAX {
        gaps := gaps + [Gap(rangeStart, rangeCount)];
        rangeStart, rangeCount := UINT16_MAX, 0;
      }
      i := i + 1;
    }
    if rangeStart != UINT16_MAX {
      gaps := gaps + [Gap(rangeStart, rangeCount)];
    }
  }
}
