/** The ascending walk over the keys of an ordered map. */
module Ordering {
  predicate StrictlyAscending(q: seq<int>) {
    forall i, j | 0 <= i < j < |q| :: q[i] < q[j]
  }

  predicate IsLeast(m: int, s: set<int>) { m in s && forall x <- s :: m <= x }

  predicate HasLeast(s: set<int>) { exists m <- s :: IsLeast(m, s) }

  function Least(s: set<int>): (m: int)
    requires HasLeast(s)
    ensures IsLeast(m, s)
  {
    var m :| m in s && IsLeast(m, s);
    m
  }

  /** The order in which a std::map with these keys is walked. */
  function Ascending(s: set<int>): seq<int> {
    if HasLeast(s) then [Least(s)] + Ascending(s - {Least(s)}) else []
  }

  lemma {:induction false} LeastExists(s: set<int>, y: int)
    requires y in s
    ensures HasLeast(s)
  {
    if x :| x in s && x < y {
      LeastExists(s - {y}, x);
      var m := Least(s - {y});
      assert forall x <- s :: x == y || x in s - {y};
      assert IsLeast(m, s);
    } else {
      assert IsLeast(y, s);
    }
  }

  lemma {:induction false} AscendingHas(s: set<int>, x: int)
    ensures x in Ascending(s) <==> x in s
  {
    if HasLeast(s) {
      AscendingHas(s - {Least(s)}, x);
    } else if x in s {
      LeastExists(s, x);
    }
  }

  lemma Prepend(m: int, rest: seq<int>)
    requires StrictlyAscending(rest) && forall i | 0 <= i < |rest| :: m < rest[i]
    ensures StrictlyAscending([m] + rest)
  {
  }

  lemma {:induction false} AscendingSorted(s: set<int>)
    ensures StrictlyAscending(Ascending(s))
  {
    if HasLeast(s) {
      var m, rest := Least(s), Ascending(s - {Least(s)});
      AscendingSorted(s - {m});
      forall i | 0 <= i < |rest| ensures m < rest[i] {
        AscendingHas(s - {m}, rest[i]);
      }
      Prepend(m, rest);
    }
  }

  /** The walk visits exactly the keys, in strictly ascending order. */
  lemma AscendingIs(s: set<int>)
    ensures StrictlyAscending(Ascending(s))
    ensures forall x :: x in Ascending(s) <==> x in s
  {
    AscendingSorted(s);
    forall x ensures x in Ascending(s) <==> x in s { AscendingHas(s, x); }
  }

  // ----- sorting -----

  function Insert(x: int, q: seq<int>): seq<int> {
    if q == [] || x <= q[0] then [x] + q else [q[0]] + Insert(x, q[1..])
  }

  function Sort(q: seq<int>): seq<int> {
    if q == [] then [] else Insert(q[0], Sort(q[1..]))
  }

  /** Sorting what the walk collected changes nothing. */
  lemma {:induction false} SortAscending(q: seq<int>)
    requires StrictlyAscending(q)
    ensures Sort(q) == q
  {
    if q != [] {
      SortAscending(q[1..]);
    }
  }
}
