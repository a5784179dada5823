/** Repairing the tablet ring: the ranges of each table are made to join up and to
    span the whole key space. */
module RingRepair {

  datatype Key = Min | At(k: int) | Max

  predicate Less(a: Key, b: Key) {
    match (a, b)
    case (At(x), At(y)) => x < y
    case (Min, _) => b != Min
    case (_, Max) => a != Max
    case _ => false
  }

  datatype Range = Range(table: int, start: Key, startInclusive: bool, end: Key, endInclusive: bool)

  predicate AfterStart(r: Range, k: Key) {
    Less(r.start, k) || (r.start == k && r.startInclusive)
  }

  predicate BeforeEnd(r: Range, k: Key) {
    Less(k, r.end) || (k == r.end && r.endInclusive)
  }

  predicate Contains(r: Range, k: Key) {
    AfterStart(r, k) && BeforeEnd(r, k)
  }

  /** The tablet at `i` is the first, or the last, of its table. */
  predicate Opens(s: seq<Range>, i: int)
    requires 0 <= i < |s|
  {
    i == 0 || s[i - 1].table != s[i].table
  }

  predicate Ends(s: seq<Range>, i: int)
    requires 0 <= i < |s|
  {
    i == |s| - 1 || s[i + 1].table != s[i].table
  }

  function RepairedStart(s: seq<Range>, i: int): Key
    requires 0 <= i < |s|
  {
    if Opens(s, i) then Min else s[i - 1].end
  }

  function RepairedAt(s: seq<Range>, i: int): Range
    requires 0 <= i < |s|
  {
    s[i].(start := RepairedStart(s, i), end := if Ends(s, i) then Max else s[i].end)
  }

  function Repaired(s: seq<Range>): seq<Range> {
    seq(|s|, i requires 0 <= i < |s| => RepairedAt(s, i))
  }

  /** The tablet at `j` when the cursor has come to `i`: the one before the cursor
      still has its end to be decided. */
  function HalfwayAt(s: seq<Range>, i: int, j: int): Range
    requires 0 <= j < |s|
  {
    if j >= i then s[j] else if j == i - 1 then s[j].(start := RepairedStart(s, j)) else RepairedAt(s, j)
  }

  ghost predicate Halfway(t: seq<Range>, s: seq<Range>, i: int) {
    |t| == |s| && forall j :: 0 <= j < |s| ==> t[j] == HalfwayAt(s, i, j)
  }

  /** One pass with a cursor on the tablet before. */
  method ProcessRingRange(tablets: array<Range>)
    modifies tablets
    ensures tablets[..] == Repaired(old(tablets[..]))
  {
    ghost var s := tablets[..];
    var last := -1;
    var i := 0;
    while i < tablets.Length
      invariant 0 <= i <= tablets.Length && last == i - 1
      invariant Halfway(tablets[..], s, i)
    {
      ghost var t := tablets[..];
      assert t[i] == HalfwayAt(s, i, i) && (last >= 0 ==> t[last] == HalfwayAt(s, i, last));
      if last < 0 {
        tablets[i] := tablets[i].(start := Min);
      } else if tablets[last].table != tablets[i].table {
        tablets[i] := tablets[i].(start := Min);
        tablets[last] := tablets[last].(end := Max);
      } else {
        tablets[i] := tablets[i].(start := tablets[last].end);
      }
      HalfwayGoesOn(t, tablets[..], s, i);
      last := i;
      i := i + 1;
    }
    ghost var t := tablets[..];
    if last >= 0 {
      tablets[last] := tablets[last].(end := Max);
    }
    HalfwayEnds(t, tablets[..], s);
  }

  lemma HalfwayGoesOn(t: seq<Range>, u: seq<Range>, s: seq<Range>, i: int)
    requires Halfway(t, s, i) && 0 <= i < |s| == |u|
    requires u[i] == s[i].(start := RepairedStart(s, i))
    requires i > 0 ==> u[i - 1] == RepairedAt(s, i - 1)
    requires forall j :: 0 <= j < |s| && j != i && j != i - 1 ==> u[j] == t[j]
    ensures Halfway(u, s, i + 1)
  {
  }

  lemma HalfwayEnds(t: seq<Range>, u: seq<Range>, s: seq<Range>)
    requires Halfway(t, s, |s|) && |u| == |s|
    requires s != [] ==> u[|s| - 1] == t[|s| - 1].(end := Max)
    requires forall j :: 0 <= j < |s| - 1 ==> u[j] == t[j]
    ensures u == Repaired(s)
  {
    forall j | 0 <= j < |s| ensures u[j] == RepairedAt(s, j) {
      assert t[j] == HalfwayAt(s, |s|, j);
    }
  }

  /** Tablets come table by table, and within a table by end key. */
  ghost predicate Ordered(s: seq<Range>) {
    forall i, j :: 0 <= i < j < |s| ==>
      s[i].table < s[j].table || (s[i].table == s[j].table && Less(s[i].end, s[j].end))
  }

  ghost predicate Holds(s: seq<Range>, table: int, k: int, i: int) {
    0 <= i < |s| && s[i].table == table && Contains(s[i], At(k))
  }

  /** Every key of every table lies in exactly one of its tablets. */
  ghost predicate Partitions(s: seq<Range>) {
    forall at, k :: 0 <= at < |s| ==> OneHolder(s, s[at].table, k)
  }

  ghost predicate OneHolder(s: seq<Range>, table: int, k: int) {
    exists i :: Holds(s, table, k, i) && forall j :: Holds(s, table, k, j) ==> j == i
  }

  /** Where two tablets of a table meet at a key, exactly one of them takes it. */
  predicate FitsAt(s: seq<Range>, i: int)
    requires 0 <= i < |s| - 1
  {
    s[i].table == s[i + 1].table && s[i].end.At? ==> s[i].endInclusive != s[i + 1].startInclusive
  }

  ghost predicate Fits(s: seq<Range>) {
    forall i :: 0 <= i < |s| - 1 ==> FitsAt(s, i)
  }

  lemma SameTableBetween(s: seq<Range>, i: int, j: int, m: int)
    requires Ordered(s) && 0 <= i <= m <= j < |s| && s[i].table == s[j].table
    ensures s[m].table == s[i].table
  {
  }

  /** Two tablets that share a key are neighbours, meet at it and both take it. */
  lemma SharedKey(s: seq<Range>, table: int, k: int, i: int, j: int)
    requires Ordered(s) && i < j && Holds(Repaired(s), table, k, i) && Holds(Repaired(s), table, k, j)
    ensures j == i + 1 && s[i].end == At(k) && s[i].endInclusive && s[j].startInclusive
    ensures s[i].table == s[j].table == table && !FitsAt(s, i)
  {
    SameTableBetween(s, i, j, i + 1);
    SameTableBetween(s, i, j, j - 1);
  }

  /** A key past the start of a tablet is in it or in a later one of its table. */
  lemma {:induction false} HeldFrom(s: seq<Range>, k: int, i: int) returns (holder: int)
    requires Ordered(s) && Fits(s) && 0 <= i < |s| && AfterStart(Repaired(s)[i], At(k))
    ensures Holds(Repaired(s), s[i].table, k, holder)
    decreases |s| - i
  {
    if BeforeEnd(Repaired(s)[i], At(k)) {
      holder := i;
    } else {
      assert !Ends(s, i) && FitsAt(s, i);
      holder := HeldFrom(s, k, i + 1);
    }
  }

  lemma {:induction false} TableOpens(s: seq<Range>, at: int) returns (first: int)
    requires 0 <= at < |s|
    ensures 0 <= first <= at && Opens(s, first) && s[first].table == s[at].table
    decreases at
  {
    if Opens(s, at) { first := at; } else { first := TableOpens(s, at - 1); }
  }

  lemma FittingPartitions(s: seq<Range>)
    requires Ordered(s) && Fits(s)
    ensures Partitions(Repaired(s))
  {
    var r := Repaired(s);
    forall at, k | 0 <= at < |r| ensures OneHolder(r, r[at].table, k) {
      var table := s[at].table;
      var first := TableOpens(s, at);
      var holder := HeldFrom(s, k, first);
      forall j | Holds(r, table, k, j) ensures j == holder {
        if j < holder { SharedKey(s, table, k, j, holder); }
        if holder < j { SharedKey(s, table, k, holder, j); }
      }
    }
  }

  /** A boundary key that neither neighbour takes is in no tablet. */
  lemma OnlyNeighboursHold(s: seq<Range>, i: int, k: int, j: int)
    requires Ordered(s) && 0 <= i < |s| - 1 && s[i].table == s[i + 1].table && s[i].end == At(k)
    requires Holds(Repaired(s), s[i].table, k, j)
    ensures (j == i && s[i].endInclusive) || (j == i + 1 && s[j].startInclusive)
  {
    if j < i {
      SameTableBetween(s, j, i, j + 1);
    } else if j > i + 1 {
      SameTableBetween(s, i, j, j - 1);
    }
  }

  lemma MisfitBreaks(s: seq<Range>, i: int)
    requires Ordered(s) && 0 <= i < |s| - 1 && !FitsAt(s, i)
    ensures !OneHolder(Repaired(s), s[i].table, s[i].end.k)
  {
    var r, k := Repaired(s), s[i].end.k;
    if s[i].endInclusive {
      assert i > 0 && !Opens(s, i) ==> Less(s[i - 1].end, s[i].end);
      assert Holds(r, s[i].table, k, i);
      assert Less(s[i].end, s[i + 1].end);
      assert Holds(r, s[i].table, k, i + 1);
    } else {
      forall j ensures !Holds(r, s[i].table, k, j) {
        if Holds(r, s[i].table, k, j) { OnlyNeighboursHold(s, i, k, j); }
      }
    }
  }

  /** After the repair of an ordered list every key of a table lies in exactly one of
      its tablets, if and only if exactly one side takes the key at every boundary;
      ranges that exclude their start and include their end always do. */
  lemma PartitionIff(s: seq<Range>)
    requires Ordered(s)
    ensures Partitions(Repaired(s)) <==> Fits(s)
    ensures (forall i :: 0 <= i < |s| ==> !s[i].startInclusive && s[i].endInclusive) ==> Partitions(Repaired(s))
  {
    if Fits(s) {
      FittingPartitions(s);
    } else {
      var i :| 0 <= i < |s| - 1 && !FitsAt(s, i);
      MisfitBreaks(s, i);
      assert !OneHolder(Repaired(s), Repaired(s)[i].table, s[i].end.k);
    }
  }

  lemma StableAt(s: seq<Range>, i: int)
    requires 0 <= i < |s|
    ensures RepairedAt(Repaired(s), i) == RepairedAt(s, i)
  {
    var r := Repaired(s);
    assert Opens(r, i) == Opens(s, i) && Ends(r, i) == Ends(s, i);
    if !Opens(s, i) { assert r[i - 1].end == s[i - 1].end; }
  }

  /** Repairing twice is repairing once, and no inner boundary moves. */
  lemma RepairIsStable(s: seq<Range>)
    ensures Repaired(Repaired(s)) == Repaired(s)
    ensures forall i :: 0 <= i < |s| && !Ends(s, i) ==> Repaired(s)[i].end == s[i].end
  {
    forall i | 0 <= i < |s| ensures Repaired(Repaired(s))[i] == Repaired(s)[i] {
      StableAt(s, i);
    }
  }
}
