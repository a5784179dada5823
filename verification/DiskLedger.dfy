/** The ledger of one disk over any sequence of operations, and what the choice of a
    disk comes to in its figures. */
module DiskLedger {
  import opened DiskTable
  import opened DiskRuns

  // ----------------------------------------------------------------------- ledger

  /** Bytes that the operations take from disk `no`. */
  function Bytes(ops: seq<Op>, no: int): int {
    if ops == [] then 0
    else
      var op := ops[|ops| - 1];
      Bytes(ops[..|ops| - 1], no)
      + (if op.Completing? && op.no == no then op.used else 0)
      - (if op.Releasing? && op.no == no then op.size else 0)
  }

  /** Sstables that they count on it. */
  function Files(ops: seq<Op>, no: int): int {
    if ops == [] then 0
    else
      var op := ops[|ops| - 1];
      Files(ops[..|ops| - 1], no)
      + (if (op.Completing? || op.Linking?) && op.no == no && op.used > 0 then 1 else 0)
      + (if op.Counting? && op.no == no then op.n else 0)
  }

  /** Reservations that they open on the disk at `i` and close again. */
  function Reservations(ops: seq<Op>, i: int, no: int): int {
    if ops == [] then 0
    else
      var op := ops[|ops| - 1];
      Reservations(ops[..|ops| - 1], i, no)
      + (if op.Reserving? && op.index == i then 1 else 0)
      - (if op.Completing? && op.no == no then 1 else 0)
  }

  /** The status it was given last, or `before`. */
  function LastMark(ops: seq<Op>, no: int, before: DiskStatus): DiskStatus {
    if ops == [] then before
    else
      var op := ops[|ops| - 1];
      if op.Marking? && op.no == no then op.status else LastMark(ops[..|ops| - 1], no, before)
  }

  lemma {:induction false} AfterLast(t: Table, ops: seq<Op>, op: Op)
    requires Shaped(t)
    ensures After(t, ops + [op]) == Do(After(t, ops), op)
    ensures AllHonest(t, ops + [op]) <==> AllHonest(t, ops) && Honest(After(t, ops), op)
    decreases |ops|
  {
    if ops == [] {
      assert ops + [op] == [op] && [op][1..] == [];
    } else {
      assert (ops + [op])[0] == ops[0] && (ops + [op])[1..] == ops[1..] + [op];
      AfterLast(Do(t, ops[0]), ops[1..], op);
    }
  }

  /** What the operations leave of disk `i`. */
  ghost predicate Balances(t: Table, r: Table, i: int, ops: seq<Op>) {
    && SameDisks(t, r) && 0 <= i < t.num
    && var no := t.disks[i].no;
    && r.disks[i] == Disk(t.disks[i].capacity, t.disks[i].avail - Bytes(ops, no), no, LastMark(ops, no, t.disks[i].status))
    && r.files[i] == t.files[i] + Files(ops, no)
  }

  lemma OneMoreBalances(t: Table, r: Table, i: int, ops: seq<Op>, op: Op)
    requires Valid(t) && Balances(t, r, i, ops)
    ensures Balances(t, Do(r, op), i, ops + [op])
  {
    assert (ops + [op])[..|ops|] == ops;
    SameDisksAreValid(t, r);
    FindInstalled(r, i);
  }

  /** Over any sequence of operations a disk's space is what it was, less the bytes of the
      completions on it, plus what was released; its sstables are those counted; and its
      status is the one it was given last. */
  lemma {:induction false} LedgerBalances(t: Table, ops: seq<Op>, i: int)
    requires Valid(t) && 0 <= i < t.num
    ensures Balances(t, After(t, ops), i, ops)
    decreases |ops|
  {
    if ops != [] {
      var front, last := ops[..|ops| - 1], ops[|ops| - 1];
      LedgerBalances(t, front, i);
      AfterLast(t, front, last);
      OneMoreBalances(t, After(t, front), i, front, last);
      assert ops == front + [last];
    }
  }

  lemma OneMoreReserves(r: Table, op: Op, i: int)
    requires Honest(r, op) && 0 <= i < r.num
    ensures Do(r, op).pending[i] == r.pending[i]
      + (if op.Reserving? && op.index == i then 1 else 0)
      - (if op.Completing? && op.no == r.disks[i].no then 1 else 0)
  {
    FindInstalled(r, i);
  }

  /** Over honest operations its open reservations are those made on it less those
      completed. */
  lemma {:induction false} ReservationsBalance(t: Table, ops: seq<Op>, i: int)
    requires Valid(t) && AllHonest(t, ops) && 0 <= i < t.num
    ensures After(t, ops).pending[i] == t.pending[i] + Reservations(ops, i, t.disks[i].no)
    decreases |ops|
  {
    if ops != [] {
      var front, last := ops[..|ops| - 1], ops[|ops| - 1];
      assert ops == front + [last];
      AfterLast(t, front, last);
      ReservationsBalance(t, front, i);
      OneMoreReserves(After(t, front), last, i);
    }
  }

  // ------------------------------------------------------------------ failed disks

  /** A disk may be chosen exactly while it is normal and one more whole sstable fits
      beside those being written. */
  lemma EligibleIff(t: Table, i: int)
    requires Valid(t) && 0 <= i < t.num
    ensures Eligible(t, i) <==> t.disks[i].status == Normal && t.disks[i].avail >= (t.pending[i] + 1) * t.maxSize
  {
  }

  lemma FailedIsNotEligible(t: Table, ops: seq<Op>, i: int)
    requires Valid(t) && 0 <= i < t.num && LastMark(ops, t.disks[i].no, Normal) == Failed
    ensures !Eligible(After(t, ops), i)
  {
    LedgerBalances(t, ops, i);
    LastMarkStays(ops, t.disks[i].no, Normal, t.disks[i].status);
  }

  /** A disk that was marked as failed is not chosen until it is marked as normal again,
      whatever else happens. */
  lemma FailedIsNotChosen(t: Table, ops: seq<Op>, no: int, limit: int, threshold: int, i: int)
    requires Valid(t) && LastMark(ops, no, Normal) == Failed && Chosen(After(t, ops), limit, threshold, i)
    ensures i != -1 ==> 0 <= i < t.num && t.disks[i].no != no
  {
    SameDisksAreValid(t, After(t, ops));
    if i != -1 { EligibleHasSpace(After(t, ops), limit, threshold, i); }
    if 0 <= i < t.num && t.disks[i].no == no { FailedIsNotEligible(t, ops, i); }
  }

  /** A mark that was given does not depend on the status before. */
  lemma {:induction false} LastMarkStays(ops: seq<Op>, no: int, a: DiskStatus, b: DiskStatus)
    requires LastMark(ops, no, a) != a
    ensures LastMark(ops, no, b) == LastMark(ops, no, a)
  {
    if ops != [] {
      var op := ops[|ops| - 1];
      if !(op.Marking? && op.no == no) { LastMarkStays(ops[..|ops| - 1], no, a, b); }
    }
  }

  /** Marking one disk leaves the others as eligible as they were; marked as normal it is
      eligible again if it has room. */
  lemma MarkingMovesOne(t: Table, no: int, status: DiskStatus, j: int)
    requires Valid(t) && 0 <= j < t.num
    ensures Eligible(SetStatus(t, no, status), j) <==>
      if t.disks[j].no == no then status == Normal && t.disks[j].avail >= (t.pending[j] + 1) * t.maxSize
      else Eligible(t, j)
  {
    FindInstalled(t, j);
    SameDisksAreValid(t, SetStatus(t, no, status));
    EligibleIff(SetStatus(t, no, status), j);
  }

  // ---------------------------------------------------------------- use after a scan

  /** Bytes in use on the usable disks among the first `n`, as the file system reports. */
  function UsedAtScan(probes: seq<Probe>, n: nat): int
    requires n <= |probes|
  {
    if n == 0 then 0
    else UsedAtScan(probes, n - 1)
         + if Usable(probes, n) && probes[n - 1].Ready? then probes[n - 1].capacity - probes[n - 1].avail else 0
  }

  function UsedOf(disks: seq<Disk>): int {
    if disks == [] then 0
    else UsedOf(disks[..|disks| - 1]) + disks[|disks| - 1].capacity - disks[|disks| - 1].avail
  }

  lemma UsedMore(disks: seq<Disk>, d: Disk)
    ensures UsedOf(disks + [d]) == UsedOf(disks) + d.capacity - d.avail
  {
    assert (disks + [d])[..|disks|] == disks;
  }

  lemma InstalledLast(probes: seq<Probe>, n: nat)
    requires 0 < n <= |probes|
    ensures Installed(probes, n) == if Usable(probes, n)
      then Installed(probes, n - 1) + [Disk(probes[n - 1].capacity, probes[n - 1].avail, n, Normal)]
      else Installed(probes, n - 1)
  {
  }

  lemma {:induction false} InstalledUse(probes: seq<Probe>, n: nat)
    requires n <= |probes|
    ensures UsedOf(Installed(probes, n)) == UsedAtScan(probes, n)
  {
    if n > 0 {
      InstalledUse(probes, n - 1);
      InstalledLast(probes, n);
      if Usable(probes, n) {
        UsedMore(Installed(probes, n - 1), Disk(probes[n - 1].capacity, probes[n - 1].avail, n, Normal));
        assert UsedOf(Installed(probes, n)) == UsedAtScan(probes, n);
      } else {
        assert UsedOf(Installed(probes, n)) == UsedAtScan(probes, n);
      }
    }
  }

  lemma {:induction false} UsedIsSum(t: Table, k: nat)
    requires k <= |t.disks| == |t.pending| && forall i :: 0 <= i < k ==> t.pending[i] == 0
    ensures UsedBelow(t, k) == UsedOf(t.disks[..k])
  {
    if k > 0 {
      UsedIsSum(t, k - 1);
      assert t.disks[..k][..k - 1] == t.disks[..k - 1];
    }
  }

  /** After a scan the reported use is what the file system reports for the usable disks. */
  lemma ScanReportsUse(probes: seq<Probe>, maxSize: int)
    requires |probes| == MAX_DISK
    ensures TotalUsed(Scanned(probes, maxSize)) == UsedAtScan(probes, MAX_DISK)
  {
    var t := Scanned(probes, maxSize);
    UsedIsSum(t, t.num);
    InstalledUse(probes, MAX_DISK);
    assert t.disks[..t.num] == Installed(probes, MAX_DISK);
  }

  // ------------------------------------------------------------ the choice in figures

  /** What the sstables being written leave of the disk. */
  function Left(t: Table, j: int): int
    requires 0 <= j < |t.disks| == |t.pending|
  {
    t.disks[j].avail - t.pending[j] * t.maxSize
  }

  ghost predicate HasRoom(t: Table, j: int)
    requires Shaped(t)
  {
    0 <= j < t.num && t.disks[j].status == Normal && Left(t, j) >= t.maxSize
  }

  /** A normal disk with room is used beyond the threshold, in percent. */
  ghost predicate SomeBeyond(t: Table, threshold: int)
    requires Shaped(t)
  {
    exists j :: HasRoom(t, j) && (t.disks[j].capacity - Left(t, j)) * 100 > t.disks[j].capacity * threshold
  }

  ghost predicate SomeQuiet(t: Table, limit: int)
    requires Shaped(t)
  {
    exists j :: HasRoom(t, j) && t.pending[j] < limit
  }

  /** `i` is the first of the disks with the most space left among those that have room
      and fewer than `limit` writers, or room alone. */
  ghost predicate HasMost(t: Table, limit: int, quiet: bool, i: int)
    requires Shaped(t)
  {
    && HasRoom(t, i) && (quiet ==> t.pending[i] < limit)
    && forall j :: HasRoom(t, j) && (quiet ==> t.pending[j] < limit) ==>
         Left(t, j) < Left(t, i) || (Left(t, j) == Left(t, i) && i <= j)
  }

  /** `i` has the fewest sstables of the quiet disks with room; among equals the most
      space left, and among equals again it is the first. */
  ghost predicate HasFewest(t: Table, limit: int, i: int)
    requires Shaped(t)
  {
    && HasRoom(t, i) && t.pending[i] < limit
    && forall j :: HasRoom(t, j) && t.pending[j] < limit ==>
         || t.files[i] < t.files[j]
         || (t.files[i] == t.files[j] && (Left(t, j) < Left(t, i) || (Left(t, j) == Left(t, i) && i <= j)))
  }

  /** The choice: by the number of sstables while no disk is used beyond the threshold,
      else by space; among the quiet disks if there are any; and none exactly when no
      normal disk has room. */
  lemma ChoiceInFigures(t: Table, limit: int, threshold: int, i: int)
    requires Valid(t) && (forall j :: 0 <= j < t.num ==> t.files[j] <= INT32_MAX)
    ensures Chosen(t, limit, threshold, i) <==>
      if !SomeBeyond(t, threshold) && SomeQuiet(t, limit) then HasFewest(t, limit, i)
      else if SomeQuiet(t, limit) then HasMost(t, limit, true, i)
      else if exists j :: HasRoom(t, j) then HasMost(t, limit, false, i)
      else i == -1
  {
    FiguresAgree(t, limit, threshold);
    if !SomeBeyond(t, threshold) && SomeQuiet(t, limit) {
      FewestIsLightest(t, limit, i);
    } else if SomeQuiet(t, limit) {
      MostIsRoomiest(t, limit, i);
    }
  }

  lemma FiguresAgree(t: Table, limit: int, threshold: int)
    requires Valid(t) && (forall j :: 0 <= j < t.num ==> t.files[j] <= INT32_MAX)
    ensures forall j :: 0 <= j < t.num ==> (Eligible(t, j) <==> HasRoom(t, j))
    ensures SomeBeyond(t, threshold) <==> SomeFull(t, threshold, t.num)
    ensures SomeQuiet(t, limit) <==> exists j :: 0 <= j < t.num && Writable(t, limit, j)
    ensures SomeQuiet(t, limit) <==> exists j :: 0 <= j < t.num && Countable(t, limit, j)
  {
    if SomeBeyond(t, threshold) {
      var j :| HasRoom(t, j) && (t.disks[j].capacity - Left(t, j)) * 100 > t.disks[j].capacity * threshold;
      assert Full(t, threshold, j);
    }
    if SomeQuiet(t, limit) {
      var j :| HasRoom(t, j) && t.pending[j] < limit;
      assert Writable(t, limit, j) && Countable(t, limit, j);
    }
  }

  lemma FewestIsLightest(t: Table, limit: int, i: int)
    requires Valid(t) && (forall j :: 0 <= j < t.num ==> t.files[j] <= INT32_MAX) && SomeQuiet(t, limit)
    ensures i != -1 && LightestCountable(t, limit, t.num, i) <==> HasFewest(t, limit, i)
  {
    forall j | 0 <= j < t.num ensures Countable(t, limit, j) <==> HasRoom(t, j) && t.pending[j] < limit {
    }
    if i != -1 && LightestCountable(t, limit, t.num, i) {
      forall j | HasRoom(t, j) && t.pending[j] < limit ensures Lighter(t, i, j) { assert Countable(t, limit, j); }
    }
  }

  lemma MostIsRoomiest(t: Table, limit: int, i: int)
    requires Valid(t) && SomeQuiet(t, limit)
    ensures i != -1 && RoomiestWritable(t, limit, t.num, i) <==> HasMost(t, limit, true, i)
  {
    if i != -1 && RoomiestWritable(t, limit, t.num, i) {
      forall j | HasRoom(t, j) && t.pending[j] < limit ensures Roomier(t, i, j) { assert Writable(t, limit, j); }
    }
  }
}
