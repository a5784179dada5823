/** What holds of the disk table over any sequence of operations. */
module DiskRuns {
  import opened DiskTable

  lemma FindInstalled(t: Table, i: int)
    requires Valid(t) && 0 <= i < t.num
    ensures Find(t, t.disks[i].no) == i
  {
  }

  // ------------------------------------------------------------ accounting

  /** Every sstable being written still fits when it reaches its full size. */
  ghost predicate Committed(t: Table)
    requires Shaped(t)
  {
    forall i :: 0 <= i < t.num ==> Room(t, i) >= 0
  }

  datatype Op =
    | Reserving(index: int, limit: int, threshold: int)
    | Completing(no: int, used: int)
    | Linking(no: int, used: int)
    | Releasing(no: int, size: int)
    | Counting(no: int, n: int)
    | Marking(no: int, status: DiskStatus)

  /** The uses that keep reservations honest: a completion settles a live
      reservation and wrote no more than was reserved. */
  ghost predicate Honest(t: Table, op: Op) {
    && Valid(t)
    && match op
       case Reserving(i, limit, threshold) => Chosen(t, limit, threshold, i)
       case Completing(no, used) =>
         var i := Find(t, no);
         i == -1 || (t.pending[i] > 0 && used <= t.maxSize)
       case Releasing(_, size) => size >= 0
       case _ => true
  }

  function Do(t: Table, op: Op): (r: Table)
    requires Shaped(t)
    ensures SameDisks(t, r)
  {
    match op
    case Reserving(i, _, _) => if 0 <= i < t.num then Reserve(t, i) else t
    case Completing(no, used) => AddUsedSpace(t, no, used, true)
    case Linking(no, used) => AddUsedSpace(t, no, used, false)
    case Releasing(no, size) => ReleaseSpace(t, no, size)
    case Counting(no, n) => AddSstableNum(t, no, n)
    case Marking(no, status) => SetStatus(t, no, status)
  }

  function After(t: Table, ops: seq<Op>): (r: Table)
    requires Shaped(t)
    ensures SameDisks(t, r)
    decreases |ops|
  {
    if ops == [] then t else After(Do(t, ops[0]), ops[1..])
  }

  ghost predicate AllHonest(t: Table, ops: seq<Op>)
    requires Shaped(t)
    decreases |ops|
  {
    ops == [] || (Honest(t, ops[0]) && AllHonest(Do(t, ops[0]), ops[1..]))
  }

  /** Only disk `i` changes, by `bytes` of space and `files` reservations. */
  ghost predicate Shifted(t: Table, r: Table, i: int, bytes: int, files: int) {
    && Shaped(t) && Shaped(r) && 0 <= i < t.num && r.num == t.num && r.maxSize == t.maxSize
    && r.disks[i].capacity == t.disks[i].capacity
    && r.disks[i].avail == t.disks[i].avail - bytes && r.pending[i] == t.pending[i] + files
    && forall j :: 0 <= j < t.num && j != i ==>
         r.disks[j].capacity == t.disks[j].capacity && r.disks[j].avail == t.disks[j].avail && r.pending[j] == t.pending[j]
  }

  lemma ShiftedRoom(t: Table, r: Table, i: int, bytes: int, files: int)
    requires Shifted(t, r, i, bytes, files)
    ensures Room(r, i) == Room(t, i) - bytes - files * t.maxSize
    ensures forall j :: 0 <= j < t.num && j != i ==> Room(r, j) == Room(t, j)
  {
    assert r.pending[i] * t.maxSize == t.pending[i] * t.maxSize + files * t.maxSize;
  }

  lemma ReserveKeepsCommitted(t: Table, limit: int, threshold: int, i: int)
    requires Valid(t) && Committed(t) && Chosen(t, limit, threshold, i) && i != -1
    ensures 0 <= i < t.num && Committed(Reserve(t, i))
  {
    EligibleHasSpace(t, limit, threshold, i);
    ShiftedRoom(t, Reserve(t, i), i, 0, 1);
  }

  lemma ReleaseKeepsCommitted(t: Table, no: int, size: int)
    requires Valid(t) && Committed(t) && size >= 0
    ensures Committed(ReleaseSpace(t, no, size))
  {
    var i := Find(t, no);
    if i != -1 { ShiftedRoom(t, ReleaseSpace(t, no, size), i, -size, 0); }
  }

  /** Exactly when a completion keeps the disks from being over-committed: the
      bytes written fit into the room left plus the reservation it settles, if
      there is one. */
  lemma CompletionIsSafeIff(t: Table, no: int, used: int)
    requires Valid(t) && Committed(t)
    ensures var i := Find(t, no);
      Committed(AddUsedSpace(t, no, used, true)) <==>
        i == -1 || used <= Room(t, i) + (if t.pending[i] > 0 then t.maxSize else 0)
  {
    var i := Find(t, no);
    if i != -1 {
      var r := AddUsedSpace(t, no, used, true);
      ShiftedRoom(t, r, i, used, if t.pending[i] > 0 then -1 else 0);
    }
  }

  /** Steps that leave space and reservations alone. */
  lemma SameRoomKeepsCommitted(t: Table, r: Table)
    requires Shaped(t) && Shaped(r) && Committed(t) && r.num == t.num && r.maxSize == t.maxSize && r.pending == t.pending
    requires forall i :: 0 <= i < t.num ==> r.disks[i].avail == t.disks[i].avail
    ensures Committed(r)
  {
    forall i | 0 <= i < r.num ensures Room(r, i) >= 0 { assert Room(t, i) >= 0; }
  }

  lemma StepKeepsCommitted(t: Table, op: Op)
    requires Honest(t, op) && Committed(t)
    ensures Committed(Do(t, op))
  {
    match op
    case Reserving(i, limit, threshold) => if i != -1 { ReserveKeepsCommitted(t, limit, threshold, i); }
    case Completing(no, used) => CompletionIsSafeIff(t, no, used);
    case Releasing(no, size) => ReleaseKeepsCommitted(t, no, size);
    case Linking(_, _) => SameRoomKeepsCommitted(t, Do(t, op));
    case Counting(_, _) => SameRoomKeepsCommitted(t, Do(t, op));
    case Marking(_, _) => SameRoomKeepsCommitted(t, Do(t, op));
  }

  /** No disk is ever over-committed. */
  lemma {:induction false} NoOverCommit(t: Table, ops: seq<Op>)
    requires Valid(t) && Committed(t) && AllHonest(t, ops)
    ensures Valid(After(t, ops)) && Committed(After(t, ops))
    decreases |ops|
  {
    if ops != [] {
      StepKeepsCommitted(t, ops[0]);
      SameDisksAreValid(t, Do(t, ops[0]));
      NoOverCommit(Do(t, ops[0]), ops[1..]);
    }
  }

  // ---------------------------------------------------------- conservation

  function PendingBelow(t: Table, k: nat): int
    requires k <= |t.pending|
  {
    if k == 0 then 0 else PendingBelow(t, k - 1) + t.pending[k - 1]
  }

  /** Sstables being written. */
  function Outstanding(t: Table): int
    requires Shaped(t)
  {
    PendingBelow(t, t.num)
  }

  /** Bytes a step adds to the disks for good. */
  function Stored(t: Table, op: Op): int
    requires Shaped(t)
  {
    match op
    case Completing(no, used) => if Find(t, no) == -1 then 0 else used
    case Releasing(no, size) => if Find(t, no) == -1 then 0 else -size
    case _ => 0
  }

  function AllStored(t: Table, ops: seq<Op>): int
    requires Shaped(t)
    decreases |ops|
  {
    if ops == [] then 0 else Stored(t, ops[0]) + AllStored(Do(t, ops[0]), ops[1..])
  }

  lemma {:induction false} ShiftedSums(t: Table, r: Table, i: int, bytes: int, files: int, k: nat)
    requires Shifted(t, r, i, bytes, files) && k <= t.num
    ensures PendingBelow(r, k) == PendingBelow(t, k) + (if i < k then files else 0)
    ensures UsedBelow(r, k) == UsedBelow(t, k) + (if i < k then bytes + files * t.maxSize else 0)
  {
    if k > 0 {
      ShiftedSums(t, r, i, bytes, files, k - 1);
      if i == k - 1 {
        assert r.pending[i] * t.maxSize == t.pending[i] * t.maxSize + files * t.maxSize;
      }
    }
  }

  lemma {:induction false} UnchangedSums(t: Table, r: Table, k: nat)
    requires Shaped(t) && Shaped(r) && k <= t.num && r.maxSize == t.maxSize && r.pending == t.pending
    requires forall j :: 0 <= j < k ==> r.disks[j].capacity == t.disks[j].capacity && r.disks[j].avail == t.disks[j].avail
    ensures PendingBelow(r, k) == PendingBelow(t, k) && UsedBelow(r, k) == UsedBelow(t, k)
  {
    if k > 0 { UnchangedSums(t, r, k - 1); }
  }

  lemma OneReserved(t: Table, i: int)
    requires Shaped(t) && 0 <= i < t.num
    ensures Outstanding(Reserve(t, i)) == Outstanding(t) + 1
    ensures TotalUsed(Reserve(t, i)) == TotalUsed(t) + t.maxSize
  {
    ShiftedSums(t, Reserve(t, i), i, 0, 1, t.num);
  }

  lemma OneCompleted(t: Table, no: int, used: int)
    requires Shaped(t) && Find(t, no) != -1 && t.pending[Find(t, no)] > 0
    ensures var r := AddUsedSpace(t, no, used, true);
      Outstanding(r) == Outstanding(t) - 1 && TotalUsed(r) == TotalUsed(t) + used - t.maxSize
  {
    ShiftedSums(t, AddUsedSpace(t, no, used, true), Find(t, no), used, -1, t.num);
  }

  lemma OneReleased(t: Table, no: int, size: int)
    requires Shaped(t) && Find(t, no) != -1
    ensures var r := ReleaseSpace(t, no, size);
      Outstanding(r) == Outstanding(t) && TotalUsed(r) == TotalUsed(t) - size
  {
    ShiftedSums(t, ReleaseSpace(t, no, size), Find(t, no), -size, 0, t.num);
  }

  /** Reservations a step opens or closes. */
  function Opened(t: Table, op: Op): int
    requires Shaped(t)
  {
    match op
    case Reserving(i, _, _) => if 0 <= i < t.num then 1 else 0
    case Completing(no, _) => if Find(t, no) == -1 then 0 else -1
    case _ => 0
  }

  lemma StepConserves(t: Table, op: Op)
    requires Honest(t, op)
    ensures Outstanding(Do(t, op)) == Outstanding(t) + Opened(t, op)
    ensures TotalUsed(Do(t, op)) == TotalUsed(t) + Stored(t, op) + Opened(t, op) * t.maxSize
  {
    match op
    case Reserving(i, _, _) => if 0 <= i < t.num { OneReserved(t, i); }
    case Completing(no, used) => if Find(t, no) != -1 { OneCompleted(t, no, used); }
    case Releasing(no, size) => if Find(t, no) != -1 { OneReleased(t, no, size); }
    case Linking(_, _) => UnchangedSums(t, Do(t, op), t.num);
    case Counting(_, _) => UnchangedSums(t, Do(t, op), t.num);
    case Marking(_, _) => UnchangedSums(t, Do(t, op), t.num);
  }

  /** What a run has stored and not yet settled accounts for the change in use. */
  ghost predicate Conserved(t: Table, r: Table, stored: int)
    requires Shaped(t) && Shaped(r)
  {
    TotalUsed(r) == TotalUsed(t) + stored + (Outstanding(r) - Outstanding(t)) * t.maxSize
  }

  lemma ConservedFollows(t: Table, m: Table, r: Table, first: int, rest: int)
    requires Shaped(t) && Shaped(m) && Shaped(r) && t.maxSize == m.maxSize
    requires Conserved(t, m, first) && Conserved(m, r, rest)
    ensures Conserved(t, r, first + rest)
  {
    var a, b, c := Outstanding(t), Outstanding(m), Outstanding(r);
    assert (b - a) * t.maxSize + (c - b) * t.maxSize == (c - a) * t.maxSize;
  }

  lemma FirstConserves(t: Table, ops: seq<Op>)
    requires ops != [] && Valid(t) && AllHonest(t, ops)
    ensures Valid(Do(t, ops[0])) && AllHonest(Do(t, ops[0]), ops[1..])
    ensures Conserved(t, Do(t, ops[0]), Stored(t, ops[0]))
  {
    StepConserves(t, ops[0]);
    SameDisksAreValid(t, Do(t, ops[0]));
  }

  /** Conservation over a whole run: the reported use is what was stored plus a
      full sstable for each one still being written. */
  lemma {:induction false} UseIsConserved(t: Table, ops: seq<Op>)
    requires Valid(t) && AllHonest(t, ops)
    ensures Conserved(t, After(t, ops), AllStored(t, ops))
    decreases |ops|
  {
    if ops != [] {
      var m := Do(t, ops[0]);
      FirstConserves(t, ops);
      UseIsConserved(m, ops[1..]);
      ConservedFollows(t, m, After(m, ops[1..]), Stored(t, ops[0]), AllStored(m, ops[1..]));
    }
  }

  /** A reservation and its completion add exactly the bytes used. */
  lemma PairAddsUsedBytes(t: Table, i: int, used: int)
    requires Valid(t) && 0 <= i < t.num
    ensures TotalUsed(AddUsedSpace(Reserve(t, i), t.disks[i].no, used, true)) == TotalUsed(t) + used
  {
    var m := Reserve(t, i);
    SameDisksAreValid(t, m);
    FindInstalled(m, i);
    OneReserved(t, i);
    OneCompleted(m, t.disks[i].no, used);
  }

  // ---------------------------------------------------------- load balance

  /** Any disk may be chosen, and by the number of sstables. */
  ghost predicate AllOpen(t: Table, limit: int, threshold: int) {
    forall i :: 0 <= i < t.num ==> Countable(t, limit, i) && !Full(t, threshold, i)
  }

  ghost predicate Balanced(t: Table)
    requires Shaped(t)
  {
    forall i, j :: 0 <= i < t.num && 0 <= j < t.num ==> t.files[i] <= t.files[j] + 1
  }

  /** One sstable is placed and finished before the next is placed. */
  datatype Placing = Placing(index: int, used: int)

  function Place(t: Table, p: Placing): (r: Table)
    requires Shaped(t) && 0 <= p.index < t.num
    ensures SameDisks(t, r)
  {
    AddUsedSpace(Reserve(t, p.index), t.disks[p.index].no, p.used, true)
  }

  ghost predicate Places(t: Table, limit: int, threshold: int, ps: seq<Placing>)
    requires Shaped(t)
    decreases |ps|
  {
    ps == [] || (
      && AllOpen(t, limit, threshold) && 0 <= ps[0].index < t.num && ps[0].used > 0
      && Chosen(t, limit, threshold, ps[0].index)
      && Places(Place(t, ps[0]), limit, threshold, ps[1..]))
  }

  function Placed(t: Table, ps: seq<Placing>): (r: Table)
    requires Shaped(t)
    ensures SameDisks(t, r)
    decreases |ps|
  {
    if ps == [] then t
    else Placed(if 0 <= ps[0].index < t.num then Place(t, ps[0]) else t, ps[1..])
  }

  lemma PlaceKeepsBalance(t: Table, limit: int, threshold: int, p: Placing)
    requires Valid(t) && Balanced(t) && AllOpen(t, limit, threshold)
    requires 0 <= p.index < t.num && p.used > 0 && Chosen(t, limit, threshold, p.index)
    ensures Valid(Place(t, p)) && Balanced(Place(t, p))
  {
    var m, r := Reserve(t, p.index), Place(t, p);
    SameDisksAreValid(t, m);
    SameDisksAreValid(m, r);
    FindInstalled(m, p.index);
    assert r.files == t.files[p.index := t.files[p.index] + 1];
    assert Countable(t, limit, p.index);
    assert LightestCountable(t, limit, t.num, p.index);
    forall j | 0 <= j < t.num ensures t.files[p.index] <= t.files[j] {
      assert Countable(t, limit, j);
      assert Lighter(t, p.index, j);
    }
  }

  /** However many sstables are placed one after the other, the counts of any
      two disks never drift more than one apart. */
  lemma {:induction false} LoadStaysBalanced(t: Table, limit: int, threshold: int, ps: seq<Placing>)
    requires Valid(t) && Balanced(t) && Places(t, limit, threshold, ps)
    ensures Balanced(Placed(t, ps))
    decreases |ps|
  {
    if ps != [] {
      PlaceKeepsBalance(t, limit, threshold, ps[0]);
      LoadStaysBalanced(Place(t, ps[0]), limit, threshold, ps[1..]);
    }
  }
}
