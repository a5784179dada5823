/** The disk table of the chunk server and what its operations mean. */
module DiskTable {

  /** OB_MAX_DISK_NUMBER. */
  const MAX_DISK: nat := 16
  const INT32_MAX: int := 0x7fff_ffff

  datatype DiskStatus = Normal | Failed

  datatype Disk = Disk(capacity: int, avail: int, no: int, status: DiskStatus)

  const NO_DISK := Disk(0, 0, 0, Normal)

  /** `num` installed disks in a table of MAX_DISK; per disk the sstables being
      written (`pending`) and written (`files`). */
  datatype Table = Table(num: int, disks: seq<Disk>, pending: seq<int>, files: seq<int>, maxSize: int)

  ghost predicate Shaped(t: Table) {
    0 <= t.num <= MAX_DISK && |t.disks| == |t.pending| == |t.files| == MAX_DISK
  }

  /** What `scan` establishes and every operation keeps. */
  ghost predicate Valid(t: Table) {
    && Shaped(t)
    && (t.num > 0 ==> t.maxSize > 0)
    && (forall i :: 0 <= i < t.num ==> 1 <= t.disks[i].no <= MAX_DISK && t.pending[i] >= 0)
    && (forall i, j :: 0 <= i < j < t.num ==> t.disks[i].no < t.disks[j].no)
    && (forall i :: t.num <= i < MAX_DISK ==> t.disks[i].no == 0)
  }

  /** Numbers grow with the index, so disk `no` sits at index `no - 1` or below. */
  lemma {:induction false} NumberAboveIndex(t: Table, i: int)
    requires Valid(t) && 0 <= i < t.num
    ensures i + 1 <= t.disks[i].no
  {
    if i > 0 { NumberAboveIndex(t, i - 1); }
  }

  // --------------------------------------------------------------- selection

  /** Space left when every sstable being written has reached its full size. */
  function Room(t: Table, i: int): int
    requires 0 <= i < |t.disks| == |t.pending|
  {
    t.disks[i].avail - t.pending[i] * t.maxSize
  }

  predicate Eligible(t: Table, i: int) {
    0 <= i < t.num && i < |t.disks| == |t.pending| && t.disks[i].status == Normal && Room(t, i) >= t.maxSize
  }

  /** `limit` is the number of concurrent writers a disk may have. */
  predicate Writable(t: Table, limit: int, i: int) {
    Eligible(t, i) && t.pending[i] < limit
  }

  predicate Countable(t: Table, limit: int, i: int) {
    Writable(t, limit, i) && i < |t.files| && t.files[i] <= INT32_MAX
  }

  predicate Full(t: Table, threshold: int, i: int) {
    Eligible(t, i) && (t.disks[i].capacity - Room(t, i)) * 100 > t.disks[i].capacity * threshold
  }

  predicate Roomier(t: Table, i: int, j: int)
    requires 0 <= i < |t.disks| == |t.pending| && 0 <= j < |t.disks|
  {
    Room(t, i) > Room(t, j) || (Room(t, i) == Room(t, j) && i <= j)
  }

  predicate Lighter(t: Table, i: int, j: int)
    requires 0 <= i < |t.disks| == |t.pending| == |t.files| && 0 <= j < |t.disks|
  {
    t.files[i] < t.files[j] || (t.files[i] == t.files[j] && Roomier(t, i, j))
  }

  /** Among the disks below `k`. */
  ghost predicate RoomiestEligible(t: Table, k: int, i: int)
    requires Shaped(t)
  {
    if i == -1 then forall j :: 0 <= j < k ==> !Eligible(t, j)
    else 0 <= i < k && Eligible(t, i) && forall j :: 0 <= j < k && Eligible(t, j) ==> Roomier(t, i, j)
  }

  ghost predicate RoomiestWritable(t: Table, limit: int, k: int, i: int)
    requires Shaped(t)
  {
    if i == -1 then forall j :: 0 <= j < k ==> !Writable(t, limit, j)
    else 0 <= i < k && Writable(t, limit, i) && forall j :: 0 <= j < k && Writable(t, limit, j) ==> Roomier(t, i, j)
  }

  ghost predicate LightestCountable(t: Table, limit: int, k: int, i: int)
    requires Shaped(t)
  {
    if i == -1 then forall j :: 0 <= j < k ==> !Countable(t, limit, j)
    else 0 <= i < k && Countable(t, limit, i) && forall j :: 0 <= j < k && Countable(t, limit, j) ==> Lighter(t, i, j)
  }

  ghost predicate SomeFull(t: Table, threshold: int, k: int) {
    exists j :: 0 <= j < k && Full(t, threshold, j)
  }

  // One more disk is looked at.

  lemma ExtendEligible(t: Table, k: int, i: int)
    requires Shaped(t) && 0 <= k < t.num && RoomiestEligible(t, k, i)
    ensures RoomiestEligible(t, k + 1, if Eligible(t, k) && (i == -1 || Room(t, k) > Room(t, i)) then k else i)
  {
  }

  lemma ExtendWritable(t: Table, limit: int, k: int, i: int)
    requires Shaped(t) && 0 <= k < t.num && RoomiestWritable(t, limit, k, i)
    ensures RoomiestWritable(t, limit, k + 1,
              if Writable(t, limit, k) && (i == -1 || Room(t, k) > Room(t, i)) then k else i)
  {
  }

  lemma ExtendCountable(t: Table, limit: int, k: int, i: int)
    requires Shaped(t) && 0 <= k < t.num && LightestCountable(t, limit, k, i)
    ensures LightestCountable(t, limit, k + 1,
              if Countable(t, limit, k) && (i == -1 || !Lighter(t, i, k)) then k else i)
  {
  }

  lemma ExtendFull(t: Table, threshold: int, k: int)
    requires Shaped(t) && 0 <= k < t.num
    ensures SomeFull(t, threshold, k + 1) <==> SomeFull(t, threshold, k) || Full(t, threshold, k)
  {
  }

  /** The disk a new sstable should go to; -1 when there is none. */
  ghost predicate Chosen(t: Table, limit: int, threshold: int, i: int)
    requires Shaped(t)
  {
    if !SomeFull(t, threshold, t.num) && exists j :: 0 <= j < t.num && Countable(t, limit, j) then
      i != -1 && LightestCountable(t, limit, t.num, i)
    else if exists j :: 0 <= j < t.num && Writable(t, limit, j) then
      i != -1 && RoomiestWritable(t, limit, t.num, i)
    else
      RoomiestEligible(t, t.num, i)
  }

  /** The running bests of the single pass over the disks. */
  datatype Bests = Bests(
    availIndex: int, avail: int,
    quietIndex: int, quietAvail: int,
    bestIndex: int, bestAvail: int, fewest: int,
    bySpace: bool)

  ghost predicate Tracks(t: Table, limit: int, threshold: int, k: int, b: Bests) {
    && Shaped(t) && 0 <= k <= t.num
    && RoomiestEligible(t, k, b.availIndex)
    && b.avail == (if b.availIndex == -1 then 0 else Room(t, b.availIndex))
    && RoomiestWritable(t, limit, k, b.quietIndex)
    && b.quietAvail == (if b.quietIndex == -1 then 0 else Room(t, b.quietIndex))
    && LightestCountable(t, limit, k, b.bestIndex)
    && b.bestAvail == (if b.bestIndex == -1 then 0 else Room(t, b.bestIndex))
    && b.fewest == (if b.bestIndex == -1 then INT32_MAX else t.files[b.bestIndex])
    && b.bySpace == SomeFull(t, threshold, k)
  }

  lemma TracksToChoice(t: Table, limit: int, threshold: int, b: Bests)
    requires Tracks(t, limit, threshold, t.num, b)
    ensures Chosen(t, limit, threshold,
              if !b.bySpace && b.bestIndex != -1 then b.bestIndex
              else if b.quietIndex != -1 then b.quietIndex else b.availIndex)
  {
  }

  /** The chosen disk has space for a whole sstable, so the test after the
      pass never fails. */
  lemma EligibleHasSpace(t: Table, limit: int, threshold: int, i: int)
    requires Valid(t) && Chosen(t, limit, threshold, i) && i != -1
    ensures 0 <= i < t.num && Eligible(t, i) && t.disks[i].avail >= t.maxSize
  {
    assert t.pending[i] * t.maxSize >= 0;
  }

  /** The choice is unique, and there is none exactly when no normal disk has
      room for one more sstable. */
  lemma ChoiceIsUnique(t: Table, limit: int, threshold: int, i: int, j: int)
    requires Shaped(t) && Chosen(t, limit, threshold, i) && Chosen(t, limit, threshold, j)
    ensures i == j
    ensures i == -1 <==> forall k :: 0 <= k < t.num ==> !Eligible(t, k)
  {
  }

  // -------------------------------------------------------------- operations

  function FindBelow(disks: seq<Disk>, no: int, k: nat): (i: int)
    requires k <= |disks|
    ensures i == -1 || (0 <= i < k && disks[i].no == no)
    ensures i == -1 ==> forall j :: 0 <= j < k ==> disks[j].no != no
  {
    if k == 0 then -1 else if disks[k - 1].no == no then k - 1 else FindBelow(disks, no, k - 1)
  }

  /** The installed disk with this number, or -1. */
  function Find(t: Table, no: int): (i: int)
    requires 0 <= t.num <= |t.disks|
    ensures i == -1 || (0 <= i < t.num && t.disks[i].no == no)
    ensures i == -1 ==> forall j :: 0 <= j < t.num ==> t.disks[j].no != no
  {
    FindBelow(t.disks, no, t.num)
  }

  function Reserve(t: Table, i: int): Table
    requires 0 <= i < |t.pending|
  {
    t.(pending := t.pending[i := t.pending[i] + 1])
  }

  function AddAvail(t: Table, i: int, size: int): Table
    requires 0 <= i < |t.disks|
  {
    t.(disks := t.disks[i := t.disks[i].(avail := t.disks[i].avail + size)])
  }

  function AddUsedSpace(t: Table, no: int, used: int, settle: bool): Table
    requires Shaped(t)
  {
    var i := Find(t, no);
    if i == -1 then t
    else
      var paid := if settle then
        AddAvail(t, i, -used).(pending := t.pending[i := if t.pending[i] > 0 then t.pending[i] - 1 else 0])
      else t;
      if used > 0 then paid.(files := t.files[i := t.files[i] + 1]) else paid
  }

  function ReleaseSpace(t: Table, no: int, size: int): Table
    requires Shaped(t)
  {
    var i := Find(t, no);
    if i == -1 then t else AddAvail(t, i, size)
  }

  function AddSstableNum(t: Table, no: int, n: int): Table
    requires Shaped(t)
  {
    var i := Find(t, no);
    if i == -1 then t else t.(files := t.files[i := t.files[i] + n])
  }

  function SetStatus(t: Table, no: int, status: DiskStatus): Table
    requires Shaped(t)
  {
    var i := Find(t, no);
    if i == -1 then t else t.(disks := t.disks[i := t.disks[i].(status := status)])
  }

  /** The same disks in the same slots. */
  ghost predicate SameDisks(t: Table, u: Table) {
    && Shaped(t) && Shaped(u) && u.num == t.num && u.maxSize == t.maxSize
    && (forall i :: 0 <= i < MAX_DISK ==> u.disks[i].no == t.disks[i].no)
    && (forall i :: 0 <= i < t.num && t.pending[i] >= 0 ==> u.pending[i] >= 0)
  }

  lemma SameDisksAreValid(t: Table, u: Table)
    requires Valid(t) && SameDisks(t, u)
    ensures Valid(u)
  {
  }

  /** Bytes in use on the first k disks, reservations counted in full. */
  function UsedBelow(t: Table, k: nat): int
    requires k <= |t.disks| == |t.pending|
  {
    if k == 0 then 0
    else UsedBelow(t, k - 1) + t.disks[k - 1].capacity - t.disks[k - 1].avail + t.pending[k - 1] * t.maxSize
  }

  function TotalUsed(t: Table): int
    requires Shaped(t)
  {
    UsedBelow(t, t.num)
  }

  // --------------------------------------------------------------------- scan

  /** What `scan` finds for one disk number: no directory; no sstable path (an
      error that ends the scan); no file-system figures or no sstable directory
      (the number is skipped); or a usable disk. */
  datatype Probe = Absent | PathFails | Unusable | Ready(capacity: int, avail: int)

  /** The usable disks among numbers 1..n, in order, up to the first path failure. */
  function Installed(probes: seq<Probe>, n: nat): (r: seq<Disk>)
    requires n <= |probes|
    ensures |r| <= n
    ensures forall i :: 0 <= i < |r| ==> 1 <= r[i].no <= n
    ensures forall i, j :: 0 <= i < j < |r| ==> r[i].no < r[j].no
  {
    if n == 0 then []
    else
      var before := Installed(probes, n - 1);
      match probes[n - 1]
      case Ready(c, a) => if PathFailure(probes, n - 1) then before else before + [Disk(c, a, n, Normal)]
      case _ => before
  }

  predicate PathFailure(probes: seq<Probe>, n: nat)
    requires n <= |probes|
  {
    exists k :: 0 <= k < n && probes[k] == PathFails
  }

  function Filled(n: nat): (r: seq<Disk>)
    ensures |r| == n && forall i :: 0 <= i < n ==> r[i] == NO_DISK
  {
    seq(n, _ => NO_DISK)
  }

  function Zeros(): (r: seq<int>)
    ensures |r| == MAX_DISK && forall i :: 0 <= i < MAX_DISK ==> r[i] == 0
  {
    seq(MAX_DISK, _ => 0)
  }

  lemma PutNext(found: seq<Disk>, d: Disk)
    requires |found| < MAX_DISK
    ensures (found + Filled(MAX_DISK - |found|))[|found| := d] == found + [d] + Filled(MAX_DISK - |found| - 1)
  {
  }

  function Scanned(probes: seq<Probe>, maxSize: int): Table
    requires |probes| == MAX_DISK
  {
    var found := Installed(probes, MAX_DISK);
    Table(|found|, found + Filled(MAX_DISK - |found|), Zeros(), Zeros(), maxSize)
  }

  lemma InstalledNext(probes: seq<Probe>, n: nat)
    requires 0 < n <= |probes| && !PathFailure(probes, n - 1)
    ensures PathFailure(probes, n) <==> probes[n - 1] == PathFails
    ensures Installed(probes, n) == Installed(probes, n - 1) +
      if probes[n - 1].Ready? then [Disk(probes[n - 1].capacity, probes[n - 1].avail, n, Normal)] else []
  {
  }

  predicate Lists(disks: seq<Disk>, no: int) {
    exists i :: 0 <= i < |disks| && disks[i].no == no
  }

  predicate Usable(probes: seq<Probe>, no: int) {
    1 <= no <= |probes| && probes[no - 1].Ready? && !PathFailure(probes, no - 1)
  }

  lemma {:induction false} InstalledMembers(probes: seq<Probe>, n: nat, no: int)
    requires n <= |probes|
    ensures Lists(Installed(probes, n), no) <==> no <= n && Usable(probes, no)
  {
    if n > 0 {
      InstalledMembers(probes, n - 1, no);
      var before, now := Installed(probes, n - 1), Installed(probes, n);
      if before != now {
        assert now[|before|].no == n && forall i :: 0 <= i < |before| ==> now[i] == before[i];
        assert Lists(now, no) <==> Lists(before, no) || no == n;
      }
    }
  }

  /** A scan leaves a valid table that holds exactly the usable disks found
      before the first path failure. */
  lemma ScanIsValid(probes: seq<Probe>, maxSize: int, no: int)
    requires |probes| == MAX_DISK && maxSize > 0
    ensures Valid(Scanned(probes, maxSize))
    ensures Find(Scanned(probes, maxSize), no) != -1 <==> Usable(probes, no)
  {
    var t := Scanned(probes, maxSize);
    var found := Installed(probes, MAX_DISK);
    assert forall i :: 0 <= i < t.num ==> t.disks[i] == found[i];
    InstalledMembers(probes, MAX_DISK, no);
    var f := Find(t, no);
    if f != -1 { assert found[f].no == no; }
  }
}
