/** The disk manager object; its lock makes every method one step. */
module DiskManager {
  import opened DiskTable

  class Manager {
    const disk: array<Disk>
    const pendingFiles: array<int>
    const sstableFiles: array<int>
    const diskNoArray: array<int>
    var diskNum: int
    var maxSstableSize: int

    ghost predicate Formed()
      reads this, diskNoArray, disk
    {
      && disk.Length == pendingFiles.Length == sstableFiles.Length == diskNoArray.Length == MAX_DISK
      && pendingFiles != sstableFiles && pendingFiles != diskNoArray && sstableFiles != diskNoArray
      && 0 <= diskNum <= MAX_DISK
      && forall i :: 0 <= i < diskNum ==> diskNoArray[i] == disk[i].no
    }

    ghost function View(): Table
      reads this, disk, pendingFiles, sstableFiles
    {
      Table(diskNum, disk[..], pendingFiles[..], sstableFiles[..], maxSstableSize)
    }

    ghost predicate Ready()
      reads this, disk, pendingFiles, sstableFiles, diskNoArray
    {
      Formed() && Valid(View())
    }

    constructor ()
      ensures Ready() && fresh(disk) && fresh(pendingFiles) && fresh(sstableFiles) && fresh(diskNoArray)
      ensures View() == Table(0, Filled(MAX_DISK), Zeros(), Zeros(), 0)
    {
      disk := new Disk[MAX_DISK](_ => NO_DISK);
      pendingFiles := new int[MAX_DISK](_ => 0);
      sstableFiles := new int[MAX_DISK](_ => 0);
      diskNoArray := new int[MAX_DISK](_ => 0);
      diskNum, maxSstableSize := 0, 0;
      new;
      assert disk[..] == Filled(MAX_DISK) && pendingFiles[..] == Zeros() && sstableFiles[..] == Zeros();
    }

    method Reset()
      requires Formed()
      modifies this`diskNum, disk, pendingFiles, sstableFiles, diskNoArray
      ensures Formed() && View() == Table(0, Filled(MAX_DISK), Zeros(), Zeros(), maxSstableSize)
    {
      diskNum := 0;
      var i := 0;
      while i < MAX_DISK
        invariant 0 <= i <= MAX_DISK && diskNum == 0
        invariant forall j :: 0 <= j < i ==> disk[j] == NO_DISK && pendingFiles[j] == 0 && sstableFiles[j] == 0
      {
        pendingFiles[i] := 0;
        sstableFiles[i] := 0;
        diskNoArray[i] := 0;
        disk[i] := NO_DISK;
        i := i + 1;
      }
      assert disk[..] == Filled(MAX_DISK) && pendingFiles[..] == Zeros() && sstableFiles[..] == Zeros();
    }

    method Install(n: int, capacity: int, avail: int)
      requires Formed() && diskNum < MAX_DISK
      modifies this`diskNum, disk, diskNoArray
      ensures Formed() && diskNum == old(diskNum) + 1
      ensures disk[..] == old(disk[..])[old(diskNum) := Disk(capacity, avail, n, Normal)]
    {
      disk[diskNum] := Disk(capacity, avail, n, Normal);
      diskNoArray[diskNum] := n;
      diskNum := diskNum + 1;
    }

    /** The loop of `scan` over the disk numbers. */
    method InstallAll(probes: seq<Probe>) returns (ok: bool)
      requires Formed() && |probes| == MAX_DISK && diskNum == 0 && disk[..] == Filled(MAX_DISK)
      modifies this`diskNum, disk, diskNoArray
      ensures Formed() && ok == !PathFailure(probes, MAX_DISK)
      ensures diskNum == |Installed(probes, MAX_DISK)|
      ensures disk[..] == Installed(probes, MAX_DISK) + Filled(MAX_DISK - diskNum)
    {
      ok := true;
      var n := 1;
      while n <= MAX_DISK && ok
        invariant Formed() && 1 <= n <= MAX_DISK + 1
        invariant ok == !PathFailure(probes, n - 1)
        invariant diskNum == |Installed(probes, n - 1)|
        invariant disk[..] == Installed(probes, n - 1) + Filled(MAX_DISK - diskNum)
      {
        InstalledNext(probes, n);
        match probes[n - 1] {
          case Absent =>
          case PathFails => ok := false;
          case Unusable =>
          case Ready(capacity, avail) =>
            PutNext(Installed(probes, n - 1), Disk(capacity, avail, n, Normal));
            Install(n, capacity, avail);
        }
        n := n + 1;
      }
      InstalledStops(probes, n - 1);
    }

    /** The disk checker takes the installed numbers; it has no place for 16. */
    method InitChecker() returns (ok: bool)
      requires Formed()
      ensures ok <==> forall i :: 0 <= i < diskNum ==> disk[i].no < MAX_DISK
    {
      ok := true;
      var i := 0;
      while i < diskNum
        invariant 0 <= i <= diskNum
        invariant ok <==> forall j :: 0 <= j < i ==> disk[j].no < MAX_DISK
      {
        if diskNoArray[i] >= MAX_DISK {
          ok := false;
        }
        i := i + 1;
      }
    }

    /** `scan`: the answers of the file system are `probes`.  Once a disk is installed,
        the disk checker's answer stands for the result. */
    method Scan(dirGiven: bool, maxSize: int, probes: seq<Probe>) returns (ok: bool)
      requires Formed() && |probes| == MAX_DISK
      modifies this, disk, pendingFiles, sstableFiles, diskNoArray
      ensures Formed()
      ensures !dirGiven || maxSize <= 0 ==> !ok && View() == old(View())
      ensures dirGiven && maxSize > 0 ==> Ready() && View() == Scanned(probes, maxSize)
      ensures dirGiven && maxSize > 0 ==>
        ok == if diskNum > 0 then !Usable(probes, MAX_DISK) else !PathFailure(probes, MAX_DISK)
    {
      if !dirGiven || maxSize <= 0 { return false; }
      maxSstableSize := maxSize;
      Reset();
      ok := InstallAll(probes);
      ScanIsValid(probes, maxSize, MAX_DISK);
      assert View() == Scanned(probes, maxSize);
      if diskNum > 0 {
        ok := InitChecker();
        assert View().disks == disk[..];
      }
    }

    /** `find_disk`: downward from the slot a disk has when none is missing. */
    method FindDisk(no: int) returns (index: int)
      requires Ready() && no <= MAX_DISK
      ensures index == Find(View(), no)
      ensures index != -1 <==> exists i :: 0 <= i < diskNum && disk[i].no == no
    {
      index := no - 1;
      forall j | 0 <= j < diskNum ensures j + 1 <= disk[j].no { NumberAboveIndex(View(), j); }
      while index >= 0
        invariant -1 <= index < MAX_DISK || no <= 0
        invariant forall j :: index < j < diskNum && 0 <= j ==> disk[j].no != no
      {
        if disk[index].no == no { return; }
        index := index - 1;
      }
      index := -1;
    }

    /** `get_dest_disk`: reserves room on the chosen disk. */
    method GetDestDisk(concurrentWriters: int, threshold: int) returns (no: int, ghost index: int)
      requires Ready()
      modifies pendingFiles
      ensures Ready()
      ensures Chosen(old(View()), if concurrentWriters <= 0 then 1 else concurrentWriters, threshold, index)
      ensures index == -1 ==> no == -1 && View() == old(View())
      ensures index != -1 ==> no == disk[index].no && View() == Reserve(old(View()), index)
      ensures no == -1 <==> forall i :: 0 <= i < diskNum ==> !Eligible(old(View()), i)
    {
      if diskNum <= 0 { return -1, -1; }
      var limit := if concurrentWriters <= 0 then 1 else concurrentWriters;
      var chosen := Select(limit, threshold);
      index := chosen;
      ChoiceIsUnique(View(), limit, threshold, chosen, chosen);
      if chosen != -1 { EligibleHasSpace(View(), limit, threshold, chosen); }
      if chosen == -1 || disk[chosen].avail < maxSstableSize {
        no := -1;
      } else {
        no := disk[chosen].no;
        pendingFiles[chosen] := pendingFiles[chosen] + 1;
        assert View() == Reserve(old(View()), chosen);
        SameDisksAreValid(old(View()), View());
      }
    }

    /** The body of the single pass: disk `i` is compared with the bests so far. */
    method Look(i: int, b: Bests, limit: int, threshold: int) returns (n: Bests)
      requires Ready() && 0 <= i < diskNum && Tracks(View(), limit, threshold, i, b)
      ensures Tracks(View(), limit, threshold, i + 1, n)
    {
      ghost var t := View();
      ExtendEligible(t, i, b.availIndex);
      ExtendWritable(t, limit, i, b.quietIndex);
      ExtendCountable(t, limit, i, b.bestIndex);
      ExtendFull(t, threshold, i);
      n := b;
      var room := disk[i].avail - pendingFiles[i] * maxSstableSize;
      assert room == Room(t, i);
      if disk[i].status == Normal && room >= maxSstableSize {
        if room > n.avail { n := n.(avail := room, availIndex := i); }
        if pendingFiles[i] < limit && room > n.quietAvail { n := n.(quietAvail := room, quietIndex := i); }
        if sstableFiles[i] <= n.fewest && pendingFiles[i] < limit {
          if sstableFiles[i] < n.fewest || (sstableFiles[i] == n.fewest && room > n.bestAvail) {
            n := n.(bestIndex := i, bestAvail := room, fewest := sstableFiles[i]);
          }
        }
        if !n.bySpace && (disk[i].capacity - room) * 100 > disk[i].capacity * threshold {
          n := n.(bySpace := true);
        }
      }
    }

    /** The single pass over the disks. */
    method Select(limit: int, threshold: int) returns (chosen: int)
      requires Ready()
      ensures Chosen(View(), limit, threshold, chosen)
    {
      var b := Bests(-1, 0, -1, 0, -1, 0, INT32_MAX, false);
      var i := 0;
      while i < diskNum
        invariant 0 <= i <= diskNum && Tracks(View(), limit, threshold, i, b)
      {
        b := Look(i, b, limit, threshold);
        i := i + 1;
      }
      TracksToChoice(View(), limit, threshold, b);
      if !b.bySpace && b.bestIndex != -1 {
        chosen := b.bestIndex;
      } else if b.quietIndex != -1 {
        chosen := b.quietIndex;
      } else {
        chosen := b.availIndex;
      }
    }

    method AddUsedSpace(no: int, used: int, settle: bool)
      requires Ready()
      modifies disk, pendingFiles, sstableFiles
      ensures Ready() && View() == DiskTable.AddUsedSpace(old(View()), no, used, settle)
    {
      if 0 < no <= MAX_DISK {
        var index := FindDisk(no);
        if index != -1 {
          if settle {
            disk[index] := disk[index].(avail := disk[index].avail - used);
            pendingFiles[index] := if pendingFiles[index] > 0 then pendingFiles[index] - 1 else 0;
          }
          if used > 0 { sstableFiles[index] := sstableFiles[index] + 1; }
          assert View() == DiskTable.AddUsedSpace(old(View()), no, used, settle);
          SameDisksAreValid(old(View()), View());
        }
      }
    }

    method AddSstableNum(no: int, n: int)
      requires Ready()
      modifies sstableFiles
      ensures Ready() && View() == DiskTable.AddSstableNum(old(View()), no, n)
    {
      if 0 < no <= MAX_DISK {
        var index := FindDisk(no);
        if index != -1 {
          sstableFiles[index] := sstableFiles[index] + n;
          assert View() == DiskTable.AddSstableNum(old(View()), no, n);
          SameDisksAreValid(old(View()), View());
        }
      }
    }

    method SetDiskStatus(no: int, status: DiskStatus) returns (ok: bool)
      requires Ready()
      modifies disk
      ensures Ready() && View() == SetStatus(old(View()), no, status)
      ensures ok <==> Find(old(View()), no) != -1
    {
      ok := false;
      if 0 < no <= MAX_DISK {
        var index := FindDisk(no);
        if index != -1 {
          disk[index] := disk[index].(status := status);
          ok := true;
          assert View() == SetStatus(old(View()), no, status);
          SameDisksAreValid(old(View()), View());
        }
      }
    }

    method ReleaseSpace(no: int, size: int)
      requires Ready()
      modifies disk
      ensures Ready() && View() == DiskTable.ReleaseSpace(old(View()), no, size)
    {
      if 0 < no <= MAX_DISK {
        var index := FindDisk(no);
        if index != -1 {
          disk[index] := disk[index].(avail := disk[index].avail + size);
          assert View() == DiskTable.ReleaseSpace(old(View()), no, size);
          SameDisksAreValid(old(View()), View());
        }
      }
    }

    method GetTotalUsed() returns (used: int)
      requires Ready()
      ensures used == TotalUsed(View())
    {
      used := 0;
      var i := 0;
      while i < diskNum
        invariant 0 <= i <= diskNum && used == UsedBelow(View(), i)
      {
        used := used + disk[i].capacity - disk[i].avail;
        used := used + pendingFiles[i] * maxSstableSize;
        i := i + 1;
      }
    }
  }

  /** Nothing is installed past a path failure. */
  lemma {:induction false} InstalledStops(probes: seq<Probe>, n: nat)
    requires n <= |probes| && (n == |probes| || PathFailure(probes, n))
    ensures Installed(probes, |probes|) == Installed(probes, n)
    ensures n < |probes| ==> PathFailure(probes, |probes|)
    decreases |probes| - n
  {
    if n < |probes| {
      assert PathFailure(probes, n + 1);
      InstalledStops(probes, n + 1);
    }
  }
}
