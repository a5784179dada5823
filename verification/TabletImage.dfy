/** The two-version tablet image, as far as the merge scheduler uses it. */
module TabletImage {
  import opened MergeSections

  /** MAX_RESERVE_VERSION_COUNT. */
  const SLOTS: nat := 2

  datatype Entry = Entry(tablet: Tablet, status: Status)

  /** One version of the image; `present` is false for a slot never created. */
  datatype Slot = Slot(present: bool, version: int, entries: seq<Entry>)

  predicate HasTablet(slot: Slot) {
    slot.present && slot.version > 0 && slot.entries != []
  }

  /** The unmerged tablets of a list, in list order. */
  function Unmerged(entries: seq<Entry>): (r: seq<Tablet>) {
    if entries == [] then []
    else
      var last := entries[|entries| - 1];
      Unmerged(entries[..|entries| - 1]) + if last.status.merged then [] else [last.tablet]
  }

  function Candidates(slot: Slot, version: int): (r: seq<Tablet>) {
    if HasTablet(slot) && slot.version < version then Unmerged(slot.entries) else []
  }

  function Take(s: seq<Tablet>, n: nat): (r: seq<Tablet>) {
    if |s| <= n then s else s[..n]
  }

  predicate Waiting(e: Entry) { !e.status.merged }

  lemma {:induction false} UnmergedMembers(entries: seq<Entry>, t: Tablet)
    ensures t in Unmerged(entries) <==>
      exists i :: 0 <= i < |entries| && Waiting(entries[i]) && entries[i].tablet == t
  {
    if entries != [] {
      var front := entries[..|entries| - 1];
      UnmergedMembers(front, t);
      if t in Unmerged(front) {
        var i :| 0 <= i < |front| && Waiting(front[i]) && front[i].tablet == t;
        assert Waiting(entries[i]) && entries[i].tablet == t;
      }
      forall i | 0 <= i < |entries| && Waiting(entries[i]) && entries[i].tablet == t
        ensures t in Unmerged(entries)
      {
        if i < |front| { assert Waiting(front[i]); }
      }
    }
  }

  lemma {:induction false} UnmergedDistinct(entries: seq<Entry>)
    requires forall i, j :: 0 <= i < j < |entries| ==> entries[i].tablet != entries[j].tablet
    ensures var u := Unmerged(entries); forall i, j :: 0 <= i < j < |u| ==> u[i] != u[j]
  {
    if entries != [] {
      var front := entries[..|entries| - 1];
      UnmergedDistinct(front);
      UnmergedMembers(front, entries[|entries| - 1].tablet);
    }
  }

  lemma {:induction false} UnmergedGrows(entries: seq<Entry>, i: nat)
    requires i <= |entries|
    ensures Unmerged(entries[..i]) <= Unmerged(entries)
    decreases |entries| - i
  {
    if i == |entries| {
      assert entries[..i] == entries;
    } else {
      assert entries[..i + 1][..i] == entries[..i];
      UnmergedGrows(entries, i + 1);
    }
  }

  /** A slot holds tablets of one version, which belongs into this slot. */
  ghost predicate ValidSlot(slot: Slot, index: int) {
    && (if slot.present then slot.version > 0 && slot.version % SLOTS == index else slot.version == 0 && slot.entries == [])
    && (forall i :: 0 <= i < |slot.entries| ==> slot.entries[i].tablet.version == slot.version)
    && (forall i, j :: 0 <= i < j < |slot.entries| ==> slot.entries[i].tablet != slot.entries[j].tablet)
  }

  ghost predicate ValidSlots(slots: seq<Slot>, newest: int) {
    |slots| == SLOTS && 0 <= newest < SLOTS && ValidSlot(slots[0], 0) && ValidSlot(slots[1], 1)
  }

  function Eldest(slots: seq<Slot>, newest: int): (k: int)
    requires |slots| == SLOTS && 0 <= newest < SLOTS
    ensures 0 <= k < SLOTS
  {
    if HasTablet(slots[1 - newest]) then 1 - newest else newest
  }

  /** The tablets a merge to `version` has to do, eldest version first. */
  function ForMerge(slots: seq<Slot>, newest: int, version: int): (r: seq<Tablet>)
    requires |slots| == SLOTS && 0 <= newest < SLOTS
  {
    var e := Eldest(slots, newest);
    Candidates(slots[e], version) + Candidates(slots[1 - e], version)
  }

  /** The candidates of the first `visited` slots from `eldest` on. */
  function Upto(slots: seq<Slot>, eldest: int, version: int, visited: nat): seq<Tablet>
    requires |slots| == SLOTS && 0 <= eldest < SLOTS && visited <= SLOTS
  {
    (if visited > 0 then Candidates(slots[eldest], version) else [])
    + if visited > 1 then Candidates(slots[1 - eldest], version) else []
  }

  lemma UptoNext(slots: seq<Slot>, eldest: int, version: int, visited: nat, index: int)
    requires |slots| == SLOTS && 0 <= eldest < SLOTS && visited < SLOTS
    requires index == if visited == 1 then 1 - eldest else eldest
    ensures Upto(slots, eldest, version, visited + 1)
            == Upto(slots, eldest, version, visited) + Candidates(slots[index], version)
  {
  }

  lemma UptoAll(slots: seq<Slot>, newest: int, version: int)
    requires |slots| == SLOTS && 0 <= newest < SLOTS
    ensures Upto(slots, Eldest(slots, newest), version, SLOTS) == ForMerge(slots, newest, version)
  {
  }

  /** Once there are enough, the slots not visited do not matter. */
  lemma UptoFull(slots: seq<Slot>, eldest: int, version: int, visited: nat, size: nat)
    requires |slots| == SLOTS && 0 <= eldest < SLOTS && 0 < visited <= SLOTS
    requires |Take(Upto(slots, eldest, version, visited), size)| >= size
    ensures Take(Upto(slots, eldest, version, visited), size) == Take(Upto(slots, eldest, version, SLOTS), size)
  {
  }

  function ServingOf(slots: seq<Slot>, service: int): int
    requires |slots| == SLOTS && -1 <= service < SLOTS
  {
    if service >= 0 && HasTablet(slots[service]) then slots[service].version else 0
  }

  predicate UpgradeOf(slots: seq<Slot>, newest: int, service: int)
    requires |slots| == SLOTS && 0 <= newest < SLOTS && -1 <= service < SLOTS
  {
    !HasTablet(slots[newest]) || slots[newest].version > ServingOf(slots, service)
  }

  // ------------------------------------------------------------- preparing a slot

  /** The fields of the image; `service` is the slot in service, or -1. */
  datatype Tracker = Tracker(slots: seq<Slot>, newest: int, service: int)

  predicate Formed(k: Tracker) {
    |k.slots| == SLOTS && 0 <= k.newest < SLOTS && -1 <= k.service < SLOTS
  }

  ghost predicate AllMerged(entries: seq<Entry>) {
    forall i :: 0 <= i < |entries| ==> entries[i].status.merged
  }

  /** A slot that holds another version can be taken over if its tablets are merged.
      Without `destroyExist` it is relabelled, whatever it holds. */
  ghost predicate Prepares(slot: Slot, version: int, destroyExist: bool) {
    !slot.present || slot.version == version || !destroyExist || AllMerged(slot.entries)
  }

  /** The slot afterwards: empty, unless it held that version or was only relabelled. */
  function Reslotted(slot: Slot, version: int, destroyExist: bool): Slot {
    if !slot.present then Slot(true, version, [])
    else if slot.version != version && destroyExist && HasTablet(slot) then Slot(true, version, [])
    else slot.(version := version)
  }

  /** The image afterwards. */
  function Reprepared(k: Tracker, version: int, destroyExist: bool): (r: Tracker)
    requires Formed(k) && version > 0
    ensures Formed(r)
  {
    var index := version % SLOTS;
    var slots := k.slots[index := Reslotted(k.slots[index], version, destroyExist)];
    var newest := if !HasTablet(slots[k.newest]) || version > slots[k.newest].version then index else k.newest;
    Tracker(slots, newest, k.service)
  }

  ghost function FirstService(slots: seq<Slot>, newest: int): int
    requires |slots| == SLOTS && 0 <= newest < SLOTS
  {
    if AllMerged(slots[1 - newest].entries) && !AllMerged(slots[newest].entries) then newest else 1 - newest
  }

  /** Relabelling leaves each slot with its own version's tablets if and only if there
      was nothing to relabel. */
  lemma RelabellingIsSoundIff(k: Tracker, version: int)
    requires Formed(k) && ValidSlots(k.slots, k.newest) && version > 0
    ensures var slot, n := k.slots[version % SLOTS], Reprepared(k, version, false);
      ValidSlots(n.slots, n.newest) <==> slot.entries == [] || slot.version == version
  {
    var slot, n := k.slots[version % SLOTS], Reprepared(k, version, false);
    if slot.entries != [] && slot.version != version {
      assert n.slots[version % SLOTS].entries[0].tablet.version == slot.version;
    }
  }

  /** After an allocation has prepared the slot, adding the tablet relabels nothing. */
  lemma AllocationMakesAddingSound(k: Tracker, version: int)
    requires Formed(k) && ValidSlots(k.slots, k.newest) && version > 0
    ensures var n := Reprepared(k, version, true); ValidSlots(n.slots, n.newest) && Reprepared(n, version, false) == n
  {
    var n := Reprepared(k, version, true);
    assert n.slots[version % SLOTS := n.slots[version % SLOTS]] == n.slots;
  }

  /** The slots form a ring. */
  method NextSlot(k: int) returns (next: int)
    requires 0 <= k < SLOTS
    ensures next == 1 - k
  {
    next := (k + 1) % SLOTS;
  }

  class Image {
    var slots: seq<Slot>
    var newest: int
    /** The slot in service, or -1. */
    var service: int

    ghost function View(): Tracker
      reads this
    {
      Tracker(slots, newest, service)
    }

    method GetServingVersion() returns (version: int)
      requires Formed(View())
      ensures version == ServingOf(slots, service)
    {
      version := 0;
      if service >= 0 && HasTablet(slots[service]) {
        version := slots[service].version;
      }
    }

    /** An empty newest version is taken into service; one with tablets only if it is
        above the served one. */
    method UpgradeService() returns (ok: bool)
      requires Formed(View())
      modifies this`service
      ensures ok == UpgradeOf(slots, newest, old(service))
      ensures service == if ok then newest else old(service)
    {
      var served := GetServingVersion();
      ok := true;
      if !HasTablet(slots[newest]) {
        service := newest;
      } else if slots[newest].version <= served {
        ok := false;
      } else {
        service := newest;
      }
    }

    method TabletsAllMerged(index: int) returns (ok: bool)
      requires Formed(View()) && 0 <= index < SLOTS
      ensures ok == AllMerged(slots[index].entries)
    {
      ok := true;
      var i := 0;
      while i < |slots[index].entries|
        invariant 0 <= i <= |slots[index].entries| && ok
        invariant forall j :: 0 <= j < i ==> slots[index].entries[j].status.merged
      {
        if !slots[index].entries[i].status.merged { return false; }
        i := i + 1;
      }
    }

    /** The slot a loaded image serves: the first, from the eldest on, with a tablet that
        is not merged, else the eldest. */
    method InitializeServiceIndex() returns (k: int)
      requires Formed(View())
      modifies this`service
      ensures k == service == FirstService(slots, newest)
    {
      var eldest := NextSlot(newest);
      service := eldest;
      var index, visited := eldest, 0;
      while visited == 0 || index != eldest
        invariant 0 <= visited <= SLOTS && service == eldest && Formed(View())
        invariant index == if visited == 1 then newest else eldest
        invariant visited > 0 ==> AllMerged(slots[eldest].entries)
        invariant visited > 1 ==> AllMerged(slots[newest].entries)
        decreases SLOTS - visited
      {
        var merged := TabletsAllMerged(index);
        if !merged {
          service := index;
          break;
        }
        visited := visited + 1;
        index := NextSlot(index);
      }
      k := service;
    }

    /** Makes the slot of `version` ready for its tablets, and the newest one if the
        newest is empty or older. */
    method PrepareTabletImage(version: int, destroyExist: bool) returns (ok: bool)
      requires Formed(View()) && version > 0
      modifies this
      ensures ok == Prepares(old(slots)[version % SLOTS], version, destroyExist)
      ensures View() == if ok then Reprepared(old(View()), version, destroyExist) else old(View())
    {
      var index := version % SLOTS;
      ok := true;
      var slot := slots[index];
      if !slot.present {
        slot := Slot(true, 0, []);
      } else if version != slot.version {
        if destroyExist {
          ok := TabletsAllMerged(index);
          if ok && HasTablet(slot) { slot := slot.(entries := []); }
        }
      }
      if ok {
        slots := slots[index := slot.(version := version)];
        if !HasTablet(slots[newest]) || version > slots[newest].version {
          newest := index;
        }
      }
    }

    method EldestIndex() returns (k: int)
      requires Formed(View())
      ensures k == Eldest(slots, newest)
    {
      k := NextSlot(newest);
      var first := true;
      while first || k != newest
        invariant 0 <= k < SLOTS
        invariant first ==> k == 1 - newest
        invariant !first ==> k == newest && !HasTablet(slots[1 - newest])
        decreases first
      {
        first := false;
        if HasTablet(slots[k]) { break; }
        k := NextSlot(k);
      }
    }

    /** The first `size` tablets that need a merge to `version`. */
    method GetTabletsForMerge(version: int, size: nat) returns (found: seq<Tablet>)
      requires Formed(View())
      ensures found == Take(ForMerge(slots, newest, version), size)
    {
      var eldest := EldestIndex();
      UptoAll(slots, newest, version);
      var index := eldest;
      found := [];
      ghost var done: seq<Tablet> := [];
      var visited := 0;
      while visited == 0 || index != eldest
        invariant 0 <= visited <= SLOTS && found == Take(done, size)
        invariant index == if visited == 1 then 1 - eldest else eldest
        invariant done == Upto(slots, eldest, version, visited)
        decreases SLOTS - visited
      {
        found := Collect(slots[index], version, found, size, done);
        UptoNext(slots, eldest, version, visited, index);
        visited := visited + 1;
        done := Upto(slots, eldest, version, visited);
        if |found| >= size {
          UptoFull(slots, eldest, version, visited, size);
          return;
        }
        index := NextSlot(index);
      }
    }

    method Collect(slot: Slot, version: int, before: seq<Tablet>, size: nat, ghost done: seq<Tablet>)
      returns (found: seq<Tablet>)
      requires before == Take(done, size)
      ensures found == Take(done + Candidates(slot, version), size)
    {
      found := before;
      if HasTablet(slot) && slot.version < version {
        var i := 0;
        assert done + Unmerged([]) == done;
        while i < |slot.entries| && |found| < size
          invariant 0 <= i <= |slot.entries|
          invariant found == Take(done + Unmerged(slot.entries[..i]), size)
        {
          assert slot.entries[..i + 1][..i] == slot.entries[..i];
          if !slot.entries[i].status.merged { found := found + [slot.entries[i].tablet]; }
          i := i + 1;
        }
        if i < |slot.entries| {
          UnmergedGrows(slot.entries, i);
        } else {
          assert slot.entries[..i] == slot.entries;
        }
      } else {
        assert done + [] == done;
      }
    }
  }

  /** `t` is an unmerged tablet of `slot`, older than `version`. */
  predicate InNeed(slot: Slot, version: int, t: Tablet) {
    && HasTablet(slot) && slot.version < version
    && exists i :: 0 <= i < |slot.entries| && Waiting(slot.entries[i]) && slot.entries[i].tablet == t
  }

  ghost predicate Distinct(s: seq<Tablet>) {
    forall i, j :: 0 <= i < j < |s| ==> s[i] != s[j]
  }

  lemma CandidatesAre(slot: Slot, index: int, version: int)
    requires ValidSlot(slot, index)
    ensures Distinct(Candidates(slot, version))
    ensures forall t :: t in Candidates(slot, version) <==> InNeed(slot, version, t)
    ensures forall t :: t in Candidates(slot, version) ==> t.version == slot.version
  {
    UnmergedDistinct(slot.entries);
    forall t ensures t in Candidates(slot, version) <==> InNeed(slot, version, t) {
      UnmergedMembers(slot.entries, t);
    }
    forall t | t in Candidates(slot, version) ensures t.version == slot.version {
      assert InNeed(slot, version, t);
      var i :| 0 <= i < |slot.entries| && Waiting(slot.entries[i]) && slot.entries[i].tablet == t;
      assert slot.entries[i].tablet.version == slot.version;
    }
  }

  lemma JoinDistinct(a: seq<Tablet>, b: seq<Tablet>)
    requires Distinct(a) && Distinct(b) && forall x, y :: x in a && y in b ==> x != y
    ensures Distinct(a + b)
  {
    forall i, j | 0 <= i < j < |a + b| ensures (a + b)[i] != (a + b)[j] {
      if i < |a| && j >= |a| { assert a[i] in a && b[j - |a|] in b; }
    }
  }

  lemma AllCandidates(slots: seq<Slot>, newest: int, version: int)
    requires ValidSlots(slots, newest)
    ensures Distinct(ForMerge(slots, newest, version))
    ensures forall t :: t in ForMerge(slots, newest, version) <==>
                          InNeed(slots[0], version, t) || InNeed(slots[1], version, t)
  {
    var e := Eldest(slots, newest);
    CandidatesAre(slots[e], e, version);
    CandidatesAre(slots[1 - e], 1 - e, version);
    JoinDistinct(Candidates(slots[e], version), Candidates(slots[1 - e], version));
  }

  /** The tablets of an older version come before those of a newer one. */
  lemma EldestFirst(slots: seq<Slot>, newest: int, version: int, i: int, j: int)
    requires ValidSlots(slots, newest) && slots[1 - newest].version < slots[newest].version
    requires 0 <= i < j < |ForMerge(slots, newest, version)|
    ensures ForMerge(slots, newest, version)[i].version <= ForMerge(slots, newest, version)[j].version
  {
    var e, found := Eldest(slots, newest), ForMerge(slots, newest, version);
    CandidatesAre(slots[e], e, version);
    CandidatesAre(slots[1 - e], 1 - e, version);
    var a, b := Candidates(slots[e], version), Candidates(slots[1 - e], version);
    assert found == a + b;
    assert found[i] in if i < |a| then a else b;
    assert found[j] in if j < |a| then a else b;
  }

  /** What the scheduler relies on: the answer has distinct tablets, all of them
      unmerged and older than `version`, and all such tablets unless it is full. */
  lemma AnswerIsBatch(slots: seq<Slot>, newest: int, version: int, size: nat)
    requires ValidSlots(slots, newest)
    ensures var found := Take(ForMerge(slots, newest, version), size);
      && |found| <= size && Distinct(found)
      && (forall t :: t in found ==> InNeed(slots[0], version, t) || InNeed(slots[1], version, t))
      && (|found| < size ==> forall t :: InNeed(slots[0], version, t) || InNeed(slots[1], version, t) ==> t in found)
  {
    AllCandidates(slots, newest, version);
    var all := ForMerge(slots, newest, version);
    assert forall t :: t in Take(all, size) ==> t in all;
  }
}
