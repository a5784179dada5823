/** The end of a bypass load: all loaded tablets enter the tablet image, or none. */
module BypassCommit {

  type Range = int
  type SstableId = nat

  /** An entry of the loader's tablet array. */
  datatype Item = Missing | Item(range: Range, sstable: SstableId)

  /** What adding a tablet to the image can meet: it fails outright, goes
      through, or enters the list and then fails to enter the sstable index. */
  datatype AddResult = Fails | GoesThrough | NotIndexed

  type Entries = map<Range, SstableId>

  /** The image after the items have been offered in order: a range that is
      already there keeps its tablet. */
  function Commit(e: Entries, items: seq<Item>): (r: Entries) {
    if items == [] then e
    else
      var before, it := Commit(e, items[..|items| - 1]), items[|items| - 1];
      if it.Missing? || it.range in before then before else before[it.range := it.sstable]
  }

  lemma CommitNext(e: Entries, items: seq<Item>, i: nat)
    requires i < |items|
    ensures Commit(e, items[..i + 1]) ==
      if items[i].Missing? || items[i].range in Commit(e, items[..i]) then Commit(e, items[..i])
      else Commit(e, items[..i])[items[i].range := items[i].sstable]
  {
    assert items[..i + 1][..i] == items[..i];
  }

  predicate Loads(it: Item, r: Range) { it.Item? && it.range == r }

  ghost predicate FirstWith(items: seq<Item>, k: int, r: Range) {
    0 <= k < |items| && Loads(items[k], r) && forall j :: 0 <= j < k ==> !Loads(items[j], r)
  }

  /** Commit keeps every old tablet and adds the first loaded tablet of each new range. */
  lemma {:induction false} CommitMeans(e: Entries, items: seq<Item>, r: Range)
    ensures r in e ==> r in Commit(e, items) && Commit(e, items)[r] == e[r]
    ensures r !in e && r in Commit(e, items) ==>
      exists k :: FirstWith(items, k, r) && items[k].sstable == Commit(e, items)[r]
    ensures r !in e && r !in Commit(e, items) ==> forall k :: 0 <= k < |items| ==> !Loads(items[k], r)
  {
    if items != [] {
      var n := |items| - 1;
      var front := items[..n];
      CommitMeans(e, front, r);
      assert forall k :: 0 <= k < n ==> front[k] == items[k];
      if r !in e && r in Commit(e, front) {
        var k :| FirstWith(front, k, r) && front[k].sstable == Commit(e, front)[r];
        assert FirstWith(items, k, r);
      } else if r !in e && r in Commit(e, items) {
        assert FirstWith(items, n, r);
      }
    }
  }

  /** Taking out of the image every indexed tablet that the items brought,
      where the image lets it go. */
  function Undo(e: Entries, index: set<SstableId>, items: seq<Item>, lets: seq<bool>): Entries {
    map r | r in e && !(e[r] in index && TakenOut(items, lets, e[r])) :: e[r]
  }

  predicate TakenOut(items: seq<Item>, lets: seq<bool>, id: SstableId) {
    exists k :: 0 <= k < |items| && k < |lets| && items[k].Item? && items[k].sstable == id && lets[k]
  }

  /** The loader made new sstable files: no two alike, none known to the image. */
  ghost predicate NewFiles(e: Entries, index: set<SstableId>, items: seq<Item>) {
    && (forall j, k :: 0 <= j < k < |items| && items[j].Item? && items[k].Item? ==> items[j].sstable != items[k].sstable)
    && (forall k :: 0 <= k < |items| && items[k].Item? ==> items[k].sstable !in index)
    && (forall r, k :: r in e && 0 <= k < |items| && items[k].Item? ==> items[k].sstable != e[r])
  }

  /** The sstables that entered with the new ranges. */
  function Entered(e: Entries, after: Entries): set<SstableId> {
    set r | r in after && r !in e :: after[r]
  }

  lemma EnteredGrows(e: Entries, after: Entries, r: Range, id: SstableId)
    requires r !in after && r !in e
    ensures Entered(e, after[r := id]) == Entered(e, after) + {id}
  {
    assert forall x :: x in after ==> after[r := id][x] == after[x];
    forall i | i in Entered(e, after) + {id} ensures i in Entered(e, after[r := id]) {
      if i == id {
        assert after[r := id][r] == id;
      } else {
        var x :| x in after && x !in e && after[x] == i;
        assert after[r := id][x] == i;
      }
    }
  }

  /** What an offered item brought in: the first of its range, among the first m. */
  lemma NewcomerOf(e: Entries, items: seq<Item>, m: nat, r: Range) returns (k: nat)
    requires m <= |items| && r !in e && r in Commit(e, items[..m])
    ensures k < m && items[k].Item? && items[k].range == r && items[k].sstable == Commit(e, items[..m])[r]
    ensures Commit(e, items[..m])[r] in Entered(e, Commit(e, items[..m]))
  {
    CommitMeans(e, items[..m], r);
    var j :| FirstWith(items[..m], j, r) && items[..m][j].sstable == Commit(e, items[..m])[r];
    k := j;
  }

  /** Every tablet the first m items brought in can be taken out again. */
  ghost predicate AllLet(e: Entries, items: seq<Item>, m: nat, lets: seq<bool>)
    requires m <= |items| == |lets|
  {
    forall k :: 0 <= k < m && Entering(e, items, m, k) ==> lets[k]
  }

  /** Item k is the one that brought its range in. */
  ghost predicate Entering(e: Entries, items: seq<Item>, m: nat, k: nat)
    requires k < m <= |items|
  {
    && items[k].Item? && items[k].range !in e && items[k].range in Commit(e, items[..m])
    && Commit(e, items[..m])[items[k].range] == items[k].sstable
  }

  lemma OldIsNotTakenOut(e: Entries, index: set<SstableId>, items: seq<Item>, lets: seq<bool>, m: nat, r: Range)
    requires m <= |items| && NewFiles(e, index, items) && r in e
    ensures var after := Commit(e, items[..m]); r in after && after[r] == e[r] && !TakenOut(items, lets, e[r])
  {
    CommitMeans(e, items[..m], r);
  }

  /** Rolling back after any number of additions restores the image, whatever
      position the failure came at, exactly when the image lets every tablet go
      that this load brought in. */
  lemma RollbackRestoresIff(e: Entries, index: set<SstableId>, items: seq<Item>, lets: seq<bool>, m: nat)
    requires m <= |items| == |lets| && NewFiles(e, index, items)
    ensures var after := Commit(e, items[..m]);
      Undo(after, index + Entered(e, after), items, lets) == e <==> AllLet(e, items, m, lets)
  {
    var after := Commit(e, items[..m]);
    var undone := Undo(after, index + Entered(e, after), items, lets);
    forall r | r in e ensures r in undone && undone[r] == e[r] { OldIsNotTakenOut(e, index, items, lets, m, r); }
    if AllLet(e, items, m, lets) {
      forall r | r in after && r !in e ensures r !in undone {
        var k := NewcomerOf(e, items, m, r);
        assert Entering(e, items, m, k);
        assert TakenOut(items, lets, after[r]);
      }
      assert undone == e;
    } else {
      var k :| 0 <= k < m && Entering(e, items, m, k) && !lets[k];
      var r := items[k].range;
      assert !TakenOut(items, lets, after[r]);
      assert r in undone;
    }
  }

  /** A tablet that entered the list without entering the index is never taken
      out: the load is then neither done nor undone. */
  lemma UnindexedSurvives(e: Entries, index: set<SstableId>, items: seq<Item>, lets: seq<bool>, m: nat)
    requires m < |items| == |lets| && items[m].Item? && NewFiles(e, index, items)
    requires items[m].range !in Commit(e, items[..m])
    ensures var after := Commit(e, items[..m]);
      var undone := Undo(after[items[m].range := items[m].sstable], index + Entered(e, after), items, lets);
      items[m].range in undone && items[m].range !in e
  {
    var after, it := Commit(e, items[..m]), items[m];
    CommitMeans(e, items[..m], it.range);
    forall r | r in after && r !in e ensures after[r] != it.sstable {
      var k := NewcomerOf(e, items, m, r);
    }
    assert it.sstable !in index + Entered(e, after);
  }

  /** Every item the image indexes stands for its own range there, and for no other. */
  ghost predicate Consistent(e: Entries, index: set<SstableId>, items: seq<Item>) {
    && (forall k :: 0 <= k < |items| && items[k].Item? && items[k].sstable in index ==>
          items[k].range in e && e[items[k].range] == items[k].sstable)
    && (forall k, r :: 0 <= k < |items| && items[k].Item? && r in e && e[r] == items[k].sstable ==> r == items[k].range)
  }

  lemma CommitIsConsistent(e: Entries, index: set<SstableId>, items: seq<Item>, m: nat)
    requires m <= |items| && NewFiles(e, index, items)
    ensures var after := Commit(e, items[..m]); Consistent(after, index + Entered(e, after), items)
  {
    var after := Commit(e, items[..m]);
    forall k, r | 0 <= k < |items| && items[k].Item? && r in after && after[r] == items[k].sstable
      ensures r == items[k].range
    {
      CommitMeans(e, items[..m], r);
      var j := NewcomerOf(e, items, m, r);
      assert j == k;
    }
    forall k | 0 <= k < |items| && items[k].Item? && items[k].sstable in index + Entered(e, after)
      ensures items[k].range in after && after[items[k].range] == items[k].sstable
    {
      var r :| r in after && r !in e && after[r] == items[k].sstable;
    }
  }

  lemma UnindexedIsConsistent(e: Entries, index: set<SstableId>, items: seq<Item>, m: nat)
    requires m < |items| && NewFiles(e, index, items) && items[m].Item?
    requires items[m].range !in Commit(e, items[..m])
    ensures var after := Commit(e, items[..m]);
      Consistent(after[items[m].range := items[m].sstable], index + Entered(e, after), items)
  {
    CommitIsConsistent(e, index, items, m);
  }

  /** One more item is taken out, or not. */
  lemma UndoOneMore(e: Entries, index: set<SstableId>, items: seq<Item>, mask: seq<bool>, i: nat)
    requires i < |items| == |mask| && Consistent(e, index, items)
    ensures var it := items[i];
      Undo(e, index, items[..i + 1], mask) ==
        if it.Item? && it.sstable in index && mask[i] then Undo(e, index, items[..i], mask) - {it.range}
        else Undo(e, index, items[..i], mask)
  {
    forall id: SstableId
      ensures TakenOut(items[..i + 1], mask, id) <==>
        TakenOut(items[..i], mask, id) || (items[i].Item? && items[i].sstable == id && mask[i])
    {
      if TakenOut(items[..i], mask, id) {
        var k :| 0 <= k < i && items[..i][k].Item? && items[..i][k].sstable == id && mask[k];
        assert items[..i + 1][k] == items[..i][k];
      }
      if TakenOut(items[..i + 1], mask, id) {
        var k :| 0 <= k < i + 1 && items[..i + 1][k].Item? && items[..i + 1][k].sstable == id && mask[k];
        if k < i { assert items[..i][k] == items[k]; }
      }
      if items[i].Item? && items[i].sstable == id && mask[i] { assert items[..i + 1][i] == items[i]; }
    }
    var more, less := Undo(e, index, items[..i + 1], mask), Undo(e, index, items[..i], mask);
    var out := items[i].Item? && items[i].sstable in index && mask[i];
    forall r ensures r in more <==> r in less && !(out && r == items[i].range) {
      assert r in e ==> (r in more <==> !(e[r] in index && TakenOut(items[..i + 1], mask, e[r])));
    }
  }

  lemma UndoNothing(e: Entries, index: set<SstableId>, mask: seq<bool>)
    ensures Undo(e, index, [], mask) == e
  {
    forall r | r in e ensures r in Undo(e, index, [], mask) { assert !TakenOut([], mask, e[r]); }
  }

  /** A duplicate is not the first of its range. */
  lemma DuplicateIsNotFirst(e: Entries, items: seq<Item>, k: nat)
    requires k < |items| && items[k].Item? && items[k].range !in e && items[k].range in Commit(e, items[..k])
    ensures !FirstWith(items, k, items[k].range)
  {
    CommitMeans(e, items[..k], items[k].range);
    var i :| FirstWith(items[..k], i, items[k].range);
    assert Loads(items[i], items[k].range);
  }

  /** So it never entered the image, and recycling it takes nothing out. */
  lemma DuplicateIsNotIndexed(e: Entries, index: set<SstableId>, items: seq<Item>, k: nat)
    requires k < |items| && NewFiles(e, index, items) && items[k].Item?
    requires items[k].range in Commit(e, items[..k])
    ensures items[k].sstable !in index + Entered(e, Commit(e, items))
  {
    forall r | r in Commit(e, items) && r !in e ensures Commit(e, items)[r] != items[k].sstable {
      CommitMeans(e, items, r);
      var j :| FirstWith(items, j, r) && items[j].sstable == Commit(e, items)[r];
      if items[k].range == r { DuplicateIsNotFirst(e, items, k); }
    }
  }

  lemma RecyclingDuplicatesIsIdle(e: Entries, index: set<SstableId>, items: seq<Item>, dropped: seq<bool>, lets: seq<bool>)
    requires |dropped| == |lets| == |items| && NewFiles(e, index, items)
    requires forall k :: 0 <= k < |items| && dropped[k] ==> items[k].Item? && items[k].range in Commit(e, items[..k])
    ensures var after := Commit(e, items);
      Undo(after, index + Entered(e, after), items, Mask(true, dropped, lets)) == after
  {
    var after := Commit(e, items);
    var indexed, mask := index + Entered(e, after), Mask(true, dropped, lets);
    forall id | id in indexed ensures !TakenOut(items, mask, id) {
      forall k | 0 <= k < |items| && dropped[k] ensures items[k].sstable != id {
        DuplicateIsNotIndexed(e, index, items, k);
      }
    }
  }

  /** The positions a recycling pass takes out. */
  function Mask(onlyDropped: bool, dropped: seq<bool>, lets: seq<bool>): (r: seq<bool>)
    requires |dropped| == |lets|
    ensures |r| == |lets| && forall k :: 0 <= k < |r| ==> r[k] == (lets[k] && (!onlyDropped || dropped[k]))
  {
    seq(|lets|, k requires 0 <= k < |lets| => lets[k] && (!onlyDropped || dropped[k]))
  }

  /** The image takes item k, offered after the items before it. */
  predicate Takes(e: Entries, items: seq<Item>, results: seq<AddResult>, k: nat)
    requires k < |items| == |results|
  {
    items[k].Missing? || (results[k] != Fails && (items[k].range in Commit(e, items[..k]) || results[k] == GoesThrough))
  }

  /** A tablet of this range is in the image, or among the first `k` loaded ones. */
  ghost predicate Known(e: Entries, items: seq<Item>, k: nat, r: Range) {
    r in e || exists j :: 0 <= j < k && j < |items| && Loads(items[j], r)
  }

  /** The image takes every item if and only if no addition fails, and none misses the index
      but that of a range that is known already. */
  lemma TakesAllIff(e: Entries, items: seq<Item>, results: seq<AddResult>)
    requires |items| == |results|
    ensures (forall k :: 0 <= k < |items| ==> Takes(e, items, results, k)) <==>
      forall k :: 0 <= k < |items| && items[k].Item? ==>
        results[k] != Fails && (results[k] == NotIndexed ==> Known(e, items, k, items[k].range))
  {
    forall k | 0 <= k < |items|
      ensures Takes(e, items, results, k) <==>
        (items[k].Item? ==> results[k] != Fails && (results[k] == NotIndexed ==> Known(e, items, k, items[k].range)))
    {
      if items[k].Item? { CommittedIff(e, items, k, items[k].range); }
    }
  }

  lemma CommittedIff(e: Entries, items: seq<Item>, k: nat, r: Range)
    requires k <= |items|
    ensures r in Commit(e, items[..k]) <==> Known(e, items, k, r)
  {
    CommitMeans(e, items[..k], r);
    if r !in e && r in Commit(e, items[..k]) {
      var j :| FirstWith(items[..k], j, r);
      assert Loads(items[j], r);
    }
    if r !in Commit(e, items[..k]) {
      forall j | 0 <= j < k ensures !Loads(items[j], r) { assert items[..k][j] == items[j]; }
    }
  }

  /** How many items the image takes before it refuses one. */
  function Taken(e: Entries, items: seq<Item>, results: seq<AddResult>, from: nat): (m: nat)
    requires from <= |items| == |results|
    ensures from <= m <= |items|
    ensures forall k :: from <= k < m ==> Takes(e, items, results, k)
    ensures m < |items| ==> !Takes(e, items, results, m)
    decreases |items| - from
  {
    if from == |items| || !Takes(e, items, results, from) then from else Taken(e, items, results, from + 1)
  }

  /** What a failed load must meet to leave the image as it was: the item that was
      refused did not enter the list, and the image lets go of those before it. */
  ghost predicate Undoable(e: Entries, items: seq<Item>, results: seq<AddResult>, lets: seq<bool>)
    requires |items| == |results| == |lets|
  {
    var m := Taken(e, items, results, 0);
    (m < |items| ==> results[m] != NotIndexed) && AllLet(e, items, m, lets)
  }

  class Loader {
    const items: seq<Item>
    var dropped: seq<bool>
    var entries: Entries
    var index: set<SstableId>
    var isLoadSuccess: bool
    var isPendingUpgrade: bool
    var isFinishLoad: bool

    ghost predicate Ready()
      reads this
    {
      |dropped| == |items|
    }

    constructor (items: seq<Item>, entries: Entries, index: set<SstableId>)
      ensures Ready() && this.items == items && this.entries == entries && this.index == index
      ensures dropped == seq(|items|, _ => false) && isLoadSuccess && !isFinishLoad && !isPendingUpgrade
    {
      this.items, this.entries, this.index := items, entries, index;
      dropped := seq(|items|, _ => false);
      isLoadSuccess, isFinishLoad, isPendingUpgrade := true, false, false;
    }

    /** `add_bypass_tablets_into_image`; `m` items were offered with success. */
    method AddBypassTablets(results: seq<AddResult>) returns (ok: bool, ghost m: nat)
      requires Ready() && |results| == |items| && NewFiles(entries, index, items)
      modifies this`dropped, this`entries, this`index
      ensures Ready() && m <= |items| && (ok <==> m == |items|)
      ensures forall k :: 0 <= k < m ==> Takes(old(entries), items, results, k)
      ensures m < |items| ==> !Takes(old(entries), items, results, m)
      ensures var after := Commit(old(entries), items[..m]);
        && index == old(index) + Entered(old(entries), after)
        && (m < |items| ==> items[m].Item?)
        && (m < |items| && results[m] == NotIndexed ==> items[m].range !in after)
        && entries == if m < |items| && results[m] == NotIndexed then after[items[m].range := items[m].sstable] else after
      ensures forall k :: 0 <= k < m ==>
        dropped[k] == (old(dropped)[k] || (items[k].Item? && items[k].range in Commit(old(entries), items[..k])))
    {
      ok := true;
      m := 0;
      var i := 0;
      assert items[..0] == [];
      while i < |items|
        invariant ok && m == i && 0 <= i <= |items| && |dropped| == |items|
        invariant entries == Commit(old(entries), items[..i])
        invariant forall k :: 0 <= k < i ==> Takes(old(entries), items, results, k)
        invariant index == old(index) + Entered(old(entries), entries)
        invariant forall k :: i <= k < |items| ==> dropped[k] == old(dropped)[k]
        invariant forall k :: 0 <= k < i ==>
          dropped[k] == (old(dropped)[k] || (items[k].Item? && items[k].range in Commit(old(entries), items[..k])))
      {
        CommitNext(old(entries), items, i);
        if items[i].Item? {
          CommitMeans(old(entries), items[..i], items[i].range);
          if results[i] == Fails {
            ok := false;
            break;
          } else if items[i].range in entries {
            dropped := dropped[i := true];
          } else {
            EnteredGrows(old(entries), entries, items[i].range, items[i].sstable);
            entries := entries[items[i].range := items[i].sstable];
            if results[i] == NotIndexed {
              ok := false;
              break;
            }
            index := index + {items[i].sstable};
          }
        }
        i := i + 1;
        m := i;
      }
    }

    /** `recycle_tablet` for item i. */
    method RecycleTablet(i: nat, onlyDropped: bool, lets: bool) returns (ok: bool)
      requires Ready() && i < |items|
      modifies this`dropped, this`entries, this`index
      ensures Ready()
      ensures var it := items[i];
        var out := it.Item? && (!onlyDropped || old(dropped)[i]) && it.sstable in old(index) && lets;
        && entries == (if out then old(entries) - {it.range} else old(entries))
        && index == (if out then old(index) - {it.sstable} else old(index))
      ensures dropped == if items[i].Item? && !onlyDropped then old(dropped)[i := true] else old(dropped)
    {
      ok := true;
      if items[i].Item? && (!onlyDropped || dropped[i]) {
        dropped := dropped[i := true];
        if items[i].sstable in index {
          if lets {
            entries := entries - {items[i].range};
            index := index - {items[i].sstable};
          } else {
            ok := false;
          }
        }
      }
    }

    /** `recycle_unload_tablets`. */
    method RecycleUnloadTablets(onlyDropped: bool, lets: seq<bool>)
      requires Ready() && |lets| == |items| && Consistent(entries, index, items)
      requires NewFiles(map[], {}, items)
      modifies this`dropped, this`entries, this`index
      ensures Ready()
      ensures entries == Undo(old(entries), old(index), items, Mask(onlyDropped, old(dropped), lets))
    {
      ghost var mask := Mask(onlyDropped, dropped, lets);
      var i := 0;
      assert items[..0] == [];
      UndoNothing(entries, index, mask);
      while i < |items|
        invariant 0 <= i <= |items| && |dropped| == |items|
        invariant entries == Undo(old(entries), old(index), items[..i], mask)
        invariant forall k :: i <= k < |items| && items[k].Item? ==> (items[k].sstable in index <==> items[k].sstable in old(index))
        invariant forall k :: i <= k < |items| ==> dropped[k] == old(dropped)[k]
      {
        UndoOneMore(old(entries), old(index), items, mask, i);
        var ok := RecycleTablet(i, onlyDropped, lets[i]);
        i := i + 1;
      }
      assert items[..i] == items;
    }

    /** The second half of `finish_load`: `m` items were offered, to no avail. */
    method Rollback(lets: seq<bool>, ghost e: Entries, ghost x: set<SstableId>, ghost m: nat, ghost unindexed: bool)
      requires Ready() && |lets| == |items| && m <= |items| && NewFiles(e, x, items)
      requires index == x + Entered(e, Commit(e, items[..m]))
      requires if unindexed then
          && m < |items| && items[m].Item? && items[m].range !in Commit(e, items[..m])
          && entries == Commit(e, items[..m])[items[m].range := items[m].sstable]
        else entries == Commit(e, items[..m])
      modifies this`dropped, this`entries, this`index
      ensures Ready()
      ensures entries == e <==> !unindexed && AllLet(e, items, m, lets)
    {
      ghost var mask := Mask(false, dropped, lets);
      assert mask == lets;
      if unindexed {
        UnindexedIsConsistent(e, x, items, m);
        UnindexedSurvives(e, x, items, lets, m);
      } else {
        CommitIsConsistent(e, x, items, m);
        RollbackRestoresIff(e, x, items, lets, m);
      }
      RecycleUnloadTablets(false, lets);
    }

    /** `finish_load`, without its calls to other servers: afterwards the image is
        the old one with the first loaded tablet of each new range, or the old one. */
    method FinishLoad(results: seq<AddResult>, lets: seq<bool>)
      requires Ready() && |results| == |lets| == |items| && NewFiles(entries, index, items)
      requires forall k :: 0 <= k < |items| ==> !dropped[k]
      modifies this
      ensures Ready() && isFinishLoad && isPendingUpgrade == (items == [] && old(isPendingUpgrade))
      ensures isLoadSuccess <==>
        (old(isLoadSuccess) && forall k :: 0 <= k < |items| ==> Takes(old(entries), items, results, k))
      ensures !old(isLoadSuccess) ==> entries == old(entries)
      ensures isLoadSuccess ==> entries == Commit(old(entries), items)
      ensures old(isLoadSuccess) && !isLoadSuccess ==>
        (entries == old(entries) <==> Undoable(old(entries), items, results, lets))
    {
      if |items| > 0 {
        isPendingUpgrade := true;
        assert items[..0] == [] && items[..|items|] == items;
        if isLoadSuccess {
          var ok, m := AddBypassTablets(results);
          if ok {
            CommitIsConsistent(old(entries), old(index), items, m);
            RecyclingDuplicatesIsIdle(old(entries), old(index), items, dropped, lets);
            RecycleUnloadTablets(true, lets);
          } else {
            isLoadSuccess := false;
            assert m == Taken(old(entries), items, results, 0);
            Rollback(lets, old(entries), old(index), m, results[m] == NotIndexed);
          }
        } else {
          assert Entered(entries, Commit(entries, items[..0])) == {};
          Rollback(lets, old(entries), old(index), 0, false);
        }
        isPendingUpgrade := false;
      } else {
        assert items == [];
      }
      isFinishLoad := true;
    }
  }
}
