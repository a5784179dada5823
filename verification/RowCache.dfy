/** The rows that a get stream puts into the join cache on the side. */
module RowCache {
  import opened Cells

  /** Key of a cached row. */
  datatype CacheKey = CacheKey(version: int, table: int, key: seq<int>)

  datatype Put = Put(at: CacheKey, cells: seq<Cell>)

  /** The row being gathered: its key and table, and its merged cells. */
  datatype Row = Row(key: seq<int>, table: int, cells: seq<Cell>)

  const NO_ROW := Row([], 0, [])

  /** `version` is that of the read; `inited` says whether the cache is usable. */
  datatype Gatherer = Gatherer(row: Row, valid: bool, version: int, inited: bool, cache: map<CacheKey, seq<Cell>>)

  // ------------------------------------------------------------ key versions

  const TWO_32: int := 0x1_0000_0000

  /** A 64-bit number cut to a signed 32-bit one. */
  function ToInt32(x: int): int {
    var low := x % TWO_32;
    if low < TWO_32 / 2 then low else low - TWO_32
  }

  /** The version of the keys of a read that ends at `end`, with or without it. */
  function KeyVersion(end: int, inclusive: bool): int {
    ToInt32(if inclusive then end else end - 1)
  }

  /** Two reads share their cached rows exactly when their last versions agree in
      the low thirty-two bits. */
  lemma SharedIff(end: int, inclusive: bool, end': int, inclusive': bool)
    ensures KeyVersion(end, inclusive) == KeyVersion(end', inclusive')
            <==> ((if inclusive then end else end - 1) - (if inclusive' then end' else end' - 1)) % TWO_32 == 0
    ensures -0x8000_0000 <= KeyVersion(end, inclusive) < 0x8000_0000
  {
  }

  // ------------------------------------------------------------- operations

  /** A row takes key and table from its first cell, refuses cells of another row and
      merges the others. */
  function AddCell(row: Row, item: Item): (Row, bool) {
    var c := item.cell;
    var named := if row.key == [] then Row(c.key, c.table, row.cells) else row;
    if c.key != named.key || c.table != named.table then (named, false)
    else
      var f := Store(named.cells, item);
      if f.Good? then (named.(cells := f.cells), true) else (named, false)
  }

  /** What the cache is asked to keep when the gathered row is closed. */
  function Closing(g: Gatherer): seq<Put> {
    if g.row.cells != [] && g.valid && g.row.key != [] && g.inited
    then [Put(CacheKey(g.version, g.row.table, g.row.key), g.row.cells)]
    else []
  }

  /** A row is refused when it should be kept but has no key, or no cache. */
  predicate RefusedBy(g: Gatherer) {
    g.row.cells != [] && g.valid && (g.row.key == [] || !g.inited)
  }

  /** The cache keeps the value it has. */
  function Keep(cache: map<CacheKey, seq<Cell>>, puts: seq<Put>): map<CacheKey, seq<Cell>> {
    if puts == [] || puts[0].at in cache then cache else cache[puts[0].at := puts[0].cells]
  }

  function Close(g: Gatherer): Gatherer {
    g.(row := NO_ROW, valid := true, cache := Keep(g.cache, Closing(g)))
  }

  /** Take one delivered cell. */
  function Feed(g: Gatherer, item: Item): (Gatherer, seq<Put>) {
    var (h, puts) := if item.rowChange then (Close(g), Closing(g)) else (g, []);
    if (item.rowChange && RefusedBy(g)) || !h.valid then (h, puts)
    else
      var (row, ok) := AddCell(h.row, item);
      (h.(row := row, valid := ok), puts)
  }

  /** Look a row up; the answer is loaded over the row being gathered. */
  function Lookup(g: Gatherer, table: int, key: seq<int>): (Gatherer, seq<Cell>) {
    var at := CacheKey(g.version, table, key);
    if key == [] then (g, [])
    else if !g.inited || at !in g.cache then (g.(row := NO_ROW), [])
    else (g.(row := Row(key, table, g.cache[at])), g.cache[at])
  }

  // --------------------------------------------------------- one response

  function FeedAll(g: Gatherer, items: seq<Item>): (Gatherer, seq<Put>)
    decreases |items|
  {
    if items == [] then (g, [])
    else
      var (h, puts) := Feed(g, items[0]);
      var (k, more) := FeedAll(h, items[1..]);
      (k, puts + more)
  }

  lemma {:induction false} FeedTwice(g: Gatherer, a: seq<Item>, b: seq<Item>)
    ensures var (h, puts) := FeedAll(g, a);
            FeedAll(g, a + b) == (FeedAll(h, b).0, puts + FeedAll(h, b).1)
    decreases |a|
  {
    if a == [] {
      assert a + b == b && [] + FeedAll(g, b).1 == FeedAll(g, b).1;
    } else {
      assert (a + b)[0] == a[0] && (a + b)[1..] == a[1..] + b;
      var (h, puts) := Feed(g, a[0]);
      FeedTwice(h, a[1..], b);
      var (k, more) := FeedAll(h, a[1..]);
      assert puts + (more + FeedAll(k, b).1) == (puts + more) + FeedAll(k, b).1;
    }
  }

  /** The cells of `items` lie in one row, and none of them begins one. */
  ghost predicate Inside(items: seq<Item>, table: int, key: seq<int>) {
    forall i :: 0 <= i < |items| ==>
      !items[i].rowChange && items[i].cell.table == table && items[i].cell.key == key
  }

  /** One row as a response holds it. */
  ghost predicate IsRow(r: seq<Item>) {
    r != [] && r[0].rowChange && Inside(r[1..], r[0].cell.table, r[0].cell.key)
  }

  /** `g` has gathered exactly `cells` of the row of `table` and `key`. */
  ghost predicate Holds(g: Gatherer, cells: seq<Cell>, table: int, key: seq<int>) {
    g.valid ==> g.row.cells == cells && (cells == [] ==> g.row.key == [])
                && (cells != [] ==> g.row.key == key && g.row.table == table)
  }

  predicate Same(g: Gatherer, h: Gatherer) {
    g.version == h.version && g.inited == h.inited && g.cache == h.cache
  }

  /** The rest of a row is merged into what is gathered, or spoils it, and puts
      nothing. */
  lemma {:induction false} FeedInside(g: Gatherer, items: seq<Item>, cells: seq<Cell>, table: int, key: seq<int>)
    requires Inside(items, table, key) && Holds(g, cells, table, key)
    ensures var (h, puts) := FeedAll(g, items);
            && puts == [] && Same(g, h) && h.valid == (g.valid && Fold(cells, items).Good?)
            && (h.valid ==> Holds(h, Fold(cells, items).cells, table, key))
    decreases |items|
  {
    if items != [] {
      var h := Feed(g, items[0]).0;
      var next := Store(cells, items[0]);
      StoreFills(cells, items[0]);
      assert h.valid == (g.valid && next.Good?);
      if next.Good? {
        FeedInside(h, items[1..], next.cells, table, key);
      } else {
        FeedSpoilt(h, items[1..], table, key);
      }
    }
  }

  /** A spoilt row stays spoilt. */
  lemma {:induction false} FeedSpoilt(g: Gatherer, items: seq<Item>, table: int, key: seq<int>)
    requires Inside(items, table, key) && !g.valid
    ensures FeedAll(g, items).0 == g && FeedAll(g, items).1 == []
    decreases |items|
  {
    if items != [] { FeedSpoilt(g, items[1..], table, key); }
  }

  /** The cells of a row that are gathered: all, or all but the first when the row
      before it was refused. */
  function Gathered(r: seq<Item>, skip: bool): seq<Item>
    requires r != []
  {
    if skip then r[1..] else r
  }

  function PutOf(g: Gatherer, r: seq<Item>, skip: bool): seq<Put>
    requires r != []
  {
    var kept := Gathered(r, skip);
    if kept != [] && Merged(kept).Good? && r[0].cell.key != [] && g.inited
    then [Put(CacheKey(g.version, r[0].cell.table, r[0].cell.key), Merged(kept).cells)]
    else []
  }

  predicate RefusedRow(g: Gatherer, r: seq<Item>, skip: bool)
    requires r != []
  {
    var kept := Gathered(r, skip);
    kept != [] && Merged(kept).Good? && (r[0].cell.key == [] || !g.inited)
  }

  /** `h` has gathered `kept` of the row of `table` and `key`. */
  lemma ClosedAfter(g: Gatherer, h: Gatherer, r: seq<Item>, skip: bool)
    requires r != [] && h.version == g.version && h.inited == g.inited
    requires h.valid == Merged(Gathered(r, skip)).Good?
    requires h.valid ==> Holds(h, Merged(Gathered(r, skip)).cells, r[0].cell.table, r[0].cell.key)
    ensures Closing(h) == PutOf(g, r, skip) && RefusedBy(h) == RefusedRow(g, r, skip)
  {
    var kept := Gathered(r, skip);
    if kept != [] { FoldFills([], kept); }
  }

  /** The first cell of a row closes the row before it. */
  lemma FeedFirst(g: Gatherer, item: Item)
    requires item.rowChange
    ensures var (h, puts) := Feed(g, item);
            && puts == Closing(g)
            && h.version == g.version && h.inited == g.inited && h.cache == Keep(g.cache, puts)
            && (RefusedBy(g) ==> h.valid && Holds(h, [], item.cell.table, item.cell.key))
            && (!RefusedBy(g) ==> h.valid == Store([], item).Good?)
            && (!RefusedBy(g) && h.valid ==> Holds(h, Store([], item).cells, item.cell.table, item.cell.key))
  {
    StoreFills([], item);
  }

  lemma FeedRow(g: Gatherer, r: seq<Item>)
    requires IsRow(r)
    ensures var (h, puts) := FeedAll(g, r);
            && puts == Closing(g)
            && h.version == g.version && h.inited == g.inited && h.cache == Keep(g.cache, puts)
            && Closing(h) == PutOf(g, r, RefusedBy(g)) && RefusedBy(h) == RefusedRow(g, r, RefusedBy(g))
  {
    var (h, puts) := Feed(g, r[0]);
    var table, key := r[0].cell.table, r[0].cell.key;
    FeedFirst(g, r[0]);
    if RefusedBy(g) {
      FeedInside(h, r[1..], [], table, key);
    } else if h.valid {
      FeedInside(h, r[1..], Store([], r[0]).cells, table, key);
    } else {
      FeedSpoilt(h, r[1..], table, key);
    }
    ClosedAfter(g, FeedAll(g, r).0, r, RefusedBy(g));
  }

  function Flat(rows: seq<seq<Item>>): seq<Item>
    decreases |rows|
  {
    if rows == [] then [] else rows[0] + Flat(rows[1..])
  }

  ghost predicate AreRows(rows: seq<seq<Item>>) {
    forall i :: 0 <= i < |rows| ==> IsRow(rows[i])
  }

  /** Row by row, what is put for it when the response has been read. */
  ghost function RowPuts(g: Gatherer, rows: seq<seq<Item>>, skip: bool): seq<seq<Put>>
    requires AreRows(rows)
    decreases |rows|
  {
    if rows == [] then []
    else [PutOf(g, rows[0], skip)] + RowPuts(g, rows[1..], RefusedRow(g, rows[0], skip))
  }

  function Joined(puts: seq<seq<Put>>): seq<Put>
    decreases |puts|
  {
    if puts == [] then [] else puts[0] + Joined(puts[1..])
  }

  /** Reading a response to its end, where the last row is closed. */
  function ReadOut(g: Gatherer, items: seq<Item>): (Gatherer, seq<Put>) {
    var (h, puts) := FeedAll(g, items);
    (Close(h), puts + Closing(h))
  }

  lemma {:induction false} ReadsRows(g: Gatherer, rows: seq<seq<Item>>)
    requires AreRows(rows)
    ensures ReadOut(g, Flat(rows)).1 == Closing(g) + Joined(RowPuts(g, rows, RefusedBy(g)))
    decreases |rows|
  {
    if rows == [] {
      assert [] + Closing(g) == Closing(g) + [];
    } else {
      var (h, puts) := FeedAll(g, rows[0]);
      FeedTwice(g, rows[0], Flat(rows[1..]));
      FeedRow(g, rows[0]);
      ReadsRows(h, rows[1..]);
      SamePuts(g, h, rows[1..], RefusedBy(h));
      var (k, more) := FeedAll(h, Flat(rows[1..]));
      assert (puts + more) + Closing(k) == puts + (more + Closing(k));
      assert RowPuts(g, rows, RefusedBy(g))[1..] == RowPuts(g, rows[1..], RefusedBy(h));
    }
  }

  lemma {:induction false} SamePuts(g: Gatherer, h: Gatherer, rows: seq<seq<Item>>, skip: bool)
    requires AreRows(rows) && g.version == h.version && g.inited == h.inited
    ensures RowPuts(g, rows, skip) == RowPuts(h, rows, skip)
    decreases |rows|
  {
    if rows != [] { SamePuts(g, h, rows[1..], RefusedRow(g, rows[0], skip)); }
  }

  /** What should be put: every row with a key whose cells could all be copied. */
  ghost function WholeRows(g: Gatherer, rows: seq<seq<Item>>): seq<seq<Put>>
    requires AreRows(rows)
    decreases |rows|
  {
    if rows == [] then [] else [PutOf(g, rows[0], false)] + WholeRows(g, rows[1..])
  }

  /** The row could be put, and its first cell matters for what is put. */
  predicate Hurtable(g: Gatherer, r: seq<Item>)
    requires r != []
  {
    g.inited && r[0].cell.key != [] && if |r| == 1 then Merged(r).Good? else Merged(r) != Merged(r[1..])
  }

  /** No such row follows a refused one. */
  ghost predicate Unhurt(g: Gatherer, rows: seq<seq<Item>>, skip: bool)
    requires AreRows(rows)
    decreases |rows|
  {
    rows == [] || (!(skip && Hurtable(g, rows[0])) && Unhurt(g, rows[1..], RefusedRow(g, rows[0], skip)))
  }

  lemma PutOfIff(g: Gatherer, r: seq<Item>, skip: bool)
    requires IsRow(r)
    ensures PutOf(g, r, skip) == PutOf(g, r, false) <==> !(skip && Hurtable(g, r))
  {
    if |r| == 1 {
      assert r[1..] == [];
      FoldFills([], r);
    }
  }

  /** In a row whose cells are kept as they come, the first cell always matters. */
  lemma VerbatimIsHurtable(g: Gatherer, r: seq<Item>)
    requires IsRow(r) && Verbatim(r) && g.inited && r[0].cell.key != []
    ensures Hurtable(g, r)
  {
    MergedIsVerbatimIff(r);
    if Merged(r[1..]).Good? { FoldGrows([], r[1..]); }
  }

  lemma {:induction false} WholeRowsIff(g: Gatherer, rows: seq<seq<Item>>, skip: bool)
    requires AreRows(rows)
    ensures RowPuts(g, rows, skip) == WholeRows(g, rows) <==> Unhurt(g, rows, skip)
    decreases |rows|
  {
    if rows != [] {
      var p, w := RowPuts(g, rows, skip), WholeRows(g, rows);
      PutOfIff(g, rows[0], skip);
      WholeRowsIff(g, rows[1..], RefusedRow(g, rows[0], skip));
      assert p[0] == PutOf(g, rows[0], skip) && p[1..] == RowPuts(g, rows[1..], RefusedRow(g, rows[0], skip));
      assert w[0] == PutOf(g, rows[0], false) && w[1..] == WholeRows(g, rows[1..]);
    }
  }

  /** A response read from a clean start puts exactly its whole rows, each once and
      in order, if no row that could be put follows a refused one; and for some row
      it puts something else if one does. */
  lemma PutsWholeRowsIff(g: Gatherer, rows: seq<seq<Item>>)
    requires AreRows(rows) && g.row.cells == []
    ensures ReadOut(g, Flat(rows)).1 == Joined(RowPuts(g, rows, false))
    ensures RowPuts(g, rows, false) == WholeRows(g, rows) <==> Unhurt(g, rows, false)
  {
    ReadsRows(g, rows);
    WholeRowsIff(g, rows, false);
    assert Closing(g) + Joined(RowPuts(g, rows, false)) == Joined(RowPuts(g, rows, false));
  }

  /** Rows that all have keys are never hurt. */
  lemma {:induction false} KeyedRowsUnhurt(g: Gatherer, rows: seq<seq<Item>>)
    requires AreRows(rows) && forall i :: 0 <= i < |rows| ==> rows[i][0].cell.key != []
    ensures Unhurt(g, rows, false)
    decreases |rows|
  {
    if rows != [] {
      if g.inited { KeyedRowsUnhurt(g, rows[1..]); } else { NoCacheUnhurt(g, rows, false); }
    }
  }

  lemma {:induction false} NoCacheUnhurt(g: Gatherer, rows: seq<seq<Item>>, skip: bool)
    requires AreRows(rows) && !g.inited
    ensures Unhurt(g, rows, skip)
    decreases |rows|
  {
    if rows != [] { NoCacheUnhurt(g, rows[1..], RefusedRow(g, rows[0], skip)); }
  }

  /** A row without a key costs the next row its first cell. */
  lemma UnkeyedRowCutsNext(g: Gatherer, a: Cell, b: Cell, c: Cell)
    requires g.row.cells == [] && g.inited
    requires a.key == [] && b.key != [] && b.key == c.key && b.table == c.table
    requires Ordinary(a) && Ordinary(b) && Ordinary(c)
    ensures ReadOut(g, [Item(a, true, false), Item(b, true, false), Item(c, false, false)]).1
            == [Put(CacheKey(g.version, b.table, b.key), [c])]
  {
    var rows := [[Item(a, true, false)], [Item(b, true, false), Item(c, false, false)]];
    assert Flat(rows) == [Item(a, true, false), Item(b, true, false), Item(c, false, false)] by {
      assert rows[1..][1..] == [];
      assert Flat(rows[1..]) == rows[1];
    }
    PutsWholeRowsIff(g, rows);
    var x, put := Item(c, false, false), Put(CacheKey(g.version, b.table, b.key), [c]);
    assert rows[1][1..] == [x] && rows[1..][1..] == [];
    MergedOne(rows[0][0]);
    MergedOne(x);
    assert RowPuts(g, rows[1..], true) == [PutOf(g, rows[1], true)] == [[put]];
    assert RowPuts(g, rows, false)[1..] == [[put]];
    assert Joined([[put]]) == [put];
  }

  lemma MergedOne(item: Item)
    requires Ordinary(item.cell) && !item.fault
    ensures Merged([item]) == Good([item.cell])
  {
    assert [] + [item.cell] == [item.cell];
    assert Fold([item.cell], [item][1..]) == Good([item.cell]);
  }
}
