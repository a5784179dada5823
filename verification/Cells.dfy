/** Cells, and how the cells of one row are merged into a row of the join cache. */
module Cells {

  /** Operations that stand in a cell's place of a value. */
  datatype Action = DelRow | DelTable | NotExist | Nop | OtherOp

  /** `kind` tells apart the types that behave alike; `add` marks a number that is an
      increment. */
  datatype Value =
    | Null
    | Plain(kind: int, text: int)
    | Number(kind: int, n: int, add: bool)
    | Created(at: int)
    | Modified(at: int)
    | Ext(op: Action)

  datatype Cell = Cell(table: int, key: seq<int>, column: int, value: Value)

  /** OB_INVALID_ID. */
  const INVALID_ID: int := 0xffff_ffff_ffff_ffff

  /** A cell of a response: `rowChange` is the scanner's mark on the first cell of
      a row, `fault` says that there is no room to append the cell to a row. */
  datatype Item = Item(cell: Cell, rowChange: bool, fault: bool)

  // -------------------------------------------------------------------- values

  datatype Applied = Ok(value: Value) | Refused

  predicate SameType(a: Value, b: Value) {
    match a
    case Plain(k, _) => b.Plain? && b.kind == k
    case Number(k, _, _) => b.Number? && b.kind == k
    case Created(_) => b.Created?
    case Modified(_) => b.Modified?
    case _ => false
  }

  /** Gives way to any value. */
  predicate Yields(v: Value) {
    v == Null || v == Ext(NotExist) || v == Ext(Nop)
  }

  function Least(a: int, b: int): int { if a < b then a else b }
  function Greatest(a: int, b: int): int { if a > b then a else b }

  /** `ObObj::apply`: the value `o` after the change `m`. */
  function Apply(o: Value, m: Value): Applied {
    if !o.Ext? && !o.Null? && !m.Ext? && !m.Null? && !SameType(o, m) then Refused
    else
      match m
      case Null => Ok(Null)
      case Plain(_, _) => Ok(m)
      case Number(k, n, add) =>
        if Yields(o) then Ok(Number(k, n, add && o == Ext(Nop)))
        else if o.Number? then Ok(Number(k, if add then o.n + n else n, add && o.add))
        else Refused
      case Created(at) => if Yields(o) then Ok(m) else if o.Created? then Ok(Created(Least(o.at, at))) else Refused
      case Modified(at) => if Yields(o) then Ok(m) else if o.Modified? then Ok(Modified(Greatest(o.at, at))) else Refused
      case Ext(op) =>
        match op
        case DelRow => Ok(Null)
        case DelTable => Ok(Null)
        case NotExist => Ok(o)
        case Nop => Ok(if o == Ext(NotExist) || o == Ext(DelRow) then Null else o)
        case OtherOp => Refused
  }

  // ---------------------------------------------------------------------- rows

  predicate Deletes(c: Cell) {
    c.value == Ext(DelRow) || c.value == Ext(DelTable)
  }

  /** The cell as a row keeps it: operations on the whole row lose their column. */
  function Kept(c: Cell): Cell {
    if Deletes(c) || c.value == Ext(NotExist) then c.(column := INVALID_ID) else c
  }

  function FindColumn(cells: seq<Cell>, column: int): (i: nat)
    ensures i <= |cells|
    ensures i < |cells| ==> cells[i].column == column
    ensures forall j :: 0 <= j < i ==> cells[j].column != column
  {
    if cells == [] || cells[0].column == column then 0 else 1 + FindColumn(cells[1..], column)
  }

  datatype Folded = Good(cells: seq<Cell>) | Spoilt

  /** `ObRowCellVec::add_cell`: a delete empties the row first, a no-op counts only as
      the first cell, a column that is there is changed in place, any other cell is
      appended. */
  function Store(cells: seq<Cell>, item: Item): Folded {
    var c := item.cell;
    if Deletes(c) then if item.fault then Spoilt else Good([Kept(c)])
    else if c.value == Ext(Nop) then
      if cells != [] then Good(cells) else if item.fault then Spoilt else Good([c])
    else
      var i := FindColumn(cells, c.column);
      if i < |cells| then
        var v := Apply(cells[i].value, c.value);
        if v.Ok? then Good(cells[i := cells[i].(value := v.value)]) else Spoilt
      else if item.fault then Spoilt
      else Good(cells + [Kept(c)])
  }

  /** The row that the items make of `cells`. */
  function Fold(cells: seq<Cell>, items: seq<Item>): Folded
    decreases |items|
  {
    if items == [] then Good(cells)
    else
      var next := Store(cells, items[0]);
      if next.Spoilt? then Spoilt else Fold(next.cells, items[1..])
  }

  /** The merged row of a whole delivered row. */
  function Merged(items: seq<Item>): Folded {
    Fold([], items)
  }

  lemma StoreFills(cells: seq<Cell>, item: Item)
    ensures Store(cells, item).Good? ==> Store(cells, item).cells != []
  {
  }

  lemma {:induction false} FoldFills(cells: seq<Cell>, items: seq<Item>)
    requires cells != [] || items != []
    ensures Fold(cells, items).Good? ==> Fold(cells, items).cells != []
    decreases |items|
  {
    if items != [] {
      StoreFills(cells, items[0]);
      var next := Store(cells, items[0]);
      if next.Good? { FoldFills(next.cells, items[1..]); }
    }
  }

  /** Folding in two parts. */
  lemma {:induction false} FoldTwice(cells: seq<Cell>, a: seq<Item>, b: seq<Item>)
    ensures Fold(cells, a + b) ==
            if Fold(cells, a).Spoilt? then Spoilt else Fold(Fold(cells, a).cells, b)
    decreases |a|
  {
    if a == [] {
      assert a + b == b;
    } else {
      assert (a + b)[0] == a[0] && (a + b)[1..] == a[1..] + b;
      var next := Store(cells, a[0]);
      if next.Good? { FoldTwice(next.cells, a[1..], b); }
    }
  }

  // ------------------------------------------------------- when nothing is merged

  function CellsOf(items: seq<Item>): seq<Cell> {
    seq(|items|, i requires 0 <= i < |items| => items[i].cell)
  }

  /** An operation on the whole row. */
  predicate OfTheRow(v: Value) {
    v == Ext(DelRow) || v == Ext(DelTable) || v == Ext(NotExist)
  }

  /** Nothing in the row concerns another cell of it: columns do not repeat, no no-op
      and no delete comes after the first cell, operations on the whole row carry no
      column, and there is room for all. */
  ghost predicate Verbatim(items: seq<Item>) {
    && (forall i :: 0 <= i < |items| ==> !items[i].fault)
    && (forall i :: 0 <= i < |items| && OfTheRow(items[i].cell.value) ==> items[i].cell.column == INVALID_ID)
    && (forall i :: 0 < i < |items| ==> items[i].cell.value != Ext(DelRow) && items[i].cell.value != Ext(DelTable) && items[i].cell.value != Ext(Nop))
    && (forall i, j :: 0 <= i < j < |items| ==> items[i].cell.column != items[j].cell.column)
  }

  /** At most one cell is gained by storing one, and none is lost but by a delete. */
  lemma StoreGrows(cells: seq<Cell>, item: Item)
    requires Store(cells, item).Good?
    ensures |Store(cells, item).cells| <= |cells| + 1
  {
  }

  lemma {:induction false} FoldGrows(cells: seq<Cell>, items: seq<Item>)
    requires Fold(cells, items).Good?
    ensures |Fold(cells, items).cells| <= |cells| + |items|
    decreases |items|
  {
    if items != [] {
      StoreGrows(cells, items[0]);
      FoldGrows(Store(cells, items[0]).cells, items[1..]);
    }
  }

  /** The next cell is kept as it came, behind the others. */
  predicate Appends(cells: seq<Cell>, item: Item) {
    && !item.fault && Kept(item.cell) == item.cell
    && (cells != [] ==> !Deletes(item.cell) && item.cell.value != Ext(Nop))
    && FindColumn(cells, item.cell.column) == |cells|
  }

  lemma StoreAppendsIff(cells: seq<Cell>, item: Item)
    ensures Store(cells, item) == Good(cells + [item.cell]) <==> Appends(cells, item)
  {
    if cells == [] { assert cells + [item.cell] == [item.cell]; }
    var i := FindColumn(cells, item.cell.column);
    if Store(cells, item) == Good(cells + [item.cell]) {
      assert (cells + [item.cell])[|cells|] == item.cell;
    }
  }

  lemma {:induction false} FoldIsVerbatimIff(items: seq<Item>, n: nat)
    requires n <= |items|
    ensures Fold([], items[..n]) == Good(CellsOf(items[..n])) <==> Verbatim(items[..n])
    decreases n
  {
    if n > 0 {
      var front, last := items[..n - 1], items[n - 1];
      FoldIsVerbatimIff(items, n - 1);
      FoldTwice([], front, [last]);
      assert items[..n] == front + [last];
      assert CellsOf(items[..n]) == CellsOf(front) + [last.cell];
      FoldLast(front, last);
      VerbatimLast(front, last);
    }
  }

  lemma FoldLast(front: seq<Item>, last: Item)
    ensures Fold([], front + [last]) == Good(CellsOf(front) + [last.cell]) <==>
            Fold([], front) == Good(CellsOf(front)) && Appends(CellsOf(front), last)
  {
    FoldTwice([], front, [last]);
    var f := Fold([], front);
    if f.Good? {
      assert Fold(f.cells, [last]) == Store(f.cells, last);
      FoldGrows([], front);
      StoreAppendsIff(CellsOf(front), last);
      if Store(f.cells, last) == Good(CellsOf(front) + [last.cell]) { SameFront(f.cells, last, CellsOf(front)); }
    }
  }

  /** A row that grew by one was appended to. */
  lemma SameFront(cells: seq<Cell>, item: Item, front: seq<Cell>)
    requires |cells| <= |front| && Store(cells, item) == Good(front + [item.cell])
    ensures cells == front
  {
    var i := FindColumn(cells, item.cell.column);
    assert |Store(cells, item).cells| == |front| + 1;
    if front != [] || cells != [] {
      assert Store(cells, item).cells[..|front|] == front;
    }
  }

  lemma VerbatimLast(front: seq<Item>, last: Item)
    ensures Verbatim(front + [last]) <==> Verbatim(front) && Appends(CellsOf(front), last)
  {
    var all := front + [last];
    assert forall i :: 0 <= i < |front| ==> all[i] == front[i];
    assert all[|front|] == last;
    assert forall i :: 0 <= i < |front| ==> CellsOf(front)[i] == front[i].cell;
  }

  /** The merged row is the delivered cells, unchanged, if and only if nothing in the
      row concerns another cell of it. */
  lemma MergedIsVerbatimIff(items: seq<Item>)
    ensures Merged(items) == Good(CellsOf(items)) <==> Verbatim(items)
  {
    assert items[..|items|] == items;
    FoldIsVerbatimIff(items, |items|);
  }

  // ------------------------------------------------------- what is merged, by column

  /** An ordinary value, not an operation on the row. */
  predicate Ordinary(c: Cell) {
    !c.value.Ext?
  }

  /** A row without idle cells: operations on the whole row carry no column, and no
      delete and no no-op comes after the first cell. */
  ghost predicate Regular(items: seq<Item>) {
    && (forall i :: 0 <= i < |items| && OfTheRow(items[i].cell.value) ==> items[i].cell.column == INVALID_ID)
    && (forall i :: 0 < i < |items| ==> items[i].cell.value != Ext(DelRow) && items[i].cell.value != Ext(DelTable) && items[i].cell.value != Ext(Nop))
  }

  /** The values that the items bring for a column. */
  function ValuesOf(items: seq<Item>, column: int): seq<Value> {
    if items == [] then []
    else
      var front, last := items[..|items| - 1], items[|items| - 1].cell;
      ValuesOf(front, column) + if last.column == column then [last.value] else []
  }

  /** The first value, changed by the others in turn. */
  function ApplyAll(vs: seq<Value>): Applied
    requires vs != []
  {
    if |vs| == 1 then Ok(vs[0])
    else
      var before := ApplyAll(vs[..|vs| - 1]);
      if before.Ok? then Apply(before.value, vs[|vs| - 1]) else Refused
  }

  // ------------------------------------------------- what a column's changes come to

  /** What the operations among the changes of a column amount to: a delete sets it to
      null, the mark of a missing row changes nothing, and a no-op clears a column that
      holds nothing but the mark of a missing or deleted row. */
  function Effective(vs: seq<Value>): (r: seq<Value>)
    ensures vs != [] ==> r != []
  {
    if |vs| <= 1 then vs
    else
      var before, last := Effective(vs[..|vs| - 1]), vs[|vs| - 1];
      if last == Ext(DelRow) || last == Ext(DelTable) then before + [Null]
      else if last == Ext(NotExist) then before
      else if last != Ext(Nop) then before + [last]
      else if before == [Ext(NotExist)] || before == [Ext(DelRow)] then before + [Null]
      else before
  }

  predicate Alike(a: Value, b: Value) {
    || (a.Plain? && b.Plain? && a.kind == b.kind)
    || (a.Number? && b.Number? && a.kind == b.kind)
    || (a.Created? && b.Created?)
    || (a.Modified? && b.Modified?)
  }

  /** The change `b` is possible after `a`: to null always; to a plain value from any but
      another type; to a number or a time from the same type, from null, and from the
      marks that stand for no value. */
  predicate Follows(a: Value, b: Value) {
    match b
    case Null => true
    case Ext(_) => false
    case Plain(_, _) => a.Ext? || a.Null? || Alike(a, b)
    case _ => a == Null || a == Ext(NotExist) || a == Ext(Nop) || Alike(a, b)
  }

  ghost predicate Uniform(ws: seq<Value>) {
    forall i :: 0 <= i < |ws| - 1 ==> Follows(ws[i], ws[i + 1])
  }

  /** Where the last unbroken run of values begins. */
  function Base(ws: seq<Value>): (b: nat)
    requires ws != []
    ensures b < |ws| && (b > 0 ==> ws[b - 1].Null? || ws[b - 1].Ext?)
  {
    if |ws| == 1 || ws[|ws| - 2].Null? || ws[|ws| - 2].Ext? then |ws| - 1 else Base(ws[..|ws| - 1])
  }

  function Sum(ws: seq<Value>, p: nat): int
    decreases |ws|
  {
    if |ws| <= p then 0
    else Sum(ws[..|ws| - 1], p) + if ws[|ws| - 1].Number? then ws[|ws| - 1].n else 0
  }

  /** After `p` there are only increments, and at `p` a number is set, or the run begins. */
  ghost predicate SetAt(ws: seq<Value>, b: nat, p: nat) {
    && b <= p < |ws| && (forall q :: p <= q < |ws| ==> ws[q].Number?)
    && (p > b ==> !ws[p].add) && forall q :: p < q < |ws| ==> ws[q].add
  }

  ghost predicate Numbers(ws: seq<Value>, b: nat, kind: int) {
    forall q :: b <= q < |ws| ==> ws[q].Number? && ws[q].kind == kind
  }

  ghost predicate Increments(ws: seq<Value>, b: nat) {
    forall q :: b <= q < |ws| ==> ws[q].Number? && ws[q].add
  }

  /** The number set last and the increments after it; an increment itself if nothing but
      increments came. */
  ghost predicate IsTotal(ws: seq<Value>, b: nat, v: Value) {
    && v.Number? && Numbers(ws, b, v.kind)
    && (exists p :: SetAt(ws, b, p) && v.n == Sum(ws, p))
    && (v.add <==> (b == 0 || (b <= |ws| && ws[b - 1] == Ext(Nop))) && Increments(ws, b))
  }

  ghost predicate IsEarliest(ws: seq<Value>, b: nat, v: Value) {
    && v.Created? && (forall q :: b <= q < |ws| ==> ws[q].Created? && v.at <= ws[q].at)
    && exists q :: b <= q < |ws| && ws[q] == v
  }

  ghost predicate IsLatest(ws: seq<Value>, b: nat, v: Value) {
    && v.Modified? && (forall q :: b <= q < |ws| ==> ws[q].Modified? && ws[q].at <= v.at)
    && exists q :: b <= q < |ws| && ws[q] == v
  }

  /** `v` is what the values come to: a plain value, a null or an operation is the last
      one, numbers add up, a creation time is the earliest and a modification time the
      latest of the run. */
  ghost predicate ComesTo(ws: seq<Value>, v: Value) {
    ws != [] &&
    var last := ws[|ws| - 1];
    match last
    case Null => v == Null
    case Plain(_, _) => v == last
    case Ext(_) => v == last
    case Number(_, _, _) => IsTotal(ws, Base(ws), v)
    case Created(_) => IsEarliest(ws, Base(ws), v)
    case Modified(_) => IsLatest(ws, Base(ws), v)
  }

  lemma BaseNext(ws: seq<Value>, m: Value)
    requires ws != []
    ensures var last := ws[|ws| - 1];
      Base(ws + [m]) == if last.Null? || last.Ext? then |ws| else Base(ws)
  {
    assert (ws + [m])[..|ws|] == ws;
    assert (ws + [m])[|ws| - 1] == ws[|ws| - 1];
  }

  lemma SumNext(ws: seq<Value>, m: Value, p: nat)
    requires m.Number?
    ensures Sum(ws + [m], p) == if |ws| < p then 0 else Sum(ws, p) + m.n
  {
    assert (ws + [m])[..|ws|] == ws;
  }

  /** A number that begins a run, or is set. */
  lemma SetNext(ws: seq<Value>, m: Value, b: nat)
    requires m.Number? && b <= |ws| && (b == |ws| || !m.add)
    ensures SetAt(ws + [m], b, |ws|) && Sum(ws + [m], |ws|) == m.n
  {
    SumNext(ws, m, |ws|);
  }

  /** A number that is added. */
  lemma AddedNext(ws: seq<Value>, m: Value, b: nat, p: nat)
    requires m.Number? && m.add && SetAt(ws, b, p)
    ensures SetAt(ws + [m], b, p) && Sum(ws + [m], p) == Sum(ws, p) + m.n
  {
    var xs := ws + [m];
    SumNext(ws, m, p);
    assert forall q :: 0 <= q < |ws| ==> xs[q] == ws[q];
  }

  lemma NumbersNext(ws: seq<Value>, m: Value, b: nat, kind: int)
    requires b <= |ws| && m.Number?
    ensures Numbers(ws + [m], b, kind) <==> Numbers(ws, b, kind) && m.kind == kind
    ensures Increments(ws + [m], b) <==> Increments(ws, b) && m.add
  {
    var xs := ws + [m];
    assert xs[|ws|] == m;
    assert forall q :: 0 <= q < |ws| ==> xs[q] == ws[q];
  }

  lemma TotalNext(ws: seq<Value>, o: Value, m: Value)
    requires ws != [] && m.Number? && ComesTo(ws, o) && Follows(ws[|ws| - 1], m)
    ensures Apply(o, m).Ok? && IsTotal(ws + [m], Base(ws + [m]), Apply(o, m).value)
  {
    var xs, b := ws + [m], Base(ws + [m]);
    BaseNext(ws, m);
    NumbersNext(ws, m, b, m.kind);
    assert b > 0 ==> xs[b - 1] == ws[b - 1];
    if b == |ws| {
      SetNext(ws, m, b);
    } else {
      assert IsTotal(ws, b, o);
      if m.add {
        var p :| SetAt(ws, b, p) && o.n == Sum(ws, p);
        AddedNext(ws, m, b, p);
      } else {
        SetNext(ws, m, b);
      }
    }
  }

  lemma TimeNext(ws: seq<Value>, o: Value, m: Value)
    requires ws != [] && (m.Created? || m.Modified?) && ComesTo(ws, o) && Follows(ws[|ws| - 1], m)
    ensures Apply(o, m).Ok? && ComesTo(ws + [m], Apply(o, m).value)
  {
    var xs := ws + [m];
    BaseNext(ws, m);
    assert forall q :: 0 <= q < |ws| ==> xs[q] == ws[q];
    assert xs[|ws|] == m;
  }

  /** One more value. */
  lemma ChangeNext(ws: seq<Value>, o: Value, m: Value)
    requires ComesTo(ws, o) && !m.Ext?
    ensures Apply(o, m).Ok? <==> Follows(ws[|ws| - 1], m)
    ensures Apply(o, m).Ok? ==> ComesTo(ws + [m], Apply(o, m).value)
  {
    if Follows(ws[|ws| - 1], m) {
      if m.Number? { TotalNext(ws, o, m); }
      if m.Created? || m.Modified? { TimeNext(ws, o, m); }
    }
  }

  lemma UniformNext(ws: seq<Value>, m: Value)
    requires ws != []
    ensures Uniform(ws + [m]) <==> Uniform(ws) && Follows(ws[|ws| - 1], m)
  {
    var xs := ws + [m];
    assert forall i :: 0 <= i < |ws| ==> xs[i] == ws[i];
    assert xs[|ws|] == m;
    if Uniform(xs) {
      assert Follows(xs[|ws| - 1], xs[|ws|]);
      forall i | 0 <= i < |ws| - 1 ensures Follows(ws[i], ws[i + 1]) { assert Follows(xs[i], xs[i + 1]); }
    }
  }

  /** A column's changes are refused if and only if one does not fit the value before it,
      and else come to what the values say. */
  lemma {:induction false} ChangesComeTo(vs: seq<Value>)
    requires vs != []
    ensures ApplyAll(vs).Ok? <==> Uniform(Effective(vs))
    ensures ApplyAll(vs).Ok? ==> ComesTo(Effective(vs), ApplyAll(vs).value)
    decreases |vs|
  {
    if |vs| > 1 {
      var front, last := vs[..|vs| - 1], vs[|vs| - 1];
      ChangesComeTo(front);
      var ws := Effective(front);
      assert vs == front + [last];
      if !last.Ext? {
        UniformNext(ws, last);
        if ApplyAll(front).Ok? { ChangeNext(ws, ApplyAll(front).value, last); }
      } else {
        OperationNext(front, last);
      }
    } else if vs[0].Number? {
      SetNext([], vs[0], 0);
      assert [] + [vs[0]] == vs;
    }
  }

  /** One more operation. */
  lemma OperationNext(front: seq<Value>, last: Value)
    requires front != [] && last.Ext?
    requires ApplyAll(front).Ok? <==> Uniform(Effective(front))
    requires ApplyAll(front).Ok? ==> ComesTo(Effective(front), ApplyAll(front).value)
    ensures var vs := front + [last];
      && (ApplyAll(vs).Ok? <==> Uniform(Effective(vs)))
      && (ApplyAll(vs).Ok? ==> ComesTo(Effective(vs), ApplyAll(vs).value))
  {
    var vs, ws := front + [last], Effective(front);
    assert vs[..|front|] == front && vs[|front|] == last;
    UniformNext(ws, Null);
    UniformNext(ws, last);
    assert Uniform(ws) && |ws| > 1 ==> Follows(ws[|ws| - 2], ws[|ws| - 1]);
  }

  // ----------------------------------------------------------- a row's columns

  lemma FindAppended(cells: seq<Cell>, c: Cell, column: int)
    requires FindColumn(cells, c.column) == |cells|
    ensures FindColumn(cells + [c], column) == if column == c.column then |cells| else
              if FindColumn(cells, column) == |cells| then |cells| + 1 else FindColumn(cells, column)
  {
    var all := cells + [c];
    var i, k := FindColumn(all, column), FindColumn(cells, column);
    assert forall j :: 0 <= j < |cells| ==> all[j] == cells[j];
    assert all[|cells|] == c;
    assert k < |cells| ==> all[k].column == column;
    assert i < |cells| ==> cells[i].column == column;
  }

  lemma FindChanged(cells: seq<Cell>, i: nat, v: Value, column: int)
    requires i < |cells|
    ensures FindColumn(cells[i := cells[i].(value := v)], column) == FindColumn(cells, column)
  {
    var changed := cells[i := cells[i].(value := v)];
    assert forall j :: 0 <= j < |cells| ==> changed[j].column == cells[j].column;
  }

  /** What a row holds for a column, while it is put together. */
  predicate HoldsSoFar(cells: seq<Cell>, column: int, vs: seq<Value>) {
    var i := FindColumn(cells, column);
    if vs == [] then i == |cells| else i < |cells| && Ok(cells[i].value) == ApplyAll(vs)
  }

  /** What the item brings for the column. */
  function Brings(item: Item, column: int): seq<Value> {
    if item.cell.column == column then [item.cell.value] else []
  }

  lemma StoredByColumn(cells: seq<Cell>, item: Item, column: int, vs: seq<Value>)
    requires HoldsSoFar(cells, column, vs) && Store(cells, item).Good? && Kept(item.cell) == item.cell
    requires cells == [] || (!Deletes(item.cell) && item.cell.value != Ext(Nop))
    ensures HoldsSoFar(Store(cells, item).cells, column, vs + Brings(item, column))
  {
    var c := item.cell;
    var i := FindColumn(cells, c.column);
    assert (vs + [c.value])[..|vs|] == vs;
    assert vs + [] == vs;
    if i < |cells| {
      var v := Apply(cells[i].value, c.value);
      FindChanged(cells, i, v.value, column);
    } else {
      FindAppended(cells, c, column);
      assert cells == [] ==> cells + [c] == [c];
    }
  }

  lemma MergedLast(front: seq<Item>, last: Item)
    ensures Merged(front + [last]) == if Merged(front).Spoilt? then Spoilt else Store(Merged(front).cells, last)
  {
    FoldTwice([], front, [last]);
    if Merged(front).Good? {
      var next := Store(Merged(front).cells, last);
      assert next.Good? ==> Fold(next.cells, [last][1..]) == next;
    }
  }

  lemma {:induction false} MergedSoFar(items: seq<Item>, column: int)
    requires Regular(items) && Merged(items).Good?
    ensures HoldsSoFar(Merged(items).cells, column, ValuesOf(items, column))
    decreases |items|
  {
    if items != [] {
      var front, last := items[..|items| - 1], items[|items| - 1];
      assert items == front + [last];
      MergedLast(front, last);
      MergedSoFar(front, column);
      if front == [] { assert Merged(front).cells == []; }
      StoredByColumn(Merged(front).cells, last, column, ValuesOf(front, column));
    }
  }

  /** What a row holds for a column that was brought `vs`. */
  ghost predicate HoldsFor(cells: seq<Cell>, column: int, vs: seq<Value>) {
    var i := FindColumn(cells, column);
    if vs == [] then i == |cells| else i < |cells| && ComesTo(Effective(vs), cells[i].value)
  }

  /** A merged row holds, for every column, what the values delivered for it come to,
      and nothing for the others. */
  lemma MergedByColumn(items: seq<Item>, column: int)
    requires Regular(items) && Merged(items).Good?
    ensures HoldsFor(Merged(items).cells, column, ValuesOf(items, column))
  {
    MergedSoFar(items, column);
    var vs := ValuesOf(items, column);
    if vs != [] { ChangesComeTo(vs); }
  }

  /** The column of item `i` comes up before it. */
  ghost predicate Repeats(items: seq<Item>, i: int) {
    0 <= i < |items| && exists j :: 0 <= j < i && items[j].cell.column == items[i].cell.column
  }

  /** Every column's changes fit, and there is room for every new column. */
  ghost predicate Fitting(items: seq<Item>) {
    && (forall i :: 0 <= i < |items| && items[i].fault ==> Repeats(items, i))
    && (forall column :: Uniform(Effective(ValuesOf(items, column))))
  }

  lemma {:induction false} ValuesFound(items: seq<Item>, column: int)
    ensures ValuesOf(items, column) != [] <==> exists j :: 0 <= j < |items| && items[j].cell.column == column
  {
    if items != [] {
      var front := items[..|items| - 1];
      ValuesFound(front, column);
      if ValuesOf(front, column) != [] {
        var j :| 0 <= j < |front| && front[j].cell.column == column;
        assert items[j].cell.column == column;
      }
      if j :| 0 <= j < |items| && items[j].cell.column == column {
        assert j < |front| ==> front[j].cell.column == column;
      }
    }
  }

  lemma {:induction false} UniformBefore(vs: seq<Value>)
    requires vs != [] && Uniform(Effective(vs))
    ensures Uniform(Effective(vs[..|vs| - 1]))
  {
    if |vs| > 1 {
      var before := Effective(vs[..|vs| - 1]);
      UniformNext(before, Null);
      UniformNext(before, vs[|vs| - 1]);
    }
  }

  lemma FittingFront(front: seq<Item>, last: Item)
    requires Fitting(front + [last])
    ensures Fitting(front)
  {
    var all := front + [last];
    assert all[..|front|] == front;
    forall column ensures Uniform(Effective(ValuesOf(front, column))) {
      var vs := ValuesOf(front, column);
      assert Uniform(Effective(ValuesOf(all, column)));
      if last.cell.column == column {
        assert ValuesOf(all, column) == vs + [last.cell.value];
        assert (vs + [last.cell.value])[..|vs|] == vs;
        UniformBefore(vs + [last.cell.value]);
      } else {
        assert ValuesOf(all, column) == vs;
      }
    }
    forall i | 0 <= i < |front| && front[i].fault ensures Repeats(front, i) {
      assert all[i] == front[i] && Repeats(all, i);
      var j :| 0 <= j < i && all[j].cell.column == all[i].cell.column;
      assert front[j].cell.column == front[i].cell.column;
    }
  }

  /** The last cell can be stored exactly if it fits the values of its column, or there is
      room for a new column. */
  lemma StoreGoodIff(cells: seq<Cell>, item: Item, vs: seq<Value>)
    requires HoldsSoFar(cells, item.cell.column, vs)
    requires cells == [] || (!Deletes(item.cell) && item.cell.value != Ext(Nop))
    ensures Store(cells, item).Good? <==> if vs == [] then !item.fault else Uniform(Effective(vs + [item.cell.value]))
  {
    assert (vs + [item.cell.value])[..|vs|] == vs;
    ChangesComeTo(vs + [item.cell.value]);
  }

  lemma FittingNext(front: seq<Item>, last: Item)
    requires Fitting(front)
    ensures var vs := ValuesOf(front, last.cell.column);
      Fitting(front + [last]) <==> if vs == [] then !last.fault else Uniform(Effective(vs + [last.cell.value]))
  {
    var all, c := front + [last], last.cell;
    var vs := ValuesOf(front, c.column);
    assert all[..|front|] == front && all[|front|] == last;
    assert forall i :: 0 <= i < |front| ==> all[i] == front[i];
    assert ValuesOf(all, c.column) == vs + [c.value];
    assert vs == [] ==> vs + [c.value] == [c.value];
    ValuesFound(front, c.column);
    if vs != [] { ReappearsIn(front, last); }
    forall column | column != c.column ensures Uniform(Effective(ValuesOf(all, column))) {
      assert ValuesOf(all, column) == ValuesOf(front, column) + [] == ValuesOf(front, column);
    }
    forall i | 0 <= i < |front| && front[i].fault ensures Repeats(all, i) {
      assert Repeats(front, i);
    }
  }

  lemma FittingLast(front: seq<Item>, last: Item)
    requires Regular(front + [last]) && Fitting(front) && Merged(front).Good?
    ensures Fitting(front + [last]) <==> Store(Merged(front).cells, last).Good?
  {
    var all := front + [last];
    assert forall i :: 0 <= i < |front| ==> all[i] == front[i];
    assert all[|front|] == last;
    MergedSoFar(front, last.cell.column);
    FittingNext(front, last);
    StoreGoodIff(Merged(front).cells, last, ValuesOf(front, last.cell.column));
  }

  lemma ReappearsIn(front: seq<Item>, last: Item)
    requires exists j :: 0 <= j < |front| && front[j].cell.column == last.cell.column
    ensures Repeats(front + [last], |front|)
  {
    var j :| 0 <= j < |front| && front[j].cell.column == last.cell.column;
    assert (front + [last])[j].cell.column == (front + [last])[|front|].cell.column;
  }

  /** A row can be merged if and only if every column's changes fit and there is room for
      every new column. */
  lemma {:induction false} MergedIffFitting(items: seq<Item>)
    requires Regular(items)
    ensures Merged(items).Good? <==> Fitting(items)
    decreases |items|
  {
    if items != [] {
      var front, last := items[..|items| - 1], items[|items| - 1];
      assert items == front + [last];
      MergedIffFitting(front);
      MergedLast(front, last);
      if Fitting(front) { FittingLast(front, last); }
      if Fitting(items) { FittingFront(front, last); }
    }
  }

  /** A no-op after the first cell is idle. */
  lemma NopIsIdle(before: seq<Item>, nop: Item, after: seq<Item>)
    requires before != [] && nop.cell.value == Ext(Nop)
    ensures Merged(before + [nop] + after) == Merged(before + after)
  {
    FoldTwice([], before, [nop] + after);
    FoldTwice([], before, after);
    FoldFills([], before);
    assert before + [nop] + after == before + ([nop] + after);
    assert ([nop] + after)[1..] == after;
  }

  /** A delete makes the cells before it irrelevant. */
  lemma DeleteForgets(before: seq<Item>, d: Item, after: seq<Item>)
    requires (d.cell.value == Ext(DelRow) || d.cell.value == Ext(DelTable)) && !d.fault && Merged(before).Good?
    ensures Merged(before + [d] + after) == Fold([d.cell.(column := INVALID_ID)], after) == Merged([d] + after)
  {
    FoldTwice([], before, [d] + after);
    assert before + [d] + after == before + ([d] + after);
    assert ([d] + after)[1..] == after;
  }
}
