/** The get stream and the join cache as objects. */
module CellStream {
  import opened Cells
  import opened GetStream
  import opened RowCache

  const MAX_ROW_KEY_LENGTH: nat := 16384

  /** Adding a cell to a row: the search for its column, and what is done then. */
  method StoreCell(cells: seq<Cell>, item: Item) returns (f: Folded)
    ensures f == Store(cells, item)
  {
    var c := item.cell;
    if Deletes(c) {
      return if item.fault then Spoilt else Good([Kept(c)]);
    }
    if c.value == Ext(Nop) {
      return if cells != [] then Good(cells) else if item.fault then Spoilt else Good([c]);
    }
    var i := 0;
    while i < |cells| && cells[i].column != c.column
      invariant 0 <= i <= |cells|
      invariant forall j :: 0 <= j < i ==> cells[j].column != c.column
    {
      i := i + 1;
    }
    if i < |cells| {
      var v := Apply(cells[i].value, c.value);
      f := if v.Ok? then Good(cells[i := cells[i].(value := v.value)]) else Spoilt;
    } else {
      f := if item.fault then Spoilt else Good(cells + [Kept(c)]);
    }
  }

  class JoinCache {
    var inited: bool
    var rows: map<CacheKey, seq<Cell>>

    constructor ()
      ensures !inited && rows == map[]
    {
      inited, rows := false, map[];
    }

    /** The value already cached under the key stays. */
    method PutRow(at: CacheKey, cells: seq<Cell>) returns (ok: bool)
      modifies this`rows
      ensures ok == (inited && at.key != [])
      ensures rows == if ok then Keep(old(rows), [Put(at, cells)]) else old(rows)
    {
      if !inited || at.key == [] {
        return false;
      }
      if at !in rows {
        rows := rows[at := cells];
      }
      ok := true;
    }

    method GetRow(at: CacheKey) returns (found: bool, cells: seq<Cell>)
      ensures found <==> inited && at.key != [] && at in rows
      ensures cells == if found then rows[at] else []
    {
      found := inited && at.key != [] && at in rows;
      cells := if found then rows[at] else [];
    }
  }

  /** What a call for a cell does on the side: the row of an exhausted response is
      closed, then a delivered cell is gathered. */
  function Beside(s: Stream, g: Gatherer, r: Result): Gatherer
    requires s.last.Reply?
  {
    var h := if s.total > 0 && Read(s) then Close(g) else g;
    if r.Next? then Feed(h, r.item).0 else h
  }

  /** The rows gathered and cached when a stream is read to its end. */
  function BesideRun(s: Stream, g: Gatherer, replies: seq<Reply>): Gatherer
    requires GetStream.Valid(s)
    decreases |replies|, |s.last.cells| - s.pos
  {
    var (t, r) := Step(s, Answered(replies));
    var h := Beside(s, g, r);
    if !r.Next? then h else BesideRun(t, h, if Asks(s) then replies[1..] else replies)
  }

  /** The responses read out one after the other. */
  function ReadAll(g: Gatherer, replies: seq<Reply>): Gatherer
    decreases |replies|
  {
    if replies == [] then g
    else ReadAll(if replies[0].Reply? then ReadOut(g, replies[0].cells).0 else g, replies[1..])
  }

  lemma {:induction false} BesideReadsOut(s: Stream, g: Gatherer, replies: seq<Reply>)
    requires GetStream.Valid(s) && s.total > 0
    ensures BesideRun(s, g, replies)
            == BesideRun(s.(pos := |s.last.cells|), FeedAll(g, s.last.cells[s.pos..]).0, replies)
    decreases |s.last.cells| - s.pos
  {
    if s.pos < |s.last.cells| {
      var c := s.last.cells[s.pos];
      var t := s.(pos := s.pos + 1);
      assert Step(s, Answered(replies)) == (t, Next(c)) && !Asks(s);
      BesideReadsOut(t, Feed(g, c).0, replies);
      assert s.last.cells[s.pos..][1..] == s.last.cells[s.pos + 1..];
    }
  }

  lemma BesideReceives(s: Stream, g: Gatherer, replies: seq<Reply>)
    requires Between(s) && Asks(s) && replies != [] && replies[0].Reply? && replies[0].cells != []
    ensures Between(After(s, replies[0]))
    ensures BesideRun(s, g, replies)
            == BesideRun(After(s, replies[0]), FeedAll(Close(g), replies[0].cells).0, replies[1..])
  {
    var cells := replies[0].cells;
    var t := After(s, replies[0]).(pos := 1);
    assert Step(s, replies[0]) == (t, Next(cells[0]));
    BesideReadsOut(t, Feed(Close(g), cells[0]).0, replies[1..]);
  }

  lemma {:induction false} BesideServed(s: Stream, g: Gatherer, replies: seq<Reply>)
    requires Between(s) && WellServed(s, replies)
    ensures BesideRun(s, g, replies)
            == ReadAll(Close(g), replies[..if Rest(s) > 0 then Calls(replies, Rest(s)) else 0])
    decreases |replies|
  {
    if Rest(s) > 0 {
      var n := Calls(replies, Rest(s));
      assert replies[..n][1..] == replies[1..][..n - 1];
      if replies[0].cells != [] {
        var t := After(s, replies[0]);
        BesideReceives(s, g, replies);
        assert Rest(t) == Rest(s) - replies[0].items;
        BesideServed(t, FeedAll(Close(g), replies[0].cells).0, replies[1..]);
      }
    }
  }

  /** Reading a served stream to its end caches what reading its responses out one
      by one would: the rows of each response, closed at its end. */
  lemma StreamCachesResponses(total: nat, g: Gatherer, replies: seq<Reply>)
    requires total > 0 && Serves(replies, total)
    ensures BesideRun(Start(total), g, replies) == ReadAll(Close(g), replies[..Calls(replies, total)])
  {
    BesideServed(Start(total), g, replies);
  }

  class GetCellStream {
    const joinCache: JoinCache
    var cached: bool
    var total: nat
    var itemIndex: int
    var firstRpc: bool
    var isFinish: bool
    var curResult: Reply
    var pos: nat
    var rowResult: Row
    var rowValid: bool
    var version: int

    ghost function Page(): Stream
      reads this
    {
      Stream(total, itemIndex, firstRpc, isFinish, curResult, pos)
    }

    ghost function Rows(): Gatherer
      reads this, joinCache
    {
      Gatherer(rowResult, rowValid, version, joinCache.inited, joinCache.rows)
    }

    constructor (cache: JoinCache)
      ensures joinCache == cache && !cached && Page() == Start(0)
      ensures Rows() == Gatherer(NO_ROW, true, 0, cache.inited, cache.rows)
    {
      joinCache, cached := cache, false;
      total, itemIndex, firstRpc, isFinish, curResult, pos := 0, 0, true, false, Reply(0, false, []), 0;
      rowResult, rowValid, version := NO_ROW, true, 0;
    }

    /** Begin a read of `wanted` cells up to the version `end`. */
    method Get(wanted: nat, end: int, inclusive: bool)
      modifies this
      ensures cached == old(cached) && Page() == Start(wanted)
      ensures Rows() == old(Rows()).(row := NO_ROW, valid := true, version := KeyVersion(end, inclusive))
    {
      total, itemIndex, firstRpc, isFinish, curResult, pos := wanted, 0, true, false, Reply(0, false, []), 0;
      rowResult, rowValid := NO_ROW, true;
      version := KeyVersion(end, inclusive);
    }

    method CheckFinishAllGet() returns (status: Status)
      requires curResult.Reply?
      modifies this`itemIndex, this`isFinish
      ensures (Page(), status) == CheckFinish(old(Page()))
    {
      if isFinish {
        return Finished;
      }
      if curResult.items <= 0 {
        return Broken;
      }
      itemIndex := itemIndex + curResult.items;
      status := Going;
      if curResult.fulfilled {
        if itemIndex == total {
          isFinish := true;
          status := Finished;
        } else if itemIndex > total {
          status := Broken;
        }
      } else if itemIndex == total {
        isFinish := true;
        status := Finished;
      }
    }

    method GetNewCellData(reply: Reply) returns (r: Result)
      requires curResult.Reply?
      modifies this`itemIndex, this`isFinish, this`firstRpc, this`curResult, this`pos
      ensures (Page(), r) == Refill(old(Page()), reply)
    {
      var status := Going;
      if !firstRpc {
        status := CheckFinishAllGet();
      }
      if status == Broken {
        return Error(ItemCount);
      }
      if status == Finished || itemIndex >= total {
        return End;
      }
      if reply.Failed? {
        return Error(RpcFailed);
      }
      curResult, pos := reply, 0;
      if !reply.fulfilled && reply.cells == [] {
        return Error(EmptyUnfulfilled);
      }
      firstRpc := false;
      if reply.cells != [] {
        pos := 1;
        return Next(reply.cells[0]);
      }
      status := CheckFinishAllGet();
      r := if status == Finished then End else if status == Going then Error(Unexpected) else Error(ItemCount);
    }

    method AddRowCache() returns (ok: bool)
      modifies joinCache`rows
      ensures ok == (rowResult.key != [] && joinCache.inited)
      ensures joinCache.rows ==
              if ok then Keep(old(joinCache.rows), [Put(CacheKey(version, rowResult.table, rowResult.key), rowResult.cells)])
              else old(joinCache.rows)
    {
      if rowResult.key == [] {
        return false;
      }
      ok := joinCache.PutRow(CacheKey(version, rowResult.table, rowResult.key), rowResult.cells);
    }

    method AddCacheClearResult() returns (ok: bool)
      modifies this`rowResult, this`rowValid, joinCache`rows
      ensures Rows() == Close(old(Rows())) && ok == !RefusedBy(old(Rows()))
    {
      ok := true;
      if rowResult.cells != [] && rowValid {
        ok := AddRowCache();
      }
      rowResult, rowValid := NO_ROW, true;
    }

    method AddCellCache(item: Item)
      modifies this`rowResult, this`rowValid, joinCache`rows
      ensures Rows() == Feed(old(Rows()), item).0
    {
      var ok := true;
      if item.rowChange {
        ok := AddCacheClearResult();
      }
      if ok && rowValid {
        var c := item.cell;
        if rowResult.key == [] {
          rowResult := Row(c.key, c.table, rowResult.cells);
        }
        if c.key != rowResult.key || c.table != rowResult.table {
          rowValid := false;
        } else {
          var f := StoreCell(rowResult.cells, item);
          rowValid := f.Good?;
          if f.Good? {
            rowResult := rowResult.(cells := f.cells);
          }
        }
      }
    }

    /** One cell: the stream moves on by `reply` if it has to ask, and the rows
        beside it follow if a cache is set. */
    method NextCell(reply: Reply) returns (r: Result)
      requires GetStream.Valid(Page())
      modifies this, joinCache`rows
      ensures (Page(), r) == Step(old(Page()), reply)
      ensures Rows() == if cached then Beside(old(Page()), old(Rows()), r) else old(Rows())
      ensures cached == old(cached)
    {
      if total == 0 {
        return End;
      }
      if pos < |curResult.cells| {
        r := Next(curResult.cells[pos]);
        pos := pos + 1;
      } else {
        if cached {
          var _ := AddCacheClearResult();
        }
        r := GetNewCellData(reply);
      }
      if r.Next? && cached {
        AddCellCache(r.item);
      }
    }

    method GetCacheRow(table: int, key: seq<int>) returns (cells: seq<Cell>)
      modifies this`rowResult
      ensures (Rows(), cells) == if cached && |key| <= MAX_ROW_KEY_LENGTH then Lookup(old(Rows()), table, key)
                                 else (old(Rows()), [])
    {
      cells := [];
      if cached && key != [] && |key| <= MAX_ROW_KEY_LENGTH {
        rowResult := NO_ROW;
        var found, hit := joinCache.GetRow(CacheKey(version, table, key));
        if found {
          rowResult := Row(key, table, hit);
          cells := hit;
        }
      }
    }
  }
}
