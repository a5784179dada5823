/** The join cache over whole runs: reads begin, cells arrive, rows close, entries
    are looked up and evicted in any order. */
module JoinCacheRuns {
  import opened Cells
  import opened RowCache

  datatype Event =
    | Begin(version: int)
    | Deliver(item: Item)
    | CloseRow
    | Find(table: int, key: seq<int>)
    | Evict(keys: set<CacheKey>)

  function Apply(g: Gatherer, e: Event): Gatherer {
    match e
    case Begin(v) => g.(row := NO_ROW, valid := true, version := v)
    case Deliver(item) => Feed(g, item).0
    case CloseRow => Close(g)
    case Find(table, key) => Lookup(g, table, key).0
    case Evict(keys) => g.(cache := map k | k in g.cache && k !in keys :: g.cache[k])
  }

  /** A row as it was delivered, and the version of the read. */
  datatype Delivered = Delivered(version: int, items: seq<Item>)

  /** What an observer of the deliveries knows: the version of the read, the cells of the
      row being delivered, whether a lookup has come since, and the rows delivered. */
  datatype Seen = Seen(version: int, current: seq<Item>, parked: bool, rows: set<Delivered>)

  function Ended(s: Seen): set<Delivered> {
    if s.current == [] then s.rows else s.rows + {Delivered(s.version, s.current)}
  }

  function Watch(s: Seen, e: Event): Seen {
    match e
    case Begin(v) => Seen(v, [], false, s.rows)
    case Deliver(item) =>
      if item.rowChange then Seen(s.version, [item], false, Ended(s))
      else s.(current := s.current + [item])
    case CloseRow => Seen(s.version, [], false, Ended(s))
    case Find(_, key) => s.(parked := s.parked || key != [])
    case Evict(_) => s
  }

  /** Rows have keys and are delivered whole, first cell marked, and no lookup
      comes between two cells of a row. */
  ghost predicate Tidy(s: Seen, e: Event) {
    e.Deliver? ==>
      if e.item.rowChange then e.item.cell.key != []
      else && !s.parked && s.current != []
           && e.item.cell.table == s.current[0].cell.table && e.item.cell.key == s.current[0].cell.key
  }

  /** All cells are of the row of `table` and `key`. */
  ghost predicate AllOf(items: seq<Item>, table: int, key: seq<int>) {
    forall i :: 0 <= i < |items| ==> items[i].cell.table == table && items[i].cell.key == key
  }

  /** `cells` is the merge of a row of `table` and `key` delivered under `version`. */
  ghost predicate IsMerge(d: Delivered, version: int, table: int, key: seq<int>, cells: seq<Cell>) {
    d.items != [] && d.version == version && AllOf(d.items, table, key) && Merged(d.items) == Good(cells)
  }

  ghost predicate WasDelivered(rows: set<Delivered>, version: int, table: int, key: seq<int>, cells: seq<Cell>) {
    exists d :: d in rows && IsMerge(d, version, table, key, cells)
  }

  /** What is gathered is the merged row being delivered. */
  ghost predicate InStep(g: Gatherer, current: seq<Item>) {
    && Merged(current) == Good(g.row.cells)
    && (current == [] ==> g.row.key == [])
    && (current != [] ==> g.row.key == current[0].cell.key && g.row.table == current[0].cell.table)
  }

  /** Every entry is a delivered row with a key. */
  ghost predicate AllSeen(cache: map<CacheKey, seq<Cell>>, rows: set<Delivered>) {
    forall k :: k in cache ==> WasDelivered(rows, k.version, k.table, k.key, cache[k]) && k.key != [] && cache[k] != []
  }

  /** Everything cached is the merge of a row delivered under that version, table and
      key.  What is gathered is the row being delivered, or after a lookup a cached row
      or nothing. */
  ghost predicate Inv(g: Gatherer, s: Seen) {
    && g.version == s.version && AllSeen(g.cache, s.rows)
    && (s.current != [] ==> s.current[0].cell.key != [] && AllOf(s.current, s.current[0].cell.table, s.current[0].cell.key))
    && (s.parked ==>
          (g.row.cells == [] && g.row.key == []) ||
          (g.row.key != [] && WasDelivered(s.rows, s.version, g.row.table, g.row.key, g.row.cells)))
    && (!s.parked && g.valid && g.inited ==> InStep(g, s.current))
  }

  lemma MoreSeen(rows: set<Delivered>, more: set<Delivered>, version: int, table: int, key: seq<int>, cells: seq<Cell>)
    requires rows <= more && WasDelivered(rows, version, table, key, cells)
    ensures WasDelivered(more, version, table, key, cells)
  {
    var d :| d in rows && IsMerge(d, version, table, key, cells);
    assert d in more;
  }

  lemma ClosingIsSeen(g: Gatherer, s: Seen)
    requires Inv(g, s)
    ensures AllSeen(Close(g).cache, Ended(s))
  {
    var cache, rows := Close(g).cache, Ended(s);
    forall k | k in cache ensures WasDelivered(rows, k.version, k.table, k.key, cache[k]) {
      if k in g.cache {
        MoreSeen(s.rows, rows, k.version, k.table, k.key, cache[k]);
      } else if s.parked {
        MoreSeen(s.rows, rows, k.version, k.table, k.key, cache[k]);
      } else {
        assert IsMerge(Delivered(s.version, s.current), k.version, k.table, k.key, cache[k]);
      }
    }
  }

  lemma DeliverKeeps(g: Gatherer, s: Seen, item: Item)
    requires Inv(g, s) && Tidy(s, Deliver(item))
    ensures Inv(Feed(g, item).0, Watch(s, Deliver(item)))
  {
    if item.rowChange {
      ClosingIsSeen(g, s);
      MergedLast([], item);
      assert [] + [item] == [item];
    } else {
      MergedLast(s.current, item);
    }
  }

  lemma StepKeeps(g: Gatherer, s: Seen, e: Event)
    requires Inv(g, s) && Tidy(s, e)
    ensures Inv(Apply(g, e), Watch(s, e)) && Apply(g, e).inited == g.inited
  {
    match e
    case Deliver(item) => DeliverKeeps(g, s, item);
    case CloseRow => ClosingIsSeen(g, s);
    case Begin(_) =>
    case Find(_, _) =>
    case Evict(_) =>
  }

  ghost predicate TidyRun(g: Gatherer, s: Seen, events: seq<Event>)
    decreases |events|
  {
    events == [] || (Tidy(s, events[0]) && TidyRun(Apply(g, events[0]), Watch(s, events[0]), events[1..]))
  }

  ghost function RunTo(g: Gatherer, s: Seen, events: seq<Event>): (Gatherer, Seen)
    decreases |events|
  {
    if events == [] then (g, s) else RunTo(Apply(g, events[0]), Watch(s, events[0]), events[1..])
  }

  lemma {:induction false} RunKeeps(g: Gatherer, s: Seen, events: seq<Event>)
    requires Inv(g, s) && TidyRun(g, s, events)
    ensures Inv(RunTo(g, s, events).0, RunTo(g, s, events).1)
    decreases |events|
  {
    if events != [] {
      StepKeeps(g, s, events[0]);
      RunKeeps(Apply(g, events[0]), Watch(s, events[0]), events[1..]);
    }
  }

  /** In every tidy run from an empty cache, a lookup that finds a row finds the merge of
      a row all of whose cells are of that table and key, delivered by a read of the same
      version. */
  lemma HitsAreWholeRows(inited: bool, version: int, events: seq<Event>, table: int, key: seq<int>)
    requires TidyRun(Gatherer(NO_ROW, true, version, inited, map[]), Seen(version, [], false, {}), events)
    ensures var (g, s) := RunTo(Gatherer(NO_ROW, true, version, inited, map[]), Seen(version, [], false, {}), events);
            Lookup(g, table, key).1 != [] ==> WasDelivered(s.rows, s.version, table, key, Lookup(g, table, key).1)
  {
    RunKeeps(Gatherer(NO_ROW, true, version, inited, map[]), Seen(version, [], false, {}), events);
  }

  /** No event drops the entry or turns to another version. */
  ghost predicate Spares(events: seq<Event>, at: CacheKey) {
    forall i :: 0 <= i < |events| ==>
      (events[i].Evict? ==> at !in events[i].keys) && (events[i].Begin? ==> events[i].version == at.version)
  }

  lemma {:induction false} CachedStays(g: Gatherer, s: Seen, events: seq<Event>, at: CacheKey)
    requires at in g.cache && at.version == g.version && Spares(events, at)
    ensures var k := RunTo(g, s, events).0;
            at in k.cache && k.cache[at] == g.cache[at] && k.version == g.version && k.inited == g.inited
    decreases |events|
  {
    if events != [] {
      assert forall i :: 0 <= i < |events[1..]| ==> events[1..][i] == events[i + 1];
      CachedStays(Apply(g, events[0]), Watch(s, events[0]), events[1..], at);
    }
  }

  /** What is cached is found again: the merge of a row that is read whole is returned
      by every later lookup, whatever else is read and put, until it is evicted.  It is
      the delivered cells themselves if and only if nothing in the row concerns another
      cell of it. */
  lemma CachedRowIsFound(g: Gatherer, r: seq<Item>, s: Seen, events: seq<Event>)
    requires IsRow(r) && Merged(r).Good? && r[0].cell.key != [] && g.inited && !RefusedBy(g)
    requires CacheKey(g.version, r[0].cell.table, r[0].cell.key) !in Close(g).cache
    requires Spares(events, CacheKey(g.version, r[0].cell.table, r[0].cell.key))
    ensures var found := Lookup(RunTo(Close(FeedAll(g, r).0), s, events).0, r[0].cell.table, r[0].cell.key).1;
            found == Merged(r).cells && (found == CellsOf(r) <==> Verbatim(r))
  {
    FeedRow(g, r);
    CachedStays(Close(FeedAll(g, r).0), s, events, CacheKey(g.version, r[0].cell.table, r[0].cell.key));
    MergedIsVerbatimIff(r);
  }

  // ---------------------------------------------------- a lookup inside a row

  /** What is put for a row into which a lookup fell after `p` cells: `h` is the state
      at the lookup. */
  function MidPut(h: Gatherer, r: seq<Item>, p: nat, table: int, key: seq<int>): seq<Put>
    requires 0 < p < |r|
  {
    var at := CacheKey(h.version, r[0].cell.table, r[0].cell.key);
    if Merged(r[..p]).Spoilt? then []
    else if key == [] then PutOf(h, r, false)
    else if CacheKey(h.version, table, key) !in h.cache then
      if Merged(r[p..]).Good? then [Put(at, Merged(r[p..]).cells)] else []
    else if table == r[0].cell.table && key == r[0].cell.key then
      if Fold(h.cache[at], r[p..]).Good? then [Put(at, Fold(h.cache[at], r[p..]).cells)] else []
    else []
  }

  lemma FirstPart(g: Gatherer, r: seq<Item>, p: nat)
    requires IsRow(r) && 0 < p < |r| && g.inited && !RefusedBy(g)
    ensures IsRow(r[..p]) && Inside(r[p..], r[0].cell.table, r[0].cell.key)
    ensures var h := FeedAll(g, r[..p]).0;
            && h.valid == Merged(r[..p]).Good? && h.cache == Close(g).cache && h.inited && h.version == g.version
            && (h.valid ==> Holds(h, Merged(r[..p]).cells, r[0].cell.table, r[0].cell.key))
  {
    var (table, key) := (r[0].cell.table, r[0].cell.key);
    assert forall i :: 0 <= i < |r[p..]| ==> r[p..][i] == r[1..][p - 1 + i];
    assert forall i :: 0 <= i < |r[..p][1..]| ==> r[..p][1..][i] == r[1..][i];
    var h := Feed(g, r[0]).0;
    FeedFirst(g, r[0]);
    if h.valid {
      FeedInside(h, r[..p][1..], Store([], r[0]).cells, table, key);
    } else {
      FeedSpoilt(h, r[..p][1..], table, key);
    }
  }

  /** The rest of the row after the lookup `k`. */
  lemma LastPart(k: Gatherer, items: seq<Item>, cells: seq<Cell>, table: int, key: seq<int>)
    requires Inside(items, table, key) && items != [] && k.inited && key != []
    requires k.valid && Holds(k, cells, table, key)
    ensures Closing(FeedAll(k, items).0)
            == if Fold(cells, items).Good? then [Put(CacheKey(k.version, table, key), Fold(cells, items).cells)] else []
  {
    FeedInside(k, items, cells, table, key);
    FoldFills(cells, items);
  }

  /** A loaded row of another key refuses the next cell, and the row is spoilt. */
  lemma StrangerSpoils(k: Gatherer, items: seq<Item>, table: int, key: seq<int>)
    requires Inside(items, table, key) && items != [] && k.row.key != []
    requires k.row.key != key || k.row.table != table
    ensures Closing(FeedAll(k, items).0) == []
  {
    var h := Feed(k, items[0]).0;
    assert !h.valid;
    assert forall i :: 0 <= i < |items[1..]| ==> items[1..][i] == items[i + 1];
    FeedSpoilt(h, items[1..], table, key);
  }

  /** What a lookup at any position inside any row leads to. */
  lemma LookupMidRow(g: Gatherer, r: seq<Item>, p: nat, table: int, key: seq<int>)
    requires IsRow(r) && 0 < p < |r| && r[0].cell.key != [] && g.inited && !RefusedBy(g)
    requires forall k :: k in g.cache ==> g.cache[k] != []
    ensures var h := FeedAll(g, r[..p]).0;
            Closing(FeedAll(Lookup(h, table, key).0, r[p..]).0) == MidPut(h, r, p, table, key)
  {
    var h := FeedAll(g, r[..p]).0;
    var k, rest := Lookup(h, table, key).0, r[p..];
    var rt, rk := r[0].cell.table, r[0].cell.key;
    FirstPart(g, r, p);
    if !h.valid {
      FeedSpoilt(k, rest, rt, rk);
    } else if key == [] {
      FoldTwice([], r[..p], rest);
      assert r == r[..p] + rest;
      LastPart(k, rest, Merged(r[..p]).cells, rt, rk);
    } else if CacheKey(h.version, table, key) !in h.cache {
      LastPart(k, rest, [], rt, rk);
    } else if table == rt && key == rk {
      LastPart(k, rest, h.cache[CacheKey(h.version, rt, rk)], rt, rk);
    } else {
      StrangerSpoils(k, rest, rt, rk);
    }
  }

  /** Half a row is cached exactly when the lookup has a key and misses, the row is not
      cached yet, and the cells on both sides of the lookup can be merged. */
  lemma HalfRowCachedIff(g: Gatherer, r: seq<Item>, p: nat, table: int, key: seq<int>)
    requires IsRow(r) && 0 < p < |r| && r[0].cell.key != [] && g.inited && !RefusedBy(g) && key != []
    requires forall k :: k in g.cache ==> g.cache[k] != []
    ensures var before, at := Close(g).cache, CacheKey(g.version, r[0].cell.table, r[0].cell.key);
            var after := Close(FeedAll(Lookup(FeedAll(g, r[..p]).0, table, key).0, r[p..]).0).cache;
            && (after != before <==>
                  && at !in before && CacheKey(g.version, table, key) !in before
                  && Merged(r[..p]).Good? && Merged(r[p..]).Good?)
            && (after != before ==> after == before[at := Merged(r[p..]).cells])
  {
    var h := FeedAll(g, r[..p]).0;
    var k := Lookup(h, table, key).0;
    FirstPart(g, r, p);
    LookupMidRow(g, r, p, table, key);
    CacheWaits(k, r[p..], r[0].cell.table, r[0].cell.key);
    var at := CacheKey(g.version, r[0].cell.table, r[0].cell.key);
    var puts := MidPut(h, r, p, table, key);
    assert puts != [] && at !in h.cache ==> at in Keep(h.cache, puts);
  }

  /** Nothing reaches the cache inside a row. */
  lemma {:induction false} CacheWaits(g: Gatherer, items: seq<Item>, table: int, key: seq<int>)
    requires Inside(items, table, key)
    ensures FeedAll(g, items).0.cache == g.cache
    decreases |items|
  {
    if items != [] {
      assert forall i :: 0 <= i < |items[1..]| ==> items[1..][i] == items[i + 1];
      CacheWaits(Feed(g, items[0]).0, items[1..], table, key);
    }
  }
}
