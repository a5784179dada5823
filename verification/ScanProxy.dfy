/** Reading a tablet's compact sstables beside its sstable: which of them a get
    merges for one row, and which of them a scan attaches. */
module ScanProxy {
  import opened Versions

  /** OB_MAX_COMPACTSSTABLE_NUM: the iterators at hand. */
  const MAX_ITERATORS: nat := 64
  const INVALID_ID: int := 0xffff_ffff_ffff_ffff

  /** A compact sstable; `fault` says that opening an iterator on it fails. */
  datatype Mem = Mem(version: Version, table: int, rows: set<int>, fault: bool)

  /** A get yields an error, the merged rows of the listed members, the mark that
      the row does not exist, or nothing. */
  datatype Outcome = Failed | Merged(members: seq<int>) | Absent(table: int) | Nothing

  // ------------------------------------------------------------------- get

  /** The members before the first that is newer than `v`. */
  function Prefix(nodes: seq<Mem>, v: Version): (n: nat)
    ensures n <= |nodes|
    ensures forall i :: 0 <= i < n ==> NotNewer(nodes[i].version, v)
    ensures n < |nodes| ==> !NotNewer(nodes[n].version, v)
    decreases |nodes|
  {
    if nodes == [] || !NotNewer(nodes[0].version, v) then 0 else 1 + Prefix(nodes[1..], v)
  }

  /** The members below `n` that have the row, in list order. */
  function Having(nodes: seq<Mem>, row: int, n: nat): (hits: seq<int>)
    requires n <= |nodes|
    ensures |hits| <= n
  {
    if n == 0 then []
    else Having(nodes, row, n - 1) + if row in nodes[n - 1].rows then [n - 1] else []
  }

  function Take(s: seq<int>, n: int): seq<int> {
    if n <= 0 then [] else if n <= |s| then s[..n] else s
  }

  ghost predicate Faulty(nodes: seq<Mem>, members: seq<int>) {
    exists m :: m in members && 0 <= m < |nodes| && nodes[m].fault
  }

  /** The first valid table id. */
  function TableOf(nodes: seq<Mem>, n: nat): int
    requires n <= |nodes|
  {
    if n == 0 then INVALID_ID
    else
      var earlier := TableOf(nodes, n - 1);
      if earlier != INVALID_ID then earlier else nodes[n - 1].table
  }

  ghost function Expected(nodes: seq<Mem>, num: int, row: int, v: Version): Outcome {
    var n := Prefix(nodes, v);
    var members := Take(Having(nodes, row, n), num);
    if Faulty(nodes, members) then Failed
    else if members != [] then Merged(members)
    else if num > 0 && n > 0 then Absent(TableOf(nodes, n))
    else Nothing
  }

  /** After `i` members: the iterators in use hold the members found, in order. */
  ghost predicate Opened(iters: seq<int>, merger: seq<int>, members: seq<int>) {
    && |merger| == |members| <= |iters|
    && forall j :: 0 <= j < |merger| ==> merger[j] == j && iters[j] == members[j]
  }

  /** A get after `i` members, `members` of them opened. */
  ghost predicate Progress(nodes: seq<Mem>, num: int, row: int, v: Version,
                           i: int, members: seq<int>, table: int, absent: bool) {
    && 0 <= i <= Prefix(nodes, v) && members == Having(nodes, row, i)
    && (i > 0 ==> num > 0 && |members| <= num)
    && !Faulty(nodes, members)
    && absent == (|members| < i)
    && table == TableOf(nodes, i)
  }

  lemma ProgressGoesOn(nodes: seq<Mem>, num: int, row: int, v: Version,
                       i: int, members: seq<int>, table: int, absent: bool)
    requires Progress(nodes, num, row, v, i, members, table, absent)
    requires i < Prefix(nodes, v) && |members| < num && !(row in nodes[i].rows && nodes[i].fault)
    ensures Progress(nodes, num, row, v, i + 1,
                     if row in nodes[i].rows then members + [i] else members,
                     if table == INVALID_ID then nodes[i].table else table,
                     absent || row !in nodes[i].rows)
  {
    if row in nodes[i].rows {
      assert forall m :: m in members + [i] ==> m in members || m == i;
    }
  }

  lemma ProgressEnds(nodes: seq<Mem>, num: int, row: int, v: Version,
                     i: int, members: seq<int>, table: int, absent: bool)
    requires Progress(nodes, num, row, v, i, members, table, absent)
    requires i == Prefix(nodes, v) || |members| >= num
    ensures Expected(nodes, num, row, v) ==
            if members != [] then Merged(members) else if absent then Absent(table) else Nothing
  {
    var n := Prefix(nodes, v);
    HavingGrows(nodes, row, i, n);
    assert Take(Having(nodes, row, n), num) == members;
  }

  lemma ProgressFails(nodes: seq<Mem>, num: int, row: int, v: Version,
                      i: int, members: seq<int>, table: int, absent: bool)
    requires Progress(nodes, num, row, v, i, members, table, absent)
    requires i < Prefix(nodes, v) && |members| < num && row in nodes[i].rows && nodes[i].fault
    ensures Expected(nodes, num, row, v) == Failed
  {
    var n := Prefix(nodes, v);
    HavingGrows(nodes, row, i + 1, n);
    var taken := Take(Having(nodes, row, n), num);
    assert Having(nodes, row, i + 1)[|members|] == i;
    assert taken[|members|] == i;
  }

  lemma {:induction false} HavingGrows(nodes: seq<Mem>, row: int, i: nat, n: nat)
    requires i <= n <= |nodes|
    ensures Having(nodes, row, i) <= Having(nodes, row, n)
    decreases n
  {
    if i < n { HavingGrows(nodes, row, i, n - 1); }
  }

  /** The members merged for `row`; `iters` says which member each iterator reads
      and `merger` which iterators are merged. */
  method GetCompactRow(nodes: seq<Mem>, num: int, row: int, v: Version, iters: array<int>)
    returns (outcome: Outcome, merger: seq<int>)
    requires num <= MAX_ITERATORS == iters.Length
    modifies iters
    ensures outcome == Expected(nodes, num, row, v)
    ensures outcome.Merged? ==> Opened(iters[..], merger, outcome.members)
  {
    var i, m := 0, 0;
    var table, absent := INVALID_ID, false;
    merger := [];
    ghost var members: seq<int> := [];
    while i < |nodes| && m < num
      invariant m == |members| && Opened(iters[..], merger, members)
      invariant Progress(nodes, num, row, v, i, members, table, absent)
    {
      var mem := nodes[i];
      if !NotNewer(mem.version, v) {
        break;
      }
      if row in mem.rows && mem.fault {
        ProgressFails(nodes, num, row, v, i, members, table, absent);
        return Failed, merger;
      }
      ProgressGoesOn(nodes, num, row, v, i, members, table, absent);
      if table == INVALID_ID {
        table := mem.table;
      }
      if row !in mem.rows {
        absent := true;
      } else {
        iters[m] := i;
        merger := merger + [m];
        members := members + [i];
        m := m + 1;
      }
      i := i + 1;
    }
    ProgressEnds(nodes, num, row, v, i, members, table, absent);
    outcome := if m > 0 then Merged(iters[..m]) else if absent then Absent(table) else Nothing;
    assert m > 0 ==> iters[..m] == members;
  }

  /** From the oldest to the newest. */
  ghost predicate Ascending(nodes: seq<Mem>) {
    forall i, j :: 0 <= i < j < |nodes| ==> UpTo(nodes[i].version, nodes[j].version)
  }

  lemma {:induction false} HavingMeans(nodes: seq<Mem>, row: int, n: nat)
    requires n <= |nodes|
    ensures forall h :: h in Having(nodes, row, n) <==> 0 <= h < n && row in nodes[h].rows
    ensures forall i, j :: 0 <= i < j < |Having(nodes, row, n)| ==> Having(nodes, row, n)[i] < Having(nodes, row, n)[j]
  {
    if n > 0 {
      var before := Having(nodes, row, n - 1);
      HavingMeans(nodes, row, n - 1);
      assert forall i :: 0 <= i < |before| ==> before[i] in before;
    }
  }

  /** On an ascending list the leading members are all up to the version asked for. */
  lemma PrefixIsAll(nodes: seq<Mem>, v: Version, i: int)
    requires Ascending(nodes) && 0 <= i < |nodes|
    ensures UpTo(nodes[i].version, v) <==> i < Prefix(nodes, v)
  {
    var n := Prefix(nodes, v);
    CompareIsOrder(nodes[i].version, v, 0, 0);
    if n < |nodes| { CompareIsOrder(nodes[n].version, v, 0, 0); }
    if n < i { assert UpTo(nodes[n].version, nodes[i].version); }
  }

  /** Member `h` is up to the version asked for and has the row. */
  predicate Due(nodes: seq<Mem>, row: int, v: Version, h: int) {
    0 <= h < |nodes| && UpTo(nodes[h].version, v) && row in nodes[h].rows
  }

  /** It is among the first `num` of these. */
  ghost predicate Opens(nodes: seq<Mem>, num: int, row: int, v: Version, h: int) {
    Due(nodes, row, v, h) && |set g | 0 <= g < h && Due(nodes, row, v, g)| < num
  }

  lemma {:induction false} HavingCounts(nodes: seq<Mem>, row: int, v: Version, n: nat)
    requires n <= |nodes| && forall g :: 0 <= g < n ==> UpTo(nodes[g].version, v)
    ensures |Having(nodes, row, n)| == |set g | 0 <= g < n && Due(nodes, row, v, g)|
  {
    if n > 0 {
      HavingCounts(nodes, row, v, n - 1);
      var before := set g | 0 <= g < n - 1 && Due(nodes, row, v, g);
      var now := set g | 0 <= g < n && Due(nodes, row, v, g);
      assert now == if row in nodes[n - 1].rows then before + {n - 1} else before;
    }
  }

  /** A member that has the row comes after as many as have it before. */
  lemma TakenIff(nodes: seq<Mem>, num: int, row: int, n: nat, h: int)
    requires 0 <= h < n <= |nodes|
    ensures h in Take(Having(nodes, row, n), num) <==> row in nodes[h].rows && |Having(nodes, row, h)| < num
  {
    var having, k := Having(nodes, row, n), |Having(nodes, row, h)|;
    HavingMeans(nodes, row, n);
    HavingGrows(nodes, row, h + 1, n);
    if row in nodes[h].rows {
      assert Having(nodes, row, h + 1)[k] == h;
      assert having[k] == h;
      if k < num { assert Take(having, num)[k] == h; }
    }
    if h in Take(having, num) {
      var i :| 0 <= i < |Take(having, num)| && Take(having, num)[i] == h;
      assert having[i] == h && h in having;
    }
  }

  /** The members a get takes are the first that are due. */
  lemma TakenAreOpened(nodes: seq<Mem>, num: int, row: int, v: Version, h: int)
    requires Ascending(nodes)
    ensures h in Take(Having(nodes, row, Prefix(nodes, v)), num) <==> Opens(nodes, num, row, v, h)
  {
    var n := Prefix(nodes, v);
    HavingMeans(nodes, row, n);
    if 0 <= h < n {
      TakenIff(nodes, num, row, n, h);
      forall g | 0 <= g <= h ensures UpTo(nodes[g].version, v) { PrefixIsAll(nodes, v, g); }
      HavingCounts(nodes, row, v, h);
    } else if h < |nodes| && h >= 0 {
      PrefixIsAll(nodes, v, h);
    }
  }

  /** Member `i` has this table id, and no member before it a valid one. */
  ghost predicate FirstAt(nodes: seq<Mem>, i: int, table: int) {
    0 <= i < |nodes| && nodes[i].table == table && forall j :: 0 <= j < i ==> nodes[j].table == INVALID_ID
  }

  lemma {:induction false} TableOfIsFirst(nodes: seq<Mem>, n: nat)
    requires n <= |nodes|
    ensures TableOf(nodes, n) == INVALID_ID ==> forall i :: 0 <= i < n ==> nodes[i].table == INVALID_ID
    ensures TableOf(nodes, n) != INVALID_ID ==> exists i :: i < n && FirstAt(nodes, i, TableOf(nodes, n))
  {
    if n > 0 {
      TableOfIsFirst(nodes, n - 1);
      if TableOf(nodes, n - 1) == INVALID_ID { assert FirstAt(nodes, n - 1, nodes[n - 1].table); }
    }
  }

  /** A get on an ascending list merges exactly the first `num` members up to the version
      asked for that have the row, each once and in list order, and fails exactly when one
      of them cannot be opened. */
  lemma GetMergesExactly(nodes: seq<Mem>, num: int, row: int, v: Version)
    requires Ascending(nodes)
    ensures var outcome := Expected(nodes, num, row, v);
      && (outcome == Failed <==> exists h :: Opens(nodes, num, row, v, h) && nodes[h].fault)
      && (outcome.Merged? <==> outcome != Failed && exists h :: Opens(nodes, num, row, v, h))
      && (outcome.Merged? ==>
            && (forall h :: h in outcome.members <==> Opens(nodes, num, row, v, h))
            && (forall i, j :: 0 <= i < j < |outcome.members| ==> outcome.members[i] < outcome.members[j]))
  {
    var members := Take(Having(nodes, row, Prefix(nodes, v)), num);
    forall h ensures h in members <==> Opens(nodes, num, row, v, h) { TakenAreOpened(nodes, num, row, v, h); }
    HavingMeans(nodes, row, Prefix(nodes, v));
    if Faulty(nodes, members) {
      var m :| m in members && 0 <= m < |nodes| && nodes[m].fault;
      assert Opens(nodes, num, row, v, m);
    }
    if members != [] { assert members[0] in members; }
  }

  /** It says that the row does not exist exactly when there is a member up to that version
      and none of these has it; then with their first valid table id. */
  lemma GetReportsAbsence(nodes: seq<Mem>, num: int, row: int, v: Version)
    requires Ascending(nodes)
    ensures var outcome := Expected(nodes, num, row, v);
      && (outcome.Absent? <==>
            && num > 0 && (exists i :: 0 <= i < |nodes| && UpTo(nodes[i].version, v))
            && (forall i :: 0 <= i < |nodes| && UpTo(nodes[i].version, v) ==> row !in nodes[i].rows))
      && (outcome.Absent? && outcome.table != INVALID_ID ==>
            exists i :: FirstAt(nodes, i, outcome.table) && UpTo(nodes[i].version, v))
      && (outcome.Absent? && outcome.table == INVALID_ID ==>
            forall i :: 0 <= i < |nodes| && UpTo(nodes[i].version, v) ==> nodes[i].table == INVALID_ID)
  {
    var n, having := Prefix(nodes, v), Having(nodes, row, Prefix(nodes, v));
    forall i | 0 <= i < |nodes| ensures UpTo(nodes[i].version, v) <==> i < n { PrefixIsAll(nodes, v, i); }
    HavingMeans(nodes, row, n);
    TableOfIsFirst(nodes, n);
    if having != [] {
      assert having[0] in having;
      if num > 0 { assert Take(having, num)[0] == having[0]; }
    }
  }

  // ------------------------------------------------------------------- scan

  /** Query version 0 asks for everything. */
  predicate Wanted(mem: Mem, query: int) {
    query == 0 || (query > 0 && mem.version.major <= query)
  }

  function WantedPrefix(nodes: seq<Mem>, query: int): (n: nat)
    ensures n <= |nodes|
    ensures forall i :: 0 <= i < n ==> Wanted(nodes[i], query)
    ensures n < |nodes| ==> !Wanted(nodes[n], query)
    decreases |nodes|
  {
    if nodes == [] || !Wanted(nodes[0], query) then 0 else 1 + WantedPrefix(nodes[1..], query)
  }

  function Least(a: int, b: int): int {
    if a <= b then a else b
  }

  /** A scan attaches, after the sstable, the leading wanted members for which there
      are iterators, and reports the version of the last one attached. */
  method Attach(nodes: seq<Mem>, num: int, query: int, itSize: int, dataVersion: Version)
    returns (ok: bool, attached: seq<int>, version: Version)
    ensures var n := Least(WantedPrefix(nodes, query), Least(num, itSize - 1));
            && (ok <==> itSize > 0 && !(num > 0 && nodes == []) && (forall i :: 0 <= i < n ==> !nodes[i].fault))
            && (ok && n > 0 ==> attached == seq(n, i => i) && version == nodes[n - 1].version)
            && (ok && n <= 0 ==> attached == [] && version == dataVersion)
  {
    attached, version := [], dataVersion;
    if itSize <= 0 {
      return false, attached, version;
    }
    if num > 0 && nodes == [] {
      return false, attached, version;
    }
    var itNum, i := 1, 0;
    while i < |nodes| && i < num && itNum < itSize
      invariant 0 <= i <= WantedPrefix(nodes, query) && (i > 0 ==> i <= num) && itNum == i + 1 <= itSize
      invariant forall j :: 0 <= j < i ==> !nodes[j].fault
      invariant attached == seq(i, j => j)
      invariant version == if i > 0 then nodes[i - 1].version else dataVersion
    {
      if !Wanted(nodes[i], query) {
        break;
      }
      if nodes[i].fault {
        return false, attached, version;
      }
      attached := attached + [i];
      itNum := itNum + 1;
      version := nodes[i].version;
      i := i + 1;
    }
    ok := true;
  }

  /** On an ascending list the attached members are all the wanted ones, unless the
      iterators run out. */
  lemma WantedPrefixIsAll(nodes: seq<Mem>, query: int, i: int)
    requires Ascending(nodes) && 0 <= i < |nodes|
    ensures i < WantedPrefix(nodes, query) <==> query == 0 || (query > 0 && nodes[i].version.major <= query)
  {
    var n := WantedPrefix(nodes, query);
    if n < i { assert UpTo(nodes[n].version, nodes[i].version); }
  }
}
