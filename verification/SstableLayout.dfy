/** What the sstable checker establishes about the byte layout of a file, and of
    the rows inside a block. */
module SstableLayout {

  /** Size of the word at the end of the file that holds the trailer's offset. */
  const TRAILER_OFFSET_SIZE: int := 8
  const INT32_SIZE: int := 4

  datatype Layout = Layout(blockSizes: seq<int>, indexOffset: int, indexSize: int, bloomOffset: int, bloomSize: int,
                           schemaOffset: int, schemaSize: int, trailerOffset: int)

  /** The blocks of the file; without a block index there are none. */
  function Blocks(l: Layout): seq<int> {
    if l.indexSize != 0 then l.blockSizes else []
  }

  function Sum(sizes: seq<int>, n: int): int
    requires 0 <= n <= |sizes|
  {
    if n == 0 then 0 else Sum(sizes, n - 1) + sizes[n - 1]
  }

  // ------------------------------------------------------------ the whole file

  /** A stretch of bytes. */
  datatype Region = Region(start: int, end: int)

  /** Block by block, then the block index, the bloom filter and the schema. */
  function Regions(l: Layout): seq<Region> {
    BlockRegions(Blocks(l))
    + [Region(l.indexOffset, l.indexOffset + l.indexSize),
       Region(l.bloomOffset, l.bloomOffset + l.bloomSize),
       Region(l.schemaOffset, l.schemaOffset + l.schemaSize)]
  }

  function BlockRegions(sizes: seq<int>): seq<Region> {
    seq(|sizes|, i requires 0 <= i < |sizes| => Region(Sum(sizes, i), Sum(sizes, i + 1)))
  }

  /** Each stretch begins where the one before it ends, or later. */
  ghost predicate InOrder(regions: seq<Region>) {
    forall i, j :: 0 <= i < j < |regions| ==> regions[i].end <= regions[j].start
  }

  ghost predicate Covers(regions: seq<Region>, i: int, byte: int) {
    0 <= i < |regions| && regions[i].start <= byte < regions[i].end
  }

  ghost predicate SizesOk(l: Layout) {
    && (forall i :: 0 <= i < |l.blockSizes| ==> l.blockSizes[i] >= 0)
    && l.indexSize >= 0 && l.bloomSize >= 0 && l.schemaSize >= 0
  }

  /** What the checks add up to. */
  ghost predicate Accepted(l: Layout, fileSize: int) {
    && (forall n :: 0 < n <= |Blocks(l)| ==> Sum(Blocks(l), n) <= fileSize)
    && Sum(Blocks(l), |Blocks(l)|) <= l.indexOffset
    && l.indexOffset + l.indexSize <= fileSize
    && (l.bloomOffset > 0 ==> l.indexOffset + l.indexSize <= l.bloomOffset)
    && l.bloomOffset + l.bloomSize <= fileSize
    && l.bloomOffset + l.bloomSize <= l.schemaOffset
    && l.schemaOffset + l.schemaSize <= fileSize
    && l.schemaOffset + l.schemaSize <= l.trailerOffset
    && l.trailerOffset <= fileSize - TRAILER_OFFSET_SIZE
  }

  method CheckOffsetSize(l: Layout, fileSize: int) returns (ok: bool)
    ensures ok <==> Accepted(l, fileSize)
  {
    var offset := 0;
    if l.indexSize != 0 {
      var i := 0;
      while i < |l.blockSizes|
        invariant 0 <= i <= |l.blockSizes| && offset == Sum(l.blockSizes, i)
        invariant forall n :: 0 < n <= i ==> Sum(l.blockSizes, n) <= fileSize
      {
        offset := offset + l.blockSizes[i];
        i := i + 1;
        if offset > fileSize {
          assert Sum(Blocks(l), i) > fileSize;
          return false;
        }
      }
    }
    if offset > l.indexOffset {
      return false;
    }
    offset := l.indexOffset + l.indexSize;
    if offset > fileSize {
      return false;
    }
    if l.bloomOffset > 0 && offset > l.bloomOffset {
      return false;
    }
    offset := l.bloomOffset + l.bloomSize;
    if offset > fileSize || offset > l.schemaOffset {
      return false;
    }
    offset := l.schemaOffset + l.schemaSize;
    if offset > fileSize || offset > l.trailerOffset {
      return false;
    }
    ok := l.trailerOffset <= fileSize && l.trailerOffset <= fileSize - TRAILER_OFFSET_SIZE;
  }

  lemma {:induction false} SumGrows(sizes: seq<int>, m: int, n: int)
    requires 0 <= m <= n <= |sizes| && forall i :: 0 <= i < |sizes| ==> sizes[i] >= 0
    ensures 0 <= Sum(sizes, m) <= Sum(sizes, n)
    decreases n
  {
    if m < n { SumGrows(sizes, m, n - 1); } else if n > 0 { SumGrows(sizes, n - 1, n - 1); }
  }

  lemma BlocksInOrder(sizes: seq<int>)
    requires forall i :: 0 <= i < |sizes| ==> sizes[i] >= 0
    ensures InOrder(BlockRegions(sizes))
    ensures forall i :: 0 <= i < |sizes| ==> BlockRegions(sizes)[i].end <= Sum(sizes, |sizes|)
  {
    forall i, j | 0 <= i < j < |sizes| ensures BlockRegions(sizes)[i].end <= BlockRegions(sizes)[j].start {
      SumGrows(sizes, i + 1, j);
    }
    forall i | 0 <= i < |sizes| ensures BlockRegions(sizes)[i].end <= Sum(sizes, |sizes|) {
      SumGrows(sizes, i + 1, |sizes|);
    }
  }

  /** With a bloom filter at a positive offset a file is accepted exactly when its
      parts follow each other, the schema ends before the trailer and the trailer
      begins before the word that points to it. */
  lemma AcceptedIffInOrder(l: Layout, fileSize: int)
    requires SizesOk(l) && l.bloomOffset > 0 && l.indexOffset >= 0
    ensures Accepted(l, fileSize) <==>
            && InOrder(Regions(l))
            && l.schemaOffset + l.schemaSize <= l.trailerOffset <= fileSize - TRAILER_OFFSET_SIZE
  {
    var b, r := Blocks(l), Regions(l);
    var n := |b|;
    BlocksInOrder(b);
    assert forall i :: 0 <= i < n ==> r[i] == BlockRegions(b)[i];
    forall m | 0 < m <= n ensures Sum(b, m) <= Sum(b, n) { SumGrows(b, m, n); }
    if InOrder(r) {
      assert r[n].end <= r[n + 1].start && r[n + 1].end <= r[n + 2].start;
      assert n > 0 ==> r[n - 1].end <= r[n].start;
    }
  }

  /** So in an accepted file no byte belongs to two parts. */
  lemma NoByteTwice(l: Layout, fileSize: int, i: int, j: int, byte: int)
    requires SizesOk(l) && l.bloomOffset > 0 && Accepted(l, fileSize)
    requires Covers(Regions(l), i, byte) && Covers(Regions(l), j, byte)
    ensures i == j && 0 <= byte < l.trailerOffset
  {
    var b, r := Blocks(l), Regions(l);
    SumGrows(b, 0, |b|);
    AcceptedIffInOrder(l, fileSize);
    assert i < |b| ==> r[i] == BlockRegions(b)[i];
    if i < |b| { SumGrows(b, 0, i); BlocksInOrder(b); }
  }

  /** Without a bloom filter a file is accepted exactly when blocks and block index follow
      each other inside the file and the schema lies anywhere before the trailer. */
  lemma WithoutBloomFilter(l: Layout, fileSize: int)
    requires SizesOk(l) && l.bloomOffset == 0 == l.bloomSize && l.indexOffset >= 0
    ensures Accepted(l, fileSize) <==>
      && InOrder(BlockRegions(Blocks(l)) + [Region(l.indexOffset, l.indexOffset + l.indexSize)])
      && l.indexOffset + l.indexSize <= fileSize && 0 <= l.schemaOffset
      && l.schemaOffset + l.schemaSize <= l.trailerOffset <= fileSize - TRAILER_OFFSET_SIZE
  {
    var b := Blocks(l);
    var n := |b|;
    var r := BlockRegions(b) + [Region(l.indexOffset, l.indexOffset + l.indexSize)];
    BlocksInOrder(b);
    assert forall i :: 0 <= i < n ==> r[i] == BlockRegions(b)[i];
    forall m | 0 < m <= n ensures Sum(b, m) <= Sum(b, n) { SumGrows(b, m, n); }
    if InOrder(r) { assert n > 0 ==> r[n - 1].end <= r[n].start; }
  }

  /** So nothing compares the block index with the schema: all parts follow each other if
      and only if the schema happens to lie behind. */
  lemma SchemaMayLieAnywhere(l: Layout, fileSize: int)
    requires SizesOk(l) && l.bloomOffset == 0 == l.bloomSize && Accepted(l, fileSize)
    ensures InOrder(BlockRegions(Blocks(l)) + [Region(l.indexOffset, l.indexOffset + l.indexSize),
                                               Region(l.schemaOffset, l.schemaOffset + l.schemaSize)])
            <==> l.indexOffset + l.indexSize <= l.schemaOffset
  {
    var b := Blocks(l);
    var n := |b|;
    var r := BlockRegions(b) + [Region(l.indexOffset, l.indexOffset + l.indexSize),
                                Region(l.schemaOffset, l.schemaOffset + l.schemaSize)];
    BlocksInOrder(b);
    assert forall i :: 0 <= i < n ==> r[i] == BlockRegions(b)[i];
    assert r[n].end <= r[n + 1].start <==> l.indexOffset + l.indexSize <= l.schemaOffset;
  }

  /** A file whose schema lies over its block index, and is accepted. */
  lemma SchemaOverIndex()
    ensures var l := Layout([10], 10, 20, 0, 0, 10, 20, 30);
            && SizesOk(l) && Accepted(l, 38)
            && l.indexOffset == l.schemaOffset < l.indexOffset + l.indexSize
  {
    var l := Layout([10], 10, 20, 0, 0, 10, 20, 30);
    assert Blocks(l) == [10] && Sum([10], 0) == 0 && Sum([10], 1) == 10;
  }

  // ---------------------------------------------------------------- one block

  /** `offsets` is the row index: where each row begins, and where the last ends. */
  ghost predicate RowsAccepted(arrayOffset: int, rowCount: int, offsets: seq<int>, dataLength: int) {
    && arrayOffset > 0 && rowCount > 0
    && arrayOffset + (rowCount + 1) * INT32_SIZE <= dataLength
    && |offsets| == rowCount + 1
    && (forall i :: 0 <= i < |offsets| ==> 0 < offsets[i] < dataLength)
    && (forall i, j :: 0 <= i < j < |offsets| ==> offsets[i] < offsets[j])
  }

  method CheckRows(arrayOffset: int, rowCount: int, offsets: seq<int>, dataLength: int) returns (ok: bool)
    requires |offsets| == if rowCount > 0 then rowCount + 1 else 0
    ensures ok <==> RowsAccepted(arrayOffset, rowCount, offsets, dataLength)
  {
    if arrayOffset <= 0 || rowCount <= 0 {
      return false;
    }
    if arrayOffset + (rowCount + 1) * INT32_SIZE > dataLength {
      return false;
    }
    var prev := 0;
    var row := 0;
    while row <= rowCount
      invariant 0 <= row <= rowCount + 1
      invariant prev == if row > 0 then offsets[row - 1] else 0
      invariant forall i :: 0 <= i < row ==> 0 < offsets[i] < dataLength
      invariant forall i, j :: 0 <= i < j < row ==> offsets[i] < offsets[j]
    {
      if offsets[row] <= prev {
        return false;
      }
      if offsets[row] >= dataLength {
        return false;
      }
      prev := offsets[row];
      row := row + 1;
    }
    ok := true;
  }

  /** A byte of the block behind its first. */
  predicate InBlock(byte: int, dataLength: int) {
    0 < byte < dataLength
  }

  /** A row index is accepted exactly when it lies inside the block, and the rows it gives
      are not empty and begin and end inside the block, behind its first byte. */
  lemma RowsAcceptedIff(arrayOffset: int, rowCount: int, offsets: seq<int>, dataLength: int)
    ensures RowsAccepted(arrayOffset, rowCount, offsets, dataLength) <==>
      && rowCount > 0 && |offsets| == rowCount + 1
      && (forall byte :: arrayOffset <= byte < arrayOffset + (rowCount + 1) * INT32_SIZE ==> InBlock(byte, dataLength))
      && (forall i :: 0 <= i < rowCount ==> offsets[i] < offsets[i + 1])
      && 0 < offsets[0] && offsets[rowCount] < dataLength
  {
    if && rowCount > 0 && |offsets| == rowCount + 1
       && (forall byte :: arrayOffset <= byte < arrayOffset + (rowCount + 1) * INT32_SIZE ==> InBlock(byte, dataLength))
       && (forall i :: 0 <= i < rowCount ==> offsets[i] < offsets[i + 1])
       && 0 < offsets[0] && offsets[rowCount] < dataLength
    {
      var last := arrayOffset + (rowCount + 1) * INT32_SIZE - 1;
      assert InBlock(arrayOffset, dataLength) && InBlock(last, dataLength);
      forall i, j | 0 <= i < j < |offsets| ensures offsets[i] < offsets[j] { Ascend(offsets, i, j); }
    }
  }

  lemma {:induction false} Ascend(offsets: seq<int>, i: int, j: int)
    requires 0 <= i < j < |offsets| && forall k :: 0 <= k < |offsets| - 1 ==> offsets[k] < offsets[k + 1]
    ensures offsets[i] < offsets[j]
    decreases j
  {
    if i + 1 < j { Ascend(offsets, i, j - 1); }
  }

  ghost predicate InRow(offsets: seq<int>, row: int, byte: int) {
    0 <= row < |offsets| - 1 && offsets[row] <= byte < offsets[row + 1]
  }

  /** In an accepted block the rows cut up the bytes between the first and the last
      offset: each of these lies in exactly one row, and no other byte in any. */
  lemma RowsTile(arrayOffset: int, rowCount: int, offsets: seq<int>, dataLength: int, byte: int)
    requires RowsAccepted(arrayOffset, rowCount, offsets, dataLength)
    ensures offsets[0] <= byte < offsets[rowCount] <==> exists row :: InRow(offsets, row, byte)
    ensures forall a, b :: InRow(offsets, a, byte) && InRow(offsets, b, byte) ==> a == b
    ensures forall row :: InRow(offsets, row, byte) ==> 0 < byte < dataLength
  {
    if offsets[0] <= byte < offsets[rowCount] {
      var row := RowAt(offsets, byte, rowCount);
    }
    forall row | InRow(offsets, row, byte) ensures offsets[0] <= byte < offsets[rowCount] {
      assert row == 0 || offsets[0] < offsets[row];
      assert row + 1 == rowCount || offsets[row + 1] < offsets[rowCount];
    }
  }

  lemma {:induction false} RowAt(offsets: seq<int>, byte: int, n: int) returns (row: int)
    requires 0 < n < |offsets| && offsets[0] <= byte < offsets[n]
    ensures InRow(offsets, row, byte)
    decreases n
  {
    if offsets[n - 1] <= byte { row := n - 1; } else { row := RowAt(offsets, byte, n - 1); }
  }

  /** The rows stay clear of the row index if and only if they all end before it or
      all begin behind it, which the checker does not ask. */
  lemma RowsClearOfIndexIff(arrayOffset: int, rowCount: int, offsets: seq<int>, dataLength: int)
    requires RowsAccepted(arrayOffset, rowCount, offsets, dataLength)
    ensures (forall row, byte :: InRow(offsets, row, byte) ==>
               !(arrayOffset <= byte < arrayOffset + (rowCount + 1) * INT32_SIZE))
            <==> offsets[rowCount] <= arrayOffset || arrayOffset + (rowCount + 1) * INT32_SIZE <= offsets[0]
  {
    var end := arrayOffset + (rowCount + 1) * INT32_SIZE;
    forall row, byte | InRow(offsets, row, byte) ensures offsets[0] <= byte < offsets[rowCount] {
      RowsTile(arrayOffset, rowCount, offsets, dataLength, byte);
    }
    if offsets[rowCount] > arrayOffset && end > offsets[0] {
      var byte := if offsets[0] >= arrayOffset then offsets[0] else arrayOffset;
      RowsTile(arrayOffset, rowCount, offsets, dataLength, byte);
    }
  }
}
