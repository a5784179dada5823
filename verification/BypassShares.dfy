/** How the bypass loader splits the disks among its threads. */
module BypassShares {

  /** Disk indices start..end, end excluded. */
  datatype Share = Share(start: int, end: int)

  predicate In(s: Share, d: int) { s.start <= d < s.end }

  /** The range `load_bypass_sstables` computes for one thread. */
  function ShareOf(thread: nat, threads: int, disks: nat): Share {
    if threads <= 0 then Share(0, 0)
    else if threads >= disks then
      if thread >= disks then Share(disks, disks) else Share(thread, thread + 1)
    else
      var each, rest := disks / threads, disks % threads;
      if thread < rest then Share(thread * (each + 1), (thread + 1) * (each + 1))
      else Share(rest * (each + 1) + (thread - rest) * each, rest * (each + 1) + (thread + 1 - rest) * each)
  }

  function Shares(threads: nat, disks: nat): (r: seq<Share>)
    ensures |r| == threads && forall t :: 0 <= t < threads ==> r[t] == ShareOf(t, threads, disks)
  {
    seq(threads, t requires 0 <= t < threads => ShareOf(t, threads, disks))
  }

  /** Ranges that cover 0..disks without gap or overlap. */
  ghost predicate Tile(shares: seq<Share>, disks: nat) {
    && |shares| > 0 && shares[0].start == 0 && shares[|shares| - 1].end == disks
    && (forall t :: 0 <= t < |shares| ==> shares[t].start <= shares[t].end)
    && (forall t :: 0 <= t < |shares| - 1 ==> shares[t].end == shares[t + 1].start)
  }

  /** Where the range of thread `i` begins, in closed form. */
  function Bound(i: int, each: int, rest: int): int {
    i * each + if i < rest then i else rest
  }

  lemma ShareBounds(thread: nat, threads: nat, disks: nat)
    requires thread < threads < disks
    ensures var each, rest := disks / threads, disks % threads;
      && ShareOf(thread, threads, disks) == Share(Bound(thread, each, rest), Bound(thread + 1, each, rest))
      && Bound(thread, each, rest) <= Bound(thread + 1, each, rest)
  {
    var each, rest := disks / threads, disks % threads;
    assert thread * (each + 1) == thread * each + thread;
    assert (thread + 1) * (each + 1) == (thread + 1) * each + thread + 1;
    assert rest * (each + 1) == rest * each + rest;
    assert (thread - rest) * each == thread * each - rest * each;
    assert (thread + 1 - rest) * each == (thread + 1) * each - rest * each;
    assert (thread + 1) * each == thread * each + each;
  }

  lemma LastBound(threads: nat, disks: nat)
    requires threads > 0
    ensures Bound(threads, disks / threads, disks % threads) == disks
  {
  }

  predicate IsBetween(s: Share, bounds: seq<int>, t: int) {
    0 <= t < |bounds| - 1 && s == Share(bounds[t], bounds[t + 1]) && bounds[t] <= bounds[t + 1]
  }

  /** Ranges between ascending bounds. */
  lemma BoundsTile(shares: seq<Share>, bounds: seq<int>, disks: nat)
    requires |shares| > 0 && |bounds| == |shares| + 1 && bounds[0] == 0 && bounds[|shares|] == disks
    requires forall t :: 0 <= t < |shares| ==> IsBetween(shares[t], bounds, t)
    ensures Tile(shares, disks)
  {
    assert IsBetween(shares[0], bounds, 0) && IsBetween(shares[|shares| - 1], bounds, |shares| - 1);
    forall t | 0 <= t < |shares| - 1 ensures shares[t].end == shares[t + 1].start {
      assert IsBetween(shares[t], bounds, t) && IsBetween(shares[t + 1], bounds, t + 1);
    }
  }

  /** The threads' ranges tile the disks, whatever the two counts are. */
  lemma SharesTile(threads: nat, disks: nat)
    requires threads > 0
    ensures Tile(Shares(threads, disks), disks)
  {
    if threads < disks {
      var each, rest := disks / threads, disks % threads;
      var shares, bounds := Shares(threads, disks), seq(threads + 1, i => Bound(i, each, rest));
      forall t | 0 <= t < threads ensures IsBetween(shares[t], bounds, t) {
        ShareBounds(t, threads, disks);
      }
      LastBound(threads, disks);
      BoundsTile(shares, bounds, disks);
    }
  }

  lemma {:induction false} TileOrder(shares: seq<Share>, disks: nat, t: nat, u: nat)
    requires Tile(shares, disks) && t <= u < |shares|
    ensures shares[t].start <= shares[u].start && shares[t].end <= shares[u].end
    ensures t < u ==> shares[t].end <= shares[u].start
    decreases u - t
  {
    if t < u { TileOrder(shares, disks, t + 1, u); }
  }

  lemma {:induction false} TileCovers(shares: seq<Share>, disks: nat, d: int, t: nat) returns (u: nat)
    requires Tile(shares, disks) && t < |shares| && shares[t].start <= d < disks
    ensures u < |shares| && In(shares[u], d)
    decreases |shares| - t
  {
    if d < shares[t].end { u := t; } else { u := TileCovers(shares, disks, d, t + 1); }
  }

  /** Every disk is scanned by exactly one thread. */
  lemma EveryDiskOnce(shares: seq<Share>, disks: nat, d: int)
    requires Tile(shares, disks) && 0 <= d < disks
    ensures exists t :: 0 <= t < |shares| && In(shares[t], d)
    ensures forall t, u :: 0 <= t < |shares| && 0 <= u < |shares| && In(shares[t], d) && In(shares[u], d) ==> t == u
  {
    var t := TileCovers(shares, disks, d, 0);
    forall u, v | 0 <= u < v < |shares| ensures !(In(shares[u], d) && In(shares[v], d)) {
      TileOrder(shares, disks, u, v);
    }
  }

  /** A thread's range lies inside the disk array. */
  lemma ShareInside(shares: seq<Share>, disks: nat, t: nat)
    requires Tile(shares, disks) && t < |shares|
    ensures 0 <= shares[t].start <= shares[t].end <= disks
  {
    TileOrder(shares, disks, 0, t);
    TileOrder(shares, disks, t, |shares| - 1);
  }

  /** What the threads rely on: ranges inside the array, none in common. */
  ghost predicate Separate(shares: seq<Share>, disks: nat) {
    && (forall t :: 0 <= t < |shares| ==> 0 <= shares[t].start <= shares[t].end <= disks)
    && (forall t, u, d :: 0 <= t < |shares| && 0 <= u < |shares| && In(shares[t], d) && In(shares[u], d) ==> t == u)
  }

  lemma SharesSeparate(threads: nat, disks: nat)
    requires threads > 0
    ensures Separate(Shares(threads, disks), disks)
  {
    var r := Shares(threads, disks);
    SharesTile(threads, disks);
    forall t | 0 <= t < threads ensures 0 <= r[t].start <= r[t].end <= disks { ShareInside(r, disks, t); }
    forall t, u, d | 0 <= t < threads && 0 <= u < threads && In(r[t], d) && In(r[u], d) ensures t == u {
      ShareInside(r, disks, t);
      EveryDiskOnce(r, disks, d);
    }
  }

  function Size(s: Share): int { s.end - s.start }

  /** The ranges are even: no thread has more than one disk more than another, and those
      that have more come first. */
  lemma SharesAreEven(threads: nat, disks: nat, t: nat, u: nat)
    requires t < u < threads
    ensures var r := Shares(threads, disks); Size(r[u]) <= Size(r[t]) <= Size(r[u]) + 1
  {
    if threads < disks {
      ShareBounds(t, threads, disks);
      ShareBounds(u, threads, disks);
      var each, rest := disks / threads, disks % threads;
      assert (t + 1) * each == t * each + each && (u + 1) * each == u * each + each;
    }
  }
}
