/** One round of the bypass loader: threads scan their disks file by file and an
    atomic counter elects the one that finishes the load. */
module BypassProtocol {
  import opened BypassShares

  /** Position of a file: index of its disk, index in the directory listing. */
  datatype File = File(disk: int, index: int)

  /** A scanning thread is at a file of a disk; `busy` while it loads it. */
  datatype Thread =
    | Scanning(disk: int, index: int, failed: bool, busy: bool)
    | Idle

  datatype Result = Unscanned | Good | Bad

  /** The file is there and has to be imported. */
  predicate Wants(wanted: seq<seq<bool>>, f: File) {
    0 <= f.disk < |wanted| && 0 <= f.index < |wanted[f.disk]| && wanted[f.disk][f.index]
  }

  /** What the finishing thread saw when it called `finish_load`. */
  datatype Finish = Finish(thread: nat, disk: int, success: bool)

  /** `wanted[d][i]` says whether file i of disk d has to be imported. */
  datatype State = State(
    wanted: seq<seq<bool>>,
    shares: seq<Share>,
    threads: seq<Thread>,
    results: seq<Result>,
    count: nat,
    loadSuccess: bool,
    continueLoad: bool,
    stopping: bool,
    loaded: seq<File>,
    finishes: seq<Finish>)

  datatype Event =
    | BeginLoad(t: nat)
    | EndLoad(t: nat, ok: bool)
    | BadEntry(t: nat)
    | NoDirectory(t: nat)
    | EndScan(t: nat)
    | Stop

  ghost predicate At(s: State, t: nat) {
    && t < |s.threads| == |s.shares| && s.threads[t].Scanning?
    && 0 <= s.threads[t].disk < |s.wanted| == |s.results|
    && 0 <= s.threads[t].index <= |s.wanted[s.threads[t].disk]|
  }

  /** The thread is between two files. */
  ghost predicate Free(s: State, t: nat) {
    At(s, t) && !s.threads[t].busy
  }

  ghost predicate Enabled(s: State, e: Event) {
    match e
    case BeginLoad(t) => Free(s, t) && s.threads[t].index < |s.wanted[s.threads[t].disk]|
    case EndLoad(t, _) => At(s, t) && s.threads[t].busy && s.threads[t].index < |s.wanted[s.threads[t].disk]|
    case BadEntry(t) => Free(s, t) && s.threads[t].index < |s.wanted[s.threads[t].disk]|
    case NoDirectory(t) => Free(s, t) && s.threads[t].index == 0
    case EndScan(t) => Free(s, t) && s.threads[t].index == |s.wanted[s.threads[t].disk]|
    case Stop => true
  }

  /** The thread goes to its next disk, or is done. */
  function Onward(share: Share, d: int): Thread {
    if d + 1 < share.end then Scanning(d + 1, 0, false, false) else Idle
  }

  /** A thread's step that changes its own position only. */
  function Moved(s: State, t: nat, next: Thread): State
    requires t < |s.threads|
  {
    s.(threads := s.threads[t := next])
  }

  /** The thread takes up a wanted file while loading goes on, and passes over any
      other. */
  ghost function BeginStep(s: State, t: nat): State
    requires At(s, t) && s.threads[t].index < |s.wanted[s.threads[t].disk]|
  {
    var th := s.threads[t];
    if s.continueLoad && s.wanted[th.disk][th.index] then Moved(s, t, th.(busy := true))
    else Moved(s, t, th.(index := th.index + 1))
  }

  /** The file is loaded or not; a failure or a stop signal ends all loading. */
  ghost function LoadStep(s: State, t: nat, ok: bool): State
    requires At(s, t)
  {
    var th := s.threads[t];
    s.(threads := s.threads[t := Scanning(th.disk, th.index + 1, th.failed || !ok, false)],
       loaded := if ok then s.loaded + [File(th.disk, th.index)] else s.loaded,
       continueLoad := s.continueLoad && ok && !s.stopping)
  }

  ghost function EndStep(s: State, t: nat): State
    requires At(s, t)
  {
    var d := s.threads[t].disk;
    if s.threads[t].failed then
      s.(threads := s.threads[t := Onward(s.shares[t], d)], results := s.results[d := Bad], loadSuccess := false)
    else if s.count + 1 == |s.wanted| then
      s.(threads := s.threads[t := Idle], results := s.results[d := Good], count := s.count + 1,
         finishes := s.finishes + [Finish(t, d, s.loadSuccess)])
    else
      s.(threads := s.threads[t := Onward(s.shares[t], d)], results := s.results[d := Good], count := s.count + 1)
  }

  ghost function Apply(s: State, e: Event): State
    requires Enabled(s, e)
  {
    match e
    case BeginLoad(t) => BeginStep(s, t)
    case EndLoad(t, ok) => LoadStep(s, t, ok)
    case BadEntry(t) => Moved(s, t, s.threads[t].(index := s.threads[t].index + 1, failed := true))
    case NoDirectory(t) => Moved(s, t, Scanning(s.threads[t].disk, |s.wanted[s.threads[t].disk]|, true, false))
    case EndScan(t) => EndStep(s, t)
    case Stop => s.(stopping := true)
  }

  /** The round as `start_load` sets it up. */
  ghost predicate Init(s: State) {
    && |s.wanted| > 0 && |s.shares| > 0 && s.shares == Shares(|s.shares|, |s.wanted|)
    && |s.threads| == |s.shares| && |s.results| == |s.wanted|
    && (forall t :: 0 <= t < |s.threads| ==>
          s.threads[t] == if s.shares[t].start < s.shares[t].end then Scanning(s.shares[t].start, 0, false, false) else Idle)
    && (forall d :: 0 <= d < |s.results| ==> s.results[d] == Unscanned)
    && s.count == 0 && s.loadSuccess && s.continueLoad && !s.stopping && s.loaded == [] && s.finishes == []
  }

  // -------------------------------------------------------------- invariants

  function CountGood(r: seq<Result>): nat {
    if r == [] then 0 else CountGood(r[..|r| - 1]) + if r[|r| - 1] == Good then 1 else 0
  }

  lemma {:induction false} CountAfter(r: seq<Result>, d: int, x: Result)
    requires 0 <= d < |r| && r[d] == Unscanned
    ensures CountGood(r[d := x]) == CountGood(r) + if x == Good then 1 else 0
  {
    var last := |r| - 1;
    if d == last {
      assert r[d := x][..last] == r[..last];
    } else {
      assert r[d := x][..last] == r[..last][d := x];
      CountAfter(r[..last], d, x);
    }
  }

  lemma {:induction false} CountFull(r: seq<Result>)
    ensures CountGood(r) <= |r|
    ensures CountGood(r) == |r| <==> forall d :: 0 <= d < |r| ==> r[d] == Good
  {
    if r != [] {
      var front := r[..|r| - 1];
      CountFull(front);
      assert forall d :: 0 <= d < |front| ==> front[d] == r[d];
    }
  }

  ghost predicate Shaped(s: State) {
    && |s.wanted| > 0 && Separate(s.shares, |s.wanted|)
    && |s.threads| == |s.shares| && |s.results| == |s.wanted|
  }

  /** A scanning thread is on a disk of its own range, and busy only with a wanted
      file. */
  ghost predicate OnShare(s: State, t: nat)
    requires t < |s.threads| == |s.shares|
  {
    s.threads[t].Scanning? ==>
      && In(s.shares[t], s.threads[t].disk) && At(s, t)
      && (s.threads[t].busy ==> Wants(s.wanted, File(s.threads[t].disk, s.threads[t].index)))
  }

  /** The disks of a thread's range it has not finished are the unscanned ones. */
  ghost predicate Ahead(s: State, t: nat, d: int)
    requires t < |s.threads| == |s.shares| && 0 <= d < |s.results|
  {
    In(s.shares[t], d) ==> (s.results[d] == Unscanned <==> s.threads[t].Scanning? && s.threads[t].disk <= d)
  }

  /** Threads, results and the counter. */
  ghost predicate ScanInv(s: State) {
    && Shaped(s)
    && (forall t :: 0 <= t < |s.threads| ==> OnShare(s, t))
    && (forall t, d :: 0 <= t < |s.threads| && 0 <= d < |s.results| ==> Ahead(s, t, d))
    && s.count == CountGood(s.results)
  }

  /** The election and the success flag. */
  ghost predicate FinishInv(s: State) {
    && (s.loadSuccess <==> forall d :: 0 <= d < |s.results| ==> s.results[d] != Bad)
    && (|s.finishes| == if s.count == |s.wanted| then 1 else 0)
    && (forall k :: 0 <= k < |s.finishes| ==>
          var f := s.finishes[k];
          f.success && f.thread < |s.shares| && In(s.shares[f.thread], f.disk) && f.disk + 1 == s.shares[f.thread].end)
  }

  /** A file the scan has passed: loaded, or passed over after trouble. */
  predicate Passed(wanted: seq<seq<bool>>, continueLoad: bool, loaded: seq<File>, d: int, i: int)
    requires 0 <= d < |wanted| && 0 <= i < |wanted[d]|
  {
    wanted[d][i] && continueLoad ==> File(d, i) in loaded
  }

  ghost predicate GoodPassed(s: State, d: int)
    requires 0 <= d < |s.wanted| == |s.results|
  {
    s.results[d] == Good ==> forall i :: 0 <= i < |s.wanted[d]| ==> Passed(s.wanted, s.continueLoad, s.loaded, d, i)
  }

  ghost predicate ScanPassed(s: State, t: nat)
    requires t < |s.threads|
  {
    At(s, t) && !s.threads[t].failed ==>
      forall i :: 0 <= i < s.threads[t].index ==>
        Passed(s.wanted, s.continueLoad, s.loaded, s.threads[t].disk, i)
  }

  predicate Failing(th: Thread) { th.Scanning? && th.failed }

  /** Loading stops early only after a failure or a shutdown. */
  ghost predicate Trouble(s: State) {
    || s.stopping
    || (exists t :: 0 <= t < |s.threads| && Failing(s.threads[t]))
    || (exists d :: 0 <= d < |s.results| && s.results[d] == Bad)
  }

  /** A loaded file was wanted, and its disk is done or being scanned past it. */
  ghost predicate LoadedRight(s: State, f: File) {
    && |s.results| == |s.wanted| && |s.threads| == |s.shares|
    && Wants(s.wanted, f)
    && forall t :: 0 <= t < |s.threads| && In(s.shares[t], f.disk) && s.results[f.disk] == Unscanned ==>
         s.threads[t].Scanning? && s.threads[t].disk == f.disk && f.index < s.threads[t].index
  }

  /** What has been loaded. */
  ghost predicate LoadInv(s: State) {
    && |s.results| == |s.wanted| && |s.threads| == |s.shares|
    && (forall d :: 0 <= d < |s.results| ==> GoodPassed(s, d))
    && (forall t :: 0 <= t < |s.threads| ==> ScanPassed(s, t))
    && (s.continueLoad || Trouble(s))
    && (forall k :: 0 <= k < |s.loaded| ==> LoadedRight(s, s.loaded[k]))
    && (forall j, k :: 0 <= j < k < |s.loaded| ==> s.loaded[j] != s.loaded[k])
  }

  ghost predicate Inv(s: State) {
    ScanInv(s) && FinishInv(s) && LoadInv(s)
  }

  lemma InitInv(s: State)
    requires Init(s)
    ensures Inv(s)
  {
    SharesSeparate(|s.shares|, |s.wanted|);
    CountNone(s.results);
  }

  lemma {:induction false} CountNone(r: seq<Result>)
    requires forall d :: 0 <= d < |r| ==> r[d] == Unscanned
    ensures CountGood(r) == 0
  {
    if r != [] { CountNone(r[..|r| - 1]); }
  }
}
