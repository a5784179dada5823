/** What holds of every round of the bypass loader, over all interleavings. */
module BypassTheorems {
  import opened BypassShares
  import opened BypassProtocol

  // ------------------------------------------------------------ preservation

  /** The threads, results and counter of `n` are those of `s`, except that
      thread `t` has moved on within its disk. */
  ghost predicate SameScan(s: State, n: State, t: nat) {
    && t < |s.threads| && s.threads[t].Scanning?
    && n.wanted == s.wanted && n.shares == s.shares && n.results == s.results && n.count == s.count
    && n.loadSuccess == s.loadSuccess && n.finishes == s.finishes
    && |n.threads| == |s.threads| && n.threads == s.threads[t := n.threads[t]]
    && n.threads[t].Scanning? && n.threads[t].disk == s.threads[t].disk
    && 0 <= n.threads[t].disk < |s.wanted| && 0 <= n.threads[t].index <= |s.wanted[n.threads[t].disk]|
    && (n.threads[t].busy ==> Wants(s.wanted, File(n.threads[t].disk, n.threads[t].index)))
  }

  lemma SameScanKeeps(s: State, n: State, t: nat)
    requires ScanInv(s) && FinishInv(s) && SameScan(s, n, t)
    ensures ScanInv(n) && FinishInv(n)
  {
    forall u | 0 <= u < |n.threads| ensures OnShare(n, u) { assert OnShare(s, u); }
    forall u, x | 0 <= u < |n.threads| && 0 <= x < |n.results| ensures Ahead(n, u, x) { assert Ahead(s, u, x); }
  }

  /** When the counter reaches the number of disks, every other disk has been
      scanned well, so the finishing thread is on its last one. */
  lemma LastDiskOfThread(s: State, t: nat)
    requires ScanInv(s) && At(s, t) && !s.threads[t].failed && s.count + 1 == |s.wanted|
    ensures s.threads[t].disk + 1 == s.shares[t].end
    ensures forall d :: 0 <= d < |s.results| && d != s.threads[t].disk ==> s.results[d] == Good
  {
    var d := s.threads[t].disk;
    assert OnShare(s, t) && Ahead(s, t, d);
    CountAfter(s.results, d, Good);
    CountFull(s.results[d := Good]);
    forall x | 0 <= x < |s.results| && x != d ensures s.results[x] == Good {
      assert s.results[d := Good][x] == s.results[x];
    }
    assert d + 1 < s.shares[t].end ==> Ahead(s, t, d + 1);
  }

  lemma EndPlaces(s: State, t: nat, u: nat)
    requires ScanInv(s) && At(s, t) && u < |s.threads|
    ensures OnShare(EndStep(s, t), u)
  {
    assert OnShare(s, u) && OnShare(s, t);
  }

  lemma EndAhead(s: State, t: nat, u: nat, x: int)
    requires ScanInv(s) && At(s, t) && u < |s.threads| && 0 <= x < |s.results|
    ensures Ahead(EndStep(s, t), u, x)
  {
    assert OnShare(s, t) && Ahead(s, u, x);
    if !s.threads[t].failed && s.count + 1 == |s.wanted| { LastDiskOfThread(s, t); }
  }

  lemma EndCounts(s: State, t: nat)
    requires ScanInv(s) && At(s, t)
    ensures EndStep(s, t).count == CountGood(EndStep(s, t).results)
  {
    var n, d := EndStep(s, t), s.threads[t].disk;
    assert OnShare(s, t) && Ahead(s, t, d);
    CountAfter(s.results, d, n.results[d]);
  }

  lemma EndKeepsScan(s: State, t: nat)
    requires ScanInv(s) && At(s, t)
    ensures ScanInv(EndStep(s, t))
  {
    var n := EndStep(s, t);
    EndCounts(s, t);
    forall u | 0 <= u < |n.threads| ensures OnShare(n, u) { EndPlaces(s, t, u); }
    forall u, x | 0 <= u < |n.threads| && 0 <= x < |n.results| ensures Ahead(n, u, x) { EndAhead(s, t, u, x); }
  }

  lemma EndKeepsFinish(s: State, t: nat)
    requires ScanInv(s) && FinishInv(s) && At(s, t)
    ensures FinishInv(EndStep(s, t))
  {
    var n, d := EndStep(s, t), s.threads[t].disk;
    assert OnShare(s, t) && Ahead(s, t, d);
    CountFull(s.results);
    assert s.count < |s.wanted|;
    if s.threads[t].failed {
      assert n.results[d] == Bad;
    } else {
      assert forall x :: 0 <= x < |s.results| ==> (n.results[x] == Bad <==> s.results[x] == Bad);
      if s.count + 1 == |s.wanted| { LastDiskOfThread(s, t); }
    }
  }

  /** A thread that passes a file without loading it, and rightly so. */
  lemma SkipKeepsLoad(s: State, t: nat, next: Thread)
    requires ScanInv(s) && LoadInv(s) && At(s, t)
    requires next.Scanning? && next.disk == s.threads[t].disk && s.threads[t].index <= next.index
    requires s.threads[t].failed ==> next.failed
    requires next.index <= |s.wanted[next.disk]|
    requires next.failed || (forall i :: s.threads[t].index <= i < next.index ==>
      Passed(s.wanted, s.continueLoad, s.loaded, next.disk, i))
    ensures LoadInv(Moved(s, t, next))
  {
    var n := Moved(s, t, next);
    forall d | 0 <= d < |n.results| ensures GoodPassed(n, d) { assert GoodPassed(s, d); }
    forall u | 0 <= u < |n.threads| ensures ScanPassed(n, u) {
      assert ScanPassed(s, u);
      if u != t { assert At(n, u) ==> At(s, u); }
    }
    forall k | 0 <= k < |n.loaded| ensures LoadedRight(n, n.loaded[k]) { assert LoadedRight(s, s.loaded[k]); }
    if !n.continueLoad { TroubleStays(s, n, t); }
  }

  lemma TroubleStays(s: State, n: State, t: nat)
    requires Trouble(s) && t < |s.threads| == |n.threads| && n.stopping == s.stopping && n.results == s.results
    requires forall u :: 0 <= u < |s.threads| && Failing(s.threads[u]) ==> Failing(n.threads[u])
    ensures Trouble(n)
  {
  }

  /** A file is loaded. */
  lemma LoadedKeepsLoad(s: State, t: nat)
    requires ScanInv(s) && LoadInv(s) && Enabled(s, EndLoad(t, true))
    ensures LoadInv(LoadStep(s, t, true))
  {
    var n, th := LoadStep(s, t, true), s.threads[t];
    var f := File(th.disk, th.index);
    assert OnShare(s, t) && Ahead(s, t, th.disk);
    forall d | 0 <= d < |n.results| && n.results[d] == Good ensures GoodPassed(n, d) {
      assert GoodPassed(s, d);
      forall i | 0 <= i < |n.wanted[d]| ensures Passed(n.wanted, n.continueLoad, n.loaded, d, i) {
        assert Passed(s.wanted, s.continueLoad, s.loaded, d, i);
      }
    }
    forall u | 0 <= u < |n.threads| && At(n, u) && !n.threads[u].failed ensures ScanPassed(n, u) {
      assert ScanPassed(s, u) && At(s, u);
      forall i | 0 <= i < n.threads[u].index ensures Passed(n.wanted, n.continueLoad, n.loaded, n.threads[u].disk, i) {
        if u != t || i < th.index { assert Passed(s.wanted, s.continueLoad, s.loaded, s.threads[u].disk, i); }
      }
    }
    forall k | 0 <= k < |s.loaded| ensures LoadedRight(n, s.loaded[k]) && s.loaded[k] != f {
      assert LoadedRight(s, s.loaded[k]);
    }
    assert LoadedRight(n, f);
    if !s.continueLoad { TroubleStays(s, n, t); }
  }

  /** Loading a file fails. */
  lemma FailedKeepsLoad(s: State, t: nat)
    requires ScanInv(s) && LoadInv(s) && Enabled(s, EndLoad(t, false))
    ensures LoadInv(LoadStep(s, t, false))
  {
    var n := LoadStep(s, t, false);
    forall k | 0 <= k < |n.loaded| ensures LoadedRight(n, n.loaded[k]) { assert LoadedRight(s, s.loaded[k]); }
    assert Failing(n.threads[t]);
  }

  /** A scan ends. */
  lemma EndKeepsPassed(s: State, t: nat)
    requires ScanInv(s) && LoadInv(s) && At(s, t) && s.threads[t].index == |s.wanted[s.threads[t].disk]|
    ensures var n := EndStep(s, t);
      && |n.results| == |n.wanted|
      && (forall x :: 0 <= x < |n.results| ==> GoodPassed(n, x))
      && (forall u :: 0 <= u < |n.threads| ==> ScanPassed(n, u))
  {
    var n := EndStep(s, t);
    assert OnShare(s, t) && ScanPassed(s, t);
    forall x | 0 <= x < |n.results| ensures GoodPassed(n, x) { assert GoodPassed(s, x); }
    forall u | 0 <= u < |n.threads| ensures ScanPassed(n, u) {
      assert ScanPassed(s, u);
      if u != t { assert At(n, u) ==> At(s, u); }
    }
  }

  lemma EndKeepsLoaded(s: State, t: nat, f: File)
    requires ScanInv(s) && At(s, t) && LoadedRight(s, f)
    ensures LoadedRight(EndStep(s, t), f)
  {
    assert OnShare(s, t) && Ahead(s, t, s.threads[t].disk);
  }

  lemma EndKeepsLoad(s: State, t: nat)
    requires ScanInv(s) && LoadInv(s) && At(s, t) && s.threads[t].index == |s.wanted[s.threads[t].disk]|
    ensures LoadInv(EndStep(s, t))
  {
    var n := EndStep(s, t);
    EndKeepsPassed(s, t);
    forall k | 0 <= k < |n.loaded| ensures LoadedRight(n, n.loaded[k]) { EndKeepsLoaded(s, t, s.loaded[k]); }
    if !n.continueLoad { EndKeepsTrouble(s, t); }
  }

  lemma EndKeepsTrouble(s: State, t: nat)
    requires ScanInv(s) && Trouble(s) && At(s, t)
    ensures Trouble(EndStep(s, t))
  {
    var n, d := EndStep(s, t), s.threads[t].disk;
    assert OnShare(s, t) && Ahead(s, t, d);
    if s.threads[t].failed {
      assert n.results[d] == Bad;
    } else if x :| 0 <= x < |s.results| && s.results[x] == Bad {
      assert n.results[x] == Bad;
    } else if !s.stopping {
      var u :| 0 <= u < |s.threads| && Failing(s.threads[u]);
      assert Failing(n.threads[u]);
    }
  }

  lemma LoadStepKeeps(s: State, t: nat, ok: bool)
    requires Inv(s) && Enabled(s, EndLoad(t, ok))
    ensures Inv(LoadStep(s, t, ok))
  {
    var n := LoadStep(s, t, ok);
    SameScanKeeps(s, n, t);
    if ok { LoadedKeepsLoad(s, t); } else { FailedKeepsLoad(s, t); }
  }

  lemma BeginStepKeeps(s: State, t: nat)
    requires Inv(s) && Enabled(s, BeginLoad(t))
    ensures Inv(BeginStep(s, t))
  {
    var n := BeginStep(s, t);
    SameScanKeeps(s, n, t);
    SkipKeepsLoad(s, t, n.threads[t]);
  }

  lemma FailedScanKeeps(s: State, t: nat, next: Thread)
    requires Inv(s) && At(s, t) && next.Scanning? && next.disk == s.threads[t].disk && next.failed && !next.busy
    requires s.threads[t].index <= next.index <= |s.wanted[next.disk]|
    ensures Inv(Moved(s, t, next))
  {
    SameScanKeeps(s, Moved(s, t, next), t);
    SkipKeepsLoad(s, t, next);
  }

  lemma StepKeeps(s: State, e: Event)
    requires Inv(s) && Enabled(s, e)
    ensures Inv(Apply(s, e))
  {
    match e
    case BeginLoad(t) => BeginStepKeeps(s, t);
    case EndLoad(t, ok) => LoadStepKeeps(s, t, ok);
    case BadEntry(t) => FailedScanKeeps(s, t, Apply(s, e).threads[t]);
    case NoDirectory(t) => FailedScanKeeps(s, t, Apply(s, e).threads[t]);
    case EndScan(t) =>
      EndKeepsScan(s, t);
      EndKeepsFinish(s, t);
      EndKeepsLoad(s, t);
    case Stop => StopKeeps(s);
  }

  lemma StopKeeps(s: State)
    requires Inv(s)
    ensures Inv(s.(stopping := true))
  {
    var n := s.(stopping := true);
    forall t | 0 <= t < |n.threads| ensures OnShare(n, t) && ScanPassed(n, t) {
      assert OnShare(s, t) && ScanPassed(s, t);
    }
    forall t, d | 0 <= t < |n.threads| && 0 <= d < |n.results| ensures Ahead(n, t, d) { assert Ahead(s, t, d); }
    forall d | 0 <= d < |n.results| ensures GoodPassed(n, d) { assert GoodPassed(s, d); }
    forall k | 0 <= k < |n.loaded| ensures LoadedRight(n, n.loaded[k]) { assert LoadedRight(s, s.loaded[k]); }
  }

  // -------------------------------------------------------------------- runs

  ghost predicate Next(s: State, e: Event, n: State) {
    Enabled(s, e) && n == Apply(s, e)
  }

  /** A round: the events that happened and the states they led through. */
  datatype Run = Run(states: seq<State>, events: seq<Event>)

  ghost predicate StepOf(r: Run, k: int) {
    0 <= k < |r.events| && k + 1 < |r.states| && Next(r.states[k], r.events[k], r.states[k + 1])
  }

  ghost predicate IsRun(r: Run) {
    && |r.states| == |r.events| + 1
    && Init(r.states[0])
    && forall k :: 0 <= k < |r.events| ==> StepOf(r, k)
  }

  /** What a round does not change. */
  predicate SameRound(s: State, n: State) {
    n.wanted == s.wanted && n.shares == s.shares
  }

  lemma {:induction false} RunKeeps(r: Run, i: nat)
    requires IsRun(r) && i < |r.states|
    ensures Inv(r.states[i]) && SameRound(r.states[0], r.states[i])
  {
    if i == 0 {
      InitInv(r.states[0]);
    } else {
      RunKeeps(r, i - 1);
      assert StepOf(r, i - 1);
      StepKeeps(r.states[i - 1], r.events[i - 1]);
      StepIsSameRound(r.states[i - 1], r.events[i - 1]);
    }
  }

  lemma StepIsSameRound(s: State, e: Event)
    requires Enabled(s, e)
    ensures SameRound(s, Apply(s, e))
  {
  }

  /** `finish_load` runs at most once, only after every disk was scanned well,
      finds the success flag still set, and is run by a thread on its last disk,
      so the error message after it is never written. */
  lemma FinishOnceAndRight(r: Run, i: nat)
    requires IsRun(r) && i < |r.states|
    ensures var s := r.states[i];
      && |s.finishes| <= 1
      && (|s.finishes| == 1 <==> |s.results| == |s.wanted| && forall d :: 0 <= d < |s.results| ==> s.results[d] == Good)
      && (|s.finishes| == 1 ==>
            var f := s.finishes[0];
            f.success && f.thread < |s.shares| && f.disk + 1 == s.shares[f.thread].end)
  {
    RunKeeps(r, i);
    CountFull(r.states[i].results);
  }

  ghost predicate AllIdle(s: State) {
    forall t :: 0 <= t < |s.threads| ==> s.threads[t].Idle?
  }

  /** When all threads are done, every disk has been scanned, and the load was
      finished if and only if no scan failed: after a failed scan nobody calls
      `finish_load`, and the loader goes on reporting that it is loading. */
  lemma FinishedIffNoScanFailed(r: Run, i: nat)
    requires IsRun(r) && i < |r.states| && AllIdle(r.states[i])
    ensures var s := r.states[i];
      && (forall d :: 0 <= d < |s.results| ==> s.results[d] != Unscanned)
      && (|s.finishes| == 1 <==> forall d :: 0 <= d < |s.results| ==> s.results[d] != Bad)
  {
    var s := r.states[i];
    RunKeeps(r, i);
    forall d | 0 <= d < |s.results| ensures s.results[d] != Unscanned { SomebodyScans(r, i, d); }
    FinishOnceAndRight(r, i);
  }

  lemma SomebodyScans(r: Run, i: nat, d: int)
    requires IsRun(r) && i < |r.states| && AllIdle(r.states[i]) && 0 <= d < |r.states[i].results|
    ensures r.states[i].results[d] != Unscanned
  {
    RunKeeps(r, i);
    var s := r.states[i];
    SharesTile(|s.shares|, |s.wanted|);
    var t := TileCovers(s.shares, |s.wanted|, d, 0);
    assert Ahead(s, t, d);
  }

  // ---------------------------------------------------------------- shutdown

  /** Some thread is loading the file. */
  ghost predicate InProgress(s: State, f: File) {
    exists t :: 0 <= t < |s.threads| && Loading(s.threads[t], f)
  }

  predicate Loading(th: Thread, f: File) {
    th.Scanning? && th.busy && th.disk == f.disk && th.index == f.index
  }

  predicate FailingOn(th: Thread, d: int) {
    th.Scanning? && th.failed && th.disk == d
  }

  /** The scan of the disk has failed. */
  ghost predicate Spoilt(s: State, d: int) {
    || (0 <= d < |s.results| && s.results[d] == Bad)
    || (exists t :: 0 <= t < |s.threads| && FailingOn(s.threads[t], d))
  }

  /** The file is loaded, or will be unless the scan of its disk fails. */
  ghost predicate Begun(s: State, f: File) {
    f in s.loaded || InProgress(s, f)
  }

  lemma SpoiltStays(s: State, e: Event, d: int)
    requires Inv(s) && Enabled(s, e) && Spoilt(s, d)
    ensures Spoilt(Apply(s, e), d)
  {
    var n := Apply(s, e);
    if 0 <= d < |s.results| && s.results[d] == Bad {
      if e.EndScan? { assert OnShare(s, e.t) && Ahead(s, e.t, s.threads[e.t].disk); }
      assert n.results[d] == Bad;
    } else {
      var t :| 0 <= t < |s.threads| && FailingOn(s.threads[t], d);
      assert OnShare(s, t);
      assert FailingOn(n.threads[t], d) || n.results[d] == Bad;
    }
  }

  lemma BegunStays(s: State, e: Event, f: File)
    requires Inv(s) && Enabled(s, e) && Begun(s, f)
    ensures Begun(Apply(s, e), f) || Spoilt(Apply(s, e), f.disk)
  {
    var n := Apply(s, e);
    if f !in s.loaded {
      var t :| 0 <= t < |s.threads| && Loading(s.threads[t], f);
      assert OnShare(s, t);
      assert Loading(n.threads[t], f) || (e == EndLoad(t, true) && f in n.loaded) || FailingOn(n.threads[t], f.disk);
    }
  }

  /** A file nobody has begun when loading has ended is never loaded. */
  lemma UnbegunStays(s: State, e: Event, f: File)
    requires Enabled(s, e) && !s.continueLoad && !Begun(s, f)
    ensures !Apply(s, e).continueLoad && !Begun(Apply(s, e), f)
  {
    var n := Apply(s, e);
    forall t | 0 <= t < |n.threads| ensures !Loading(n.threads[t], f) {
      assert !Loading(s.threads[t], f);
    }
    if e.EndLoad? { assert !Loading(s.threads[e.t], f); }
  }

  lemma {:induction false} BegunToTheEnd(r: Run, k: nat, i: nat, f: File)
    requires IsRun(r) && k <= i < |r.states| && (Begun(r.states[k], f) || Spoilt(r.states[k], f.disk))
    ensures Begun(r.states[i], f) || Spoilt(r.states[i], f.disk)
    decreases i - k
  {
    if k < i {
      RunKeeps(r, k);
      assert StepOf(r, k);
      if Begun(r.states[k], f) {
        BegunStays(r.states[k], r.events[k], f);
      } else {
        SpoiltStays(r.states[k], r.events[k], f.disk);
      }
      BegunToTheEnd(r, k + 1, i, f);
    }
  }

  lemma {:induction false} UnbegunToTheEnd(r: Run, k: nat, i: nat, f: File)
    requires IsRun(r) && k <= i < |r.states| && !r.states[k].continueLoad && !Begun(r.states[k], f)
    ensures !Begun(r.states[i], f)
    decreases i - k
  {
    if k < i {
      assert StepOf(r, k);
      UnbegunStays(r.states[k], r.events[k], f);
      UnbegunToTheEnd(r, k + 1, i, f);
    }
  }

  /** When all disks are scanned well no thread is at work and nothing has failed. */
  lemma AllQuiet(s: State)
    requires ScanInv(s) && forall d :: 0 <= d < |s.results| ==> s.results[d] == Good
    ensures forall t :: 0 <= t < |s.threads| ==> s.threads[t].Idle?
    ensures forall d :: !Spoilt(s, d)
  {
    forall t | 0 <= t < |s.threads| ensures s.threads[t].Idle? {
      assert OnShare(s, t);
      assert s.threads[t].Scanning? ==> Ahead(s, t, s.threads[t].disk);
    }
  }

  ghost predicate Finished(r: Run, i: nat) {
    IsRun(r) && i < |r.states| && |r.states[i].finishes| == 1
  }

  ghost predicate AllLoaded(s: State) {
    forall f :: Wants(s.wanted, f) ==> f in s.loaded
  }

  ghost predicate AllBegun(s: State) {
    forall f :: Wants(s.wanted, f) ==> Begun(s, f)
  }

  /** The step ends all loading. */
  ghost predicate Closes(r: Run, k: nat) {
    k + 1 < |r.states| && r.states[k].continueLoad && !r.states[k + 1].continueLoad
  }

  /** What is loaded at the finish was wanted, and was loaded once. */
  lemma FinishedLoadsNothingElse(r: Run, i: nat)
    requires Finished(r, i)
    ensures var s := r.states[i];
      && (forall f :: f in s.loaded ==> Wants(s.wanted, f))
      && (forall j, k :: 0 <= j < k < |s.loaded| ==> s.loaded[j] != s.loaded[k])
  {
    RunKeeps(r, i);
    forall f | f in r.states[i].loaded ensures Wants(r.states[i].wanted, f) {
      var k :| 0 <= k < |r.states[i].loaded| && r.states[i].loaded[k] == f;
      assert LoadedRight(r.states[i], r.states[i].loaded[k]);
    }
  }

  lemma OpenToTheEnd(r: Run, i: nat)
    requires Finished(r, i) && r.states[i].continueLoad
    ensures AllLoaded(r.states[i])
  {
    var s := r.states[i];
    RunKeeps(r, i);
    FinishOnceAndRight(r, i);
    forall f | Wants(s.wanted, f) ensures f in s.loaded {
      assert GoodPassed(s, f.disk) && Passed(s.wanted, s.continueLoad, s.loaded, f.disk, f.index);
    }
  }

  /** Before a finish, loading ends only because a stop signal came. */
  lemma ClosedByStop(r: Run, k: nat, i: nat)
    requires Finished(r, i) && k < i && Closes(r, k)
    ensures r.states[k].stopping && r.events[k].EndLoad? && r.events[k].ok
  {
    assert StepOf(r, k);
    var e := r.events[k];
    if e.EndLoad? && !e.ok {
      var d := r.states[k].threads[e.t].disk;
      assert FailingOn(r.states[k + 1].threads[e.t], d);
      SpoiltToTheEnd(r, k + 1, i, d);
      RunKeeps(r, i);
      FinishOnceAndRight(r, i);
      AllQuiet(r.states[i]);
    }
  }

  lemma {:induction false} SpoiltToTheEnd(r: Run, k: nat, i: nat, d: int)
    requires IsRun(r) && k <= i < |r.states| && Spoilt(r.states[k], d)
    ensures Spoilt(r.states[i], d)
    decreases i - k
  {
    if k < i {
      RunKeeps(r, k);
      assert StepOf(r, k);
      SpoiltStays(r.states[k], r.events[k], d);
      SpoiltToTheEnd(r, k + 1, i, d);
    }
  }

  lemma {:induction false} ClosingStep(r: Run, i: nat) returns (k: nat)
    requires IsRun(r) && i < |r.states| && !r.states[i].continueLoad
    ensures k < i && Closes(r, k)
    decreases i
  {
    if r.states[i - 1].continueLoad { k := i - 1; } else { k := ClosingStep(r, i - 1); }
  }

  lemma LoadedIffBegun(r: Run, k: nat, i: nat)
    requires Finished(r, i) && k < i && Closes(r, k)
    ensures AllLoaded(r.states[i]) <==> AllBegun(r.states[k + 1])
  {
    var s, c := r.states[i], r.states[k + 1];
    RunKeeps(r, i);
    RunKeeps(r, k + 1);
    FinishOnceAndRight(r, i);
    AllQuiet(s);
    forall f | Wants(s.wanted, f) ensures f in s.loaded <==> Begun(c, f) {
      if Begun(c, f) { BegunToTheEnd(r, k + 1, i, f); } else { UnbegunToTheEnd(r, k + 1, i, f); }
    }
  }

  /** A finished load has all its files if and only if a stop signal, if one came, came
      late: when the first load after it ended, every wanted file had been begun. */
  lemma FinishedLoadIsCompleteIff(r: Run, i: nat)
    requires Finished(r, i)
    ensures AllLoaded(r.states[i]) <==> forall k: nat :: k < i && Closes(r, k) ==> AllBegun(r.states[k + 1])
    ensures !r.states[i].continueLoad ==> r.states[i].stopping
  {
    if r.states[i].continueLoad {
      OpenToTheEnd(r, i);
      forall k: nat | k < i && Closes(r, k) ensures AllBegun(r.states[k + 1]) {
        LoadedIffBegun(r, k, i);
      }
    } else {
      var k := ClosingStep(r, i);
      LoadedIffBegun(r, k, i);
      ClosedByStop(r, k, i);
      StoppingStays(r, k, i);
      forall j: nat | j < i && Closes(r, j) ensures AllLoaded(r.states[i]) <==> AllBegun(r.states[j + 1]) {
        LoadedIffBegun(r, j, i);
      }
    }
  }

  lemma {:induction false} StoppingStays(r: Run, k: nat, i: nat)
    requires IsRun(r) && k <= i < |r.states| && r.states[k].stopping
    ensures r.states[i].stopping
    decreases i - k
  {
    if k < i {
      assert StepOf(r, k);
      StoppingStays(r, k + 1, i);
    }
  }

  /** One disk, two wanted files: a stop signal during the first makes the loader pass
      over the second, call the scan a success and finish the load without it. */
  lemma ShutdownSkipsFiles() returns (r: Run)
    ensures Finished(r, 5) && r.states[5].wanted == [[true, true]] && r.states[5].loaded == [File(0, 0)]
  {
    var s0 := State([[true, true]], Shares(1, 1), [Scanning(0, 0, false, false)], [Unscanned], 0, true, true, false, [], []);
    assert Init(s0);
    var s1 := BeginStep(s0, 0);
    assert s1.threads[0] == Scanning(0, 0, false, true);
    var s2 := s1.(stopping := true);
    var s3 := LoadStep(s2, 0, true);
    assert s3.threads[0] == Scanning(0, 1, false, false) && s3.loaded == [File(0, 0)];
    var s4 := BeginStep(s3, 0);
    assert s4.threads[0] == Scanning(0, 2, false, false) && |s4.wanted[0]| == 2;
    var s5 := EndStep(s4, 0);
    var es := [BeginLoad(0), Stop, EndLoad(0, true), BeginLoad(0), EndScan(0)];
    r := Run([s0, s1, s2, s3, s4, s5], es);
    assert Next(s0, es[0], s1) && Next(s1, es[1], s2) && Next(s2, es[2], s3) && Next(s3, es[3], s4) && Next(s4, es[4], s5);
    assert StepOf(r, 0) && StepOf(r, 1) && StepOf(r, 2) && StepOf(r, 3) && StepOf(r, 4);
  }

  /** Two disks with one wanted file each, and two threads. */
  function Pair(threads: seq<Thread>, stopping: bool, continueLoad: bool, loaded: seq<File>): State {
    State([[true], [true]], Shares(2, 2), threads, [Unscanned, Unscanned], 0, true, continueLoad, stopping, loaded, [])
  }

  const BOTH_BUSY := [Scanning(0, 0, false, true), Scanning(1, 0, false, true)]
  const BOTH_DONE := [Scanning(0, 1, false, false), Scanning(1, 1, false, false)]
  const ONE_BUSY := [Scanning(0, 1, false, false), Scanning(1, 0, false, true)]

  lemma PairBegins()
    ensures var s0 := Pair([Scanning(0, 0, false, false), Scanning(1, 0, false, false)], false, true, []);
      var s1 := Pair([Scanning(0, 0, false, true), Scanning(1, 0, false, false)], false, true, []);
      Init(s0) && Next(s0, BeginLoad(0), s1) && Next(s1, BeginLoad(1), Pair(BOTH_BUSY, false, true, []))
  {
  }

  lemma PairLoads()
    ensures var s3, s4 := Pair(BOTH_BUSY, true, true, []), Pair(ONE_BUSY, true, false, [File(0, 0)]);
      && Next(s3, EndLoad(0, true), s4)
      && Next(s4, EndLoad(1, true), Pair(BOTH_DONE, true, false, [File(0, 0), File(1, 0)]))
  {
  }

  lemma PairEnds() returns (s6: State, s7: State)
    ensures var s5 := Pair(BOTH_DONE, true, false, [File(0, 0), File(1, 0)]);
      Next(s5, EndScan(0), s6) && Next(s6, EndScan(1), s7)
    ensures |s7.finishes| == 1 && s7.loaded == [File(0, 0), File(1, 0)] && s7.wanted == [[true], [true]]
  {
    s6 := EndStep(Pair(BOTH_DONE, true, false, [File(0, 0), File(1, 0)]), 0);
    s7 := EndStep(s6, 1);
  }

  /** A stop signal while both files are being loaded loses neither. */
  lemma ShutdownMayLoseNothing() returns (r: Run)
    ensures Finished(r, 7) && r.events[2] == Stop && r.states[2].loaded == []
    ensures Closes(r, 3) && AllBegun(r.states[4]) && AllLoaded(r.states[7])
  {
    var s6, s7 := PairEnds();
    PairBegins();
    PairLoads();
    var s2, s4 := Pair(BOTH_BUSY, false, true, []), Pair(ONE_BUSY, true, false, [File(0, 0)]);
    r := Run([Pair([Scanning(0, 0, false, false), Scanning(1, 0, false, false)], false, true, []),
              Pair([Scanning(0, 0, false, true), Scanning(1, 0, false, false)], false, true, []),
              s2, Pair(BOTH_BUSY, true, true, []), s4,
              Pair(BOTH_DONE, true, false, [File(0, 0), File(1, 0)]), s6, s7],
             [BeginLoad(0), BeginLoad(1), Stop, EndLoad(0, true), EndLoad(1, true), EndScan(0), EndScan(1)]);
    assert StepOf(r, 0) && StepOf(r, 1) && StepOf(r, 2) && StepOf(r, 3) && StepOf(r, 4) && StepOf(r, 5) && StepOf(r, 6);
    assert Loading(s4.threads[1], File(1, 0));
  }

  // ----------------------------------------------------------------- what has happened

  /** Step `k` spoils the scan of disk `d`: a file cannot be loaded, an entry cannot be read,
      or there is no directory. */
  ghost predicate FailsOn(r: Run, k: int, d: int) {
    && 0 <= k < |r.events| && k < |r.states|
    && match r.events[k]
       case EndLoad(t, ok) => !ok && At(r.states[k], t) && r.states[k].threads[t].disk == d
       case BadEntry(t) => At(r.states[k], t) && r.states[k].threads[t].disk == d
       case NoDirectory(t) => At(r.states[k], t) && r.states[k].threads[t].disk == d
       case _ => false
  }

  lemma FailingSpoils(r: Run, k: nat, d: int)
    requires IsRun(r) && k < |r.events| && FailsOn(r, k, d)
    ensures Spoilt(r.states[k + 1], d)
  {
    assert StepOf(r, k);
    assert FailingOn(r.states[k + 1].threads[r.events[k].t], d);
  }

  lemma NewlySpoilt(r: Run, k: nat, d: int)
    requires IsRun(r) && k < |r.events| && Spoilt(r.states[k + 1], d) && !Spoilt(r.states[k], d)
    ensures FailsOn(r, k, d)
  {
    assert StepOf(r, k);
    var s, n := r.states[k], r.states[k + 1];
    if 0 <= d < |n.results| && n.results[d] == Bad {
      assert !FailingOn(s.threads[r.events[k].t], d);
    } else {
      var t :| 0 <= t < |n.threads| && FailingOn(n.threads[t], d);
      assert !FailingOn(s.threads[t], d);
    }
  }

  /** The scan of a disk has failed if and only if one of its steps has. */
  lemma {:induction false} SpoiltIff(r: Run, i: nat, d: int)
    requires IsRun(r) && i < |r.states|
    ensures Spoilt(r.states[i], d) <==> exists k :: k < i && FailsOn(r, k, d)
  {
    if i > 0 {
      SpoiltIff(r, i - 1, d);
      RunKeeps(r, i - 1);
      assert StepOf(r, i - 1);
      if FailsOn(r, i - 1, d) {
        FailingSpoils(r, i - 1, d);
      } else if Spoilt(r.states[i - 1], d) {
        SpoiltStays(r.states[i - 1], r.events[i - 1], d);
      } else if Spoilt(r.states[i], d) {
        NewlySpoilt(r, i - 1, d);
      }
    }
  }

  /** Step `k` ends the load of `f` well. */
  ghost predicate LoadsAt(r: Run, k: int, f: File) {
    && 0 <= k < |r.events| && k < |r.states| && r.events[k].EndLoad? && r.events[k].ok
    && At(r.states[k], r.events[k].t)
    && r.states[k].threads[r.events[k].t].disk == f.disk && r.states[k].threads[r.events[k].t].index == f.index
  }

  /** A file is loaded if and only if a load of it has ended well. */
  lemma {:induction false} LoadedIff(r: Run, i: nat, f: File)
    requires IsRun(r) && i < |r.states|
    ensures f in r.states[i].loaded <==> exists k :: k < i && LoadsAt(r, k, f)
  {
    if i > 0 {
      LoadedIff(r, i - 1, f);
      assert StepOf(r, i - 1);
      assert f in r.states[i].loaded <==> f in r.states[i - 1].loaded || LoadsAt(r, i - 1, f);
    }
  }

  /** Step `k` ends a load badly, or at all after a stop signal. */
  ghost predicate StopsLoading(r: Run, k: int) {
    0 <= k < |r.events| && k < |r.states| && r.events[k].EndLoad? && (!r.events[k].ok || r.states[k].stopping)
  }

  /** Loading goes on until a load fails, or one ends after a stop signal, and no longer. */
  lemma {:induction false} LoadingStopsIff(r: Run, i: nat)
    requires IsRun(r) && i < |r.states|
    ensures !r.states[i].continueLoad <==> exists k :: k < i && StopsLoading(r, k)
  {
    if i > 0 {
      LoadingStopsIff(r, i - 1);
      assert StepOf(r, i - 1);
      assert !r.states[i].continueLoad <==> !r.states[i - 1].continueLoad || StopsLoading(r, i - 1);
    }
  }
}
