/** Exactly when a run of the merge scheduler keeps its versions in order, takes a
    branch its source calls impossible, or stalls. */
module MergeExact {
  import opened MergeSections
  import opened MergeProtocol
  import opened MergeInvariant
  import opened MergeOrder
  import opened MergeTheorems

  // ------------------------------------------------------- version discipline

  /** The frozen version is the reported one or the next; above it a round is on; an
      upgrade is pending only in a round. */
  ghost predicate Disciplined(s: State) {
    var sh, serving := s.shared, Serving(s);
    && serving <= sh.frozen <= serving + 1
    && (sh.frozen > serving ==> !sh.roundEnd)
    && (sh.pendingInUpgrade ==> !sh.roundEnd)
  }

  /** The scheduler has seen a served version: at its start, or in a `schedule` call. */
  ghost predicate Noticed(r: Run, i: nat) {
    |r.states| > 0 && (r.states[0].service > 0 || exists k :: 0 <= k < i && NoticedAt(r, k))
  }

  ghost predicate NoticedAt(r: Run, k: int) {
    0 <= k < |r.events| && k < |r.states| && r.events[k].Launch? && Serving(r.states[k]) > 0
  }

  predicate Aware(s: State) {
    s.service > 0 && s.shared.frozen > 0
  }

  lemma AwareStays(s: State, e: Event)
    requires CountInv(s) && OrderInv(s) && Served(s) && Enabled(s, e)
    requires Aware(s) || (e.Launch? && Serving(s) > 0)
    ensures Aware(Apply(s, e))
  {
    if Apply(s, e).service != s.service {
      OnlyUpgradesMove(s, e);
      ServedUpgrade(s, e);
    }
  }

  lemma NoticedLater(r: Run, i: nat)
    ensures Noticed(r, i + 1) <==> Noticed(r, i) || (|r.states| > 0 && NoticedAt(r, i))
  {
  }

  lemma AwareOneMoreStep(r: Run, i: nat)
    requires IsRun(r) && i < |r.events| && CountInv(r.states[i]) && OrderInv(r.states[i]) && Served(r.states[i])
    ensures Aware(r.states[i]) || NoticedAt(r, i) ==> Aware(r.states[i + 1])
    ensures r.states[i].shared.frozen == 0 && !NoticedAt(r, i) ==> r.states[i + 1].shared.frozen == 0
  {
    assert StepOf(r, i);
    if Aware(r.states[i]) || NoticedAt(r, i) {
      AwareStays(r.states[i], r.events[i]);
    } else if !r.events[i].Launch? {
      OnlyScheduleFreezes(r.states[i], r.events[i]);
    }
  }

  /** A scheduler that has seen a served version has a frozen one; one that has not
      has none. */
  lemma {:induction false} NoticedIff(r: Run, i: nat)
    requires IsRun(r) && i < |r.states| && ServedBefore(r, i)
    ensures if Noticed(r, i) then Aware(r.states[i]) else r.states[i].shared.frozen == 0
  {
    if i > 0 {
      NoticedIff(r, i - 1);
      RunKeepsOrder(r, i - 1);
      assert Served(r.states[i - 1]);
      NoticedLater(r, i - 1);
      AwareOneMoreStep(r, i - 1);
    }
  }

  /** Versions over whole runs, with `schedule` calls at any time.  While the served
      version has a tablet, the discipline holds exactly from the moment the scheduler
      has seen it.  In the first state in which the served version is empty it holds
      exactly when the frozen version is 0, or is 1 in an open round. */
  lemma VersionDisciplineIff(r: Run, i: nat)
    requires IsRun(r) && i < |r.states| && ServedBefore(r, i)
    ensures var b := r.states[i];
      Disciplined(b) <==>
      if Served(b) then Serving(b) == 0 || Noticed(r, i)
      else b.shared.frozen == 0 || (b.shared.frozen == 1 && !b.shared.roundEnd)
  {
    RunKeepsOrder(r, i);
    NoticedIff(r, i);
  }

  /** A server that starts empty and is given its first tablet: the scheduler's frozen
      version stays behind until `schedule` is called. */
  lemma FirstTabletGoesUnseen(c: Config, n: nat, t: Tablet) returns (r: Run)
    requires n > 0 && t.version > 0
    ensures IsRun(r) && r.states[0].config == c && |r.states[0].workers| == n && |r.events| == 1
    ensures ServedBefore(r, 2) && Serving(r.states[1]) == t.version && !Disciplined(r.states[1])
  {
    var shared := Shared([], 0, 0, n + c.missing, 0, 0, true, true, false, seq(COUNTERS, _ => 0));
    var s := State(c, shared, 0, 0, map[], seq(n, _ => Top), false);
    var st := Status(true, false, false, 0);
    var a := Apply(s, SetStatus(t, st));
    assert t in a.status && a.status[t].inImage;
    r := Run([s, a], [SetStatus(t, st)]);
    assert StepOf(r, 0);
  }

  // -------------------------------------------------------------------- killing

  /** Step `k` is the last `schedule` call before `i`, and no batch was taken since. */
  ghost predicate LastSchedule(r: Run, k: int, i: nat) {
    && 0 <= k < i <= |r.events| && i < |r.states| && r.events[k].Launch?
    && forall j :: k < j < i ==> Quiet(r, j)
  }

  /** Neither a `schedule` call nor a refill. */
  ghost predicate Quiet(r: Run, j: int) {
    0 <= j < |r.events| && j < |r.states| && !r.events[j].Launch? && !Refills(r.states[j], r.events[j])
  }

  /** A tablet of the batch is older than the frozen version, unless `schedule` was
      called since the batch was taken. */
  lemma {:induction false} BatchIsOld(r: Run, i: nat, t: Tablet)
    requires IsRun(r) && i < |r.states| && t in r.states[i].shared.batch && t.version >= r.states[i].shared.frozen
    ensures exists k :: LastSchedule(r, k, i)
  {
    if i > 0 {
      var j := i - 1;
      assert StepOf(r, j);
      if r.events[j].Launch? {
        assert LastSchedule(r, j, i);
      } else {
        OnlyScheduleFreezes(r.states[j], r.events[j]);
        BatchStep(r.states[j], r.events[j]);
        assert !Pending(r.states[j], t, r.states[j].shared.frozen);
        BatchIsOld(r, j, t);
        var k :| LastSchedule(r, k, j);
        assert Quiet(r, j);
        assert LastSchedule(r, k, i);
      }
    }
  }

  lemma {:induction false} FrozenStays(r: Run, k: nat, i: nat)
    requires IsRun(r) && k < i < |r.states| && forall j :: k < j < i ==> Quiet(r, j)
    ensures r.states[i].shared.frozen == r.states[k + 1].shared.frozen
    decreases i - k
  {
    if k + 1 < i {
      assert StepOf(r, i - 1) && Quiet(r, i - 1);
      OnlyScheduleFreezes(r.states[i - 1], r.events[i - 1]);
      FrozenStays(r, k, i - 1);
    }
  }

  /** What a `schedule` call leaves as the frozen version. */
  ghost function Left(r: Run, k: int): int
    requires 0 <= k < |r.events| && k < |r.states|
  {
    Serving(r.states[k]) + if Launches(r.states[k], r.events[k]) then 1 else 0
  }

  lemma LeftIsFrozen(r: Run, k: nat)
    requires IsRun(r) && k < |r.events| && r.events[k].Launch?
    ensures r.states[k + 1].shared.frozen == Left(r, k)
  {
    assert StepOf(r, k);
  }

  /** In every run: a worker that looks at its tablet kills the process if and only if
      the last `schedule` call came after the batch was taken, and the version it found
      served, or the one it opened a round to, is below the tablet's. */
  lemma KillIff(r: Run, i: nat, w: nat)
    requires IsRun(r) && i < |r.events| && r.events[i].Examine? && r.events[i].w == w
    ensures var b := r.states[i];
      && At(b, w) && b.workers[w].Holding?
      && (Kills(b, r.events[i]) <==>
            exists k :: LastSchedule(r, k, i) && Left(r, k) < b.workers[w].tablet.version)
      && r.states[i + 1].killed == (b.killed || Kills(b, r.events[i]))
  {
    var b := r.states[i];
    assert StepOf(r, i);
    RunKeepsCounts(r, i);
    var t := b.workers[w].tablet;
    forall k | LastSchedule(r, k, i) ensures Left(r, k) == b.shared.frozen {
      LeftIsFrozen(r, k);
      FrozenStays(r, k, i);
    }
    if Kills(b, r.events[i]) {
      BatchIsOld(r, i, t);
      var k :| LastSchedule(r, k, i);
    }
  }

  // ------------------------------------------------------------ refills after the end

  /** In the first state in which the served version is empty, a request for tablets
      finds the round over exactly when the batch is used up, the round flag says so and
      there is a frozen version; before that state none does. */
  lemma RefillAfterEndIff(r: Run, i: nat)
    requires IsRun(r) && i < |r.events| && ServedBefore(r, i)
    ensures var b, sh := r.states[i], r.states[i].shared;
      RefillsAfterEnd(b, r.events[i]) <==>
      && !Served(b) && Asks(b, r.events[i])
      && sh.index == |sh.batch| == sh.haveGot && sh.roundEnd && sh.frozen > 0
  {
    RunKeepsOrder(r, i);
  }

  // --------------------------------------------------------------------- stalling

  ghost predicate OnlyAwake(ws: seq<Worker>, w: nat) {
    w < |ws| && Awake(ws[w]) && forall v :: 0 <= v < |ws| && v != w ==> !Awake(ws[v])
  }

  /** The worker leaves its loop. */
  predicate Leaves(s: State, e: Event, w: nat) {
    At(s, w) && ((e == Release(w) && s.workers[w].Releasing? && s.workers[w].leaving) || e == NextLoop(w, true))
  }

  /** The step takes the last one who could go on: the only awake worker leaves, or is
      throttled although somebody has left. */
  ghost predicate TakesLast(s: State, e: Event) {
    && s.shared.frozen > s.service
    && exists w: nat :: OnlyAwake(s.workers, w) && (Leaves(s, e, w) || (e == Throttle(w) && SomeExited(s.workers)))
  }

  lemma AwakeStays(s: State, e: Event, v: nat)
    requires Enabled(s, e) && At(s, v) && Awake(s.workers[v])
    requires e.Launch? || e.SetStatus? || e.Prepare? || e.w != v
    ensures Awake(Apply(s, e).workers[v])
  {
  }

  /** A round that is opened finds all workers parked and wakes them. */
  lemma LaunchWakes(s: State, e: Event)
    requires CountInv(s) && OrderInv(s) && Enabled(s, e) && Launches(s, e)
    ensures SomeAwake(Apply(s, e).workers)
  {
    CountZero(s.workers, IsActive);
    assert !Is(s.workers[0], IsActive);
    assert Awake(Apply(s, e).workers[0]);
  }

  /** A worker that asks for tablets in vain leaves somebody awake, or ends the round. */
  lemma AskingStallsNothing(s: State, e: Event)
    requires CountInv(s) && OrderInv(s) && Served(s) && Enabled(s, e) && (e.Fetch? || e.Resume?)
    ensures !Stalled(Apply(s, e))
  {
    if e.Fetch? {
      FetchStallsNothing(s, e.w, e.env);
    } else if s.workers[e.w].byLoad {
      assert Awake(Apply(s, e).workers[e.w]);
    } else {
      ResumeIsFetch(s, e.w, e.env);
      UpKeepsCounts(s, e.w);
      MovedKeepsAwake(s, Up(s, e.w), e.w, Fetching);
      FetchStallsNothing(Up(s, e.w), e.w, e.env);
    }
  }

  lemma FetchStallsNothing(s: State, w: nat, env: FetchEnv)
    requires CountInv(s) && OrderInv(s) && Served(s) && At(s, w) && s.workers[w].Fetching? && Answer(s, env)
    ensures !Stalled(FetchStep(s, w, env))
  {
    var n := FetchStep(s, w, env);
    if n.workers[w].Parked? && n.shared.frozen > n.service {
      if GetTablets(s.shared, s.service, env).upgraded {
        UpgradeTarget(s);
      } else {
        var h := CountWitness(s.workers, IsHolder);
        assert Awake(n.workers[h]);
      }
    } else if !n.workers[w].Parked? {
      assert Awake(n.workers[w]);
    }
  }

  lemma ThrottleStallsIff(s: State, w: nat)
    requires CountInv(s) && OrderInv(s) && Enabled(s, Throttle(w))
    ensures Stalled(Apply(s, Throttle(w))) <==> TakesLast(s, Throttle(w))
  {
    var n := Apply(s, Throttle(w));
    ActiveAreRunningOrExited(s.workers);
    CountAtLeastOne(s.workers, w, IsRunning);
    if SomeExited(s.workers) {
      var x :| 0 <= x < |s.workers| && s.workers[x].Exited?;
      CountAtLeastOne(s.workers, x, IsExited);
    }
    if Stalled(n) {
      forall v | 0 <= v < |s.workers| && v != w ensures !Awake(s.workers[v]) { assert !Awake(n.workers[v]); }
      assert OnlyAwake(s.workers, w);
      CountUpdate(s.workers, w, n.workers[w], IsActive);
      var x := CountWitness(n.workers, IsActive);
      assert s.workers[x].Exited?;
    }
  }

  lemma LeavingStallsIff(s: State, e: Event)
    requires Enabled(s, e) && (e.Release? || e.NextLoop?)
    ensures Stalled(Apply(s, e)) <==> TakesLast(s, e)
  {
    var n, w := Apply(s, e), e.w;
    if Stalled(n) {
      forall v | 0 <= v < |s.workers| && v != w ensures !Awake(s.workers[v]) { assert !Awake(n.workers[v]); }
      assert !Awake(n.workers[w]);
      assert OnlyAwake(s.workers, w) && Leaves(s, e, w);
    }
  }

  lemma OtherStepsStallNothing(s: State, e: Event)
    requires CountInv(s) && OrderInv(s) && Served(s) && Enabled(s, e) && !Stalled(s)
    requires !e.Fetch? && !e.Resume? && !e.Throttle? && !e.Release? && !e.NextLoop?
    ensures !Stalled(Apply(s, e))
  {
    var n := Apply(s, e);
    if Launches(s, e) {
      LaunchWakes(s, e);
    } else if n.shared.frozen > n.service && !e.Launch? {
      if n.service != s.service && s.service > 0 { OnlyUpgradesMove(s, e); }
      if e.SetStatus? || e.Prepare? {
        assert n.workers == s.workers;
      } else {
        assert Awake(n.workers[e.w]);
      }
    }
  }

  /** As long as the served version is not empty, a step stalls an open round if and
      only if it takes the last worker who could go on with it. */
  lemma StallStepIff(r: Run, i: nat)
    requires IsRun(r) && i < |r.events| && ServedBefore(r, i + 1) && !Stalled(r.states[i])
    ensures Stalled(r.states[i + 1]) <==> TakesLast(r.states[i], r.events[i])
  {
    var b, e := r.states[i], r.events[i];
    assert Served(b) && StepOf(r, i);
    RunKeepsOrder(r, i);
    if e.Throttle? {
      ThrottleStallsIff(b, e.w);
    } else if e.Release? || e.NextLoop? {
      LeavingStallsIff(b, e);
    } else if e.Fetch? || e.Resume? {
      AskingStallsNothing(b, e);
    } else {
      OtherStepsStallNothing(b, e);
    }
  }
}
