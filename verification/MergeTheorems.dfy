/** What holds of every run of the merge scheduler, over all interleavings. */
module MergeTheorems {
  import opened MergeSections
  import opened MergeProtocol
  import opened MergeInvariant
  import opened MergeOrder

  // ------------------------------------------------------------------ upgrade

  /** The step calls `get_tablets`. */
  predicate Asks(s: State, e: Event) {
    e.Fetch? || (e.Resume? && At(s, e.w) && s.workers[e.w].Parked? && !s.workers[e.w].byLoad)
  }

  /** The step asks the image for a fresh batch. */
  ghost predicate Refills(s: State, e: Event) {
    && Asks(s, e)
    && s.shared.index >= |s.shared.batch| && s.shared.haveGot == |s.shared.batch|
    && s.shared.frozen > Serving(s)
  }

  /** The step puts the newest version into service. */
  ghost predicate Upgrades(s: State, e: Event) {
    Asks(s, e) && GetTablets(s.shared, Serving(s), e.env).upgraded
  }

  lemma AskingFreezesNothing(s: State, e: Event)
    requires Enabled(s, e) && (e.Fetch? || e.Resume?)
    ensures Apply(s, e).shared.frozen == s.shared.frozen
  {
  }

  /** Only `schedule` moves the frozen version. */
  lemma OnlyScheduleFreezes(s: State, e: Event)
    requires Enabled(s, e) && !e.Launch?
    ensures Apply(s, e).shared.frozen == s.shared.frozen
  {
    if e.Fetch? || e.Resume? { AskingFreezesNothing(s, e); }
  }

  lemma AskingTakesBatch(s: State, e: Event)
    requires Enabled(s, e) && (e.Fetch? || e.Resume?)
    ensures !Refills(s, e) ==> Apply(s, e).shared.batch == s.shared.batch
    ensures Refills(s, e) ==> Apply(s, e).shared.batch == if e.env.imageFails then [] else e.env.found
  {
  }

  /** A batch stays until a refill, which takes pending tablets. */
  lemma BatchStep(s: State, e: Event)
    requires Enabled(s, e)
    ensures !Refills(s, e) ==> Apply(s, e).shared.batch == s.shared.batch
    ensures Refills(s, e) ==> forall t :: t in Apply(s, e).shared.batch ==> Pending(s, t, s.shared.frozen)
  {
    if e.Fetch? || e.Resume? {
      AskingTakesBatch(s, e);
      forall t | t in e.env.found ensures Pending(s, t, s.shared.frozen) {
        var i :| 0 <= i < |e.env.found| && e.env.found[i] == t;
      }
    }
  }

  /** From `b` to `a` the round was finished, and rightly so. */
  ghost predicate CompleteUpgrade(b: State, a: State) {
    && (forall i :: 0 <= i < |b.workers| ==> !Holds(b.workers[i]))
    && (forall t :: t in b.status && b.status[t].inImage && t.version < b.shared.frozen ==> b.status[t].merged)
    && a.service == b.newest && a.status == b.status && a.shared.roundEnd && !a.shared.pendingInUpgrade
  }

  /** Nobody holds a tablet when everything handed out has been given back. */
  lemma NobodyHolds(s: State)
    requires CountInv(s) && s.shared.haveGot == |s.shared.batch|
    ensures forall i :: 0 <= i < |s.workers| ==> !Holds(s.workers[i])
  {
    CountZero(s.workers, IsHolder);
    forall i | 0 <= i < |s.workers| ensures !Holds(s.workers[i]) { assert !Is(s.workers[i], IsHolder); }
  }

  lemma UpgradeStep(b: State, e: Event)
    requires CountInv(b) && Enabled(b, e) && Upgrades(b, e)
    ensures CompleteUpgrade(b, Apply(b, e))
  {
    NobodyHolds(b);
    forall t | t in b.status && b.status[t].inImage && t.version < b.shared.frozen ensures b.status[t].merged {
      assert b.status[t].merged || Pending(b, t, b.shared.frozen);
    }
  }

  /** Only an upgrade moves the service from a version that has a tablet. */
  lemma OnlyUpgradesMove(b: State, e: Event)
    requires CountInv(b) && OrderInv(b) && Served(b) && b.service > 0
    requires Enabled(b, e) && Apply(b, e).service != b.service
    ensures Upgrades(b, e)
  {
    if e.FinishMerge? {
      HeldIsServed(b, e.w);
    } else if e.Prepare? {
      PreparedKeepsImage(b, e.version);
    } else if e.SetStatus? && Enters(b, e.tablet, e.st) {
      PreparedKeepsImage(b, e.tablet.version);
    }
  }

  lemma ServedUpgrade(b: State, e: Event)
    requires CountInv(b) && OrderInv(b) && Served(b) && Enabled(b, e) && Upgrades(b, e)
    ensures Apply(b, e).service == b.service + 1 == b.shared.frozen
  {
    UpgradeTarget(b);
  }

  /** A round ends only when no worker holds a tablet and every older tablet in the
      image is flagged merged.  If the served version was never empty, the service
      moves by one to the frozen version, which is then reported unless it is empty. */
  lemma UpgradeIsComplete(r: Run, i: nat)
    requires IsRun(r) && i < |r.events| && Upgrades(r.states[i], r.events[i])
    ensures CompleteUpgrade(r.states[i], r.states[i + 1])
    ensures ServedBefore(r, i + 1) ==>
      && r.states[i + 1].service == r.states[i].service + 1 == r.states[i].shared.frozen
      && (Serving(r.states[i + 1]) == r.states[i].shared.frozen <==>
            Kept(r.states[i].status, r.states[i].shared.frozen))
  {
    var b, e := r.states[i], r.events[i];
    RunKeepsCounts(r, i);
    assert StepOf(r, i);
    UpgradeStep(b, e);
    if ServedBefore(r, i + 1) {
      assert ServedBefore(r, i) && Served(b);
      RunKeepsOrder(r, i);
      ServedUpgrade(b, e);
    }
  }

  // ------------------------------------------------------------ no tablet lost

  /** The step that settles a pending tablet: its merge succeeded, it was
      discarded, or the rest of the server changed it. */
  predicate Settles(s: State, e: Event, t: Tablet) {
    || (e.SetStatus? && e.tablet == t)
    || (e.FinishMerge? && e.marked && At(s, e.w) && s.workers[e.w].Merging? && s.workers[e.w].tablet == t)
    || (e.Examine? && Discards(s, e.w, e.look, t))
  }

  /** A discard needs too many failed merges, newer copies on all other
      servers and the root server's consent. */
  predicate Discards(s: State, w: nat, look: InspectEnv, t: Tablet) {
    && At(s, w) && s.workers[w].Holding? && s.workers[w].tablet == t
    && t.version <= s.shared.frozen
    && StatusOf(s, t).mergeCount > s.config.retryTimes
    && NewerCopies(look.copies, t.version) == SAFE_COPY_COUNT - 1
    && look.rootAcknowledged
  }

  /** In the image and not merged. */
  predicate Unmerged(s: State, t: Tablet) {
    t in s.status && s.status[t].inImage && !s.status[t].merged
  }

  lemma UnmergedStays(s: State, e: Event, t: Tablet)
    requires Enabled(s, e) && Unmerged(s, t) && !Settles(s, e, t)
    ensures Unmerged(Apply(s, e), t)
  {
    if e.FinishMerge? { MergeLosesNothing(s, e, t); }
  }

  lemma MergeLosesNothing(s: State, e: Event, t: Tablet)
    requires Enabled(s, e) && e.FinishMerge? && Unmerged(s, t) && !Settles(s, e, t)
    ensures Unmerged(Apply(s, e), t)
  {
  }

  lemma UnmergedOneMoreStep(r: Run, k: nat, t: Tablet)
    requires IsRun(r) && k < |r.events| && Unmerged(r.states[k], t) && !Settles(r.states[k], r.events[k], t)
    ensures Unmerged(r.states[k + 1], t)
  {
    assert StepOf(r, k);
    UnmergedStays(r.states[k], r.events[k], t);
  }

  /** A tablet that is not merged is never lost: however the run goes on, it stays
      in the image until a step settles it. */
  lemma {:induction false} UnmergedIsNeverLost(r: Run, i: nat, j: nat, t: Tablet)
    requires IsRun(r) && i <= j < |r.states| && Unmerged(r.states[i], t)
    requires forall k :: i <= k < j ==> !Settles(r.states[k], r.events[k], t)
    ensures Unmerged(r.states[j], t)
    decreases j - i
  {
    if i < j {
      UnmergedOneMoreStep(r, i, t);
      UnmergedIsNeverLost(r, i + 1, j, t);
    }
  }

  /** `t` waits for its merge while `version` is in service. */
  predicate Waits(s: State, t: Tablet, version: int) {
    s.service == version && Pending(s, t, version + 1)
  }

  lemma WaitsOneMoreStep(r: Run, k: nat, t: Tablet, version: int)
    requires IsRun(r) && k < |r.events| && version > 0 && ServedBefore(r, k + 1)
    requires Waits(r.states[k], t, version) && !Settles(r.states[k], r.events[k], t)
    ensures Waits(r.states[k + 1], t, version)
  {
    var b, e := r.states[k], r.events[k];
    assert Served(b);
    RunKeepsOrder(r, k);
    assert StepOf(r, k);
    UnmergedStays(b, e, t);
    if Apply(b, e).service != b.service {
      OnlyUpgradesMove(b, e);
      UpgradeStep(b, e);
      ServedUpgrade(b, e);
    }
  }

  /** Nor does the service move past it, as long as the served version is not empty. */
  lemma {:induction false} PendingIsNeverLost(r: Run, i: nat, j: nat, t: Tablet, version: int)
    requires IsRun(r) && i <= j < |r.states| && version > 0 && ServedBefore(r, j)
    requires Waits(r.states[i], t, version)
    requires forall k :: i <= k < j ==> !Settles(r.states[k], r.events[k], t)
    ensures Waits(r.states[j], t, version)
    decreases j - i
  {
    if i < j {
      WaitsOneMoreStep(r, i, t, version);
      PendingIsNeverLost(r, i + 1, j, t, version);
    }
  }

  /** Step `k` settled `t`: the rest of the server changed it, or its merge went well
      and it is flagged merged, or it was discarded and is flagged merged and removed. */
  ghost predicate SettledAt(r: Run, k: int, t: Tablet) {
    && 0 <= k < |r.events| && k + 1 < |r.states| && Settles(r.states[k], r.events[k], t)
    && (!r.events[k].SetStatus? ==> StatusOf(r.states[k + 1], t).merged)
    && (r.events[k].Examine? ==> StatusOf(r.states[k + 1], t).removed)
  }

  lemma SettlingSetsFlags(s: State, e: Event, t: Tablet)
    requires Enabled(s, e) && Settles(s, e, t) && !e.SetStatus?
    ensures StatusOf(Apply(s, e), t).merged && (e.Examine? ==> StatusOf(Apply(s, e), t).removed)
  {
  }

  /** Before the service moves on, every tablet that waited was merged, discarded,
      or changed by the rest of the server. */
  lemma SettledBeforeUpgrade(r: Run, i: nat, j: nat, t: Tablet, version: int)
    requires IsRun(r) && i <= j < |r.states| && version > 0 && ServedBefore(r, j)
    requires Waits(r.states[i], t, version) && r.states[j].service != version
    ensures exists k :: i <= k < j && SettledAt(r, k, t)
  {
    if forall k :: i <= k < j ==> !Settles(r.states[k], r.events[k], t) {
      PendingIsNeverLost(r, i, j, t, version);
    } else {
      var k :| i <= k < j && Settles(r.states[k], r.events[k], t);
      assert StepOf(r, k);
      if !r.events[k].SetStatus? { SettlingSetsFlags(r.states[k], r.events[k], t); }
      assert SettledAt(r, k, t);
    }
  }

  /** A skipped or failed tablet comes back: the next batch taken from the
      image contains it, unless that batch is full. */
  lemma PendingComesBack(r: Run, i: nat, t: Tablet)
    requires IsRun(r) && i < |r.events|
    requires Pending(r.states[i], t, r.states[i].shared.frozen)
    requires Refills(r.states[i], r.events[i]) && !r.events[i].env.imageFails
    ensures var batch := r.states[i + 1].shared.batch; t in batch || |batch| == BATCH_MAX
  {
    assert StepOf(r, i);
  }

  // ----------------------------------------------------------------- no stall

  /** A round is open and nobody is left to go on with it. */
  ghost predicate Stalled(s: State) {
    s.shared.frozen > s.service && !SomeAwake(s.workers)
  }

  /** As long as the served version is not empty and no worker has left, an open
      round always has a worker that is running or has been woken. */
  lemma NoStall(r: Run, i: nat)
    requires IsRun(r) && i < |r.states| && ServedBefore(r, i) && !SomeExited(r.states[i].workers)
    ensures !Stalled(r.states[i])
  {
    RunKeepsOrder(r, i);
  }

  /** The active counter is the number of workers that run, have left or were
      never started; it is 0 exactly when all workers are parked. */
  lemma ActiveCountsRunning(r: Run, i: nat)
    requires IsRun(r) && i < |r.states|
    ensures var b := r.states[i];
      && b.shared.active == Count(b.workers, IsRunning) + Count(b.workers, IsExited) + b.config.missing
      && (b.shared.active == 0 <==> b.config.missing == 0 && forall w :: 0 <= w < |b.workers| ==> b.workers[w].Parked?)
  {
    RunKeepsCounts(r, i);
    var b := r.states[i];
    ActiveAreRunningOrExited(b.workers);
    if Count(b.workers, IsActive) == 0 {
      CountZero(b.workers, IsActive);
      assert forall w :: 0 <= w < |b.workers| ==> !Is(b.workers[w], IsActive);
    } else {
      var w := CountWitness(b.workers, IsActive);
      assert !b.workers[w].Parked?;
    }
  }

  /** Load throttling leaves a worker running if and only if there is another one,
      or the counter counts nobody who has left or was never started. */
  lemma ThrottleLeavesOneIff(r: Run, i: nat)
    requires IsRun(r) && i < |r.events| && r.events[i].Throttle?
    ensures var b, a := r.states[i], r.states[i + 1];
      Count(a.workers, IsRunning) > 0 <==>
      Count(b.workers, IsRunning) > 1 || Count(b.workers, IsExited) + b.config.missing == 0
  {
    var b, a, w := r.states[i], r.states[i + 1], r.events[i].w;
    ActiveCountsRunning(r, i);
    assert StepOf(r, i);
    CountUpdate(b.workers, w, a.workers[w], IsRunning);
    CountAtLeastOne(b.workers, w, IsRunning);
  }

  /** The step opens a round. */
  ghost predicate Launches(s: State, e: Event) {
    e.Launch? && Schedule(s.shared, Serving(s), e.version, e.launch).launched
  }

  /** A round is opened only when every thread that was asked for runs and is
      parked, so that no tablet is in hand. */
  lemma LaunchFindsAllParked(r: Run, i: nat)
    requires IsRun(r) && i < |r.events| && Launches(r.states[i], r.events[i])
    ensures var b := r.states[i];
      && b.config.missing == 0 && (forall w :: 0 <= w < |b.workers| ==> b.workers[w].Parked?)
      && b.shared.index == b.shared.haveGot && Serving(b) != 0 && r.states[i + 1].shared.frozen == Serving(b) + 1
  {
    var b := r.states[i];
    ActiveCountsRunning(r, i);
    RunKeepsCounts(r, i);
    assert StepOf(r, i);
    if Count(b.workers, IsHolder) > 0 {
      var w := CountWitness(b.workers, IsHolder);
    }
  }

  lemma {:induction false} ExitedStays(r: Run, i: nat, j: nat, w: nat)
    requires IsRun(r) && i <= j < |r.states| && At(r.states[i], w) && r.states[i].workers[w].Exited?
    ensures At(r.states[j], w) && r.states[j].workers[w].Exited?
    decreases j - i
  {
    if i < j {
      assert StepOf(r, i);
      ExitedStaysOneStep(r.states[i], r.events[i], w);
      ExitedStays(r, i + 1, j, w);
    }
  }

  lemma ExitedStaysOneStep(s: State, e: Event, w: nat)
    requires Enabled(s, e) && At(s, w) && s.workers[w].Exited?
    ensures Apply(s, e).workers[w].Exited?
  {
  }

  /** Once a worker has left, no round is ever opened again. */
  lemma NoRoundAfterExit(r: Run, i: nat, j: nat)
    requires IsRun(r) && i <= j < |r.events| && SomeExited(r.states[i].workers)
    ensures !Launches(r.states[j], r.events[j])
  {
    var w :| 0 <= w < |r.states[i].workers| && r.states[i].workers[w].Exited?;
    ExitedStays(r, i, j, w);
    if Launches(r.states[j], r.events[j]) { LaunchFindsAllParked(r, j); }
  }

  /** Nor if a thread was counted but never started: the round stays ended and no
      step upgrades the service. */
  lemma MissingThreadBlocksMerging(r: Run, i: nat)
    requires IsRun(r) && i < |r.states| && r.states[0].config.missing > 0
    ensures r.states[i].shared.active > 0 && r.states[i].shared.roundEnd
    ensures i < |r.events| ==> !Launches(r.states[i], r.events[i]) && !Upgrades(r.states[i], r.events[i])
  {
    RunKeepsCounts(r, i);
    if i < |r.events| && Launches(r.states[i], r.events[i]) { LaunchFindsAllParked(r, i); }
  }

  // --------------------------------------------------------- batch accounting

  /** The batch counters in every reachable state; no slot and no tablet is in
      two hands. */
  lemma BatchAccounting(r: Run, i: nat)
    requires IsRun(r) && i < |r.states|
    ensures var b := r.states[i]; var sh := b.shared;
      && 0 <= sh.haveGot <= sh.index <= |sh.batch| <= BATCH_MAX
      && sh.index - sh.haveGot == Count(b.workers, IsHolder)
      && (forall v, w :: 0 <= v < w < |b.workers| && Holds(b.workers[v]) && Holds(b.workers[w]) ==>
            b.workers[v].slot != b.workers[w].slot && b.workers[v].tablet != b.workers[w].tablet)
  {
    RunKeepsCounts(r, i);
  }

  /** The step hands a tablet to a worker. */
  ghost predicate HandsOut(s: State, e: Event) {
    Enabled(s, e) && (e.Fetch? || e.Resume?) && Apply(s, e).workers[e.w].Holding?
  }

  ghost function SlotGiven(s: State, e: Event): nat
    requires HandsOut(s, e)
  {
    Apply(s, e).workers[e.w].slot
  }

  lemma IndexStep(s: State, e: Event)
    requires Enabled(s, e) && !Refills(s, e)
    ensures s.shared.index <= Apply(s, e).shared.index
  {
  }

  lemma SlotStep(s: State, e: Event)
    requires HandsOut(s, e)
    ensures SlotGiven(s, e) + 1 == Apply(s, e).shared.index
    ensures !Refills(s, e) ==> SlotGiven(s, e) == s.shared.index
  {
  }

  lemma {:induction false} IndexGrows(r: Run, i: nat, j: nat)
    requires IsRun(r) && i <= j < |r.states|
    requires forall k :: i <= k < j ==> !Refills(r.states[k], r.events[k])
    ensures r.states[i].shared.index <= r.states[j].shared.index
    decreases j - i
  {
    if i < j {
      assert StepOf(r, i);
      IndexStep(r.states[i], r.events[i]);
      IndexGrows(r, i + 1, j);
    }
  }

  /** Each slot of a batch is handed out once: two hand-outs with no refill
      between them give different slots, in increasing order. */
  lemma SlotHandedOutOnce(r: Run, i: nat, j: nat)
    requires IsRun(r) && i < j < |r.events|
    requires HandsOut(r.states[i], r.events[i]) && HandsOut(r.states[j], r.events[j])
    requires forall k :: i < k <= j ==> !Refills(r.states[k], r.events[k])
    ensures SlotGiven(r.states[i], r.events[i]) < SlotGiven(r.states[j], r.events[j])
  {
    assert StepOf(r, i);
    SlotStep(r.states[i], r.events[i]);
    SlotStep(r.states[j], r.events[j]);
    IndexGrows(r, i + 1, j);
  }

  /** Each counter is the number of workers inside a merge on its disk, hence never
      negative and never above the number of workers. */
  lemma DiskCounterIsExact(r: Run, i: nat, d: nat)
    requires IsRun(r) && i < |r.states| && d < COUNTERS
    ensures var b := r.states[i];
      && |b.shared.pending| == COUNTERS
      && b.shared.pending[d] == Count(b.workers, MergesOn(d)) <= |r.states[0].workers|
  {
    RunKeepsCounts(r, i);
    CountBound(r.states[i].workers, MergesOn(d));
  }

  // -------------------------------------------------- branches called impossible

  /** A worker sends the process its signal. */
  ghost predicate Kills(s: State, e: Event) {
    && e.Examine? && At(s, e.w) && s.workers[e.w].Holding?
    && s.workers[e.w].tablet.version > s.shared.frozen
  }

  /** A refill comes when the round is over. */
  ghost predicate RefillsAfterEnd(s: State, e: Event) {
    Refills(s, e) && s.shared.roundEnd
  }

  /** Both branches the source calls impossible are, as long as the served version
      is not empty. */
  lemma ImpossibleBranches(r: Run, i: nat)
    requires IsRun(r) && i < |r.events| && ServedBefore(r, i + 1)
    ensures !Kills(r.states[i], r.events[i]) && !RefillsAfterEnd(r.states[i], r.events[i])
    ensures !r.states[i].killed
  {
    var b, e := r.states[i], r.events[i];
    assert Served(b);
    RunKeepsOrder(r, i);
    if e.Examine? && At(b, e.w) && Holds(b.workers[e.w]) { HeldIsServed(b, e.w); }
  }
}
