/** When exactly a worker or a `schedule` call does what, in terms of workers, tablets
    and the history of the run. */
module MergeSteps {
  import opened MergeSections
  import opened MergeProtocol
  import opened MergeInvariant
  import opened MergeTheorems
  import opened MergeRetries
  import ChunkMerge

  // ------------------------------------------------------------------ looking at a tablet

  /** A worker that looks at its tablet may merge it if and only if the tablet is not too
      new and not given up, a merger is at hand, and fewer workers than the limit are
      inside a merge on its disk; without a merger it leaves. */
  lemma AdmittedIff(r: Run, i: nat)
    requires IsRun(r) && i < |r.events| && r.events[i].Examine?
    requires At(r.states[i], r.events[i].w) && Holds(r.states[i].workers[r.events[i].w])
    ensures var b, w, look := r.states[i], r.events[i].w, r.events[i].look;
      var slot, t := b.workers[w].slot, b.workers[w].tablet;
      var tried := t.version > b.shared.frozen
                   || (StatusOf(b, t).mergeCount > b.config.retryTimes && OthersAreNewer(look.copies, t.version));
      var busy := if t.disk <= 15 then Count(b.workers, MergesOn(t.disk)) else look.stray;
      r.states[i + 1].workers == b.workers[w :=
        if tried then Releasing(slot, t, false)
        else if !look.mergerReady then Releasing(slot, t, true)
        else if busy < b.config.mergePerDisk then Admitted(slot, t)
        else Releasing(slot, t, false)]
  {
    RunKeepsCounts(r, i);
    assert StepOf(r, i);
    var b, w := r.states[i], r.events[i].w;
    ChunkMerge.NewerCopiesCounts(r.events[i].look.copies, b.workers[w].tablet.version);
  }

  // ------------------------------------------------------------------- asking for tablets

  ghost predicate NobodyHoldsAny(ws: seq<Worker>) {
    forall v :: 0 <= v < |ws| ==> !Holds(ws[v])
  }

  /** The batch is handed out and given back. */
  ghost predicate UsedUp(s: State) {
    s.shared.index == |s.shared.batch| && NobodyHoldsAny(s.workers)
  }

  lemma UsedUpIff(s: State)
    requires CountInv(s)
    ensures UsedUp(s) <==> s.shared.haveGot == |s.shared.batch|
  {
    if s.shared.haveGot == |s.shared.batch| {
      NobodyHolds(s);
    } else if UsedUp(s) && Count(s.workers, IsHolder) > 0 {
      var w := CountWitness(s.workers, IsHolder);
    }
  }

  ghost predicate NonePending(s: State) {
    forall t :: t in s.status ==> !Pending(s, t, s.shared.frozen)
  }

  /** The step finds nothing left to merge in an open round. */
  ghost predicate TriesToFinish(s: State, e: Event) {
    && Asks(s, e) && UsedUp(s) && s.shared.frozen > Serving(s) && !e.env.imageFails
    && NonePending(s) && !s.shared.roundEnd
  }

  lemma FoundNothingIff(s: State, found: seq<Tablet>)
    requires BatchOf(s, s.shared.frozen, found)
    ensures found == [] <==> NonePending(s)
  {
    if found != [] { assert Pending(s, found[0], s.shared.frozen); }
  }

  /** In every run the service is upgraded if and only if a worker asks when all tablets
      are given back and none is left to merge, in an open round, the cache can be built
      and the image does not refuse. */
  lemma UpgradeIff(r: Run, i: nat)
    requires IsRun(r) && i < |r.events|
    ensures Upgrades(r.states[i], r.events[i]) <==>
      TriesToFinish(r.states[i], r.events[i]) && r.events[i].env.cacheBuilt && CanUpgrade(r.states[i])
  {
    var b, e := r.states[i], r.events[i];
    RunKeepsCounts(r, i);
    assert StepOf(r, i);
    UsedUpIff(b);
    if Asks(b, e) { FoundNothingIff(b, e.env.found); }
  }

  /** What a request comes to: the next tablet of the batch; when the batch is used up in a
      round, the first of a fresh one, another try after a failure, or a place to sleep
      after the upgrade; and else a place to sleep. */
  lemma AskOutcome(r: Run, i: nat)
    requires IsRun(r) && i < |r.events| && Asks(r.states[i], r.events[i])
    ensures At(r.states[i + 1], r.events[i].w)
    ensures var b, e := r.states[i], r.events[i];
      var next := r.states[i + 1].workers[e.w];
      if b.shared.index < |b.shared.batch| then
        next == Holding(b.shared.index, b.shared.batch[b.shared.index])
      else if UsedUp(b) && b.shared.frozen > Serving(b) then
        if e.env.imageFails then next == Fetching
        else if !NonePending(b) then next.Holding? && next.slot == 0 && Pending(b, next.tablet, b.shared.frozen)
        else if b.shared.roundEnd || Upgrades(b, e) then next == Parked(false, false)
        else next == Fetching
      else next == Parked(false, false)
  {
    var b, e := r.states[i], r.events[i];
    RunKeepsCounts(r, i);
    assert StepOf(r, i);
    UsedUpIff(b);
    FoundNothingIff(b, e.env.found);
    if e.env.found != [] { assert Pending(b, e.env.found[0], b.shared.frozen); }
  }

  // ----------------------------------------------------------------------- the round flags

  datatype Flag = PendingInUpgrade | RoundStart | RoundEnd

  function FlagOf(s: State, f: Flag): bool {
    match f
    case PendingInUpgrade => s.shared.pendingInUpgrade
    case RoundStart => s.shared.roundStart
    case RoundEnd => s.shared.roundEnd
  }

  /** An upgrade becomes pending when a worker tries to finish the round and cannot; a round
      starts with a launch and ends with an upgrade. */
  ghost predicate Sets(s: State, e: Event, f: Flag) {
    match f
    case PendingInUpgrade => TriesToFinish(s, e) && !(e.env.cacheBuilt && CanUpgrade(s))
    case RoundStart => Launches(s, e)
    case RoundEnd => Upgrades(s, e)
  }

  /** It stops being pending with the upgrade; a round stops being fresh with its first
      batch, and being over with a launch. */
  ghost predicate Clears(s: State, e: Event, f: Flag) {
    match f
    case PendingInUpgrade => Upgrades(s, e)
    case RoundStart => Refills(s, e)
    case RoundEnd => Launches(s, e)
  }

  lemma AskMovesFlag(s: State, e: Event, f: Flag)
    requires Enabled(s, e) && Asks(s, e) && CountInv(s)
    ensures FlagOf(Apply(s, e), f) == (Sets(s, e, f) || (FlagOf(s, f) && !Clears(s, e, f)))
  {
    UsedUpIff(s);
    FoundNothingIff(s, e.env.found);
  }

  lemma OthersMoveFlag(s: State, e: Event, f: Flag)
    requires Enabled(s, e) && !Asks(s, e)
    ensures FlagOf(Apply(s, e), f) == (Sets(s, e, f) || (FlagOf(s, f) && !Clears(s, e, f)))
  {
  }

  ghost predicate SetsAt(r: Run, k: int, f: Flag) {
    0 <= k < |r.events| && k < |r.states| && Sets(r.states[k], r.events[k], f)
  }

  ghost predicate ClearsAt(r: Run, k: int, f: Flag) {
    0 <= k < |r.events| && k < |r.states| && Clears(r.states[k], r.events[k], f)
  }

  /** No step from `k` on, before `i`, has cleared the flag. */
  ghost predicate Stands(r: Run, k: int, i: nat, f: Flag) {
    forall j :: k <= j < i ==> !ClearsAt(r, j, f)
  }

  /** The flag was set before `i`, or at the start, and has not been cleared since. */
  ghost predicate SetSince(r: Run, i: nat, f: Flag) {
    || (exists k :: k < i && SetsAt(r, k, f) && Stands(r, k + 1, i, f))
    || (|r.states| > 0 && FlagOf(r.states[0], f) && Stands(r, 0, i, f))
  }

  lemma SetSinceNext(r: Run, i: nat, f: Flag)
    ensures SetSince(r, i + 1, f) <==> SetsAt(r, i, f) || (SetSince(r, i, f) && !ClearsAt(r, i, f))
  {
    if SetsAt(r, i, f) {
      assert Stands(r, i + 1, i + 1, f);
    } else if SetSince(r, i, f) && !ClearsAt(r, i, f) {
      if k :| k < i && SetsAt(r, k, f) && Stands(r, k + 1, i, f) { assert Stands(r, k + 1, i + 1, f); }
    }
    if SetSince(r, i + 1, f) && !SetsAt(r, i, f) {
      assert !ClearsAt(r, i, f);
      if k :| k < i + 1 && SetsAt(r, k, f) && Stands(r, k + 1, i + 1, f) { assert k < i && Stands(r, k + 1, i, f); }
    }
  }

  /** In every run the three round flags say what has happened: an upgrade is pending since
      a try to finish the round failed, a round is fresh since its launch, and it is over
      since the upgrade. */
  lemma {:induction false} FlagsTellHistory(r: Run, i: nat, f: Flag)
    requires IsRun(r) && i < |r.states|
    ensures FlagOf(r.states[i], f) <==> SetSince(r, i, f)
  {
    if i > 0 {
      FlagsTellHistory(r, i - 1, f);
      SetSinceNext(r, i - 1, f);
      OneMoreFlag(r, i - 1, f);
    }
  }

  lemma OneMoreFlag(r: Run, i: nat, f: Flag)
    requires IsRun(r) && i < |r.events|
    ensures FlagOf(r.states[i + 1], f) == (SetsAt(r, i, f) || (FlagOf(r.states[i], f) && !ClearsAt(r, i, f)))
  {
    RunKeepsCounts(r, i);
    assert StepOf(r, i);
    if Asks(r.states[i], r.events[i]) {
      AskMovesFlag(r.states[i], r.events[i], f);
    } else {
      OthersMoveFlag(r.states[i], r.events[i], f);
    }
  }

  // -------------------------------------------------------------------------- schedule

  /** `schedule` opens a round if and only if the version asked for is above 1 and above
      the reported one, which is not 0, every thread asked for was started and is parked,
      the interval has passed, the bypass loader rests and the round could be started. */
  lemma LaunchIff(r: Run, i: nat)
    requires IsRun(r) && i < |r.events| && r.events[i].Launch?
    ensures var b, version, env := r.states[i], r.events[i].version, r.events[i].launch;
      Launches(b, r.events[i]) <==>
      && version > 1 && Serving(b) != 0 && version > Serving(b)
      && b.config.missing == 0 && (forall w :: 0 <= w < |b.workers| ==> b.workers[w].Parked?)
      && env.intervalElapsed && env.loaderStopped && env.roundStarted
  {
    ActiveCountsRunning(r, i);
  }

  /** `schedule` was called for this version before `i`. */
  ghost predicate AskedFor(r: Run, i: nat, version: int) {
    exists k :: 0 <= k < i && k < |r.events| && r.events[k].Launch? && r.events[k].version == version
  }

  lemma AskKeepsNewest(s: State, e: Event)
    requires Enabled(s, e) && (e.Fetch? || e.Resume?)
    ensures Apply(s, e).shared.newestFrozen == s.shared.newestFrozen
  {
  }

  lemma NewestStep(r: Run, i: nat)
    requires IsRun(r) && i < |r.events|
    ensures var n, e := r.states[i].shared.newestFrozen, r.events[i];
      r.states[i + 1].shared.newestFrozen == if e.Launch? && e.version > n then e.version else n
  {
    assert StepOf(r, i);
    if r.events[i].Fetch? || r.events[i].Resume? { AskKeepsNewest(r.states[i], r.events[i]); }
  }

  /** The newest frozen version is the greatest one that `schedule` was called for, or the
      version served at the start. */
  lemma {:induction false} NewestFrozenIsGreatest(r: Run, i: nat)
    requires IsRun(r) && i < |r.states|
    ensures var n := r.states[i].shared.newestFrozen;
      && (n == r.states[0].service || AskedFor(r, i, n)) && n >= r.states[0].service
      && forall k :: 0 <= k < i && k < |r.events| && r.events[k].Launch? ==> r.events[k].version <= n
  {
    if i > 0 {
      NewestFrozenIsGreatest(r, i - 1);
      NewestStep(r, i - 1);
      var n := r.states[i].shared.newestFrozen;
      if n != r.states[i - 1].shared.newestFrozen {
        assert r.events[i - 1].version == n;
      } else if AskedFor(r, i - 1, n) {
        var k :| 0 <= k < i - 1 && k < |r.events| && r.events[k].Launch? && r.events[k].version == n;
        assert AskedFor(r, i, n);
      }
    }
  }

  // ------------------------------------------------------------------------------ load

  /** A worker asks for a tablet at once if the load is low, or if no more than the minimum
      of workers runs, has left or was never started. */
  lemma GoesOnIff(r: Run, i: nat)
    requires IsRun(r) && i < |r.events| && r.events[i].CheckLoad?
    ensures var b, w := r.states[i], r.events[i].w;
      At(b, w) && r.states[i + 1] == b.(workers := b.workers[w :=
        if r.events[i].lowLoad || Count(b.workers, IsRunning) + Count(b.workers, IsExited) + b.config.missing <= b.config.minThreads
        then Fetching else Throttled])
  {
    ActiveCountsRunning(r, i);
    assert StepOf(r, i);
  }
}
