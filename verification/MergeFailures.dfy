/** Runs of the merge scheduler that take the branches its source calls impossible,
    that its workers cannot bring to an end, that park its last worker, and that an
    unlocked step would spoil. */
module MergeFailures {
  import opened MergeSections
  import opened MergeProtocol
  import opened MergeInvariant
  import opened MergeOrder
  import opened MergeTheorems
  import opened MergeExact
  import opened MergeProgress
  import opened MergeLimits
  import opened MergePaths

  // --------------------------------------------------- the served version empties

  const GONE := Status(false, false, false, 0)
  const SCHEDULE := Launch(3, LaunchEnv(true, true, true))

  /** The only tablet is removed while a worker holds it, and then `schedule` is
      called: the worker finds its tablet newer than the frozen version. */
  lemma RemovalKills(c: Config, n: nat) returns (longer: Run)
    requires 0 < n <= MAX_MERGE_THREAD && c.missing == 0 && c.mergePerDisk >= 1
    ensures RunOf(longer, c, n) && Final(longer).killed
  {
    var h, t := OneHeld(c, n), T(1, 0);
    SceneIsReached(Stage(c, n, 1, 1), 2, n);
    var r :| Leads(r, Scene(Stage(c, n, 1, 1), 0, 0), h);
    assert h.workers[0] == Holding(0, t);
    var s1 := Apply(h, SetStatus(t, GONE));
    assert !Kept(s1.status, 1) && Serving(s1) == 0;
    var r1 := Longer(r, SetStatus(t, GONE));
    LongerIsPath(r, SetStatus(t, GONE));
    var s2 := Apply(s1, SCHEDULE);
    assert s2.shared.frozen == 0 && s2.workers == h.workers;
    var r2 := Longer(r1, SCHEDULE);
    LongerIsPath(r1, SCHEDULE);
    longer := Longer(r2, Examine(0, ADMITTED));
    LongerIsPath(r2, Examine(0, ADMITTED));
  }

  // ------------------------------------------------------- the new version is empty

  /** One tablet, taken by the first worker; the others were woken and have not asked
      yet.  Its table was dropped: the merge succeeds and makes nothing, and the worker
      comes back for more. */
  ghost function MergedAway(c: Config, n: nat): State
    requires n > 0
  {
    var h := Scene(Stage(c, n, 1, 1), 2, 1);
    h.(workers := h.workers[0 := Fetching], shared := h.shared.(haveGot := 1),
       status := h.status[T(1, 0) := Status(true, true, false, 1)])
  }

  lemma MergedAwayIsServed(c: Config, n: nat)
    requires n > 0
    ensures Serving(MergedAway(c, n)) == 1 && CanUpgrade(MergedAway(c, n))
    ensures BatchOf(MergedAway(c, n), 2, [])
  {
    var s := MergedAway(c, n);
    assert T(1, 0) in s.status && s.status[T(1, 0)].inImage;
    assert forall t :: t in s.status ==> t == T(1, 0);
  }

  lemma MergedAwayIsReached(c: Config, n: nat)
    requires 0 < n <= MAX_MERGE_THREAD && c.missing == 0 && c.mergePerDisk >= 1
    ensures Goes(Scene(Stage(c, n, 1, 1), 0, 0), MergedAway(c, n))
  {
    var g, h, t := Stage(c, n, 1, 1), Scene(Stage(c, n, 1, 1), 2, 1), T(1, 0);
    var s0 := Scene(g, 0, 0);
    SceneIsReached(g, 2, 1);
    SceneImage(g, 2, 1);
    MergedAwayIsServed(c, n);
    IsAdmitted(s0, h, 0);
    var s1 := Moved(h, 0, Admitted(0, t));
    MergesAndReturns(s0, s1, 0, true);
    MovedTwice(h, 0, Admitted(0, t), Returned);
    var s2 := Noted(Moved(h, 0, Returned), t, true).(shared := h.shared.(haveGot := 1));
    Loops(s0, s2, 0);
    ChecksLoad(s0, Moved(s2, 0, Top), 0, true);
    assert h.workers[0 := Returned][0 := Top][0 := Fetching] == h.workers[0 := Fetching];
  }

  const EMPTY_BATCH := FetchEnv(false, [], true, true)

  /** The round is over, in a version without tablets, and another worker is about to ask. */
  ghost predicate EndedEmpty(a: State) {
    && |a.workers| > 1 && a.workers[1] == Parked(false, true) && |a.shared.pending| == COUNTERS
    && a.shared.batch == [] && a.shared.index == 0 == a.shared.haveGot
    && a.shared.roundEnd && a.shared.frozen == 2 && a.newest == 2
    && !Kept(a.status, 2) && Serving(a) == 0 && BatchOf(a, 2, [])
  }

  lemma EmptyFetch(c: Config, n: nat)
    requires n > 1
    ensures var s, e := MergedAway(c, n), Fetch(0, EMPTY_BATCH);
      Enabled(s, e) && Upgrades(s, e) && EndedEmpty(Apply(s, e)) && !Disciplined(Apply(s, e))
  {
    var s := MergedAway(c, n);
    MergedAwayIsServed(c, n);
    var a := Apply(s, Fetch(0, EMPTY_BATCH));
    assert forall t :: t in a.status ==> t == T(1, 0);
    assert a.status == s.status && a.service == 2;
    assert forall t :: Pending(a, t, 2) <==> Pending(s, t, 2);
  }

  lemma EmptyRefill(a: State)
    requires EndedEmpty(a)
    ensures Enabled(a, Resume(1, EMPTY_BATCH)) && RefillsAfterEnd(a, Resume(1, EMPTY_BATCH))
  {
  }

  /** The round ends with an upgrade to a version without tablets: the version
      discipline breaks, and the next worker's refill finds the round over. */
  lemma EmptyUpgrade(c: Config, n: nat) returns (longer: Run)
    requires 1 < n <= MAX_MERGE_THREAD && c.missing == 0 && c.mergePerDisk >= 1
    ensures RunOf(longer, c, n) && |longer.events| >= 2 && AllUnaided(longer)
    ensures Upgrades(longer.states[|longer.events| - 2], longer.events[|longer.events| - 2])
    ensures !Disciplined(longer.states[|longer.events| - 1])
    ensures RefillsAfterEnd(longer.states[|longer.events| - 1], longer.events[|longer.events| - 1])
  {
    MergedAwayIsReached(c, n);
    var r :| Leads(r, Scene(Stage(c, n, 1, 1), 0, 0), MergedAway(c, n));
    EmptyFetch(c, n);
    EmptyRefill(Apply(MergedAway(c, n), Fetch(0, EMPTY_BATCH)));
    SceneIsReached(Stage(c, n, 1, 1), 0, 0);
    longer := LongerTwice(r, Scene(Stage(c, n, 1, 1), 0, 0), MergedAway(c, n), Fetch(0, EMPTY_BATCH), Resume(1, EMPTY_BATCH));
  }

  // ------------------------------------------------------------------- the corner

  /** In the same state, before the worker asks, the image is prepared for a tablet of
      the served version: the empty next version is no longer the newest. */
  ghost function Corner(c: Config, n: nat): State
    requires n > 0
  {
    MergedAway(c, n).(newest := 1)
  }

  lemma CornerIsNext(c: Config, n: nat)
    requires n > 0
    ensures Next(MergedAway(c, n), Prepare(1), Corner(c, n)) && Serving(Corner(c, n)) == 1 && !Hopeful(Corner(c, n))
  {
    var s := MergedAway(c, n);
    MergedAwayIsServed(c, n);
    assert forall t :: t in s.status ==> t == T(1, 0);
    assert Evicted(s.status, 1) == s.status;
  }

  /** The corner: a run reaches an open round with all its workers that they can never
      end.  The image refuses to upgrade, and nothing is left to merge. */
  lemma CornerIsReached(c: Config, n: nat) returns (r: Run)
    requires 0 < n <= MAX_MERGE_THREAD && c.missing == 0 && c.mergePerDisk >= 1
    ensures RunOf(r, c, n) && Final(r) == Corner(c, n) && Live(Final(r)) && !Hopeful(Final(r))
    ensures !exists b :: Works(Final(r), b) && CanEnd(b)
  {
    MergedAwayIsReached(c, n);
    SceneIsReached(Stage(c, n, 1, 1), 0, 0);
    var r0 :| Leads(r0, Scene(Stage(c, n, 1, 1), 0, 0), MergedAway(c, n));
    CornerIsNext(c, n);
    r := Longer(r0, Prepare(1));
    LongerIsPath(r0, Prepare(1));
    RunKeepsOrder(r, |r.events|);
    assert Live(Final(r));
    RoundCanEndIff(Final(r));
  }

  // --------------------------------------------------- the last worker is parked

  /** Two workers, two tablets: one worker gets no merger and leaves, the other fails
      its merge and is then throttled, although it is the last one running. */
  lemma ThrottleParksLast() returns (last: State)
    ensures var g := Stage(Config(0, 1, 3, 2), 2, 2, 1);
      Init(Scene(g, 0, 0)) && Goes(Scene(g, 0, 0), last)
    ensures last.workers == [Exited, Parked(true, false)] && Stalled(last) && last.shared.active == 1
    ensures Pending(last, T(1, 0), 2) && Pending(last, T(1, 1), 2)
  {
    var g := Stage(Config(0, 1, 3, 2), 2, 2, 1);
    var h, t, u := Scene(g, 2, 2), T(1, 0), T(1, 1);
    SceneIsReached(g, 2, 2);
    SceneImage(g, 2, 2);
    assert h.workers == [Holding(0, t), Holding(1, u)];
    assert t == Tablets(1, 2)[0] && u == Tablets(1, 2)[1];
    assert t in h.status && u in h.status;
    var s0 := Scene(g, 0, 0);
    GetsNoMerger(s0, h, 0);
    var s1 := Moved(h, 0, Releasing(0, t, true));
    GivesBack(s0, s1, 0);
    var s2 := GivenBack(s1, 0);
    IsAdmitted(s0, s2, 1);
    var s3 := Moved(s2, 1, Admitted(1, u));
    MergesAndReturns(s0, s3, 1, false);
    var s4 := Noted(Moved(s3, 1, Returned), u, false).(shared := s3.shared.(haveGot := 2));
    Loops(s0, s4, 1);
    var s5 := Moved(s4, 1, Top);
    ChecksLoad(s0, s5, 1, false);
    var s6 := Moved(s5, 1, Throttled);
    IsThrottled(s0, s6, 1);
    last := ThrottledOff(s6, 1);
  }

  // ------------------------------------------------------------ the unlocked reset

  /** Why `schedule` has to be one step: it resets the frozen version to the
      serving one before anything else.  If that reset fell between the version
      test of `get_tablets` and its request to the image, the image would be
      asked for tablets older than the serving version, could truthfully return
      none, and the service would be upgraded past a tablet nobody merged.  This
      state of a run shows it. */
  lemma ResetInsideFetchUpgradesTooEarly(c: Config, n: nat)
    requires 0 < n <= MAX_MERGE_THREAD && c.missing == 0 && c.mergePerDisk >= 1
    ensures var s, b := Scene(Stage(c, n, 1, 1), 0, 0), Scene(Stage(c, n, 1, 1), 2, 0);
      && Init(s) && Goes(s, b) && Pending(b, T(1, 0), b.service + 1)
      && BatchOf(b, b.service, []) && CanUpgrade(b)
      && GetTablets(b.shared, Serving(b), FetchEnv(false, [], true, CanUpgrade(b))).upgraded
  {
    var g := Stage(c, n, 1, 1);
    SceneIsReached(g, 2, 0);
    SceneImage(g, 2, 0);
    assert T(1, 0) == Tablets(1, 1)[0];
  }
}
