/** Continuing runs of the merge scheduler, and one worker's turn step by step. */
module MergePaths {
  import opened MergeSections
  import opened MergeProtocol
  import opened MergeOrder

  // -------------------------------------------------------------------- paths

  /** The served version has a tablet all along. */
  ghost predicate AlwaysServed(r: Run) {
    ServedBefore(r, |r.states|)
  }

  /** No worker is woken without a broadcast, and nobody else touches the image. */
  predicate Unaided(e: Event) {
    !e.Wakeup? && !e.SetStatus? && !e.Prepare?
  }

  /** A step of a worker. */
  predicate Own(e: Event) {
    Unaided(e) && !e.Launch?
  }

  ghost predicate AllUnaided(r: Run) {
    forall k :: 0 <= k < |r.events| ==> Unaided(r.events[k])
  }

  ghost predicate AllOwn(r: Run) {
    forall k :: 0 <= k < |r.events| ==> Own(r.events[k])
  }

  /** From `a` the scheduler can go to `b` unaided, without the served version running
      out of tablets; `schedule` may be called on the way only if `scheduled`. */
  ghost predicate Reaches(a: State, b: State, scheduled: bool) {
    exists r :: Leads(r, a, b) && (scheduled || AllOwn(r))
  }

  ghost predicate Goes(a: State, b: State) { Reaches(a, b, true) }

  /** The workers alone get there. */
  ghost predicate Works(a: State, b: State) { Reaches(a, b, false) }

  ghost predicate Leads(r: Run, a: State, b: State) {
    IsPath(r) && r.states[0] == a && r.states[|r.events|] == b && AlwaysServed(r) && AllUnaided(r)
  }

  lemma GoesNowhere(a: State)
    requires Served(a)
    ensures Works(a, a) && Goes(a, a)
  {
    assert Leads(Run([a], []), a, a);
  }

  /** A path goes on by one event. */
  ghost function Longer(r: Run, e: Event): Run
    requires |r.states| == |r.events| + 1 && Enabled(r.states[|r.events|], e)
  {
    Run(r.states + [Apply(r.states[|r.events|], e)], r.events + [e])
  }

  lemma LongerIsPath(r: Run, e: Event)
    requires IsPath(r) && Enabled(r.states[|r.events|], e)
    ensures IsPath(Longer(r, e)) && Longer(r, e).states[0] == r.states[0]
  {
    var longer := Longer(r, e);
    forall k | 0 <= k < |longer.events| ensures StepOf(longer, k) {
      if k < |r.events| { assert StepOf(r, k); }
    }
  }

  /** By two events. */
  lemma LongerTwice(r: Run, a: State, b: State, e: Event, f: Event) returns (longer: Run)
    requires Leads(r, a, b) && Enabled(b, e) && Enabled(Apply(b, e), f) && Unaided(e) && Unaided(f)
    ensures IsPath(longer) && AllUnaided(longer) && |longer.events| == |r.events| + 2 && longer.states[0] == a
    ensures longer.states[|r.events|] == b && longer.events[|r.events|] == e
    ensures longer.states[|r.events| + 1] == Apply(b, e) && longer.events[|r.events| + 1] == f
  {
    LongerIsPath(r, e);
    LongerIsPath(Longer(r, e), f);
    longer := Longer(Longer(r, e), f);
  }

  lemma ReachesOn(a: State, b: State, e: Event, c: State, scheduled: bool)
    requires Reaches(a, b, scheduled) && Next(b, e, c) && Served(c) && Unaided(e) && (scheduled || Own(e))
    ensures Reaches(a, c, scheduled)
  {
    var r :| Leads(r, a, b) && (scheduled || AllOwn(r));
    LongerIsPath(r, e);
    assert Leads(Longer(r, e), a, c);
  }

  lemma GoesOn(a: State, b: State, e: Event, c: State)
    requires Goes(a, b) && Next(b, e, c) && Served(c) && Unaided(e)
    ensures Goes(a, c)
  {
    ReachesOn(a, b, e, c, true);
  }

  // --------------------------------------------------------------------- turns

  function Moved(s: State, w: nat, next: Worker): State
    requires At(s, w)
  {
    s.(workers := s.workers[w := next])
  }

  /** A worker moves twice. */
  lemma MovedTwice(s: State, w: nat, a: Worker, b: Worker)
    requires At(s, w)
    ensures Moved(Moved(s, w, a), w, b) == Moved(s, w, b)
  {
    assert s.workers[w := a][w := b] == s.workers[w := b];
  }

  /** From `a` the scheduler has come to `s`, where worker `w` is. */
  ghost predicate Come(a: State, s: State, w: nat) {
    Goes(a, s) && Served(s) && At(s, w) && |s.shared.pending| == COUNTERS
  }

  const ADMITTED := InspectEnv([], false, false, true, 0)
  const NO_MERGER := InspectEnv([], false, false, false, 0)

  ghost predicate HoldsOld(s: State, w: nat) {
    At(s, w) && s.workers[w].Holding? && s.workers[w].tablet.version <= s.shared.frozen
  }

  lemma IsAdmitted(a: State, s: State, w: nat)
    requires Come(a, s, w) && HoldsOld(s, w)
    requires CounterOf(s.shared.pending, s.workers[w].tablet.disk, 0) < s.config.mergePerDisk
    ensures Come(a, Moved(s, w, Admitted(s.workers[w].slot, s.workers[w].tablet)), w)
  {
    GoesOn(a, s, Examine(w, ADMITTED), Moved(s, w, Admitted(s.workers[w].slot, s.workers[w].tablet)));
  }

  lemma GetsNoMerger(a: State, s: State, w: nat)
    requires Come(a, s, w) && HoldsOld(s, w)
    ensures Come(a, Moved(s, w, Releasing(s.workers[w].slot, s.workers[w].tablet, true)), w)
  {
    GoesOn(a, s, Examine(w, NO_MERGER), Moved(s, w, Releasing(s.workers[w].slot, s.workers[w].tablet, true)));
  }

  /** The merge counter of the tablet's disk moves. */
  function Counting(s: State, t: Tablet, delta: int): State {
    s.(shared := s.shared.(pending := Counted(s.shared.pending, t.disk, delta)))
  }

  function Begun(s: State, w: nat): State
    requires At(s, w) && s.workers[w].Admitted?
  {
    Counting(Moved(s, w, Merging(s.workers[w].slot, s.workers[w].tablet)), s.workers[w].tablet, 1)
  }

  lemma Begins(a: State, s: State, w: nat)
    requires Come(a, s, w) && s.workers[w].Admitted?
    ensures Come(a, Begun(s, w), w)
  {
    GoesOn(a, s, StartMerge(w), Begun(s, w));
  }

  /** One more merge of `t`, and its flag if it went well. */
  function Noted(s: State, t: Tablet, marked: bool): State {
    s.(status := s.status[t := Worked(s, t, marked)])
  }

  /** Flags do not change what the image has. */
  lemma NotedKeeps(s: State, t: Tablet, marked: bool, version: int)
    requires t in s.status
    ensures Kept(Noted(s, t, marked).status, version) == Kept(s.status, version)
  {
    var n := Noted(s, t, marked);
    forall x | x in s.status ensures x in n.status && n.status[x].inImage == s.status[x].inImage {
    }
    forall x | x in n.status ensures x in s.status {
    }
  }

  /** A merge that fails, or finds the table dropped, makes no tablet. */
  function Done(s: State, w: nat, marked: bool): State
    requires At(s, w) && s.workers[w].Merging?
  {
    var t := s.workers[w].tablet;
    Counting(Noted(Moved(s, w, Releasing(s.workers[w].slot, t, false)), t, marked), t, -1)
  }

  lemma Finishes(a: State, s: State, w: nat, marked: bool)
    requires Come(a, s, w) && s.workers[w].Merging? && s.workers[w].tablet in s.status
    ensures Come(a, Done(s, w, marked), w)
  {
    NotedKeeps(s, s.workers[w].tablet, marked, s.service);
    GoesOn(a, s, FinishMerge(w, marked, false, []), Done(s, w, marked));
  }

  function GivenBack(s: State, w: nat): State
    requires At(s, w) && s.workers[w].Releasing?
  {
    Moved(s, w, if s.workers[w].leaving then Exited else Returned).(shared := s.shared.(haveGot := s.shared.haveGot + 1))
  }

  lemma GivesBack(a: State, s: State, w: nat)
    requires Come(a, s, w) && s.workers[w].Releasing?
    ensures Come(a, GivenBack(s, w), w)
  {
    GoesOn(a, s, Release(w), GivenBack(s, w));
  }

  lemma Loops(a: State, s: State, w: nat)
    requires Come(a, s, w) && s.workers[w].Returned?
    ensures Come(a, Moved(s, w, Top), w)
  {
    GoesOn(a, s, NextLoop(w, false), Moved(s, w, Top));
  }

  lemma ChecksLoad(a: State, s: State, w: nat, low: bool)
    requires Come(a, s, w) && s.workers[w].Top?
    ensures Come(a, Moved(s, w, if s.shared.active <= s.config.minThreads || low then Fetching else Throttled), w)
  {
    GoesOn(a, s, CheckLoad(w, low), Moved(s, w, if s.shared.active <= s.config.minThreads || low then Fetching else Throttled));
  }

  function ThrottledOff(s: State, w: nat): State
    requires At(s, w)
  {
    Moved(s, w, Parked(true, false)).(shared := s.shared.(active := s.shared.active - 1))
  }

  lemma IsThrottled(a: State, s: State, w: nat)
    requires Come(a, s, w) && s.workers[w].Throttled? && s.shared.active != 1
    ensures Come(a, ThrottledOff(s, w), w)
  {
    GoesOn(a, s, Throttle(w), ThrottledOff(s, w));
  }

  /** Counting up and down again leaves the counters alone. */
  lemma CountedBack(s: State, w: nat, marked: bool)
    requires At(s, w) && s.workers[w].Admitted?
    ensures Done(Begun(s, w), w, marked)
            == Noted(Moved(s, w, Releasing(s.workers[w].slot, s.workers[w].tablet, false)), s.workers[w].tablet, marked)
  {
    var t, slot := s.workers[w].tablet, s.workers[w].slot;
    MovedTwice(s, w, Merging(slot, t), Releasing(slot, t, false));
    assert Counted(Counted(s.shared.pending, t.disk, 1), t.disk, -1) == s.shared.pending;
  }

  /** A worker that was admitted merges its tablet, with or without success, makes no
      new one, and gives it back. */
  lemma MergesAndReturns(a: State, s: State, w: nat, marked: bool)
    requires Come(a, s, w) && s.workers[w].Admitted? && s.workers[w].tablet in s.status
    ensures Come(a, Noted(Moved(s, w, Returned), s.workers[w].tablet, marked)
                      .(shared := s.shared.(haveGot := s.shared.haveGot + 1)), w)
  {
    var t, slot := s.workers[w].tablet, s.workers[w].slot;
    Begins(a, s, w);
    Finishes(a, Begun(s, w), w, marked);
    CountedBack(s, w, marked);
    var d := Noted(Moved(s, w, Releasing(slot, t, false)), t, marked);
    GivesBack(a, d, w);
    MovedTwice(s, w, Releasing(slot, t, false), Returned);
  }
}
