/** Exactly when the scheduler keeps what one would expect of it, with the runs in
    which it does not. */
module MergeLimits {
  import opened MergeSections
  import opened MergeProtocol
  import opened MergeInvariant
  import opened MergeOrder
  import opened MergeTheorems
  import opened MergePaths

  /** MAX_MERGE_THREAD. */
  const MAX_MERGE_THREAD: nat := 32

  // ---------------------------------------------------------------- the scene

  /** `n` workers and `m` tablets of version 1, all on disk `d`. */
  datatype Stage = Stage(c: Config, n: nat, m: nat, d: DiskNo)

  predicate Ready(g: Stage) {
    0 < g.n <= MAX_MERGE_THREAD && 0 < g.m <= g.n && g.c.missing == 0 && g.c.mergePerDisk >= 1
  }

  function T(d: DiskNo, i: nat): Tablet { Tablet(i, 1, d) }

  function Tablets(d: DiskNo, m: nat): (r: seq<Tablet>)
    ensures |r| == m && forall i :: 0 <= i < m ==> r[i] == T(d, i)
  {
    seq(m, i requires 0 <= i < m => T(d, i))
  }

  function Loaded(d: DiskNo, m: nat): (r: map<Tablet, Status>)
    ensures forall t :: t in r <==> t in Tablets(d, m)
    ensures forall t :: t in r ==> r[t] == Status(true, false, false, 0)
  {
    map t | t in Tablets(d, m) :: Status(true, false, false, 0)
  }

  /** Phases: all workers start, find nothing and park, are woken by a new round,
      and take a tablet each or park again; with a tablet for everybody, all pass the
      limit, and only then all count themselves. */
  const PHASES: nat := 5

  function From(g: Stage, p: nat, i: nat): Worker {
    if p == 0 then Top else if p == 1 then Fetching else if p == 2 then Parked(false, true)
    else if p == 3 then Holding(i, T(g.d, i)) else Admitted(i, T(g.d, i))
  }

  function To(g: Stage, p: nat, i: nat): Worker {
    if p == 0 then Fetching else if p == 1 then Parked(false, false)
    else if p == 2 then if i < g.m then Holding(i, T(g.d, i)) else Parked(false, false)
    else if p == 3 then Admitted(i, T(g.d, i)) else Merging(i, T(g.d, i))
  }

  /** The first k of n workers have done phase p. */
  function Line(g: Stage, p: nat, k: nat): (r: seq<Worker>)
    ensures |r| == g.n && forall i :: 0 <= i < g.n ==> r[i] == if i < k then To(g, p, i) else From(g, p, i)
  {
    seq(g.n, i requires 0 <= i < g.n => if i < k then To(g, p, i) else From(g, p, i))
  }

  function Counts(d: DiskNo, k: nat): (r: seq<int>)
    ensures |r| == COUNTERS && forall x :: 0 <= x < COUNTERS ==> r[x] == if x == d then k else 0
  {
    seq(COUNTERS, x => if x == d then k else 0)
  }

  function Fields(g: Stage, p: nat, k: nat): Shared {
    if p == 0 then Shared([], 0, 0, g.n, 1, 1, true, true, false, Counts(g.d, 0))
    else if p == 1 then Shared([], 0, 0, g.n - k, 1, 1, true, true, false, Counts(g.d, 0))
    else if p == 2 && k == 0 then Shared([], 0, 0, 0, 2, 2, true, false, false, Counts(g.d, 0))
    else
      var taken := if p == 2 && k < g.m then k else g.m;
      Shared(Tablets(g.d, g.m), taken, 0, taken, 2, 2, false, false, false, Counts(g.d, if p == 4 then k else 0))
  }

  function Scene(g: Stage, p: nat, k: nat): State {
    State(g.c, Fields(g, p, k), 1, if p < 2 then 1 else 2, Loaded(g.d, g.m), Line(g, p, k), false)
  }

  function Move(g: Stage, p: nat, k: nat): Event {
    if p == 0 then CheckLoad(k, true)
    else if p == 1 then Fetch(k, FetchEnv(false, [], true, false))
    else if p == 2 then Resume(k, FetchEnv(false, Tablets(g.d, g.m), true, true))
    else if p == 3 then Examine(k, InspectEnv([], false, false, true, 0))
    else StartMerge(k)
  }

  const OPEN := Launch(2, LaunchEnv(true, true, true))

  lemma SceneImage(g: Stage, p: nat, k: nat)
    requires Ready(g) && p < PHASES && k <= g.n
    ensures Serving(Scene(g, p, k)) == 1 && CanUpgrade(Scene(g, p, k)) == (p >= 2)
    ensures BatchOf(Scene(g, p, k), if p < 2 then 1 else 2, if p < 2 then [] else Tablets(g.d, g.m))
  {
    assert T(g.d, 0) == Tablets(g.d, g.m)[0];
    assert T(g.d, 0) in Scene(g, p, k).status;
  }

  lemma LineMoves(g: Stage, p: nat, k: nat)
    requires k < g.n
    ensures Line(g, p, k)[k := To(g, p, k)] == Line(g, p, k + 1)
  {
  }

  lemma ParkingIsStep(g: Stage, p: nat, k: nat)
    requires Ready(g) && p < 2 && k < g.n
    ensures Enabled(Scene(g, p, k), Move(g, p, k))
    ensures Apply(Scene(g, p, k), Move(g, p, k)) == Scene(g, p, k + 1)
  {
    SceneImage(g, p, k);
    LineMoves(g, p, k);
  }

  lemma TakingIsStep(g: Stage, k: nat)
    requires Ready(g) && k < g.n
    ensures Enabled(Scene(g, 2, k), Move(g, 2, k))
    ensures Apply(Scene(g, 2, k), Move(g, 2, k)) == Scene(g, 2, k + 1)
  {
    SceneImage(g, 2, k);
    LineMoves(g, 2, k);
  }

  lemma MergingIsStep(g: Stage, p: nat, k: nat)
    requires Ready(g) && 3 <= p < PHASES && k < g.n && g.m == g.n
    ensures Enabled(Scene(g, p, k), Move(g, p, k))
    ensures Apply(Scene(g, p, k), Move(g, p, k)) == Scene(g, p, k + 1)
  {
    LineMoves(g, p, k);
    if p == 4 { assert Counted(Counts(g.d, k), g.d, 1) == Counts(g.d, k + 1); }
  }

  lemma PhaseFollows(g: Stage, p: nat)
    requires Ready(g) && 0 < p < PHASES && (p >= 3 ==> g.m == g.n)
    ensures p != 2 ==> Scene(g, p, 0) == Scene(g, p - 1, g.n)
    ensures p == 2 ==> Enabled(Scene(g, 1, g.n), OPEN) && Scene(g, 2, 0) == Apply(Scene(g, 1, g.n), OPEN)
  {
    if p != 2 {
      assert Line(g, p, 0) == Line(g, p - 1, g.n);
    } else {
      SceneImage(g, 1, g.n);
      assert Line(g, 2, 0) == Broadcast(Line(g, 1, g.n));
      assert Evicted(Loaded(g.d, g.m), 2) == Loaded(g.d, g.m);
    }
  }

  lemma MoveGoes(s: State, g: Stage, p: nat, k: nat)
    requires Ready(g) && p < PHASES && k < g.n && (p >= 3 ==> g.m == g.n) && Goes(s, Scene(g, p, k))
    ensures Goes(s, Scene(g, p, k + 1))
  {
    if p < 2 { ParkingIsStep(g, p, k); } else if p == 2 { TakingIsStep(g, k); } else { MergingIsStep(g, p, k); }
    SceneImage(g, p, k + 1);
    GoesOn(s, Scene(g, p, k), Move(g, p, k), Scene(g, p, k + 1));
  }

  lemma PhaseGoes(s: State, g: Stage, p: nat)
    requires Ready(g) && 0 < p < PHASES && (p >= 3 ==> g.m == g.n) && Goes(s, Scene(g, p - 1, g.n))
    ensures Goes(s, Scene(g, p, 0))
  {
    PhaseFollows(g, p);
    SceneImage(g, p, 0);
    if p == 2 { GoesOn(s, Scene(g, 1, g.n), OPEN, Scene(g, 2, 0)); }
  }

  lemma {:induction false} AllReached(s: State, g: Stage, p: nat, k: nat)
    requires Ready(g) && p < PHASES && k <= g.n && (p >= 3 ==> g.m == g.n) && Goes(s, Scene(g, 0, 0))
    ensures Goes(s, Scene(g, p, k))
    decreases p, k
  {
    if k > 0 {
      AllReached(s, g, p, k - 1);
      MoveGoes(s, g, p, k - 1);
    } else if p > 0 {
      AllReached(s, g, p - 1, g.n);
      PhaseGoes(s, g, p);
    }
  }

  /** Every scene is a state of a run that starts with the first one. */
  lemma SceneIsReached(g: Stage, p: nat, k: nat)
    requires Ready(g) && p < PHASES && k <= g.n && (p >= 3 ==> g.m == g.n)
    ensures Init(Scene(g, 0, 0)) && Goes(Scene(g, 0, 0), Scene(g, p, k))
  {
    assert Counts(g.d, 0) == seq(COUNTERS, _ => 0);
    SceneImage(g, 0, 0);
    GoesNowhere(Scene(g, 0, 0));
    AllReached(Scene(g, 0, 0), g, p, k);
  }

  // -------------------------------------------------------------- disk limits

  /** A run of a scheduler configured by `c` with `n` workers. */
  ghost predicate RunOf(r: Run, c: Config, n: nat) {
    IsRun(r) && r.states[0].config == c && |r.states[0].workers| == n
  }

  ghost function Final(r: Run): State
    requires |r.states| == |r.events| + 1
  {
    r.states[|r.events|]
  }

  /** At its end, some disk counter is above the limit. */
  ghost predicate OverLimit(r: Run, c: Config) {
    IsRun(r) && exists d :: 0 <= d < |Final(r).shared.pending| && Final(r).shared.pending[d] > c.mergePerDisk
  }

  /** The limit is never exceeded if and only if there are no more workers
      than it allows. */
  lemma LimitHoldsIffFewWorkers(c: Config, n: nat)
    requires 0 < n <= MAX_MERGE_THREAD && c.missing == 0 && c.mergePerDisk >= 1
    ensures (forall r :: RunOf(r, c, n) ==> !OverLimit(r, c)) <==> n <= c.mergePerDisk
  {
    if n <= c.mergePerDisk {
      forall r | RunOf(r, c, n) ensures !OverLimit(r, c) {
        DiskCounterIsExact(r, |r.events|, 0);
        forall d | 0 <= d < COUNTERS ensures Final(r).shared.pending[d] <= c.mergePerDisk {
          DiskCounterIsExact(r, |r.events|, d);
        }
      }
    } else {
      var g := Stage(c, n, n, 1);
      SceneIsReached(g, 4, n);
      var r :| Leads(r, Scene(g, 0, 0), Scene(g, 4, n));
      assert Final(r).shared.pending[1] == n;
      assert RunOf(r, c, n) && OverLimit(r, c);
    }
  }

  /** All tablets the server has known of are on disks up to `last`. */
  ghost predicate OnDisks(r: Run, last: nat) {
    |r.states| == |r.events| + 1 && forall t :: t in Final(r).status ==> t.disk <= last
  }

  predicate MergesUncounted(w: Worker) {
    w.Merging? && w.tablet.disk >= COUNTERS
  }

  /** At its end, a worker is inside a merge that the array has no counter for. */
  ghost predicate OutOfBounds(r: Run) {
    IsRun(r) && exists w :: 0 <= w < |Final(r).workers| && MergesUncounted(Final(r).workers[w])
  }

  lemma HeldIsKnown(r: Run, i: nat, w: nat)
    requires IsRun(r) && i < |r.states| && At(r.states[i], w) && Holds(r.states[i].workers[w])
    ensures r.states[i].workers[w].tablet in r.states[i].status
  {
    RunKeepsCounts(r, i);
  }

  /** Merges are counted inside the array if and only if no tablet can be on disk 16. */
  lemma CountersSufficeIff(c: Config, n: nat, last: nat)
    requires 0 < n <= MAX_MERGE_THREAD && c.missing == 0 && c.mergePerDisk >= 1 && 1 <= last <= MAX_DISK
    ensures (forall r :: RunOf(r, c, n) && OnDisks(r, last) ==> !OutOfBounds(r)) <==> last <= 15
  {
    if last <= 15 {
      forall r | RunOf(r, c, n) && OnDisks(r, last) ensures !OutOfBounds(r) {
        forall w | 0 <= w < |Final(r).workers| ensures !MergesUncounted(Final(r).workers[w]) {
          if Final(r).workers[w].Merging? { HeldIsKnown(r, |r.events|, w); }
        }
      }
    } else {
      var g := Stage(c, n, n, 16);
      SceneIsReached(g, 4, n);
      var r :| Leads(r, Scene(g, 0, 0), Scene(g, 4, n));
      assert MergesUncounted(Final(r).workers[0]);
      assert RunOf(r, c, n) && OnDisks(r, last) && OutOfBounds(r);
    }
  }

  /** At its end, a round is open. */
  ghost predicate RoundOpen(r: Run) {
    IsRun(r) && !Final(r).shared.roundEnd
  }

  /** A round can be opened if and only if every thread that was asked for
      started. */
  lemma RoundsStartIffAllThreadsDid(c: Config, n: nat)
    requires 0 < n <= MAX_MERGE_THREAD && c.mergePerDisk >= 1
    ensures c.missing == 0 <==> exists r :: RunOf(r, c, n) && RoundOpen(r)
  {
    if c.missing == 0 {
      var g := Stage(c, n, n, 1);
      SceneIsReached(g, 2, 0);
      var r :| Leads(r, Scene(g, 0, 0), Scene(g, 2, 0));
      assert RunOf(r, c, n) && RoundOpen(r);
    } else {
      forall r | RunOf(r, c, n) ensures !RoundOpen(r) {
        MissingThreadBlocksMerging(r, |r.events|);
      }
    }
  }

  // -------------------------------------------------------------------- stalls

  /** `n` workers, one tablet: the first worker holds it, the others sleep. */
  function OneHeld(c: Config, n: nat): State
    requires n > 0
  {
    Scene(Stage(c, n, 1, 1), 2, n)
  }

  /** The worker gets no merger, gives its tablet back and leaves. */
  ghost function OneLeft(c: Config, n: nat): State
    requires n > 0
  {
    var h := OneHeld(c, n);
    h.(workers := h.workers[0 := Exited], shared := h.shared.(haveGot := 1))
  }

  /** The only worker that is awake leaves, and the round stalls. */
  lemma LeavingStalls(c: Config, n: nat)
    requires 0 < n <= MAX_MERGE_THREAD && c.missing == 0 && c.mergePerDisk >= 1
    ensures Goes(Scene(Stage(c, n, 1, 1), 0, 0), OneLeft(c, n)) && Stalled(OneLeft(c, n))
  {
    var g, h := Stage(c, n, 1, 1), OneHeld(c, n);
    SceneIsReached(g, 2, n);
    SceneImage(g, 2, n);
    var s0, t := Scene(g, 0, 0), T(1, 0);
    GetsNoMerger(s0, h, 0);
    GivesBack(s0, Moved(h, 0, Releasing(0, t, true)), 0);
    MovedTwice(h, 0, Releasing(0, t, true), Exited);
  }
}
