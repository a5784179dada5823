/** What every step of the merge scheduler keeps of its batch and its counters. */
module MergeInvariant {
  import opened MergeSections
  import opened MergeProtocol

  // ---------------------------------------------------------------- counting

  datatype Kind = IsActive | IsRunning | IsExited | IsHolder | MergesOn(disk: nat)

  predicate Is(w: Worker, k: Kind) {
    match k
    case IsActive => !w.Parked?
    case IsRunning => !w.Parked? && !w.Exited?
    case IsExited => w.Exited?
    case IsHolder => Holds(w)
    case MergesOn(d) => w.Merging? && w.tablet.disk == d
  }

  function One(b: bool): nat { if b then 1 else 0 }

  function Count(ws: seq<Worker>, k: Kind): nat {
    if ws == [] then 0 else One(Is(ws[0], k)) + Count(ws[1..], k)
  }

  lemma {:induction false} CountUpdate(ws: seq<Worker>, i: nat, w: Worker, k: Kind)
    requires i < |ws|
    ensures Count(ws[i := w], k) == Count(ws, k) - One(Is(ws[i], k)) + One(Is(w, k))
  {
    if i > 0 {
      assert ws[i := w][1..] == ws[1..][i - 1 := w];
      CountUpdate(ws[1..], i - 1, w, k);
    } else {
      assert ws[i := w][1..] == ws[1..];
    }
  }

  lemma {:induction false} CountSame(ws: seq<Worker>, vs: seq<Worker>, k: Kind)
    requires |ws| == |vs| && forall i :: 0 <= i < |ws| ==> Is(ws[i], k) == Is(vs[i], k)
    ensures Count(ws, k) == Count(vs, k)
  {
    if ws != [] {
      assert forall i :: 0 <= i < |ws[1..]| ==> ws[1..][i] == ws[i + 1] && vs[1..][i] == vs[i + 1];
      CountSame(ws[1..], vs[1..], k);
    }
  }

  /** A positive count has a witness. */
  lemma {:induction false} CountWitness(ws: seq<Worker>, k: Kind) returns (i: nat)
    requires Count(ws, k) > 0
    ensures i < |ws| && Is(ws[i], k)
  {
    if Is(ws[0], k) { i := 0; } else { i := CountWitness(ws[1..], k); i := i + 1; }
  }

  lemma {:induction false} CountAtLeastOne(ws: seq<Worker>, i: nat, k: Kind)
    requires i < |ws| && Is(ws[i], k)
    ensures Count(ws, k) > 0
  {
    if i > 0 { CountAtLeastOne(ws[1..], i - 1, k); }
  }

  lemma {:induction false} CountBound(ws: seq<Worker>, k: Kind)
    ensures Count(ws, k) <= |ws|
  {
    if ws != [] { CountBound(ws[1..], k); }
  }

  /** Nobody is of a kind that is counted zero. */
  lemma CountZero(ws: seq<Worker>, k: Kind)
    requires Count(ws, k) == 0
    ensures forall i :: 0 <= i < |ws| ==> !Is(ws[i], k)
  {
    forall i | 0 <= i < |ws| ensures !Is(ws[i], k) {
      if Is(ws[i], k) { CountAtLeastOne(ws, i, k); }
    }
  }

  /** An active worker is running or has exited. */
  lemma {:induction false} ActiveAreRunningOrExited(ws: seq<Worker>)
    ensures Count(ws, IsActive) == Count(ws, IsRunning) + Count(ws, IsExited)
  {
    if ws != [] { ActiveAreRunningOrExited(ws[1..]); }
  }

  // -------------------------------------------------------------- invariants

  /** Batch accounting; `known` are the tablets the server knows of. */
  ghost predicate BatchInv(sh: Shared, ws: seq<Worker>, known: set<Tablet>) {
    && sh.haveGot <= sh.index <= |sh.batch| <= BATCH_MAX
    && sh.index - sh.haveGot == Count(ws, IsHolder)
    && (forall i :: 0 <= i < |ws| && Holds(ws[i]) ==> ws[i].slot < sh.index && sh.batch[ws[i].slot] == ws[i].tablet)
    && (forall i, j :: 0 <= i < j < |ws| && Holds(ws[i]) && Holds(ws[j]) ==> ws[i].slot != ws[j].slot)
    && (forall i, j :: 0 <= i < j < |sh.batch| ==> sh.batch[i] != sh.batch[j])
    && (forall i :: 0 <= i < |sh.batch| ==> sh.batch[i] in known)
  }

  /** Thread and per-disk counters. */
  ghost predicate CounterInv(sh: Shared, ws: seq<Worker>, missing: nat) {
    && |ws| > 0
    && sh.active == Count(ws, IsActive) + missing
    && |sh.pending| == COUNTERS
    && (forall d :: 0 <= d < COUNTERS ==> sh.pending[d] == Count(ws, MergesOn(d)))
    && (missing > 0 ==> sh.roundEnd)
  }

  /** Kept by every step. */
  ghost predicate CountInv(s: State) {
    BatchInv(s.shared, s.workers, s.status.Keys) && CounterInv(s.shared, s.workers, s.config.missing)
  }

  lemma {:induction false} InitCounts(ws: seq<Worker>, d: nat)
    requires forall i :: 0 <= i < |ws| ==> ws[i] == Top
    ensures Count(ws, IsActive) == |ws| && Count(ws, IsHolder) == 0 && Count(ws, MergesOn(d)) == 0
  {
    if ws != [] { InitCounts(ws[1..], d); }
  }

  lemma InitCountInv(s: State)
    requires Init(s)
    ensures CountInv(s)
  {
    forall d | 0 <= d < COUNTERS
      ensures Count(s.workers, IsActive) == |s.workers| && Count(s.workers, IsHolder) == 0
      ensures Count(s.workers, MergesOn(d)) == 0
    {
      InitCounts(s.workers, d);
    }
    InitCounts(s.workers, 0);
  }

  /** Replacing one worker moves each counter by at most that worker. */
  lemma Replaced(ws: seq<Worker>, i: nat, w: Worker)
    requires i < |ws|
    ensures Count(ws[i := w], IsActive) == Count(ws, IsActive) - One(Is(ws[i], IsActive)) + One(Is(w, IsActive))
    ensures Count(ws[i := w], IsHolder) == Count(ws, IsHolder) - One(Is(ws[i], IsHolder)) + One(Is(w, IsHolder))
    ensures forall d: nat :: Count(ws[i := w], MergesOn(d))
                          == Count(ws, MergesOn(d)) - One(Is(ws[i], MergesOn(d))) + One(Is(w, MergesOn(d)))
  {
    CountUpdate(ws, i, w, IsActive);
    CountUpdate(ws, i, w, IsHolder);
    forall d: nat
      ensures Count(ws[i := w], MergesOn(d))
           == Count(ws, MergesOn(d)) - One(Is(ws[i], MergesOn(d))) + One(Is(w, MergesOn(d)))
    {
      CountUpdate(ws, i, w, MergesOn(d));
    }
  }

  // ------------------------------------------------- batch and counters, always

  /** What a batch from the image may be. */
  ghost predicate Fresh(found: seq<Tablet>, known: set<Tablet>) {
    && |found| <= BATCH_MAX
    && (forall i :: 0 <= i < |found| ==> found[i] in known)
    && (forall i, j :: 0 <= i < j < |found| ==> found[i] != found[j])
  }

  lemma FetchKeepsBatch(sh: Shared, ws: seq<Worker>, known: set<Tablet>, w: nat, serving: int, env: FetchEnv)
    requires BatchInv(sh, ws, known) && Fresh(env.found, known) && w < |ws| && ws[w].Fetching?
    ensures var o := GetTablets(sh, serving, env);
      BatchInv(Settled(o), ws[w := Fate(o)], known)
  {
    var o := GetTablets(sh, serving, env);
    CountUpdate(ws, w, Fate(o), IsHolder);
    if sh.haveGot == |sh.batch| {
      CountZero(ws, IsHolder);
      assert forall i :: 0 <= i < |ws| ==> !Is(ws[i], IsHolder);
    }
  }

  lemma FetchKeepsCounters(sh: Shared, ws: seq<Worker>, missing: nat, w: nat, serving: int, env: FetchEnv)
    requires CounterInv(sh, ws, missing) && w < |ws| && ws[w].Fetching?
    ensures var o := GetTablets(sh, serving, env);
      CounterInv(Settled(o), ws[w := Fate(o)], missing)
  {
    Replaced(ws, w, Fate(GetTablets(sh, serving, env)));
  }

  lemma FetchKeepsCounts(s: State, w: nat, env: FetchEnv)
    requires CountInv(s) && At(s, w) && s.workers[w].Fetching? && Answer(s, env)
    ensures CountInv(FetchStep(s, w, env))
  {
    FetchKeepsBatch(s.shared, s.workers, s.status.Keys, w, Serving(s), env);
    FetchKeepsCounters(s.shared, s.workers, s.config.missing, w, Serving(s), env);
  }

  /** A worker moves on with what it has in hand. */
  lemma LocalKeepsCounts(s: State, w: nat, next: Worker)
    requires CountInv(s) && At(s, w)
    requires s.workers[w].Parked? == next.Parked? && !s.workers[w].Merging? && !next.Merging?
    requires Holds(s.workers[w]) == Holds(next)
    requires Holds(next) ==> next.slot == s.workers[w].slot && next.tablet == s.workers[w].tablet
    ensures CountInv(s.(workers := s.workers[w := next]))
  {
    Replaced(s.workers, w, next);
  }

  /** More tablets become known. */
  lemma KnownKeepsCounts(s: State, n: State)
    requires CountInv(s) && s.status.Keys <= n.status.Keys
    requires n.shared == s.shared && n.workers == s.workers && n.config == s.config
    ensures CountInv(n)
  {
  }

  lemma ExamineKeepsCounts(s: State, w: nat, look: InspectEnv)
    requires CountInv(s) && At(s, w) && s.workers[w].Holding?
    ensures CountInv(ExamineStep(s, w, look))
  {
    var n := ExamineStep(s, w, look);
    LocalKeepsCounts(s, w, n.workers[w]);
    KnownKeepsCounts(s.(workers := n.workers), n);
  }

  /** A woken worker has the mutex back and counts as active again. */
  ghost function Up(s: State, w: nat): State
    requires At(s, w)
  {
    s.(shared := s.shared.(active := s.shared.active + 1), workers := s.workers[w := Fetching])
  }

  lemma UpKeepsCounts(s: State, w: nat)
    requires CountInv(s) && At(s, w) && s.workers[w].Parked?
    ensures CountInv(Up(s, w))
  {
    Replaced(s.workers, w, Fetching);
  }

  lemma ResumeIsFetch(s: State, w: nat, env: FetchEnv)
    requires Enabled(s, Resume(w, env))
    ensures Apply(s, Resume(w, env)) == if s.workers[w].byLoad then Up(s, w) else FetchStep(Up(s, w), w, env)
    ensures Answer(Up(s, w), env)
  {
    var next := Fate(GetTablets(Up(s, w).shared, Serving(s), env));
    assert s.workers[w := Fetching][w := next] == s.workers[w := next];
    assert forall t, v :: Pending(s, t, v) <==> Pending(Up(s, w), t, v);
  }

  lemma LaunchKeepsCounts(s: State, version: int, launch: LaunchEnv)
    requires CountInv(s)
    ensures CountInv(LaunchStep(s, version, launch))
  {
    var n := LaunchStep(s, version, launch);
    if Schedule(s.shared, Serving(s), version, launch).launched {
      CountSame(s.workers, n.workers, IsActive);
      CountSame(s.workers, n.workers, IsHolder);
      forall d: nat ensures Count(n.workers, MergesOn(d)) == Count(s.workers, MergesOn(d)) {
        CountSame(s.workers, n.workers, MergesOn(d));
      }
      assert forall i :: 0 <= i < |n.workers| && Holds(n.workers[i]) ==> n.workers[i] == s.workers[i];
    }
  }

  /** A worker begins or ends a merge. */
  lemma MergeKeepsCounts(s: State, w: nat, next: Worker, delta: int)
    requires CountInv(s) && At(s, w) && Holds(s.workers[w]) && Holds(next)
    requires next.slot == s.workers[w].slot && next.tablet == s.workers[w].tablet
    requires delta == One(next.Merging?) - One(s.workers[w].Merging?)
    ensures var pending := Counted(s.shared.pending, next.tablet.disk, delta);
      CountInv(s.(shared := s.shared.(pending := pending), workers := s.workers[w := next]))
  {
    Replaced(s.workers, w, next);
  }

  lemma ReleaseKeepsCounts(s: State, w: nat)
    requires CountInv(s) && Enabled(s, Release(w))
    ensures CountInv(Apply(s, Release(w)))
  {
    Replaced(s.workers, w, Apply(s, Release(w)).workers[w]);
    CountAtLeastOne(s.workers, w, IsHolder);
  }

  lemma ThrottleKeepsCounts(s: State, w: nat)
    requires CountInv(s) && Enabled(s, Throttle(w))
    ensures CountInv(Apply(s, Throttle(w)))
  {
    Replaced(s.workers, w, Apply(s, Throttle(w)).workers[w]);
  }

  lemma FinishKeepsCounts(s: State, w: nat, marked: bool, prepares: bool, made: seq<Tablet>)
    requires CountInv(s) && Enabled(s, FinishMerge(w, marked, prepares, made))
    ensures CountInv(Apply(s, FinishMerge(w, marked, prepares, made)))
  {
    var n := FinishStep(s, w, marked, prepares, made);
    MergeKeepsCounts(s, w, n.workers[w], -1);
    KnownKeepsCounts(s.(shared := n.shared, workers := n.workers), n);
  }

  /** Every step of every worker, of `schedule` and of the surroundings. */
  lemma StepKeepsCounts(s: State, e: Event)
    requires CountInv(s) && Enabled(s, e)
    ensures CountInv(Apply(s, e))
  {
    match e
    case Launch(version, launch) => LaunchKeepsCounts(s, version, launch);
    case Fetch(w, env) => FetchKeepsCounts(s, w, env);
    case Resume(w, env) =>
      ResumeIsFetch(s, w, env);
      UpKeepsCounts(s, w);
      if !s.workers[w].byLoad { FetchKeepsCounts(Up(s, w), w, env); }
    case CheckLoad(w, _) => LocalKeepsCounts(s, w, Apply(s, e).workers[w]);
    case Wakeup(w) => LocalKeepsCounts(s, w, Apply(s, e).workers[w]);
    case NextLoop(w, _) => LocalKeepsCounts(s, w, Apply(s, e).workers[w]);
    case Examine(w, look) => ExamineKeepsCounts(s, w, look);
    case Throttle(w) => ThrottleKeepsCounts(s, w);
    case StartMerge(w) => MergeKeepsCounts(s, w, Apply(s, e).workers[w], 1);
    case FinishMerge(w, marked, prepares, made) => FinishKeepsCounts(s, w, marked, prepares, made);
    case Release(w) => ReleaseKeepsCounts(s, w);
    case SetStatus(_, _) => KnownKeepsCounts(s, Apply(s, e));
    case Prepare(_) => KnownKeepsCounts(s, Apply(s, e));
  }

  /** Every state of every run. */
  lemma {:induction false} RunKeepsCounts(r: Run, i: nat)
    requires IsRun(r) && i < |r.states|
    ensures CountInv(r.states[i]) && r.states[i].config == r.states[0].config
    ensures |r.states[i].workers| == |r.states[0].workers|
  {
    if i == 0 {
      InitCountInv(r.states[0]);
    } else {
      RunKeepsCounts(r, i - 1);
      assert StepOf(r, i - 1);
      StepKeepsCounts(r.states[i - 1], r.events[i - 1]);
    }
  }
}
