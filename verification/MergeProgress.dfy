/** When an open round can be brought to its end, and by whom. */
module MergeProgress {
  import opened MergeSections
  import opened MergeProtocol
  import opened MergeInvariant
  import opened MergeOrder
  import opened MergeTheorems
  import opened MergePaths

  /** No worker has left or is about to. */
  ghost predicate Staffed(ws: seq<Worker>) {
    forall w :: 0 <= w < |ws| ==> !ws[w].Exited? && !(ws[w].Releasing? && ws[w].leaving)
  }

  /** A round is open in a state that runs reach while the served version is not empty. */
  ghost predicate Open(s: State) {
    CountInv(s) && OrderInv(s) && Served(s) && s.shared.frozen > s.service
  }

  /** It is, and no worker is missing. */
  ghost predicate Live(s: State) {
    Open(s) && Staffed(s.workers) && s.config.mergePerDisk >= 1
  }

  // ------------------------------------------------------------------- measure

  /** The tablets the round still has to merge. */
  ghost function Todo(s: State): set<Tablet> {
    set t | t in s.status && Pending(s, t, s.shared.frozen)
  }

  /** On the way to a merge, or in it. */
  predicate Carries(w: Worker) {
    w.Holding? || w.Admitted? || w.Merging?
  }

  predicate InHand(w: Worker, todo: set<Tablet>) {
    Carries(w) && w.tablet in todo
  }

  /** Some of them are in the workers' hands, or still to be handed out. */
  ghost predicate AtWork(sh: Shared, ws: seq<Worker>, todo: set<Tablet>) {
    || (exists w :: 0 <= w < |ws| && InHand(ws[w], todo))
    || (exists j :: sh.index <= j < |sh.batch| && sh.batch[j] in todo)
  }

  ghost function Idle(s: State): nat {
    if AtWork(s.shared, s.workers, Todo(s)) then 0 else 1
  }

  function Unhanded(sh: Shared): nat {
    if sh.index <= |sh.batch| then |sh.batch| - sh.index else 0
  }

  /** How far a worker is from its next request. */
  function Rank(w: Worker): nat {
    match w
    case Holding(_, _) => 9
    case Admitted(_, _) => 8
    case Merging(_, _) => 7
    case Releasing(_, _, _) => 6
    case Returned => 5
    case Top => 4
    case Throttled => 3
    case Fetching => 2
    case Parked(byLoad, woken) => if !woken then 0 else if byLoad then 3 else 2
    case Exited => 0
  }

  function Ranks(ws: seq<Worker>): nat {
    if ws == [] then 0 else Rank(ws[0]) + Ranks(ws[1..])
  }

  lemma {:induction false} RanksUpdate(ws: seq<Worker>, i: nat, w: Worker)
    requires i < |ws|
    ensures Ranks(ws[i := w]) == Ranks(ws) - Rank(ws[i]) + Rank(w)
  {
    if i > 0 {
      assert ws[i := w][1..] == ws[1..][i - 1 := w];
      RanksUpdate(ws[1..], i - 1, w);
    } else {
      assert ws[i := w][1..] == ws[1..];
    }
  }

  /** `n` is nearer to the end of the round than `s`. */
  ghost predicate Nearer(n: State, s: State) {
    var p, q := |Todo(n)|, |Todo(s)|;
    || p < q
    || (p == q && Idle(n) < Idle(s))
    || (p == q && Idle(n) == Idle(s) && Unhanded(n.shared) < Unhanded(s.shared))
    || (p == q && Idle(n) == Idle(s) && Unhanded(n.shared) == Unhanded(s.shared)
        && Ranks(n.workers) < Ranks(s.workers))
  }

  // ---------------------------------------------------------------------- hope

  /** A merge is under way, or a tablet of the batch is still to be handed out. */
  ghost predicate MergeAhead(sh: Shared, ws: seq<Worker>) {
    (exists w :: 0 <= w < |ws| && Carries(ws[w])) || sh.index < |sh.batch|
  }

  /** The image would upgrade now, or a merge will make it so. */
  ghost predicate Hopeful(s: State) {
    CanUpgrade(s) || Todo(s) != {} || MergeAhead(s.shared, s.workers)
  }

  ghost function Unflagged(s: State): set<Tablet> {
    set t | t in s.status && !s.status[t].merged
  }

  /** The next version has a tablet, or a merge can make one. */
  ghost predicate Fruitful(s: State) {
    Kept(s.status, s.service + 1) || Todo(s) != {} || AtWork(s.shared, s.workers, Unflagged(s))
  }

  // --------------------------------------------------------------------- steps

  /** A worker's step that comes nearer to the end of the round and spoils nothing. */
  ghost predicate Helps(s: State, e: Event) {
    && Enabled(s, e) && Own(e) && Live(Apply(s, e)) && Nearer(Apply(s, e), s)
    && (Hopeful(s) ==> Hopeful(Apply(s, e))) && (Fruitful(s) ==> Fruitful(Apply(s, e)))
  }

  /** A worker's step that ends the round. */
  ghost predicate Ends(s: State, e: Event) {
    Enabled(s, e) && Own(e) && Upgrades(s, e)
  }

  ghost predicate CanStep(s: State) {
    exists e :: Helps(s, e) || Ends(s, e)
  }

  lemma LiveGoesOn(s: State, e: Event)
    requires Live(s) && Enabled(s, e)
    requires Served(Apply(s, e)) && Apply(s, e).shared.frozen > Apply(s, e).service && Staffed(Apply(s, e).workers)
    ensures Live(Apply(s, e))
  {
    StepKeepsCounts(s, e);
    StepKeepsOrder(s, e);
  }

  lemma SameTodo(s: State, n: State)
    requires n.status == s.status && n.shared.frozen == s.shared.frozen
    ensures Todo(n) == Todo(s)
  {
    assert forall t :: Pending(n, t, n.shared.frozen) <==> Pending(s, t, s.shared.frozen);
  }

  /** A worker moves on, with the same tablet in hand or none, and nothing else
      changes but counters. */
  ghost predicate Advances(s: State, n: State, w: nat) {
    && At(s, w) && |n.workers| == |s.workers| && n.workers == s.workers[w := n.workers[w]]
    && n.status == s.status && n.service == s.service && n.newest == s.newest
    && n.shared.batch == s.shared.batch && n.shared.index == s.shared.index && n.shared.frozen == s.shared.frozen
    && Rank(n.workers[w]) < Rank(s.workers[w])
    && Carries(n.workers[w]) == Carries(s.workers[w])
    && (Carries(n.workers[w]) ==> n.workers[w].tablet == s.workers[w].tablet)
  }

  lemma AdvancesIsNearer(s: State, n: State, w: nat)
    requires Advances(s, n, w)
    ensures Nearer(n, s) && Hopeful(n) == Hopeful(s) && Fruitful(n) == Fruitful(s)
  {
    RanksUpdate(s.workers, w, n.workers[w]);
    SameTodo(s, n);
    assert forall v :: 0 <= v < |s.workers| ==> Carries(n.workers[v]) == Carries(s.workers[v]);
    assert Unflagged(n) == Unflagged(s);
    SameWork(s, n, Todo(s));
    SameWork(s, n, Unflagged(s));
  }

  lemma SameWork(s: State, n: State, todo: set<Tablet>)
    requires |n.workers| == |s.workers| && n.shared.batch == s.shared.batch && n.shared.index == s.shared.index
    requires forall v :: 0 <= v < |s.workers| ==> InHand(n.workers[v], todo) == InHand(s.workers[v], todo)
    ensures AtWork(n.shared, n.workers, todo) == AtWork(s.shared, s.workers, todo)
  {
  }

  /** The step of a worker that is neither merging nor asking for a tablet. */
  lemma WorkerAdvances(s: State, e: Event, w: nat)
    requires Live(s) && Enabled(s, e) && Advances(s, Apply(s, e), w)
    requires !Apply(s, e).workers[w].Exited?
    requires Apply(s, e).workers[w].Releasing? ==> !Apply(s, e).workers[w].leaving
    ensures Live(Apply(s, e)) && Nearer(Apply(s, e), s)
    ensures Hopeful(Apply(s, e)) == Hopeful(s) && Fruitful(Apply(s, e)) == Fruitful(s)
  {
    LiveGoesOn(s, e);
    AdvancesIsNearer(s, Apply(s, e), w);
  }

  lemma HolderSteps(s: State, w: nat)
    requires Live(s) && At(s, w) && (s.workers[w].Releasing? || s.workers[w].Admitted?)
    ensures CanStep(s)
  {
    var e := if s.workers[w].Releasing? then Release(w) else StartMerge(w);
    WorkerAdvances(s, e, w);
    assert Helps(s, e);
  }

  lemma HoldingSteps(s: State, w: nat)
    requires Live(s) && At(s, w) && s.workers[w].Holding?
    requires forall v :: 0 <= v < |s.workers| ==> !s.workers[v].Merging?
    ensures CanStep(s)
  {
    var d := s.workers[w].tablet.disk;
    HeldIsServed(s, w);
    NoneMerges(s.workers, d);
    var e := Examine(w, ADMITTED);
    WorkerAdvances(s, e, w);
    assert Helps(s, e);
  }

  lemma {:induction false} NoneMerges(ws: seq<Worker>, d: nat)
    requires forall v :: 0 <= v < |ws| ==> !ws[v].Merging?
    ensures Count(ws, MergesOn(d)) == 0
  {
    if ws != [] { NoneMerges(ws[1..], d); }
  }

  lemma FreshId(all: set<Tablet>) returns (id: nat)
    ensures forall t :: t in all ==> t.id < id
  {
    if all == {} {
      id := 0;
    } else {
      var t :| t in all;
      id := FreshId(all - {t});
      id := if t.id < id then id else t.id + 1;
    }
  }

  /** A merge that goes well: it makes new tablets, none if its tablet is merged already. */
  function EndsWell(w: nat, made: seq<Tablet>): Event {
    FinishMerge(w, true, true, made)
  }

  ghost predicate Makes(s: State, w: nat, made: seq<Tablet>) {
    && At(s, w) && s.workers[w].Merging?
    && (made == [] <==> StatusOf(s, s.workers[w].tablet).merged)
    && forall i :: 0 <= i < |made| ==> made[i].version == s.service + 1 && made[i] !in s.status
  }

  /** Nothing lies in the way of the next version. */
  lemma OpenCanPrepare(s: State)
    requires Open(s)
    ensures CanPrepare(s.status, s.service + 1) && Evicted(s.status, s.service + 1) == s.status
    ensures NewestAfter(s, s.service + 1) == s.service + 1
  {
    assert forall t :: t in s.status ==> !InTheWay(s.status, t, s.service + 1);
  }

  /** `n` is `s` after such a merge. */
  ghost predicate IsWellEnded(s: State, n: State, w: nat, made: seq<Tablet>) {
    && Makes(s, w, made) && s.workers[w].tablet in s.status && s.workers[w].tablet.version == s.service > 0
    && n.shared == s.shared.(pending := n.shared.pending) && n.shared.frozen == s.service + 1
    && n.service == s.service && n.newest == s.service + 1
    && var t := s.workers[w].tablet;
    && n.status == Enter(s.status, made)[t := s.status[t].(merged := true, mergeCount := s.status[t].mergeCount + 1)]
    && n.workers == s.workers[w := Releasing(s.workers[w].slot, t, false)]
  }

  lemma WellEnded(s: State, w: nat, made: seq<Tablet>)
    requires Makes(s, w, made) && |s.shared.pending| == COUNTERS && s.shared.frozen == s.service + 1
    requires s.workers[w].tablet in s.status && s.workers[w].tablet.version == s.service > 0
    requires CanPrepare(s.status, s.service + 1) && Evicted(s.status, s.service + 1) == s.status
    requires NewestAfter(s, s.service + 1) == s.service + 1
    ensures Enabled(s, EndsWell(w, made)) && IsWellEnded(s, Apply(s, EndsWell(w, made)), w, made)
  {
  }

  /** What it leaves in the image. */
  lemma WellEndedKeeps(s: State, n: State, t: Tablet, st: Status, made: seq<Tablet>, version: int)
    requires t in s.status && st.inImage == s.status[t].inImage
    requires forall i :: 0 <= i < |made| ==> made[i] !in s.status
    requires n.status == Enter(s.status, made)[t := st] && Kept(s.status, version)
    ensures Kept(n.status, version)
  {
    var x :| x in s.status && s.status[x].inImage && x.version == version;
    assert x in n.status && n.status[x].inImage;
  }

  lemma WellEndedImage(s: State, n: State, w: nat, made: seq<Tablet>)
    requires IsWellEnded(s, n, w, made)
    ensures Todo(n) == Todo(s) - {s.workers[w].tablet}
    ensures made == [] ==> Unflagged(n) == Unflagged(s)
  {
    var t := s.workers[w].tablet;
    assert forall x :: Pending(n, x, n.shared.frozen) <==> x != t && Pending(s, x, s.shared.frozen);
  }

  /** What it leaves to do. */
  lemma WellEndedIsNearer(s: State, n: State, w: nat, t: Tablet)
    requires At(s, w) && s.workers[w].Merging? && s.workers[w].tablet == t && Todo(n) == Todo(s) - {t}
    requires n.workers == s.workers[w := Releasing(s.workers[w].slot, t, false)]
    requires n.shared.batch == s.shared.batch && n.shared.index == s.shared.index
    ensures Nearer(n, s)
  {
    if t in Todo(s) {
      assert |Todo(n)| < |Todo(s)|;
    } else {
      assert Todo(n) == Todo(s);
      RanksUpdate(s.workers, w, n.workers[w]);
      SameWork(s, n, Todo(s));
    }
  }

  lemma WellEndedIsFruitful(s: State, n: State, w: nat, t: Tablet)
    requires At(s, w) && s.workers[w].Merging? && s.workers[w].tablet == t && Todo(n) == Todo(s) - {t}
    requires n.workers == s.workers[w := Releasing(s.workers[w].slot, t, false)]
    requires n.shared.batch == s.shared.batch && n.shared.index == s.shared.index && n.service == s.service
    requires t in s.status && s.status[t].merged && Unflagged(n) == Unflagged(s)
    requires Kept(s.status, s.service + 1) ==> Kept(n.status, s.service + 1)
    ensures Fruitful(s) ==> Fruitful(n)
  {
    assert Todo(n) == Todo(s);
    SameWork(s, n, Unflagged(s));
  }

  lemma SomeMade(s: State, w: nat) returns (made: seq<Tablet>)
    requires At(s, w) && s.workers[w].Merging?
    ensures Makes(s, w, made)
  {
    var t := s.workers[w].tablet;
    var id := FreshId(s.status.Keys);
    made := if StatusOf(s, t).merged then [] else [Tablet(id, s.service + 1, t.disk)];
  }

  lemma WellEndedHelps(s: State, n: State, w: nat, made: seq<Tablet>)
    requires IsWellEnded(s, n, w, made) && Kept(s.status, s.service)
    ensures Nearer(n, s) && Hopeful(n) && Served(n) && (Fruitful(s) ==> Fruitful(n))
  {
    var t := s.workers[w].tablet;
    WellEndedImage(s, n, w, made);
    WellEndedKeeps(s, n, t, n.status[t], made, s.service);
    WellEndedIsNearer(s, n, w, t);
    if made != [] {
      assert made[0] in n.status && n.status[made[0]].inImage;
    } else {
      if Kept(s.status, s.service + 1) { WellEndedKeeps(s, n, t, n.status[t], made, s.service + 1); }
      WellEndedIsFruitful(s, n, w, t);
    }
  }

  lemma WellEndedLives(s: State, w: nat, made: seq<Tablet>)
    requires Live(s) && Makes(s, w, made)
    ensures Enabled(s, EndsWell(w, made)) && IsWellEnded(s, Apply(s, EndsWell(w, made)), w, made)
  {
    HeldIsServed(s, w);
    OpenCanPrepare(s);
    WellEnded(s, w, made);
  }

  lemma WellEndedStaysLive(s: State, w: nat, made: seq<Tablet>)
    requires Live(s) && Enabled(s, EndsWell(w, made)) && IsWellEnded(s, Apply(s, EndsWell(w, made)), w, made)
    requires Served(Apply(s, EndsWell(w, made)))
    ensures Live(Apply(s, EndsWell(w, made)))
  {
    LiveGoesOn(s, EndsWell(w, made));
  }

  /** A merge ends well. */
  lemma MergingSteps(s: State, w: nat)
    requires Live(s) && At(s, w) && s.workers[w].Merging?
    ensures CanStep(s)
  {
    var made := SomeMade(s, w);
    var e := EndsWell(w, made);
    WellEndedLives(s, w, made);
    WellEndedHelps(s, Apply(s, e), w, made);
    WellEndedStaysLive(s, w, made);
    assert Helps(s, e);
  }

  /** A worker without a tablet comes nearer to its next request. */
  lemma FreeSteps(s: State, w: nat)
    requires Live(s) && At(s, w)
    requires s.workers[w].Returned? || s.workers[w].Top? || s.workers[w].Throttled? || (s.workers[w].Parked? && s.workers[w].byLoad && s.workers[w].woken)
    ensures CanStep(s)
  {
    if s.workers[w].Parked? {
      ResumeLoaded(s, w);
    } else {
      var e := if s.workers[w].Returned? then NextLoop(w, false) else if s.workers[w].Top? then CheckLoad(w, true) else Throttle(w);
      WorkerAdvances(s, e, w);
      assert Helps(s, e);
    }
  }

  lemma ResumeLoaded(s: State, w: nat)
    requires Live(s) && At(s, w) && s.workers[w].Parked? && s.workers[w].byLoad && s.workers[w].woken
    ensures CanStep(s)
  {
    var found := SomeBatch(s);
    var e := Resume(w, FetchEnv(false, found, true, CanUpgrade(s)));
    WorkerAdvances(s, e, w);
    assert Helps(s, e);
  }

  /** An image can always answer. */
  lemma SomeBatch(s: State) returns (found: seq<Tablet>)
    ensures BatchOf(s, s.shared.frozen, found) && (found == [] <==> Todo(s) == {})
  {
    var all := Listed(Todo(s));
    found := if |all| <= BATCH_MAX then all else all[..BATCH_MAX];
    assert forall i :: 0 <= i < |all| ==> all[i] in Todo(s);
    forall t | Pending(s, t, s.shared.frozen) && |found| < BATCH_MAX ensures t in found { assert t in Todo(s); }
    assert all != [] ==> all[0] in Todo(s);
  }

  lemma Listed(all: set<Tablet>) returns (list: seq<Tablet>)
    ensures forall t :: t in list <==> t in all
    ensures forall i, j :: 0 <= i < j < |list| ==> list[i] != list[j]
  {
    if all == {} {
      list := [];
    } else {
      var t :| t in all;
      var rest := Listed(all - {t});
      list := rest + [t];
    }
  }

  // ---------------------------------------------------------------- asking for more

  /** The worker is about to call `get_tablets`. */
  predicate Asking(w: Worker) {
    w.Fetching? || (w.Parked? && !w.byLoad && w.woken)
  }

  ghost predicate NoHolders(ws: seq<Worker>) {
    forall v :: 0 <= v < |ws| ==> !Holds(ws[v])
  }

  function Ask(s: State, w: nat, env: FetchEnv): Event
    requires At(s, w)
  {
    if s.workers[w].Fetching? then Fetch(w, env) else Resume(w, env)
  }

  /** What such a call leads to. */
  lemma AskIsFetch(s: State, w: nat, env: FetchEnv)
    requires Live(s) && At(s, w) && Asking(s.workers[w]) && Answer(s, env)
    ensures Enabled(s, Ask(s, w, env))
    ensures var o, n := GetTablets(s.shared, s.service, env), Apply(s, Ask(s, w, env));
      && n.status == s.status && n.newest == s.newest && n.workers == s.workers[w := Fate(o)]
      && n.service == (if o.upgraded then s.newest else s.service)
      && n.shared.batch == o.shared.batch && n.shared.index == o.shared.index && n.shared.frozen == s.shared.frozen
  {
    if s.workers[w].Parked? { ResumeIsFetch(s, w, env); }
  }

  /** The next slot is handed out: what was at work still is, and no more. */
  lemma HandOutSameWork(s: State, n: State, w: nat, todo: set<Tablet>)
    requires At(s, w) && NoHolders(s.workers) && s.shared.index < |s.shared.batch|
    requires n.workers == s.workers[w := Holding(s.shared.index, s.shared.batch[s.shared.index])]
    requires n.shared.batch == s.shared.batch && n.shared.index == s.shared.index + 1
    ensures AtWork(n.shared, n.workers, todo) == AtWork(s.shared, s.workers, todo)
  {
    var i := s.shared.index;
    if AtWork(s.shared, s.workers, todo) {
      var j :| i <= j < |s.shared.batch| && s.shared.batch[j] in todo;
      if j == i { assert InHand(n.workers[w], todo); }
    }
    if AtWork(n.shared, n.workers, todo) {
      assert InHand(n.workers[w], todo) ==> s.shared.batch[i] in todo;
    }
  }

  lemma HandOutIsNearer(s: State, n: State, w: nat)
    requires At(s, w) && NoHolders(s.workers) && s.shared.index < |s.shared.batch|
    requires n.status == s.status && n.shared.frozen == s.shared.frozen && n.service == s.service
    requires n.workers == s.workers[w := Holding(s.shared.index, s.shared.batch[s.shared.index])]
    requires n.shared.batch == s.shared.batch && n.shared.index == s.shared.index + 1
    ensures Nearer(n, s) && Hopeful(n) && (Fruitful(s) ==> Fruitful(n))
  {
    SameTodo(s, n);
    HandOutSameWork(s, n, w, Todo(s));
    assert Unflagged(n) == Unflagged(s);
    HandOutSameWork(s, n, w, Unflagged(s));
    assert Carries(n.workers[w]);
  }

  /** A fresh batch is taken: its first tablet is in hand. */
  lemma RefillIsNearer(s: State, n: State, w: nat, found: seq<Tablet>)
    requires At(s, w) && NoHolders(s.workers) && s.shared.index >= |s.shared.batch|
    requires n.status == s.status && n.shared.frozen == s.shared.frozen
    requires found != [] && BatchOf(s, s.shared.frozen, found) && n.workers == s.workers[w := Holding(0, found[0])]
    ensures Nearer(n, s) && Hopeful(n) && Fruitful(n)
  {
    SameTodo(s, n);
    assert Pending(s, found[0], s.shared.frozen);
    assert found[0] in Todo(n);
    assert InHand(n.workers[w], Todo(n));
  }

  lemma HandOutSteps(s: State, w: nat, env: FetchEnv)
    requires Live(s) && At(s, w) && Asking(s.workers[w]) && NoHolders(s.workers) && Answer(s, env)
    requires s.shared.index < |s.shared.batch|
    ensures CanStep(s)
  {
    var e := Ask(s, w, env);
    AskIsFetch(s, w, env);
    LiveGoesOn(s, e);
    HandOutIsNearer(s, Apply(s, e), w);
    assert Helps(s, e);
  }

  lemma RefillSteps(s: State, w: nat, env: FetchEnv)
    requires Live(s) && At(s, w) && Asking(s.workers[w]) && NoHolders(s.workers) && Answer(s, env)
    requires s.shared.index >= |s.shared.batch| && !env.imageFails && env.found != []
    ensures CanStep(s)
  {
    var e := Ask(s, w, env);
    NoHoldersCount(s);
    AskIsFetch(s, w, env);
    LiveGoesOn(s, e);
    RefillIsNearer(s, Apply(s, e), w, env.found);
    assert Helps(s, e);
  }

  /** With nobody holding a tablet, the next call hands one out, takes a fresh batch,
      or ends the round. */
  lemma AskSteps(s: State, w: nat)
    requires Live(s) && Hopeful(s) && At(s, w) && Asking(s.workers[w]) && NoHolders(s.workers)
    ensures CanStep(s)
  {
    var found := SomeBatch(s);
    var env := FetchEnv(false, found, true, CanUpgrade(s));
    if s.shared.index < |s.shared.batch| {
      HandOutSteps(s, w, env);
    } else if found != [] {
      RefillSteps(s, w, env);
    } else {
      NoHoldersCount(s);
      AskIsFetch(s, w, env);
      assert Ends(s, Ask(s, w, env));
    }
  }

  lemma NoHoldersCount(s: State)
    requires CountInv(s) && NoHolders(s.workers)
    ensures s.shared.haveGot == s.shared.index
  {
    if Count(s.workers, IsHolder) > 0 { var w := CountWitness(s.workers, IsHolder); }
  }

  // ------------------------------------------------------------- by the workers alone

  /** From every hopeful state there is a step that ends the round or comes nearer to
      its end. */
  lemma SomeStep(s: State)
    requires Live(s) && Hopeful(s)
    ensures CanStep(s)
  {
    if w :| 0 <= w < |s.workers| && (s.workers[w].Releasing? || s.workers[w].Admitted?) {
      HolderSteps(s, w);
    } else if w :| 0 <= w < |s.workers| && s.workers[w].Merging? {
      MergingSteps(s, w);
    } else if w :| 0 <= w < |s.workers| && s.workers[w].Holding? {
      HoldingSteps(s, w);
    } else {
      var w :| 0 <= w < |s.workers| && Awake(s.workers[w]);
      if Asking(s.workers[w]) { AskSteps(s, w); } else { FreeSteps(s, w); }
    }
  }

  ghost predicate CanEnd(b: State) {
    exists e :: Ends(b, e)
  }

  /** The round can end here, in a version that has a tablet. */
  ghost predicate CanEndWell(b: State) {
    CanEnd(b) && Kept(b.status, b.service + 1)
  }

  /** Where a round ends, there is nothing left to merge. */
  lemma EndIsFruitful(s: State, e: Event)
    requires Live(s) && Ends(s, e) && Fruitful(s)
    ensures CanEndWell(s)
  {
    UpgradeStep(s, e);
    assert Todo(s) == {};
  }

  lemma {:induction false} WorksToTheEnd(a: State, s: State, scheduled: bool)
    requires Reaches(a, s, scheduled) && Live(s) && Hopeful(s)
    ensures exists b :: Reaches(a, b, scheduled) && CanEnd(b) && (Fruitful(s) ==> CanEndWell(b))
    decreases |Todo(s)|, Idle(s), Unhanded(s.shared), Ranks(s.workers)
  {
    SomeStep(s);
    var e :| Helps(s, e) || Ends(s, e);
    if Ends(s, e) {
      assert CanEnd(s);
      if Fruitful(s) { EndIsFruitful(s, e); }
    } else {
      ReachesOn(a, s, e, Apply(s, e), scheduled);
      WorksToTheEnd(a, Apply(s, e), scheduled);
    }
  }

  /** The event does not touch the image from outside, and is no `schedule` call; a
      chance wake-up does not matter. */
  predicate Inner(e: Event) { Own(e) || e.Wakeup? }

  lemma NothingFound(s: State, found: seq<Tablet>)
    requires BatchOf(s, s.shared.frozen, found)
    ensures Todo(s) == {} ==> found == []
  {
    if found != [] { assert Pending(s, found[0], s.shared.frozen) && found[0] in Todo(s); }
  }

  /** What hope depends on. */
  lemma HopelessSame(s: State, n: State)
    requires !Hopeful(s) && n.status == s.status && n.newest == s.newest && n.service == s.service
    requires n.shared.frozen == s.shared.frozen && |n.workers| == |s.workers|
    requires n.shared.index >= |n.shared.batch|
    requires forall v :: 0 <= v < |s.workers| && Carries(n.workers[v]) ==> Carries(s.workers[v])
    ensures !Hopeful(n)
  {
    SameTodo(s, n);
  }

  lemma HopelessFetch(s: State, w: nat, env: FetchEnv)
    requires At(s, w) && Answer(s, env) && !Hopeful(s)
    ensures !Hopeful(FetchStep(s, w, env)) && !GetTablets(s.shared, Serving(s), env).upgraded
  {
    NothingFound(s, env.found);
    HopelessSame(s, FetchStep(s, w, env));
  }

  lemma HopelessResume(s: State, w: nat, env: FetchEnv)
    requires Enabled(s, Resume(w, env)) && !Hopeful(s)
    ensures !Hopeful(Apply(s, Resume(w, env))) && !Upgrades(s, Resume(w, env))
  {
    ResumeIsFetch(s, w, env);
    HopelessSame(s, Up(s, w));
    HopelessFetch(Up(s, w), w, env);
  }

  lemma HopelessStays(s: State, e: Event)
    requires Enabled(s, e) && Inner(e) && !Hopeful(s)
    ensures !Hopeful(Apply(s, e)) && !Upgrades(s, e)
  {
    if e.Fetch? {
      HopelessFetch(s, e.w, e.env);
    } else if e.Resume? {
      HopelessResume(s, e.w, e.env);
    } else {
      HopelessSame(s, Apply(s, e));
    }
  }

  /** A hopeless round is never ended by the workers. */
  lemma {:induction false} HopelessForGood(r: Run, i: nat)
    requires IsPath(r) && i < |r.states| && !Hopeful(r.states[0])
    requires forall k :: 0 <= k < i ==> Inner(r.events[k])
    ensures !Hopeful(r.states[i])
    ensures i < |r.events| && Inner(r.events[i]) ==> !Upgrades(r.states[i], r.events[i])
  {
    if i > 0 {
      HopelessForGood(r, i - 1);
      assert StepOf(r, i - 1);
      HopelessStays(r.states[i - 1], r.events[i - 1]);
    }
    if i < |r.events| && Inner(r.events[i]) {
      assert StepOf(r, i);
      HopelessStays(r.states[i], r.events[i]);
    }
  }

  lemma HopelessCannotEnd(s: State, b: State)
    requires Works(s, b) && !Hopeful(s)
    ensures !CanEnd(b)
  {
    var r :| Leads(r, s, b) && AllOwn(r);
    HopelessForGood(r, |r.events|);
    forall e ensures !Ends(b, e) {
      if Enabled(b, e) && Own(e) { HopelessStays(b, e); }
    }
  }

  /** In an open round with all its workers: by the workers' own steps it can end if and
      only if the image would upgrade already, a tablet is to be merged, or a merge is
      ahead. */
  lemma RoundCanEndIff(s: State)
    requires Live(s)
    ensures (exists b :: Works(s, b) && CanEnd(b)) <==> Hopeful(s)
  {
    if Hopeful(s) {
      GoesNowhere(s);
      WorksToTheEnd(s, s, false);
    } else {
      forall b | Works(s, b) ensures !CanEnd(b) { HopelessCannotEnd(s, b); }
    }
  }
}
