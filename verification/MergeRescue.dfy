/** How an open round ends in a version with tablets, and how `schedule` frees a round
    that the workers cannot end. */
module MergeRescue {
  import opened MergeSections
  import opened MergeProtocol
  import opened MergeInvariant
  import opened MergeOrder
  import opened MergeTheorems
  import opened MergePaths
  import opened MergeProgress

  // ------------------------------------------------------------- the end with tablets

  /** Tablets only get flagged, or leave the image. */
  ghost predicate Shrinks(a: map<Tablet, Status>, b: map<Tablet, Status>) {
    && (forall t :: t in b ==> t in a)
    && (forall t :: t in a ==> t in b && (b[t].inImage ==> a[t].inImage) && (a[t].merged ==> b[t].merged))
  }

  lemma FruitlessShrinks(s: State, n: State)
    requires !Fruitful(s) && Shrinks(s.status, n.status) && n.service == s.service && n.shared.frozen == s.shared.frozen
    requires |n.workers| == |s.workers| && n.shared.batch == s.shared.batch && n.shared.index == s.shared.index
    requires forall v :: 0 <= v < |s.workers| && Carries(n.workers[v]) ==>
               Carries(s.workers[v]) && n.workers[v].tablet == s.workers[v].tablet
    ensures !Fruitful(n)
  {
    forall t | t in Todo(n) ensures t in Todo(s) { assert Pending(n, t, n.shared.frozen) && Pending(s, t, s.shared.frozen); }
    assert Todo(n) == {};
    forall v | 0 <= v < |n.workers| ensures !InHand(n.workers[v], Unflagged(n)) {
      assert !InHand(s.workers[v], Unflagged(s));
    }
    assert forall j :: n.shared.index <= j < |n.shared.batch| ==> n.shared.batch[j] !in Unflagged(s);
  }

  /** A merge of a flagged tablet makes nothing. */
  lemma FruitlessFinish(s: State, w: nat, marked: bool, prepares: bool, made: seq<Tablet>)
    requires Open(s) && !Fruitful(s) && Enabled(s, FinishMerge(w, marked, prepares, made))
    ensures !Fruitful(FinishStep(s, w, marked, prepares, made))
    ensures FinishStep(s, w, marked, prepares, made).service == s.service
  {
    var n := FinishStep(s, w, marked, prepares, made);
    HeldIsServed(s, w);
    assert !InHand(s.workers[w], Unflagged(s));
    assert s.workers[w].tablet in s.status;
    FruitlessShrinks(s, n);
  }

  lemma FruitlessExamine(s: State, w: nat, look: InspectEnv)
    requires !Fruitful(s) && At(s, w) && s.workers[w].Holding? && s.workers[w].tablet in s.status
    ensures !Fruitful(ExamineStep(s, w, look)) && ExamineStep(s, w, look).service == s.service
  {
    FruitlessShrinks(s, ExamineStep(s, w, look));
  }

  /** Every other step of a worker but asking. */
  lemma FruitlessWork(s: State, e: Event)
    requires !Fruitful(s) && Enabled(s, e) && Own(e) && !e.Examine? && !e.FinishMerge? && !e.Fetch? && !e.Resume?
    ensures !Fruitful(Apply(s, e)) && Apply(s, e).service == s.service
  {
    FruitlessShrinks(s, Apply(s, e));
  }

  lemma FruitlessFetch(s: State, w: nat, env: FetchEnv)
    requires Open(s) && At(s, w) && Answer(s, env) && !Fruitful(s) && Served(FetchStep(s, w, env))
    ensures !Fruitful(FetchStep(s, w, env)) && FetchStep(s, w, env).service == s.service
  {
    var n := FetchStep(s, w, env);
    NothingFound(s, env.found);
    if GetTablets(s.shared, s.service, env).upgraded { UpgradeTarget(s); }
    SameTodo(s, n);
    assert Unflagged(n) == Unflagged(s);
  }

  lemma FruitlessResume(s: State, w: nat, env: FetchEnv)
    requires Open(s) && Enabled(s, Resume(w, env)) && !Fruitful(s) && Served(Apply(s, Resume(w, env)))
    ensures !Fruitful(Apply(s, Resume(w, env))) && Apply(s, Resume(w, env)).service == s.service
  {
    if s.workers[w].byLoad {
      FruitlessShrinks(s, Apply(s, Resume(w, env)));
    } else {
      ResumeIsFetch(s, w, env);
      UpKeepsCounts(s, w);
      MovedKeepsAwake(s, Up(s, w), w, Fetching);
      FruitlessShrinks(s, Up(s, w));
      FruitlessFetch(Up(s, w), w, env);
    }
  }

  lemma FruitlessStays(s: State, e: Event)
    requires Open(s) && !Fruitful(s) && Enabled(s, e) && Own(e) && Served(Apply(s, e))
    ensures !Fruitful(Apply(s, e)) && Apply(s, e).service == s.service
  {
    if e.Fetch? {
      FruitlessFetch(s, e.w, e.env);
    } else if e.Resume? {
      FruitlessResume(s, e.w, e.env);
    } else if e.Examine? {
      FruitlessExamine(s, e.w, e.look);
    } else if e.FinishMerge? {
      FruitlessFinish(s, e.w, e.marked, e.prepares, e.made);
    } else {
      FruitlessWork(s, e);
    }
  }

  lemma OpenStays(s: State, e: Event)
    requires Open(s) && Enabled(s, e) && Own(e) && Served(Apply(s, e)) && Apply(s, e).service == s.service
    ensures Open(Apply(s, e))
  {
    OnlyScheduleFreezes(s, e);
    StepKeepsCounts(s, e);
    StepKeepsOrder(s, e);
  }

  /** As long as the served version is not empty, the workers do not make a tablet of
      the next version out of nothing. */
  lemma {:induction false} FruitlessForGood(r: Run, i: nat)
    requires IsPath(r) && i < |r.states| && AlwaysServed(r) && AllOwn(r)
    requires Open(r.states[0]) && !Fruitful(r.states[0])
    ensures Open(r.states[i]) && !Fruitful(r.states[i])
  {
    if i > 0 {
      FruitlessForGood(r, i - 1);
      assert StepOf(r, i - 1) && Served(r.states[i]);
      FruitlessStays(r.states[i - 1], r.events[i - 1]);
      OpenStays(r.states[i - 1], r.events[i - 1]);
    }
  }

  /** A fruitful round is hopeful. */
  lemma FruitGivesHope(s: State)
    requires Open(s) && Fruitful(s)
    ensures Hopeful(s)
  {
  }

  /** In an open round with all its workers: by the workers' own steps it can end in a
      version that has a tablet if and only if there is one already, or a tablet that
      is not flagged merged is to be merged or about to be. */
  lemma RoundCanEndWellIff(s: State)
    requires Live(s)
    ensures (exists b :: Works(s, b) && CanEndWell(b)) <==> Fruitful(s)
  {
    if Fruitful(s) {
      FruitGivesHope(s);
      GoesNowhere(s);
      WorksToTheEnd(s, s, false);
    } else {
      forall b | Works(s, b) ensures !CanEndWell(b) {
        var r :| Leads(r, s, b) && AllOwn(r);
        FruitlessForGood(r, |r.events|);
      }
    }
  }

  // --------------------------------------------------------------- schedule leads out

  /** After a `schedule` call that opened nothing: the workers have nothing to do but
      park, and nothing is in the way of the next round. */
  ghost predicate Closing(s: State) {
    && CountInv(s) && OrderInv(s) && Served(s) && s.service > 0 && s.shared.frozen == s.service == s.newest
    && Staffed(s.workers) && s.config.missing == 0 && s.config.mergePerDisk >= 1
    && !MergeAhead(s.shared, s.workers) && CanPrepare(s.status, s.service + 1)
  }

  /** A `schedule` call for the version after the served one. */
  function Again(s: State): Event { Launch(s.service + 1, LaunchEnv(true, true, true)) }

  /** If it finds all workers parked, it opens the round anew. */
  lemma ReopensLive(s: State)
    requires CountInv(s) && OrderInv(s) && Served(s) && s.service > 0 && CanPrepare(s.status, s.service + 1)
    requires s.shared.active == 0 && Staffed(s.workers) && s.config.mergePerDisk >= 1
    ensures Enabled(s, Again(s)) && Live(Apply(s, Again(s))) && CanUpgrade(Apply(s, Again(s)))
  {
    var n := Apply(s, Again(s));
    PreparedKeepsImage(s, s.service + 1);
    StepKeepsCounts(s, Again(s));
    StepKeepsOrder(s, Again(s));
  }

  /** Otherwise it takes the frozen version back, and the workers come to rest. */
  lemma ScheduleCloses(s: State)
    requires Live(s) && !Hopeful(s) && s.shared.active != 0
    ensures Enabled(s, Again(s)) && Closing(Apply(s, Again(s)))
  {
    OpenCanPrepare(s);
    StepKeepsCounts(s, Again(s));
    StepKeepsOrder(s, Again(s));
  }

  /** A worker's step on the way to rest. */
  ghost predicate Eases(s: State, e: Event) {
    Enabled(s, e) && Own(e) && Closing(Apply(s, e)) && Ranks(Apply(s, e).workers) < Ranks(s.workers)
  }

  ghost predicate CanEase(s: State) {
    exists e :: Eases(s, e)
  }

  lemma WorkerEases(s: State, e: Event, w: nat)
    requires Closing(s) && Enabled(s, e) && Own(e)
    requires var n := Apply(s, e);
      && At(s, w) && n.workers == s.workers[w := n.workers[w]] && Rank(n.workers[w]) < Rank(s.workers[w])
      && n.status == s.status && n.service == s.service && n.newest == s.newest
      && n.shared.frozen == s.shared.frozen && n.shared.batch == s.shared.batch && n.shared.index == s.shared.index
      && !Carries(n.workers[w]) && !n.workers[w].Releasing? && !n.workers[w].Exited?
    ensures CanEase(s)
  {
    var n := Apply(s, e);
    StepKeepsCounts(s, e);
    StepKeepsOrder(s, e);
    RanksUpdate(s.workers, w, n.workers[w]);
    assert forall v :: 0 <= v < |s.workers| && v != w ==> n.workers[v] == s.workers[v];
    assert Eases(s, e);
  }

  lemma AskerEases(s: State, w: nat)
    requires Closing(s) && At(s, w) && (s.workers[w].Fetching? || (s.workers[w].Parked? && s.workers[w].woken))
    ensures CanEase(s)
  {
    var found := SomeBatch(s);
    var env := FetchEnv(false, found, true, CanUpgrade(s));
    if s.workers[w].Parked? && !s.workers[w].byLoad { ResumeIsFetch(s, w, env); }
    WorkerEases(s, Ask(s, w, env), w);
  }

  lemma AwakeEases(s: State, w: nat)
    requires Closing(s) && At(s, w) && Awake(s.workers[w])
    ensures CanEase(s)
  {
    if s.workers[w].Fetching? || s.workers[w].Parked? {
      AskerEases(s, w);
    } else {
      assert !Carries(s.workers[w]);
      var e := if s.workers[w].Releasing? then Release(w) else if s.workers[w].Returned? then NextLoop(w, false)
               else if s.workers[w].Top? then CheckLoad(w, true) else Throttle(w);
      WorkerEases(s, e, w);
    }
  }

  lemma {:induction false} AllParked(ws: seq<Worker>)
    requires Staffed(ws) && !SomeAwake(ws)
    ensures Count(ws, IsActive) == 0
  {
    if Count(ws, IsActive) > 0 {
      var w := CountWitness(ws, IsActive);
      assert Awake(ws[w]);
    }
  }

  /** From there the round is opened anew and ends. */
  lemma {:induction false} ClosingEnds(a: State, s: State)
    requires Goes(a, s) && Closing(s)
    ensures exists b :: Goes(a, b) && CanEnd(b)
    decreases Ranks(s.workers)
  {
    if w :| 0 <= w < |s.workers| && Awake(s.workers[w]) {
      AwakeEases(s, w);
      var e :| Eases(s, e);
      GoesOn(a, s, e, Apply(s, e));
      ClosingEnds(a, Apply(s, e));
    } else {
      AllParked(s.workers);
      ReopensLive(s);
      ReopenedEnds(a, s);
    }
  }

  lemma ReopenedEnds(a: State, s: State)
    requires Goes(a, s) && Enabled(s, Again(s)) && Live(Apply(s, Again(s))) && CanUpgrade(Apply(s, Again(s)))
    ensures exists b :: Goes(a, b) && CanEnd(b)
  {
    GoesOn(a, s, Again(s), Apply(s, Again(s)));
    WorksToTheEnd(a, Apply(s, Again(s)), true);
  }

  /** Whatever state an open round is in, as long as no worker has left and the served
      version is not empty, it can end with an upgrade without a chance wake-up or a
      change from outside, given that `schedule` is called. */
  lemma LiveRoundEnds(s: State)
    requires Live(s)
    ensures exists b :: Goes(s, b) && CanEnd(b)
  {
    GoesNowhere(s);
    if Hopeful(s) {
      WorksToTheEnd(s, s, true);
    } else if s.shared.active == 0 {
      OpenCanPrepare(s);
      ReopensLive(s);
      ReopenedEnds(s, s);
    } else {
      ScheduleCloses(s);
      GoesOn(s, s, Again(s), Apply(s, Again(s)));
      ClosingEnds(s, Apply(s, Again(s)));
    }
  }

  /** So for every run. */
  lemma OpenRoundCanEnd(r: Run)
    requires IsRun(r) && AlwaysServed(r) && r.states[0].config.mergePerDisk >= 1
    requires r.states[|r.events|].shared.frozen > r.states[|r.events|].service
    requires Staffed(r.states[|r.events|].workers)
    ensures var s := r.states[|r.events|];
      && ((exists b :: Works(s, b) && CanEnd(b)) <==> Hopeful(s))
      && ((exists b :: Works(s, b) && CanEndWell(b)) <==> Fruitful(s))
      && (exists b :: Goes(s, b) && CanEnd(b))
  {
    RunKeepsOrder(r, |r.events|);
    RunKeepsCounts(r, |r.events|);
    var s := r.states[|r.events|];
    RoundCanEndIff(s);
    RoundCanEndWellIff(s);
    LiveRoundEnds(s);
  }
}
