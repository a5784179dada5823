/** What every step of the merge scheduler keeps of its versions and of the workers'
    wake-ups, as long as the served version has a tablet. */
module MergeOrder {
  import opened MergeSections
  import opened MergeProtocol
  import opened MergeInvariant

  // -------------------------------------------------------------- invariants

  /** Versions, in terms of the version in service: the frozen one is that or the
      next, except on a server that has just received its first tablets. */
  ghost predicate VersionInv(sh: Shared, service: int) {
    && service >= 0
    && (sh.frozen == service || sh.frozen == service + 1 || (sh.frozen == 0 && sh.batch == []))
    && (service == 0 ==> sh.frozen == 0 && sh.batch == [])
    && (sh.frozen > service ==> !sh.roundEnd)
    && (sh.pendingInUpgrade ==> !sh.roundEnd)
    && (forall i :: 0 <= i < |sh.batch| ==> sh.batch[i].version == service)
  }

  /** The image: tablets near the served version, and none older in an open round. */
  ghost predicate ImageInv(s: State) {
    && (if s.service == 0 then forall t :: t in s.status ==> !s.status[t].inImage
        else s.service <= s.newest <= s.service + 1 && NearService(s) && NextIsNewest(s))
    && (s.shared.frozen > s.service ==>
          forall t :: t in s.status && s.status[t].inImage ==> s.service <= t.version)
  }

  predicate Asleep(w: Worker) { w.Parked? && !w.woken }

  /** Can go on without being woken. */
  predicate Awake(w: Worker) { !Asleep(w) && !w.Exited? }

  ghost predicate SomeExited(ws: seq<Worker>) {
    exists i :: 0 <= i < |ws| && ws[i].Exited?
  }

  ghost predicate SomeAwake(ws: seq<Worker>) {
    exists i :: 0 <= i < |ws| && Awake(ws[i])
  }

  /** While a round is on, some worker is running or has been woken, unless one has
      left. */
  ghost predicate AwakeInv(s: State) {
    s.shared.frozen > s.service ==> SomeAwake(s.workers) || SomeExited(s.workers)
  }

  ghost predicate OrderInv(s: State) {
    VersionInv(s.shared, s.service) && ImageInv(s) && AwakeInv(s) && !s.killed
  }

  lemma InitOrderInv(s: State)
    requires Init(s)
    ensures OrderInv(s)
  {
  }

  // ------------------------------------------------------------ preservation

  /** A served image upgrades to the version after the served one. */
  lemma UpgradeTarget(s: State)
    requires Served(s) && ImageInv(s) && s.service > 0 && CanUpgrade(s)
    ensures s.newest == s.service + 1
  {
  }

  lemma FetchKeepsVersions(s: State, w: nat, env: FetchEnv)
    requires OrderInv(s) && Served(s) && At(s, w) && Answer(s, env)
    ensures var n := FetchStep(s, w, env); VersionInv(n.shared, n.service)
  {
    var o := GetTablets(s.shared, s.service, env);
    if s.shared.frozen > s.service {
      forall i | 0 <= i < |env.found| ensures env.found[i].version == s.service {
        assert Pending(s, env.found[i], s.shared.frozen);
      }
    }
    if o.upgraded { UpgradeTarget(s); }
  }

  lemma FetchKeepsImage(s: State, w: nat, env: FetchEnv)
    requires OrderInv(s) && Served(s) && At(s, w) && Answer(s, env)
    ensures ImageInv(FetchStep(s, w, env))
  {
    var o := GetTablets(s.shared, s.service, env);
    if o.upgraded { UpgradeTarget(s); }
  }

  lemma FetchKeepsAwake(s: State, w: nat, env: FetchEnv)
    requires CountInv(s) && OrderInv(s) && Served(s) && At(s, w) && s.workers[w].Fetching? && Answer(s, env)
    ensures AwakeInv(FetchStep(s, w, env))
  {
    var n := FetchStep(s, w, env);
    if n.workers[w].Parked? && n.shared.frozen > n.service {
      if GetTablets(s.shared, s.service, env).upgraded {
        UpgradeTarget(s);
      } else {
        var h := CountWitness(s.workers, IsHolder);
        assert Awake(n.workers[h]);
      }
    } else if !n.workers[w].Parked? {
      assert Awake(n.workers[w]);
    }
  }

  lemma FetchKeepsOrder(s: State, w: nat, env: FetchEnv)
    requires CountInv(s) && OrderInv(s) && Served(s) && At(s, w) && s.workers[w].Fetching? && Answer(s, env)
    ensures OrderInv(FetchStep(s, w, env))
  {
    FetchKeepsVersions(s, w, env);
    FetchKeepsImage(s, w, env);
    FetchKeepsAwake(s, w, env);
  }

  /** A worker moves, and is awake or gone afterwards. */
  lemma MovedKeepsAwake(s: State, n: State, w: nat, next: Worker)
    requires OrderInv(s) && At(s, w) && (Awake(next) || next.Exited?)
    requires n == s.(workers := s.workers[w := next], shared := n.shared)
    requires n.shared.batch == s.shared.batch && n.shared.frozen == s.shared.frozen
    requires n.shared.roundEnd == s.shared.roundEnd && n.shared.pendingInUpgrade == s.shared.pendingInUpgrade
    ensures OrderInv(n)
  {
    assert n.workers[w] == next;
  }

  lemma ThrottleKeepsOrder(s: State, w: nat)
    requires CountInv(s) && OrderInv(s) && Enabled(s, Throttle(w))
    ensures OrderInv(Apply(s, Throttle(w)))
  {
    var n := Apply(s, Throttle(w));
    if s.shared.active == 1 {
      assert Awake(n.workers[w]);
    } else if n.shared.frozen > n.service {
      Replaced(s.workers, w, n.workers[w]);
      CountAtLeastOne(s.workers, w, IsActive);
      var h := CountWitness(n.workers, IsActive);
      assert Awake(n.workers[h]) || n.workers[h].Exited?;
    }
  }

  lemma LaunchKeepsOrder(s: State, version: int, launch: LaunchEnv)
    requires CountInv(s) && OrderInv(s) && Served(s)
    ensures OrderInv(LaunchStep(s, version, launch))
  {
    var n := LaunchStep(s, version, launch);
    if s.service > 0 { PreparedKeepsImage(s, s.service + 1); }
    assert Awake(n.workers[0]) || n.workers[0].Exited? || Asleep(n.workers[0]);
  }

  /** Tablets leave the image, or their flags change. */
  lemma FewerKeepsOrder(s: State, n: State)
    requires OrderInv(s) && n == s.(status := n.status)
    requires forall t :: t in n.status && n.status[t].inImage ==> t in s.status && s.status[t].inImage
    ensures OrderInv(n)
  {
  }

  /** The tablet a worker holds is of the served version. */
  lemma HeldIsServed(s: State, w: nat)
    requires CountInv(s) && OrderInv(s) && At(s, w) && Holds(s.workers[w])
    ensures s.workers[w].tablet.version == s.service <= s.shared.frozen
  {
    CountAtLeastOne(s.workers, w, IsHolder);
  }

  lemma ExamineKeepsOrder(s: State, w: nat, look: InspectEnv)
    requires CountInv(s) && OrderInv(s) && At(s, w) && s.workers[w].Holding?
    ensures OrderInv(ExamineStep(s, w, look))
  {
    var n := ExamineStep(s, w, look);
    HeldIsServed(s, w);
    var moved := s.(workers := n.workers);
    MovedKeepsAwake(s, moved, w, n.workers[w]);
    FewerKeepsOrder(moved, n);
  }

  /** Preparing the image for the served version or the next. */
  lemma PreparedKeepsImage(s: State, version: int)
    requires ImageInv(s) && Served(s) && s.service > 0 && (version == s.service || version == s.service + 1)
    ensures ImageInv(Prepared(s, version)) && Prepared(s, version).service == s.service
    ensures version == s.service + 1 ==> Prepared(s, version).newest == version
    ensures Kept(Prepared(s, version).status, s.service)
  {
    var n := Prepared(s, version);
    var t :| t in s.status && s.status[t].inImage && t.version == s.service;
    assert t in n.status && n.status[t].inImage;
    if Kept(n.status, s.service + 1) {
      var u :| u in n.status && n.status[u].inImage && u.version == s.service + 1;
      assert u in s.status && s.status[u].inImage;
    }
  }

  /** Tablets of the next version enter an image prepared for them. */
  lemma EnterKeepsImage(p: State, n: State, made: seq<Tablet>, t: Tablet, st: Status)
    requires ImageInv(p) && p.service > 0 && t.version == p.service && t in p.status && st.inImage == p.status[t].inImage
    requires forall i :: 0 <= i < |made| ==> made[i].version == p.service + 1
    requires made != [] ==> p.newest == p.service + 1
    requires n == p.(status := Enter(p.status, made)[t := st], shared := n.shared, workers := n.workers)
    requires n.shared.frozen == p.shared.frozen
    ensures ImageInv(n)
  {
    forall x | x in n.status && n.status[x].inImage
      ensures (x in p.status && p.status[x].inImage) || (made != [] && x.version == p.service + 1)
    {
    }
  }

  lemma FinishKeepsImage(s: State, w: nat, marked: bool, prepares: bool, made: seq<Tablet>)
    requires ImageInv(s) && Served(s) && Enabled(s, FinishMerge(w, marked, prepares, made))
    requires s.workers[w].tablet in s.status && s.workers[w].tablet.version == s.service > 0
    ensures var n := FinishStep(s, w, marked, prepares, made); ImageInv(n) && n.service == s.service
  {
    var n, t := FinishStep(s, w, marked, prepares, made), s.workers[w].tablet;
    var p := if prepares then Prepared(s, t.version + 1) else s;
    if prepares { PreparedKeepsImage(s, t.version + 1); }
    EnterKeepsImage(p, n, made, t, n.status[t]);
  }

  lemma FinishKeepsOrder(s: State, w: nat, marked: bool, prepares: bool, made: seq<Tablet>)
    requires CountInv(s) && OrderInv(s) && Served(s) && Enabled(s, FinishMerge(w, marked, prepares, made))
    ensures OrderInv(Apply(s, FinishMerge(w, marked, prepares, made)))
  {
    var n := FinishStep(s, w, marked, prepares, made);
    HeldIsServed(s, w);
    FinishKeepsImage(s, w, marked, prepares, made);
    assert n.workers[w] == Releasing(s.workers[w].slot, s.workers[w].tablet, false);
    assert Awake(n.workers[w]);
  }

  lemma PrepareKeepsOrder(s: State, version: int)
    requires OrderInv(s) && Served(s) && Enabled(s, Prepare(version))
    ensures OrderInv(Prepared(s, version))
  {
    if s.service > 0 { PreparedKeepsImage(s, version); }
  }

  /** A tablet changes: if it enters, it is of the served version or the next, or
      the first on an empty server. */
  lemma StatusKeepsOrder(s: State, t: Tablet, st: Status)
    requires OrderInv(s) && Served(s) && Enabled(s, SetStatus(t, st))
    ensures OrderInv(StatusStep(s, t, st))
  {
    if Enters(s, t, st) && s.service > 0 { PreparedKeepsImage(s, t.version); }
  }

  /** Every step from a state whose served version has a tablet. */
  lemma StepKeepsOrder(s: State, e: Event)
    requires CountInv(s) && OrderInv(s) && Served(s) && Enabled(s, e)
    ensures OrderInv(Apply(s, e))
  {
    match e
    case Launch(version, launch) => LaunchKeepsOrder(s, version, launch);
    case Fetch(w, env) => FetchKeepsOrder(s, w, env);
    case Resume(w, env) => ResumeKeepsOrder(s, w, env);
    case Throttle(w) => ThrottleKeepsOrder(s, w);
    case Examine(w, look) => ExamineKeepsOrder(s, w, look);
    case FinishMerge(w, marked, prepares, made) => FinishKeepsOrder(s, w, marked, prepares, made);
    case SetStatus(t, st) => StatusKeepsOrder(s, t, st);
    case CheckLoad(w, _) => MovedKeepsAwake(s, Apply(s, e), w, Apply(s, e).workers[w]);
    case Wakeup(w) => MovedKeepsAwake(s, Apply(s, e), w, Apply(s, e).workers[w]);
    case StartMerge(w) => MovedKeepsAwake(s, Apply(s, e), w, Apply(s, e).workers[w]);
    case Release(w) => MovedKeepsAwake(s, Apply(s, e), w, Apply(s, e).workers[w]);
    case NextLoop(w, _) => MovedKeepsAwake(s, Apply(s, e), w, Apply(s, e).workers[w]);
    case Prepare(version) => PrepareKeepsOrder(s, version);
  }

  lemma ResumeKeepsOrder(s: State, w: nat, env: FetchEnv)
    requires CountInv(s) && OrderInv(s) && Served(s) && Enabled(s, Resume(w, env))
    ensures OrderInv(Apply(s, Resume(w, env)))
  {
    ResumeIsFetch(s, w, env);
    UpKeepsCounts(s, w);
    MovedKeepsAwake(s, Up(s, w), w, Fetching);
    if !s.workers[w].byLoad { FetchKeepsOrder(Up(s, w), w, env); }
  }

  /** The states before `i` report the version in service. */
  ghost predicate ServedBefore(r: Run, i: nat) {
    forall k :: 0 <= k < i && k < |r.states| ==> Served(r.states[k])
  }

  lemma OneMoreKeepsOrder(r: Run, i: nat)
    requires IsRun(r) && i < |r.events| && CountInv(r.states[i]) && OrderInv(r.states[i]) && Served(r.states[i])
    ensures OrderInv(r.states[i + 1])
  {
    assert StepOf(r, i);
    StepKeepsOrder(r.states[i], r.events[i]);
  }

  /** Every state of every run, up to the first in which the served version is empty. */
  lemma {:induction false} RunKeepsOrder(r: Run, i: nat)
    requires IsRun(r) && i < |r.states| && ServedBefore(r, i)
    ensures CountInv(r.states[i]) && OrderInv(r.states[i])
  {
    RunKeepsCounts(r, i);
    if i == 0 {
      InitOrderInv(r.states[0]);
    } else {
      RunKeepsOrder(r, i - 1);
      OneMoreKeepsOrder(r, i - 1);
    }
  }
}
