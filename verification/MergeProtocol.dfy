/** The daily-merge scheduler as a transition system: any number of worker
    threads, each at a point of its loop, over the shared fields.  A step is
    one mutex-held section, one atomic counter update, one `schedule` call or
    one change made by the rest of the server. */
module MergeProtocol {
  import opened MergeSections

  /** Where a worker stands.  `slot` is the batch slot its tablet came from. */
  datatype Worker =
    | Top
    | Throttled
    | Fetching
    | Parked(byLoad: bool, woken: bool)
    | Holding(slot: nat, tablet: Tablet)
    | Admitted(slot: nat, tablet: Tablet)
    | Merging(slot: nat, tablet: Tablet)
    | Releasing(slot: nat, tablet: Tablet, leaving: bool)
    | Returned
    | Exited

  predicate Holds(w: Worker) {
    w.Holding? || w.Admitted? || w.Merging? || w.Releasing?
  }

  /** `missing` counts the threads that were asked for and did not start;
      `active` was initialised with all of them. */
  datatype Config = Config(missing: nat, minThreads: int, retryTimes: int, mergePerDisk: int)

  /** `service` and `newest` are the versions the image's service and newest slots
      are labelled with; `killed` says that a worker sent the process its signal. */
  datatype State = State(
    config: Config,
    shared: Shared,
    service: int,
    newest: int,
    status: map<Tablet, Status>,
    workers: seq<Worker>,
    killed: bool)

  function StatusOf(s: State, t: Tablet): Status {
    if t in s.status then s.status[t] else Status(false, false, false, 0)
  }

  // ------------------------------------------------------------------- image

  /** The image has a tablet of this version. */
  ghost predicate Kept(status: map<Tablet, Status>, version: int) {
    exists t :: t in status && status[t].inImage && t.version == version
  }

  /** The version the image reports: 0 once the served version has no tablet. */
  ghost function Serving(s: State): int {
    if Kept(s.status, s.service) then s.service else 0
  }

  /** The reported version is the one in service. */
  ghost predicate Served(s: State) {
    Serving(s) == s.service
  }

  /** Two versions lie in the same of the image's two slots. */
  predicate SameSlot(a: int, b: int) { a % 2 == b % 2 }

  /** `t` lies where tablets of `version` are to go. */
  predicate InTheWay(status: map<Tablet, Status>, t: Tablet, version: int) {
    t in status && status[t].inImage && t.version != version && SameSlot(t.version, version)
  }

  /** The slot can be taken over for `version`: what lies in the way is merged. */
  ghost predicate CanPrepare(status: map<Tablet, Status>, version: int) {
    forall t :: InTheWay(status, t, version) ==> status[t].merged
  }

  /** The slot is taken over: what lay in the way has left the image. */
  function Evicted(status: map<Tablet, Status>, version: int): (r: map<Tablet, Status>)
    ensures forall t :: t in r <==> t in status
    ensures forall t :: t in r ==> r[t] == if InTheWay(status, t, version) then status[t].(inImage := false) else status[t]
  {
    map t | t in status :: if InTheWay(status, t, version) then status[t].(inImage := false) else status[t]
  }

  /** The newest version after that. */
  ghost function NewestAfter(s: State, version: int): int {
    if SameSlot(s.newest, version) || !Kept(s.status, s.newest) || version > s.newest then version else s.newest
  }

  /** The image is prepared to take tablets of `version`; if that is the slot in
      service, its label changes too. */
  ghost function Prepared(s: State, version: int): State {
    s.(status := Evicted(s.status, version), newest := NewestAfter(s, version),
       service := if s.service > 0 && SameSlot(s.service, version) then version else s.service)
  }

  /** `upgrade_service` succeeds: it takes an empty newest version, and refuses one
      with tablets that is not above the reported version. */
  ghost predicate CanUpgrade(s: State) {
    !Kept(s.status, s.newest) || s.newest > Serving(s)
  }

  /** A tablet that a round to `version` still has to merge. */
  predicate Pending(s: State, t: Tablet, version: int) {
    t in s.status && s.status[t].inImage && !s.status[t].merged && t.version < version
  }

  /** What the image answers: distinct pending tablets, all of them unless the
      batch is full. */
  ghost predicate BatchOf(s: State, version: int, found: seq<Tablet>) {
    && |found| <= BATCH_MAX
    && (forall i :: 0 <= i < |found| ==> Pending(s, found[i], version))
    && (forall i, j :: 0 <= i < j < |found| ==> found[i] != found[j])
    && (|found| < BATCH_MAX ==> forall t :: Pending(s, t, version) ==> t in found)
  }

  /** The image's side of a `get_tablets` call. */
  ghost predicate Answer(s: State, env: FetchEnv) {
    BatchOf(s, s.shared.frozen, env.found) && env.serviceUpgraded == CanUpgrade(s)
  }

  // ------------------------------------------------------------------- steps

  datatype Event =
    | Launch(version: int, launch: LaunchEnv)
    | CheckLoad(w: nat, lowLoad: bool)
    | Throttle(w: nat)
    | Fetch(w: nat, env: FetchEnv)
    | Wakeup(w: nat)
    | Resume(w: nat, env: FetchEnv)
    | Examine(w: nat, look: InspectEnv)
    | StartMerge(w: nat)
    | FinishMerge(w: nat, marked: bool, prepares: bool, made: seq<Tablet>)
    | Release(w: nat)
    | NextLoop(w: nat, stopped: bool)
    | SetStatus(tablet: Tablet, st: Status)
    | Prepare(version: int)

  predicate At(s: State, w: nat) { w < |s.workers| }

  /** The versions the server takes tablets of from elsewhere. */
  ghost predicate Accepts(s: State, version: int) {
    version > 0 && (Serving(s) == 0 || version == Serving(s) || version == Serving(s) + 1)
  }

  predicate Enters(s: State, t: Tablet, st: Status) {
    st.inImage && !StatusOf(s, t).inImage
  }

  ghost predicate Enabled(s: State, e: Event) {
    && |s.shared.pending| == COUNTERS
    && match e
       case Launch(_, launch) => launch.roundStarted ==> CanPrepare(s.status, Serving(s) + 1)
       case CheckLoad(w, _) => At(s, w) && s.workers[w].Top?
       case Throttle(w) => At(s, w) && s.workers[w].Throttled?
       case Fetch(w, env) => At(s, w) && s.workers[w].Fetching? && Answer(s, env)
       case Wakeup(w) => At(s, w) && s.workers[w].Parked?
       case Resume(w, env) =>
         At(s, w) && s.workers[w].Parked? && s.workers[w].woken && Answer(s, env)
       case Examine(w, _) => At(s, w) && s.workers[w].Holding?
       case StartMerge(w) => At(s, w) && s.workers[w].Admitted?
       case FinishMerge(w, _, prepares, made) =>
         && At(s, w) && s.workers[w].Merging?
         && (prepares ==> CanPrepare(s.status, s.workers[w].tablet.version + 1))
         && (made != [] ==> prepares && !StatusOf(s, s.workers[w].tablet).merged)
         && forall i :: 0 <= i < |made| ==>
              made[i].version == s.workers[w].tablet.version + 1 && !StatusOf(s, made[i]).inImage
       case Release(w) => At(s, w) && s.workers[w].Releasing?
       case NextLoop(w, _) => At(s, w) && s.workers[w].Returned?
       case SetStatus(t, st) => Enters(s, t, st) ==> Accepts(s, t.version) && CanPrepare(s.status, t.version)
       case Prepare(version) => Accepts(s, version) && CanPrepare(s.status, version)
  }

  /** A broadcast wakes every parked worker. */
  function Roused(w: Worker): Worker {
    if w.Parked? then w.(woken := true) else w
  }

  function Broadcast(ws: seq<Worker>): (r: seq<Worker>)
    ensures |r| == |ws| && forall i :: 0 <= i < |ws| ==> r[i] == Roused(ws[i])
  {
    seq(|ws|, i requires 0 <= i < |ws| => Roused(ws[i]))
  }

  /** A launch prepares the image for the frozen version. */
  ghost function LaunchStep(s: State, version: int, launch: LaunchEnv): State {
    var o := Schedule(s.shared, Serving(s), version, launch);
    if o.launched then
      Prepared(s, o.shared.frozen).(shared := o.shared, workers := Broadcast(s.workers))
    else s.(shared := o.shared)
  }

  /** Where a worker goes with the answer of `get_tablets`, and the shared fields
      when it parks. */
  function Fate(o: FetchOutcome): Worker {
    match o.fetched
    case Error => Fetching
    case Nothing => Parked(false, false)
    case Got(t) => Holding(if o.shared.index > 0 then o.shared.index - 1 else 0, t)
  }

  function Settled(o: FetchOutcome): Shared {
    if o.fetched.Nothing? then o.shared.(active := o.shared.active - 1) else o.shared
  }

  /** A worker that holds the mutex calls `get_tablets` and acts on the answer. */
  ghost function FetchStep(s: State, w: nat, env: FetchEnv): State
    requires At(s, w)
  {
    var o := GetTablets(s.shared, Serving(s), env);
    s.(shared := Settled(o), service := if o.upgraded then s.newest else s.service,
       workers := s.workers[w := Fate(o)])
  }

  function ExamineStep(s: State, w: nat, look: InspectEnv): State
    requires At(s, w) && s.workers[w].Holding?
  {
    var slot, t := s.workers[w].slot, s.workers[w].tablet;
    var st := StatusOf(s, t);
    match Inspect(s.shared, t, st, s.config.retryTimes, s.config.mergePerDisk, look)
    case Kill => s.(workers := s.workers[w := Releasing(slot, t, false)], killed := true)
    case Discard(acknowledged) =>
      var released := s.(workers := s.workers[w := Releasing(slot, t, false)]);
      if acknowledged then
        var inImage := st.inImage && !look.imageRemoved;
        released.(status := s.status[t := Status(inImage, true, true, st.mergeCount)])
      else released
    case NoMerger => s.(workers := s.workers[w := Releasing(slot, t, true)])
    case Admit => s.(workers := s.workers[w := Admitted(slot, t)])
    case DiskBusy => s.(workers := s.workers[w := Releasing(slot, t, false)])
  }

  /** The tablets a merge writes enter the image unmerged. */
  function Enter(status: map<Tablet, Status>, made: seq<Tablet>): (r: map<Tablet, Status>)
    ensures forall t :: t in r <==> t in status || t in made
    ensures forall t :: t in r ==> r[t] == if t in made then Status(true, false, false, 0) else status[t]
  {
    if made == [] then status
    else Enter(status, made[..|made| - 1])[made[|made| - 1] := Status(true, false, false, 0)]
  }

  /** The flags of a tablet after one more merge. */
  function Worked(s: State, t: Tablet, marked: bool): Status {
    var st := StatusOf(s, t);
    st.(merged := st.merged || marked, mergeCount := st.mergeCount + 1)
  }

  /** A merge that gets as far as allocating tablets prepares the image for them. */
  ghost function FinishStep(s: State, w: nat, marked: bool, prepares: bool, made: seq<Tablet>): State
    requires At(s, w) && s.workers[w].Merging?
  {
    var slot, t := s.workers[w].slot, s.workers[w].tablet;
    var p := if prepares then Prepared(s, t.version + 1) else s;
    p.(status := Enter(p.status, made)[t := Worked(s, t, marked)],
       shared := s.shared.(pending := Counted(s.shared.pending, t.disk, -1)),
       workers := s.workers[w := Releasing(slot, t, false)])
  }

  /** The rest of the server changes a tablet.  A tablet that enters prepares the
      image, and on an empty server puts the newest version into service. */
  ghost function StatusStep(s: State, t: Tablet, st: Status): State {
    if !Enters(s, t, st) then s.(status := s.status[t := st])
    else
      var p := Prepared(s, t.version);
      p.(status := p.status[t := st], service := if Serving(s) == 0 then p.newest else p.service)
  }

  ghost function Apply(s: State, e: Event): (r: State)
    requires Enabled(s, e)
    ensures r.config == s.config && |r.workers| == |s.workers|
  {
    match e
    case Launch(version, launch) => LaunchStep(s, version, launch)
    case CheckLoad(w, lowLoad) =>
      var go := s.shared.active <= s.config.minThreads || lowLoad;
      s.(workers := s.workers[w := if go then Fetching else Throttled])
    case Throttle(w) =>
      if s.shared.active == 1 then s.(workers := s.workers[w := Fetching])
      else s.(shared := s.shared.(active := s.shared.active - 1),
              workers := s.workers[w := Parked(true, false)])
    case Fetch(w, env) => FetchStep(s, w, env)
    case Wakeup(w) => s.(workers := s.workers[w := s.workers[w].(woken := true)])
    case Resume(w, env) =>
      var up := s.(shared := s.shared.(active := s.shared.active + 1));
      if s.workers[w].byLoad then up.(workers := s.workers[w := Fetching])
      else FetchStep(up, w, env)
    case Examine(w, look) => ExamineStep(s, w, look)
    case StartMerge(w) =>
      var slot, t := s.workers[w].slot, s.workers[w].tablet;
      s.(shared := s.shared.(pending := Counted(s.shared.pending, t.disk, 1)),
         workers := s.workers[w := Merging(slot, t)])
    case FinishMerge(w, marked, prepares, made) => FinishStep(s, w, marked, prepares, made)
    case Release(w) =>
      s.(shared := s.shared.(haveGot := s.shared.haveGot + 1),
         workers := s.workers[w := if s.workers[w].leaving then Exited else Returned])
    case NextLoop(w, stopped) => s.(workers := s.workers[w := if stopped then Exited else Top])
    case SetStatus(t, st) => StatusStep(s, t, st)
    case Prepare(version) => Prepared(s, version)
  }

  // -------------------------------------------------------------------- runs

  /** The tablets of an image lie in two slots: they are of the served version or a
      neighbour of it. */
  ghost predicate NearService(s: State) {
    forall t :: t in s.status && s.status[t].inImage ==> s.service - 1 <= t.version <= s.service + 1
  }

  /** The image a scheduler starts on: empty, or with tablets of the served version. */
  ghost predicate ImageLoaded(s: State) {
    if s.service == 0 then forall t :: t in s.status ==> !s.status[t].inImage
    else s.service > 0 && Served(s) && s.service <= s.newest <= s.service + 1 && NearService(s) && NextIsNewest(s)
  }

  /** Tablets of the version after the served one are in the newest slot. */
  ghost predicate NextIsNewest(s: State) {
    Kept(s.status, s.service + 1) ==> s.newest == s.service + 1
  }

  /** A freshly initialised scheduler. */
  ghost predicate Init(s: State) {
    && |s.workers| > 0
    && (forall i :: 0 <= i < |s.workers| ==> s.workers[i] == Top)
    && ImageLoaded(s) && !s.killed
    && s.shared == Shared([], 0, 0, |s.workers| + s.config.missing, s.service, s.service, true, true, false,
                          seq(COUNTERS, _ => 0))
  }

  ghost predicate Next(s: State, e: Event, n: State) {
    Enabled(s, e) && n == Apply(s, e)
  }

  /** A run: the events that happened and the states they led through. */
  datatype Run = Run(states: seq<State>, events: seq<Event>)

  ghost predicate StepOf(r: Run, k: int) {
    0 <= k < |r.events| && k + 1 < |r.states| && Next(r.states[k], r.events[k], r.states[k + 1])
  }

  ghost predicate IsPath(r: Run) {
    |r.states| == |r.events| + 1 && forall k :: 0 <= k < |r.events| ==> StepOf(r, k)
  }

  ghost predicate IsRun(r: Run) {
    IsPath(r) && Init(r.states[0])
  }
}
