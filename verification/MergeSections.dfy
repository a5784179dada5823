/** The mutex-held sections of the daily-merge scheduler, as functions of the
    shared fields.  Every answer of the outside world (tablet image, caches,
    root server, clock) is a parameter. */
module MergeSections {

  /** TABLET_COUNT_PER_MERGE. */
  const BATCH_MAX: nat := 1024

  /** OB_SAFE_COPY_COUNT. */
  const SAFE_COPY_COUNT: nat := 3

  /** OB_MAX_DISK_NUMBER.  Disks are numbered 1..16 and merges are counted in an
      array of 16 entries, so that disk 16 has none. */
  const MAX_DISK: nat := 16
  const COUNTERS: nat := 16

  type DiskNo = d: nat | d <= MAX_DISK witness 1

  /** A tablet object.  Its flags live in `Status`. */
  datatype Tablet = Tablet(id: nat, version: int, disk: DiskNo)

  datatype Status = Status(inImage: bool, merged: bool, removed: bool, mergeCount: nat)

  /** The scheduler's shared fields.  `batch` is the filled part of the tablet
      array, so its length is the number of tablets in the batch. */
  datatype Shared = Shared(
    batch: seq<Tablet>,
    index: nat,
    haveGot: nat,
    active: int,
    frozen: int,
    newestFrozen: int,
    roundStart: bool,
    roundEnd: bool,
    pendingInUpgrade: bool,
    pending: seq<int>)

  datatype Fetched = Error | Nothing | Got(tablet: Tablet)

  /** What one call of `get_tablets` can meet: the image may fail or return a
      batch; building the cache or upgrading the service may fail. */
  datatype FetchEnv = FetchEnv(imageFails: bool, found: seq<Tablet>, cacheBuilt: bool, serviceUpgraded: bool)

  /** `upgraded` says that the image now serves its newest version. */
  datatype FetchOutcome = FetchOutcome(shared: Shared, upgraded: bool, fetched: Fetched)

  function FinishRound(sh: Shared, env: FetchEnv): FetchOutcome {
    if env.cacheBuilt && env.serviceUpgraded then
      FetchOutcome(sh.(pendingInUpgrade := false, roundEnd := true), true, Nothing)
    else
      FetchOutcome(sh.(pendingInUpgrade := true), false, Error)
  }

  /** `serving` is the version the image reports. */
  function GetTablets(sh: Shared, serving: int, env: FetchEnv): FetchOutcome {
    if sh.index < |sh.batch| then
      FetchOutcome(sh.(index := sh.index + 1), false, Got(sh.batch[sh.index]))
    else if sh.haveGot == |sh.batch| && sh.frozen > serving then
      var empty := sh.(batch := [], index := 0, haveGot := 0, roundStart := false);
      if env.imageFails then
        FetchOutcome(empty, false, Error)
      else if env.found != [] then
        FetchOutcome(empty.(batch := env.found, index := 1), false, Got(env.found[0]))
      else if !sh.roundEnd then
        FinishRound(empty, env)
      else
        FetchOutcome(empty, false, Nothing)
    else
      FetchOutcome(sh, false, Nothing)
  }

  /** What one call of `schedule` can meet. */
  datatype LaunchEnv = LaunchEnv(intervalElapsed: bool, loaderStopped: bool, roundStarted: bool)

  datatype LaunchOutcome = LaunchOutcome(shared: Shared, launched: bool)

  predicate CanLaunch(sh: Shared, serving: int, version: int, env: LaunchEnv) {
    version > sh.frozen && sh.active == 0 && version > serving
    && env.intervalElapsed && env.loaderStopped
  }

  function Schedule(sh: Shared, serving: int, version: int, env: LaunchEnv): LaunchOutcome {
    var newest := if version > sh.newestFrozen then version else sh.newestFrozen;
    var reset := sh.(newestFrozen := newest, frozen := serving);
    if 1 >= version || !CanLaunch(reset, serving, version, env) || serving == 0 || !env.roundStarted then
      LaunchOutcome(reset, false)
    else
      LaunchOutcome(reset.(frozen := serving + 1, roundStart := true, roundEnd := false), true)
  }

  /** How many copies reported by the root server are newer than `version`. */
  function NewerCopies(copies: seq<int>, version: int): nat {
    if copies == [] then 0
    else NewerCopies(copies[..|copies| - 1], version) + (if copies[|copies| - 1] > version then 1 else 0)
  }

  /** What the examination of a fetched tablet can meet. */
  datatype InspectEnv = InspectEnv(
    copies: seq<int>, rootAcknowledged: bool, imageRemoved: bool, mergerReady: bool, stray: int)

  /** The merges counted on a disk; `stray` is what lies behind the array. */
  function CounterOf(pending: seq<int>, disk: nat, stray: int): int {
    if disk < |pending| then pending[disk] else stray
  }

  /** Adding to the counter of a disk; the array has no entry to change for disk 16. */
  function Counted(pending: seq<int>, disk: nat, delta: int): (r: seq<int>)
    ensures |r| == |pending|
  {
    if disk < |pending| then pending[disk := pending[disk] + delta] else pending
  }

  datatype Verdict = Kill | Discard(acknowledged: bool) | NoMerger | Admit | DiskBusy

  function Inspect(sh: Shared, t: Tablet, st: Status, retryTimes: int, mergePerDisk: int, env: InspectEnv): Verdict {
    if t.version > sh.frozen then Kill
    else if st.mergeCount > retryTimes && NewerCopies(env.copies, t.version) == SAFE_COPY_COUNT - 1 then
      Discard(env.rootAcknowledged)
    else if !env.mergerReady then NoMerger
    else if CounterOf(sh.pending, t.disk, env.stray) < mergePerDisk then Admit
    else DiskBusy
  }

  /** `check_load`: may this worker go on, and how many parked workers are signalled. */
  datatype Load = Load(average: real, requests: int)

  datatype LoadLimits = LoadLimits(loadHigh: int, requestHigh: int, loadAdjust: int, minThreads: int, threads: int)

  predicate LowLoad(load: Load, limits: LoadLimits) {
    load.average < limits.loadHigh as real && load.requests < limits.requestHigh
  }

  function Min(a: int, b: int): (m: int) { if a < b then a else b }

  function Signals(sh: Shared, load: Load, limits: LoadLimits): (n: nat) {
    var asleep := limits.threads - sh.active;
    var spare := limits.loadHigh - load.average.Floor - 1;
    if LowLoad(load, limits) && load.average < limits.loadAdjust as real
       && |sh.batch| - sh.haveGot > sh.active && asleep > 0 && spare > 0
    then Min(asleep, spare) else 0
  }
}
