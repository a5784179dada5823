/** The daily-merge scheduler object: its fields and the methods that change
    them, each proved against the section it implements. */
module ChunkMerge {
  import opened MergeSections

  lemma {:induction false} NewerCopiesCounts(copies: seq<int>, version: int)
    ensures NewerCopies(copies, version) == |set i | 0 <= i < |copies| && copies[i] > version|
  {
    if copies != [] {
      var last := |copies| - 1;
      var front := copies[..last];
      NewerCopiesCounts(front, version);
      var small := set i | 0 <= i < |front| && front[i] > version;
      var large := set i | 0 <= i < |copies| && copies[i] > version;
      assert large == if copies[last] > version then small + {last} else small;
    }
  }

  /** When signals are sent, there are as many as workers sleep, but never so many that the
      load could reach the high mark; and they are sent exactly when the load is low and
      more tablets are at hand than workers run. */
  lemma SignalsAreMost(sh: Shared, load: Load, limits: LoadLimits)
    ensures var n, asleep := Signals(sh, load, limits), limits.threads - sh.active;
      if && load.average < limits.loadHigh as real && load.requests < limits.requestHigh
         && load.average < limits.loadAdjust as real && |sh.batch| - sh.haveGot > sh.active
         && asleep > 0 && load.average.Floor + 1 < limits.loadHigh
      then && 0 < n <= asleep && load.average.Floor + n < limits.loadHigh
           && (n == asleep || load.average.Floor + n + 1 == limits.loadHigh)
      else n == 0
  {
  }

  class Scheduler {
    const tabletArray: array<Tablet>
    const pendingMerge: array<int>
    const threads: int
    const minThreads: int
    var tabletsNum: nat
    var tabletIndex: nat
    var tabletsHaveGot: nat
    var activeThreads: int
    var frozenVersion: int
    var newestFrozenVersion: int
    var roundStart: bool
    var roundEnd: bool
    var pendingInUpgrade: bool

    ghost predicate Valid()
      reads this
    {
      tabletArray.Length == BATCH_MAX && pendingMerge.Length == COUNTERS && tabletsNum <= BATCH_MAX
    }

    ghost function View(): Shared
      reads this, tabletArray, pendingMerge
      requires Valid()
    {
      Shared(tabletArray[..tabletsNum], tabletIndex, tabletsHaveGot, activeThreads, frozenVersion,
             newestFrozenVersion, roundStart, roundEnd, pendingInUpgrade, pendingMerge[..])
    }

    /** `init`, after `started` of `wanted` threads came up. */
    constructor (wanted: int, started: int, serving: int)
      requires 0 < started <= wanted
      ensures Valid() && fresh(tabletArray) && fresh(pendingMerge)
      ensures View() == Shared([], 0, 0, wanted, serving, serving, true, true, false, seq(COUNTERS, _ => 0))
      ensures threads == started
      ensures minThreads == if started / 3 == 0 then 1 else started / 3
    {
      tabletArray := new Tablet[BATCH_MAX](_ => Tablet(0, 0, 0));
      pendingMerge := new int[COUNTERS](_ => 0);
      threads := started;
      minThreads := if started / 3 == 0 then 1 else started / 3;
      tabletsNum, tabletIndex, tabletsHaveGot := 0, 0, 0;
      activeThreads := wanted;
      frozenVersion, newestFrozenVersion := serving, serving;
      roundStart, roundEnd, pendingInUpgrade := true, true, false;
    }

    method StoreBatch(found: seq<Tablet>)
      requires Valid() && |found| <= BATCH_MAX
      modifies tabletArray, this`tabletsNum
      ensures Valid() && tabletsNum == |found| && tabletArray[..tabletsNum] == found
    {
      var i := 0;
      while i < |found|
        invariant 0 <= i <= |found|
        invariant tabletArray[..i] == found[..i]
      {
        tabletArray[i] := found[i];
        i := i + 1;
      }
      tabletsNum := |found|;
    }

    /** `finish_round`; `ok` also says that the image now serves its newest version. */
    method FinishRound(env: FetchEnv) returns (ok: bool)
      requires Valid()
      modifies this`pendingInUpgrade, this`roundEnd
      ensures Valid()
      ensures var o := MergeSections.FinishRound(old(View()), env);
        View() == o.shared && ok == o.upgraded == o.fetched.Nothing?
    {
      pendingInUpgrade := true;
      ok := env.cacheBuilt && env.serviceUpgraded;
      if ok {
        pendingInUpgrade := false;
        roundEnd := true;
      }
    }

    /** `get_tablets`; the caller holds the mutex, the image reports `serving`. */
    method GetTablets(serving: int, env: FetchEnv) returns (fetched: Fetched, upgraded: bool)
      requires Valid() && |env.found| <= BATCH_MAX
      modifies this, tabletArray
      ensures Valid()
      ensures var o := MergeSections.GetTablets(old(View()), serving, env);
        View() == o.shared && upgraded == o.upgraded && fetched == o.fetched
    {
      fetched, upgraded := Nothing, false;
      if tabletsNum > 0 && tabletIndex < tabletsNum {
        fetched := Got(tabletArray[tabletIndex]);
        tabletIndex := tabletIndex + 1;
      } else if tabletsHaveGot == tabletsNum && frozenVersion > serving {
        if roundStart { roundStart := false; }
        tabletIndex, tabletsHaveGot := 0, 0;
        if env.imageFails {
          StoreBatch([]);
          fetched := Error;
        } else {
          StoreBatch(env.found);
          if tabletsNum > 0 {
            fetched := Got(tabletArray[tabletIndex]);
            tabletIndex := tabletIndex + 1;
          } else if !roundEnd {
            upgraded := FinishRound(env);
            if !upgraded { fetched := Error; }
          }
        }
      }
    }

    /** `schedule`; `launched` stands for the broadcast that wakes all workers. */
    method Schedule(version: int, serving: int, env: LaunchEnv) returns (launched: bool)
      requires Valid()
      modifies this`newestFrozenVersion, this`frozenVersion, this`roundStart, this`roundEnd
      ensures Valid()
      ensures var o := MergeSections.Schedule(old(View()), serving, version, env);
        View() == o.shared && launched == o.launched
    {
      launched := false;
      if version > newestFrozenVersion { newestFrozenVersion := version; }
      frozenVersion := serving;
      var can := CanLaunchNextRound(version, serving, env);
      if 1 < version && can && serving != 0 {
        frozenVersion := frozenVersion + 1;
        if env.roundStarted {
          roundStart, roundEnd, launched := true, false, true;
        } else {
          frozenVersion := frozenVersion - 1;
        }
      }
    }

    method CanLaunchNextRound(version: int, serving: int, env: LaunchEnv) returns (can: bool)
      requires Valid()
      ensures can == CanLaunch(View(), serving, version, env)
    {
      can := version > frozenVersion && IsMergeStopped() && version > serving
          && env.intervalElapsed && env.loaderStopped;
    }

    predicate IsMergeStopped()
      reads this`activeThreads
    {
      activeThreads == 0
    }

    /** `have_new_version_in_othercs` on the copies the root server lists. */
    method HaveNewVersionInOtherServers(t: Tablet, copies: seq<int>) returns (newer: bool)
      ensures newer <==> |set i | 0 <= i < |copies| && copies[i] > t.version| == SAFE_COPY_COUNT - 1
      ensures newer <==> NewerCopies(copies, t.version) == SAFE_COPY_COUNT - 1
    {
      var count := 0;
      var i := 0;
      while i < |copies|
        invariant 0 <= i <= |copies|
        invariant count == NewerCopies(copies[..i], t.version)
      {
        assert copies[..i + 1][..i] == copies[..i];
        if copies[i] > t.version { count := count + 1; }
        i := i + 1;
      }
      assert copies[..i] == copies;
      newer := count == SAFE_COPY_COUNT - 1;
      NewerCopiesCounts(copies, t.version);
    }

    /** `check_load`: whether this worker goes on, and how often the condition
        variable is signalled. */
    method CheckLoad(load: Load, limits: LoadLimits) returns (go: bool, signals: nat)
      requires Valid() && limits.threads == threads && limits.minThreads == minThreads
      ensures go == (activeThreads <= minThreads
                     || (load.average < limits.loadHigh as real && load.requests < limits.requestHigh))
      ensures signals == Signals(View(), load, limits)
    {
      go, signals := false, 0;
      if activeThreads <= limits.minThreads { go := true; }
      if load.average < limits.loadHigh as real && load.requests < limits.requestHigh {
        go := true;
        var sleeping := threads - activeThreads;
        var spare := limits.loadHigh - load.average.Floor - 1;
        var remaining := tabletsNum - tabletsHaveGot;
        if load.average < limits.loadAdjust as real && remaining > activeThreads && sleeping > 0 && spare > 0 {
          ghost var target := Min(sleeping, spare);
          while sleeping > 0 && spare > 0
            invariant sleeping >= 0 && spare >= 0 && signals + Min(sleeping, spare) == target
            decreases sleeping
          {
            sleeping, spare, signals := sleeping - 1, spare - 1, signals + 1;
          }
        }
      }
    }

    /** The end of a worker's turn with a tablet. */
    method ReturnTablet()
      requires Valid()
      modifies this`tabletsHaveGot
      ensures Valid() && View() == old(View()).(haveGot := old(View()).haveGot + 1)
    {
      tabletsHaveGot := tabletsHaveGot + 1;
    }

    /** The atomic update of a disk's merge counter around a merge; there is none for
        disk 16. */
    method CountMerge(disk: DiskNo, delta: int)
      requires Valid() && disk < COUNTERS
      modifies pendingMerge
      ensures Valid() && View() == old(View()).(pending := Counted(old(View()).pending, disk, delta))
    {
      pendingMerge[disk] := pendingMerge[disk] + delta;
    }
  }
}
