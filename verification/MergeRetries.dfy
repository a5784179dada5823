/** How often a tablet was merged, and when it is given up. */
module MergeRetries {
  import opened MergeSections
  import opened MergeProtocol
  import opened MergeInvariant
  import opened MergeTheorems
  import ChunkMerge

  /** Step `k` ends a merge of `t`, well or not. */
  ghost predicate EndsMergeOf(r: Run, k: int, t: Tablet) {
    && 0 <= k < |r.events| && k < |r.states| && r.events[k].FinishMerge?
    && var w := r.events[k].w;
    At(r.states[k], w) && r.states[k].workers[w].Merging? && r.states[k].workers[w].tablet == t
  }

  ghost function MergesOf(r: Run, i: nat, j: nat, t: Tablet): nat
    decreases j
  {
    if j <= i then 0 else MergesOf(r, i, j - 1, t) + if EndsMergeOf(r, j - 1, t) then 1 else 0
  }

  /** The tablet gets flags of its own: from outside, or because a merge has made it. */
  predicate GetsFlags(e: Event, t: Tablet) {
    (e.SetStatus? && e.tablet == t) || (e.FinishMerge? && t in e.made)
  }

  ghost predicate KeepsFlags(r: Run, i: nat, j: nat, t: Tablet) {
    forall k :: i <= k < j && k < |r.events| ==> !GetsFlags(r.events[k], t)
  }

  lemma ExamineKeepsCount(s: State, w: nat, look: InspectEnv, t: Tablet)
    requires At(s, w) && s.workers[w].Holding?
    ensures StatusOf(ExamineStep(s, w, look), t).mergeCount == StatusOf(s, t).mergeCount
  {
  }

  lemma FinishCounts(s: State, e: Event, t: Tablet)
    requires Enabled(s, e) && e.FinishMerge? && t !in e.made
    ensures StatusOf(Apply(s, e), t).mergeCount
         == StatusOf(s, t).mergeCount + if s.workers[e.w].tablet == t then 1 else 0
  {
  }

  lemma CountStep(r: Run, k: nat, t: Tablet)
    requires IsPath(r) && k < |r.events| && !GetsFlags(r.events[k], t)
    ensures StatusOf(r.states[k + 1], t).mergeCount
         == StatusOf(r.states[k], t).mergeCount + if EndsMergeOf(r, k, t) then 1 else 0
  {
    assert StepOf(r, k);
    var s, e := r.states[k], r.events[k];
    if e.FinishMerge? {
      FinishCounts(s, e, t);
    } else if e.Examine? {
      ExamineKeepsCount(s, e.w, e.look, t);
    }
  }

  /** In every run a tablet's merge count grows by the number of its merges, failed ones
      included. */
  lemma {:induction false} MergeCountIsExact(r: Run, i: nat, j: nat, t: Tablet)
    requires IsPath(r) && i <= j < |r.states| && KeepsFlags(r, i, j, t)
    ensures StatusOf(r.states[j], t).mergeCount == StatusOf(r.states[i], t).mergeCount + MergesOf(r, i, j, t)
    decreases j
  {
    if i < j {
      MergeCountIsExact(r, i, j - 1, t);
      CountStep(r, j - 1, t);
    }
  }

  /** Exactly two listed copies are newer, that is, all the others. */
  predicate OthersAreNewer(copies: seq<int>, version: int) {
    |set k | 0 <= k < |copies| && copies[k] > version| == 2
  }

  /** In every run a worker gives its tablet up if and only if it was merged more often
      than the limit, exactly two copies are newer, and the root server consents; then it
      is flagged merged and removed and leaves the image as far as the image lets it.  In
      all other cases looking at a tablet changes no flag. */
  lemma GivenUpIff(r: Run, i: nat, j: nat, t: Tablet)
    requires IsRun(r) && i <= j < |r.events| && KeepsFlags(r, i, j, t) && r.events[j].Examine?
    requires At(r.states[j], r.events[j].w) && Holds(r.states[j].workers[r.events[j].w])
    requires r.states[j].workers[r.events[j].w].tablet == t
    ensures var b, a, look := r.states[j], r.states[j + 1], r.events[j].look;
      var merges := StatusOf(r.states[i], t).mergeCount + MergesOf(r, i, j, t);
      a.status ==
        if && t.version <= b.shared.frozen && merges > r.states[0].config.retryTimes
           && OthersAreNewer(look.copies, t.version) && look.rootAcknowledged
        then b.status[t := Status(StatusOf(b, t).inImage && !look.imageRemoved, true, true, merges)]
        else b.status
  {
    MergeCountIsExact(r, i, j, t);
    RunKeepsCounts(r, j);
    assert StepOf(r, j);
    ChunkMerge.NewerCopiesCounts(r.events[j].look.copies, t.version);
  }

  /** What a merge makes enters the image unmerged and untried, one version up. */
  lemma MadeAreFresh(r: Run, i: nat, t: Tablet)
    requires IsPath(r) && i < |r.events| && r.events[i].FinishMerge? && t in r.events[i].made
    ensures StatusOf(r.states[i + 1], t) == Status(true, false, false, 0)
    ensures var w := r.events[i].w;
      At(r.states[i], w) && r.states[i].workers[w].Merging? && t.version == r.states[i].workers[w].tablet.version + 1
  {
    assert StepOf(r, i);
  }
}
