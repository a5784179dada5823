/** How often a waiting tablet can be left out of a batch. */
module MergeFairness {
  import opened MergeSections
  import opened MergeProtocol
  import opened MergeInvariant
  import opened MergeTheorems
  import opened MergeProgress

  function SetOf(list: seq<Tablet>): set<Tablet> {
    set t | t in list
  }

  ghost function BatchSet(r: Run, k: nat): set<Tablet>
    requires k + 1 < |r.states|
  {
    SetOf(r.states[k + 1].shared.batch)
  }

  /** At step `k` a batch is taken that leaves out the waiting tablet `t`. */
  ghost predicate Misses(r: Run, k: nat, t: Tablet) {
    && k < |r.events| && k + 1 < |r.states| && Refills(r.states[k], r.events[k]) && !r.events[k].env.imageFails
    && t in Todo(r.states[k]) && t !in r.states[k + 1].shared.batch
  }

  lemma {:induction false} DistinctCount(list: seq<Tablet>)
    requires forall i, j :: 0 <= i < j < |list| ==> list[i] != list[j]
    ensures |SetOf(list)| == |list|
  {
    if list != [] {
      var front, last := list[..|list| - 1], list[|list| - 1];
      DistinctCount(front);
      assert SetOf(list) == SetOf(front) + {last};
    }
  }

  lemma MissedBatchIsFull(r: Run, k: nat, t: Tablet)
    requires IsRun(r) && Misses(r, k, t)
    ensures |BatchSet(r, k)| == BATCH_MAX && BatchSet(r, k) <= Todo(r.states[k]) - {t}
  {
    var b, batch := r.states[k], r.states[k + 1].shared.batch;
    assert StepOf(r, k);
    PendingComesBack(r, k, t);
    RunKeepsCounts(r, k + 1);
    DistinctCount(batch);
    forall x | x in batch ensures x in Todo(b) {
      assert Pending(b, x, b.shared.frozen);
    }
  }

  /** Between the refills at `at[n]` and `at[n + 1]` every tablet of the batch was
      settled, and no tablet came to wait. */
  ghost predicate SettledBetween(r: Run, at: seq<nat>, n: int) {
    0 <= n < |at| - 1 && at[n] + 1 < |r.states| && at[n + 1] < |r.states|
    && Todo(r.states[at[n + 1]]) <= Todo(r.states[at[n]]) - BatchSet(r, at[n])
  }

  /** If batches get settled, a waiting tablet is left out of at most one batch for
      every 1024 other tablets that wait. */
  lemma {:induction false} MissesAreBounded(r: Run, at: seq<nat>, t: Tablet)
    requires IsRun(r) && at != [] && at[0] < |r.states|
    requires forall n :: 0 <= n < |at| ==> Misses(r, at[n], t)
    requires forall n :: 0 <= n < |at| - 1 ==> SettledBetween(r, at, n)
    ensures BATCH_MAX * |at| < |Todo(r.states[at[0]])|
    decreases |at|
  {
    var todo, batch := Todo(r.states[at[0]]), BatchSet(r, at[0]);
    assert Misses(r, at[0], t);
    MissedBatchIsFull(r, at[0], t);
    Subset(batch, todo - {t});
    if |at| > 1 {
      var rest := at[1..];
      assert SettledBetween(r, at, 0) && at[1] == rest[0];
      forall n | 0 <= n < |rest| ensures Misses(r, rest[n], t) { assert rest[n] == at[n + 1]; }
      forall n | 0 <= n < |rest| - 1 ensures SettledBetween(r, rest, n) {
        assert SettledBetween(r, at, n + 1) && rest[n] == at[n + 1] && rest[n + 1] == at[n + 2];
      }
      MissesAreBounded(r, rest, t);
      Subset(Todo(r.states[at[1]]), todo - batch);
      assert |todo - batch| == |todo| - |batch|;
    }
  }

  lemma Subset(a: set<Tablet>, b: set<Tablet>)
    requires a <= b
    ensures |a| <= |b|
  {
    if a != {} {
      var t :| t in a;
      Subset(a - {t}, b - {t});
    }
  }
}
