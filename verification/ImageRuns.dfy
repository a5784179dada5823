/** The merge protocol's image is the two-slot image: every step of the protocol is
    matched by the image's own operations, over whole runs. */
module ImageRuns {
  import opened MergeSections
  import opened MergeProtocol
  import opened MergeInvariant
  import opened MergeTheorems
  import TI = TabletImage

  type Tracker = TI.Tracker
  type Entry = TI.Entry

  // --------------------------------------------------------------- one tablet changes

  ghost predicate Has(entries: seq<Entry>, t: Tablet) {
    exists i :: 0 <= i < |entries| && entries[i].tablet == t
  }

  /** The entry of `t` gets the new flags, or goes. */
  function Replaced(entries: seq<Entry>, t: Tablet, st: Status): seq<Entry> {
    if entries == [] then []
    else
      var last := entries[|entries| - 1];
      Replaced(entries[..|entries| - 1], t, st)
      + if last.tablet != t then [last] else if st.inImage then [TI.Entry(t, st)] else []
  }

  /** The same, and a tablet that was not there is added. */
  ghost function Put(entries: seq<Entry>, t: Tablet, st: Status): seq<Entry> {
    if st.inImage && !Has(entries, t) then entries + [TI.Entry(t, st)] else Replaced(entries, t, st)
  }

  lemma HasLast(entries: seq<Entry>, t: Tablet)
    requires entries != []
    ensures Has(entries, t) <==> Has(entries[..|entries| - 1], t) || entries[|entries| - 1].tablet == t
  {
    var front := entries[..|entries| - 1];
    if Has(front, t) {
      var i :| 0 <= i < |front| && front[i].tablet == t;
      assert entries[i].tablet == t;
    }
    if Has(entries, t) && entries[|entries| - 1].tablet != t {
      var i :| 0 <= i < |entries| && entries[i].tablet == t;
      assert front[i].tablet == t;
    }
  }

  lemma {:induction false} ReplacedMembers(entries: seq<Entry>, t: Tablet, st: Status, e: Entry)
    ensures e in Replaced(entries, t, st) <==>
      if e.tablet == t then st.inImage && e.status == st && Has(entries, t) else e in entries
  {
    if entries != [] {
      var front, last := entries[..|entries| - 1], entries[|entries| - 1];
      ReplacedMembers(front, t, st, e);
      HasLast(entries, t);
      assert e in entries <==> e in front || e == last by { assert entries == front + [last]; }
    }
  }

  lemma PutMembers(entries: seq<Entry>, t: Tablet, st: Status, e: Entry)
    ensures e in Put(entries, t, st) <==> if e.tablet == t then st.inImage && e.status == st else e in entries
  {
    ReplacedMembers(entries, t, st, e);
    assert e.tablet == t && e in entries ==> Has(entries, t);
  }

  ghost predicate Distinct(entries: seq<Entry>) {
    forall i, j :: 0 <= i < j < |entries| ==> entries[i].tablet != entries[j].tablet
  }

  lemma {:induction false} ReplacedDistinct(entries: seq<Entry>, t: Tablet, st: Status)
    requires Distinct(entries)
    ensures Distinct(Replaced(entries, t, st))
  {
    if entries != [] {
      var front, last := entries[..|entries| - 1], entries[|entries| - 1];
      ReplacedDistinct(front, t, st);
      forall i | 0 <= i < |Replaced(front, t, st)| ensures Replaced(front, t, st)[i].tablet != last.tablet {
        var e := Replaced(front, t, st)[i];
        ReplacedMembers(front, t, st, e);
        if e.tablet != t {
          var j :| 0 <= j < |front| && front[j] == e;
          assert entries[j] == e;
        } else {
          var j :| 0 <= j < |front| && front[j].tablet == t;
          assert entries[j].tablet == t;
        }
      }
    }
  }

  lemma PutDistinct(entries: seq<Entry>, t: Tablet, st: Status)
    requires Distinct(entries)
    ensures Distinct(Put(entries, t, st))
  {
    ReplacedDistinct(entries, t, st);
    if st.inImage && !Has(entries, t) { assert forall i :: 0 <= i < |entries| ==> entries[i].tablet != t; }
  }

  // ------------------------------------------------------------------------ mirroring

  ghost predicate Valid(k: Tracker) {
    TI.Formed(k) && TI.ValidSlots(k.slots, k.newest) && (k.service >= 0 ==> k.slots[k.service].present)
  }

  ghost predicate Listed(k: Tracker, e: Entry)
    requires TI.Formed(k)
  {
    e in k.slots[0].entries || e in k.slots[1].entries
  }

  /** The image of the protocol's state lies in these two slots, flags and all. */
  ghost predicate Mirrors(s: State, k: Tracker) {
    && Valid(k) && s.newest == k.slots[k.newest].version
    && s.service == (if k.service < 0 then 0 else k.slots[k.service].version)
    && SameTablets(s.status, k)
  }

  ghost predicate SameTablets(status: map<Tablet, Status>, k: Tracker)
    requires TI.Formed(k)
  {
    forall e :: Listed(k, e) <==> e.tablet in status && status[e.tablet] == e.status && e.status.inImage
  }

  lemma EntryVersion(k: Tracker, e: Entry)
    requires Valid(k) && Listed(k, e)
    ensures e.tablet.version > 0 && var slot := k.slots[e.tablet.version % 2]; e in slot.entries && slot.version == e.tablet.version
  {
    var x := if e in k.slots[0].entries then 0 else 1;
    var i :| 0 <= i < |k.slots[x].entries| && k.slots[x].entries[i] == e;
    assert k.slots[x].entries[i].tablet.version == k.slots[x].version;
  }

  /** A version has tablets if and only if it is the label of a slot that has. */
  lemma KeptIffSlot(s: State, k: Tracker, x: int)
    requires Mirrors(s, k) && 0 <= x < 2
    ensures Kept(s.status, k.slots[x].version) <==> TI.HasTablet(k.slots[x])
  {
    if TI.HasTablet(k.slots[x]) {
      var e := k.slots[x].entries[0];
      assert Listed(k, e);
    }
    if Kept(s.status, k.slots[x].version) {
      var t :| t in s.status && s.status[t].inImage && t.version == k.slots[x].version;
      assert Listed(k, TI.Entry(t, s.status[t]));
      EntryVersion(k, TI.Entry(t, s.status[t]));
    }
  }

  // --------------------------------------------------------------- what the image says

  /** So the image reports the version, and upgrades, as the protocol assumes. */
  lemma ServiceMeetsContract(s: State, k: Tracker)
    requires Mirrors(s, k)
    ensures TI.ServingOf(k.slots, k.service) == Serving(s)
    ensures TI.UpgradeOf(k.slots, k.newest, k.service) == CanUpgrade(s)
  {
    KeptIffSlot(s, k, k.newest);
    if k.service >= 0 { KeptIffSlot(s, k, k.service); }
    if k.service < 0 && Kept(s.status, 0) {
      var t :| t in s.status && s.status[t].inImage && t.version == 0;
      assert Listed(k, TI.Entry(t, s.status[t]));
      EntryVersion(k, TI.Entry(t, s.status[t]));
    }
  }

  lemma NeedIsPending(s: State, k: Tracker, version: int, t: Tablet)
    requires Mirrors(s, k)
    ensures Pending(s, t, version) <==> TI.InNeed(k.slots[0], version, t) || TI.InNeed(k.slots[1], version, t)
  {
    if Pending(s, t, version) {
      var e := TI.Entry(t, s.status[t]);
      assert Listed(k, e);
      EntryVersion(k, e);
      var entries := k.slots[t.version % 2].entries;
      var i :| 0 <= i < |entries| && entries[i] == e;
      assert TI.Waiting(entries[i]);
    }
    forall x | 0 <= x < 2 && TI.InNeed(k.slots[x], version, t) ensures Pending(s, t, version) {
      var i :| 0 <= i < |k.slots[x].entries| && TI.Waiting(k.slots[x].entries[i]) && k.slots[x].entries[i].tablet == t;
      assert Listed(k, k.slots[x].entries[i]);
      EntryVersion(k, k.slots[x].entries[i]);
    }
  }

  /** A worker that asks the image is answered as the protocol assumes. */
  lemma AnswerMeetsContract(s: State, k: Tracker, version: int)
    requires Mirrors(s, k)
    ensures BatchOf(s, version, TI.Take(TI.ForMerge(k.slots, k.newest, version), BATCH_MAX))
  {
    TI.AnswerIsBatch(k.slots, k.newest, version, BATCH_MAX);
    forall t ensures Pending(s, t, version) <==> TI.InNeed(k.slots[0], version, t) || TI.InNeed(k.slots[1], version, t) {
      NeedIsPending(s, k, version, t);
    }
  }

  // ------------------------------------------------------------- operations keep mirroring

  ghost function PutIn(k: Tracker, t: Tablet, st: Status): Tracker
    requires TI.Formed(k)
  {
    var slot := k.slots[t.version % 2];
    k.(slots := k.slots[t.version % 2 := slot.(entries := Put(slot.entries, t, st))])
  }

  /** The slot is ready for tablets of the version. */
  predicate Labelled(k: Tracker, version: int)
    requires TI.Formed(k)
  {
    k.slots[version % 2].present && k.slots[version % 2].version == version
  }

  lemma PutIsValid(k: Tracker, t: Tablet, st: Status)
    requires Valid(k) && (st.inImage ==> Labelled(k, t.version))
    ensures Valid(PutIn(k, t, st))
  {
    var slot := k.slots[t.version % 2];
    var entries := Put(slot.entries, t, st);
    PutDistinct(slot.entries, t, st);
    forall i | 0 <= i < |entries| ensures entries[i].tablet.version == slot.version {
      PutMembers(slot.entries, t, st, entries[i]);
      if entries[i].tablet != t {
        var j :| 0 <= j < |slot.entries| && slot.entries[j] == entries[i];
      }
    }
  }

  lemma PutListed(k: Tracker, t: Tablet, st: Status, e: Entry)
    requires Valid(k)
    ensures Listed(PutIn(k, t, st), e) <==> if e.tablet == t then st.inImage && e.status == st else Listed(k, e)
  {
    var x := t.version % 2;
    PutMembers(k.slots[x].entries, t, st, e);
    if e.tablet == t && Listed(k, e) { EntryVersion(k, e); }
  }

  lemma PutMirrors(s: State, k: Tracker, t: Tablet, st: Status)
    requires Mirrors(s, k) && (st.inImage ==> Labelled(k, t.version))
    ensures Mirrors(s.(status := s.status[t := st]), PutIn(k, t, st))
  {
    var n, m := s.(status := s.status[t := st]), PutIn(k, t, st);
    PutIsValid(k, t, st);
    forall e ensures Listed(m, e) <==> e.tablet in n.status && n.status[e.tablet] == e.status && e.status.inImage {
      PutListed(k, t, st, e);
    }
  }

  /** Preparing succeeds exactly when the protocol says so. */
  lemma PreparesIff(s: State, k: Tracker, version: int)
    requires Mirrors(s, k) && version > 0
    ensures TI.Prepares(k.slots[version % 2], version, true) <==> CanPrepare(s.status, version)
  {
    var slot := k.slots[version % 2];
    if TI.Prepares(slot, version, true) {
      forall t | InTheWay(s.status, t, version) ensures s.status[t].merged {
        assert Listed(k, TI.Entry(t, s.status[t]));
        EntryVersion(k, TI.Entry(t, s.status[t]));
      }
    }
    if CanPrepare(s.status, version) && slot.present && slot.version != version {
      forall i | 0 <= i < |slot.entries| ensures slot.entries[i].status.merged {
        assert Listed(k, slot.entries[i]);
        assert InTheWay(s.status, slot.entries[i].tablet, version);
      }
    }
  }

  lemma PrepareListed(s: State, k: Tracker, version: int, e: Entry)
    requires Mirrors(s, k) && version > 0
    ensures var status := Evicted(s.status, version);
      Listed(TI.Reprepared(k, version, true), e) <==>
      e.tablet in status && status[e.tablet] == e.status && e.status.inImage
  {
    if Listed(k, e) { EntryVersion(k, e); }
  }

  lemma PrepareMirrors(s: State, k: Tracker, version: int)
    requires Mirrors(s, k) && version > 0
    ensures Mirrors(Prepared(s, version), TI.Reprepared(k, version, true))
    ensures Labelled(TI.Reprepared(k, version, true), version)
    ensures var m := TI.Reprepared(k, version, true); m.slots[m.newest].present
    ensures forall v :: !SameSlot(v, version) && Labelled(k, v) ==> Labelled(TI.Reprepared(k, version, true), v)
  {
    var n, m := Prepared(s, version), TI.Reprepared(k, version, true);
    KeptIffSlot(s, k, k.newest);
    forall e ensures Listed(m, e) <==> e.tablet in n.status && n.status[e.tablet] == e.status && e.status.inImage {
      PrepareListed(s, k, version, e);
    }
  }

  const MADE := Status(true, false, false, 0)

  ghost function PutAll(k: Tracker, made: seq<Tablet>): (r: Tracker)
    requires TI.Formed(k)
    ensures TI.Formed(r)
  {
    if made == [] then k else PutIn(PutAll(k, made[..|made| - 1]), made[|made| - 1], MADE)
  }

  lemma {:induction false} PutAllMirrors(s: State, k: Tracker, made: seq<Tablet>)
    requires Mirrors(s, k) && forall i :: 0 <= i < |made| ==> Labelled(k, made[i].version)
    ensures Mirrors(s.(status := Enter(s.status, made)), PutAll(k, made))
    ensures forall v :: Labelled(k, v) ==> Labelled(PutAll(k, made), v)
  {
    if made != [] {
      var front, last := made[..|made| - 1], made[|made| - 1];
      assert forall i :: 0 <= i < |front| ==> front[i] == made[i];
      PutAllMirrors(s, k, front);
      PutMirrors(s.(status := Enter(s.status, front)), PutAll(k, front), last, MADE);
    } else {
      assert s.(status := Enter(s.status, made)) == s;
    }
  }

  // ---------------------------------------------------------------------------- steps

  ghost function AfterFinish(k: Tracker, s: State, w: nat, marked: bool, prepares: bool, made: seq<Tablet>): (r: Tracker)
    requires TI.Formed(k) && At(s, w) && s.workers[w].Merging? && s.workers[w].tablet.version >= 0
    ensures TI.Formed(r)
  {
    var t := s.workers[w].tablet;
    var p := if prepares then TI.Reprepared(k, t.version + 1, true) else k;
    PutIn(PutAll(p, made), t, Worked(s, t, marked))
  }

  ghost function AfterStatus(k: Tracker, s: State, t: Tablet, st: Status): (r: Tracker)
    requires TI.Formed(k) && (Enters(s, t, st) ==> t.version > 0)
    ensures TI.Formed(r)
  {
    if !Enters(s, t, st) then PutIn(k, t, st)
    else
      var p := PutIn(TI.Reprepared(k, t.version, true), t, st);
      if Serving(s) == 0 then p.(service := p.newest) else p
  }

  /** What the protocol relies on from one step to the next. */
  ghost predicate Fit(s: State) {
    && (forall i :: 0 <= i < |s.shared.batch| ==> s.shared.batch[i].version > 0)
    && (s.service > 0 || s.shared.frozen > 0 ==> s.newest > 0)
  }

  ghost predicate Ready(s: State, k: Tracker, e: Event) {
    Mirrors(s, k) && CountInv(s) && Fit(s) && Enabled(s, e)
  }

  /** The image after a step: what the step's own operations make of it. */
  ghost function After(k: Tracker, s: State, e: Event): (r: Tracker)
    requires Ready(s, k, e)
    ensures TI.Formed(r)
  {
    match e
    case Launch(_, _) => if Launches(s, e) then TI.Reprepared(k, Serving(s) + 1, true) else k
    case Fetch(_, _) => if Upgrades(s, e) then k.(service := k.newest) else k
    case Resume(_, _) => if Upgrades(s, e) then k.(service := k.newest) else k
    case Examine(w, look) =>
      var t := s.workers[w].tablet;
      if Discards(s, w, look, t) then PutIn(k, t, ExamineStep(s, w, look).status[t]) else k
    case FinishMerge(w, marked, prepares, made) => AfterFinish(k, s, w, marked, prepares, made)
    case SetStatus(t, st) => AfterStatus(k, s, t, st)
    case Prepare(version) => TI.Reprepared(k, version, true)
    case CheckLoad(_, _) => k
    case Throttle(_) => k
    case Wakeup(_) => k
    case StartMerge(_) => k
    case Release(_) => k
    case NextLoop(_, _) => k
  }

  /** A tablet in the image lies in a slot with its version. */
  lemma InImageIsLabelled(s: State, k: Tracker, t: Tablet)
    requires Mirrors(s, k) && StatusOf(s, t).inImage
    ensures Labelled(k, t.version)
  {
    assert Listed(k, TI.Entry(t, s.status[t]));
    EntryVersion(k, TI.Entry(t, s.status[t]));
  }

  /** Only these parts of a state are mirrored. */
  lemma SameImageMirrors(s: State, n: State, k: Tracker)
    requires Mirrors(s, k) && n.status == s.status && n.newest == s.newest && n.service == s.service
    ensures Mirrors(n, k)
  {
  }

  lemma EnterMirrors(p: State, m: Tracker, n: State, made: seq<Tablet>, t: Tablet, st: Status)
    requires Mirrors(p, m) && (forall i :: 0 <= i < |made| ==> Labelled(m, made[i].version))
    requires st.inImage ==> Labelled(m, t.version)
    requires n.status == Enter(p.status, made)[t := st] && n.newest == p.newest && n.service == p.service
    ensures Mirrors(n, PutIn(PutAll(m, made), t, st))
  {
    PutAllMirrors(p, m, made);
    var q := p.(status := Enter(p.status, made));
    PutMirrors(q, PutAll(m, made), t, st);
    SameImageMirrors(q.(status := q.status[t := st]), n, PutIn(PutAll(m, made), t, st));
  }

  /** A merge prepares the slot of its new tablets, or leaves the image alone. */
  lemma PrepareForMerge(s: State, k: Tracker, p: State, m: Tracker, t: Tablet, prepares: bool)
    requires Mirrors(s, k) && t.version > 0
    requires p == if prepares then Prepared(s, t.version + 1) else s
    requires m == if prepares then TI.Reprepared(k, t.version + 1, true) else k
    ensures Mirrors(p, m) && (prepares ==> Labelled(m, t.version + 1))
    ensures StatusOf(s, t).inImage ==> Labelled(m, t.version)
  {
    if StatusOf(s, t).inImage { InImageIsLabelled(s, k, t); }
    if prepares { PrepareMirrors(s, k, t.version + 1); }
  }

  lemma FinishMirrors(s: State, k: Tracker, w: nat, marked: bool, prepares: bool, made: seq<Tablet>)
    requires Mirrors(s, k) && At(s, w) && s.workers[w].Merging? && s.workers[w].tablet.version > 0
    requires made != [] ==> prepares
    requires forall i :: 0 <= i < |made| ==> made[i].version == s.workers[w].tablet.version + 1
    ensures Mirrors(FinishStep(s, w, marked, prepares, made), AfterFinish(k, s, w, marked, prepares, made))
  {
    var n, t := FinishStep(s, w, marked, prepares, made), s.workers[w].tablet;
    var p := if prepares then Prepared(s, t.version + 1) else s;
    var m := if prepares then TI.Reprepared(k, t.version + 1, true) else k;
    PrepareForMerge(s, k, p, m, t, prepares);
    EnterMirrors(p, m, n, made, t, Worked(s, t, marked));
  }

  lemma StatusMirrors(s: State, k: Tracker, t: Tablet, st: Status)
    requires Mirrors(s, k) && Enabled(s, SetStatus(t, st))
    ensures Mirrors(StatusStep(s, t, st), AfterStatus(k, s, t, st))
  {
    if Enters(s, t, st) {
      PrepareMirrors(s, k, t.version);
      PutMirrors(Prepared(s, t.version), TI.Reprepared(k, t.version, true), t, st);
    } else {
      if st.inImage { InImageIsLabelled(s, k, t); }
      PutMirrors(s, k, t, st);
    }
  }

  lemma ExamineMirrors(s: State, k: Tracker, w: nat, look: InspectEnv)
    requires Ready(s, k, Examine(w, look))
    ensures Mirrors(ExamineStep(s, w, look), After(k, s, Examine(w, look)))
  {
    var n, t := ExamineStep(s, w, look), s.workers[w].tablet;
    if Discards(s, w, look, t) {
      if StatusOf(s, t).inImage { InImageIsLabelled(s, k, t); }
      PutMirrors(s, k, t, n.status[t]);
      SameImageMirrors(s.(status := s.status[t := n.status[t]]), n, PutIn(k, t, n.status[t]));
    }
  }

  lemma UpgradeMirrors(s: State, n: State, k: Tracker)
    requires Mirrors(s, k) && s.newest > 0 && n.status == s.status && n.newest == s.newest && n.service == s.newest
    ensures Mirrors(n, k.(service := k.newest))
  {
  }

  /** What asking for tablets does to the image. */
  lemma AskingImage(s: State, e: Event)
    requires Enabled(s, e) && (e.Fetch? || e.Resume?)
    ensures var n := Apply(s, e);
      && n.status == s.status && n.newest == s.newest && n.service == (if Upgrades(s, e) then s.newest else s.service)
      && (Upgrades(s, e) ==> s.shared.frozen > Serving(s))
  {
  }

  lemma AskMirrors(s: State, k: Tracker, e: Event)
    requires Ready(s, k, e) && (e.Fetch? || e.Resume?)
    ensures Mirrors(Apply(s, e), After(k, s, e))
  {
    AskingImage(s, e);
    if Upgrades(s, e) { UpgradeMirrors(s, Apply(s, e), k); } else { SameImageMirrors(s, Apply(s, e), k); }
  }

  lemma LaunchMirrors(s: State, k: Tracker, e: Event)
    requires Ready(s, k, e) && e.Launch?
    ensures Mirrors(Apply(s, e), After(k, s, e))
  {
    if Launches(s, e) {
      PrepareMirrors(s, k, Serving(s) + 1);
      SameImageMirrors(Prepared(s, Serving(s) + 1), Apply(s, e), After(k, s, e));
    } else {
      SameImageMirrors(s, Apply(s, e), k);
    }
  }

  predicate LeavesImage(e: Event) {
    e.CheckLoad? || e.Throttle? || e.Wakeup? || e.StartMerge? || e.Release? || e.NextLoop?
  }

  lemma OthersMirror(s: State, k: Tracker, e: Event)
    requires Ready(s, k, e) && LeavesImage(e)
    ensures Mirrors(Apply(s, e), After(k, s, e))
  {
    SameImageMirrors(s, Apply(s, e), k);
  }

  /** Every step keeps the two slots and the protocol's image the same. */
  lemma StepMirrors(s: State, k: Tracker, e: Event)
    requires Ready(s, k, e)
    ensures Mirrors(Apply(s, e), After(k, s, e))
  {
    if LeavesImage(e) {
      OthersMirror(s, k, e);
    } else if e.Launch? {
      LaunchMirrors(s, k, e);
    } else if e.Fetch? || e.Resume? {
      AskMirrors(s, k, e);
    } else if e.Examine? {
      ExamineMirrors(s, k, e.w, e.look);
    } else if e.FinishMerge? {
      HeldPositive(s, e.w);
      FinishMirrors(s, k, e.w, e.marked, e.prepares, e.made);
    } else if e.SetStatus? {
      StatusMirrors(s, k, e.tablet, e.st);
    } else {
      PrepareMirrors(s, k, e.version);
    }
  }

  lemma HeldPositive(s: State, w: nat)
    requires CountInv(s) && Fit(s) && At(s, w) && Holds(s.workers[w])
    ensures s.workers[w].tablet.version > 0
  {
  }

  // ----------------------------------------------------------------------------- runs

  lemma InitIsFit(s: State, k: Tracker)
    requires Init(s) && Mirrors(s, k)
    ensures Fit(s)
  {
  }

  lemma BatchStaysPositive(s: State, k: Tracker, e: Event)
    requires Mirrors(s, k) && Fit(s) && Enabled(s, e)
    ensures forall t :: t in Apply(s, e).shared.batch ==> t.version > 0
  {
    BatchStep(s, e);
    forall t | Pending(s, t, s.shared.frozen) ensures t.version > 0 {
      assert Listed(k, TI.Entry(t, s.status[t]));
      EntryVersion(k, TI.Entry(t, s.status[t]));
    }
  }

  /** A step that moves the newest version leaves it positive. */
  lemma NewestStaysPositive(s: State, k: Tracker, e: Event)
    requires Ready(s, k, e)
    ensures Apply(s, e).newest == s.newest || Apply(s, e).newest > 0
  {
    if e.FinishMerge? { HeldPositive(s, e.w); }
  }

  lemma ScheduleStaysFit(s: State, k: Tracker, e: Event)
    requires Mirrors(s, k) && Fit(s) && Enabled(s, e) && e.Launch?
    ensures var n := Apply(s, e); n.service > 0 || n.shared.frozen > 0 ==> n.newest > 0
  {
  }

  /** The service moves to the newest version, or the slot in service gets a new label. */
  lemma ServiceStep(s: State, e: Event)
    requires Enabled(s, e)
    ensures var n := Apply(s, e); n.service == s.service || n.service == n.newest || s.service > 0
  {
  }

  lemma FitStays(s: State, k: Tracker, e: Event)
    requires Ready(s, k, e)
    ensures Fit(Apply(s, e))
  {
    var n := Apply(s, e);
    BatchStaysPositive(s, k, e);
    forall i | 0 <= i < |n.shared.batch| ensures n.shared.batch[i].version > 0 {
      assert n.shared.batch[i] in n.shared.batch;
    }
    NewestStaysPositive(s, k, e);
    if e.Launch? {
      ScheduleStaysFit(s, k, e);
    } else if n.newest == s.newest {
      OnlyScheduleFreezes(s, e);
      ServiceStep(s, e);
    }
  }

  lemma RunStep(r: Run, i: nat, k: Tracker)
    requires IsRun(r) && i < |r.events| && Mirrors(r.states[i], k) && Fit(r.states[i])
    ensures Ready(r.states[i], k, r.events[i])
    ensures Mirrors(r.states[i + 1], After(k, r.states[i], r.events[i])) && Fit(r.states[i + 1])
  {
    RunKeepsCounts(r, i);
    assert StepOf(r, i);
    StepMirrors(r.states[i], k, r.events[i]);
    FitStays(r.states[i], k, r.events[i]);
  }

  /** The two slots at step `i` of a run that starts on the image `k`. */
  ghost function ImageAt(r: Run, k: Tracker, i: nat): Tracker
    requires IsPath(r) && i < |r.states|
  {
    if i == 0 then k
    else
      var s, m, e := r.states[i - 1], ImageAt(r, k, i - 1), r.events[i - 1];
      if Ready(s, m, e) then After(m, s, e) else m
  }

  lemma ImageNext(r: Run, k: Tracker, i: nat)
    requires IsPath(r) && i < |r.events| && Ready(r.states[i], ImageAt(r, k, i), r.events[i])
    ensures ImageAt(r, k, i + 1) == After(ImageAt(r, k, i), r.states[i], r.events[i])
  {
  }

  /** They hold the protocol's image all along. */
  lemma {:induction false} RunMirrors(r: Run, k: Tracker, i: nat)
    requires IsRun(r) && i < |r.states| && Mirrors(r.states[0], k)
    ensures Mirrors(r.states[i], ImageAt(r, k, i)) && Fit(r.states[i])
  {
    if i == 0 {
      InitIsFit(r.states[0], k);
    } else {
      RunMirrors(r, k, i - 1);
      RunStep(r, i - 1, ImageAt(r, k, i - 1));
      ImageNext(r, k, i - 1);
    }
  }

  /** In every state of every run, the image answers, upgrades and prepares as the
      protocol assumes. */
  lemma ImageMeetsProtocol(r: Run, k: Tracker, i: nat, version: int)
    requires IsRun(r) && i < |r.states| && Mirrors(r.states[0], k) && version > 0
    ensures var s, m := r.states[i], ImageAt(r, k, i);
      && TI.Formed(m) && TI.ServingOf(m.slots, m.service) == Serving(s)
      && TI.UpgradeOf(m.slots, m.newest, m.service) == CanUpgrade(s)
      && BatchOf(s, version, TI.Take(TI.ForMerge(m.slots, m.newest, version), BATCH_MAX))
      && (TI.Prepares(m.slots[version % 2], version, true) <==> CanPrepare(s.status, version))
  {
    var s, m := r.states[i], ImageAt(r, k, i);
    RunMirrors(r, k, i);
    ServiceMeetsContract(s, m);
    AnswerMeetsContract(s, m, version);
    PreparesIff(s, m, version);
  }

  // ---------------------------------------------------------------------------- starts

  function Statuses(entries: seq<Entry>): map<Tablet, Status> {
    if entries == [] then map[]
    else Statuses(entries[..|entries| - 1])[entries[|entries| - 1].tablet := entries[|entries| - 1].status]
  }

  lemma {:induction false} StatusesKnow(entries: seq<Entry>, t: Tablet)
    ensures t in Statuses(entries) <==> Has(entries, t)
  {
    if entries != [] {
      StatusesKnow(entries[..|entries| - 1], t);
      HasLast(entries, t);
    }
  }

  lemma {:induction false} StatusesAre(entries: seq<Entry>, e: Entry)
    requires Distinct(entries)
    ensures e in entries <==> e.tablet in Statuses(entries) && Statuses(entries)[e.tablet] == e.status
  {
    if entries != [] {
      var front, last := entries[..|entries| - 1], entries[|entries| - 1];
      StatusesAre(front, e);
      StatusesKnow(front, last.tablet);
      assert entries == front + [last];
      assert !Has(front, last.tablet);
    }
  }

  /** An image the server can start on: empty, or with tablets in service and nothing but
      a neighbour of that version beside them. */
  ghost predicate Startable(k: Tracker) {
    && Valid(k)
    && (forall e :: Listed(k, e) ==> e.status.inImage)
    && if k.service < 0 then k.slots[0].entries == [] == k.slots[1].entries
       else
         var slot, other := k.slots[k.service], k.slots[1 - k.service];
         && slot.entries != []
         && (other.entries != [] ==> slot.version - 1 <= other.version <= slot.version + 1)
         && slot.version <= k.slots[k.newest].version <= slot.version + 1
         && (other.entries != [] && other.version > slot.version ==> k.newest == 1 - k.service)
  }

  /** An image that has just been loaded: the newest slot has tablets, and the other one
      none or those of the version before. */
  ghost predicate Loaded(k: Tracker) {
    && Valid(k) && (forall e :: Listed(k, e) ==> e.status.inImage) && k.slots[k.newest].entries != []
    && var other := k.slots[1 - k.newest]; other.entries != [] ==> other.version == k.slots[k.newest].version - 1
  }

  /** The slot such an image puts into service has a tablet, so that a scheduler can start
      on it, if and only if it loaded two versions or a tablet that is not merged. */
  lemma LoadedStartsIff(k: Tracker)
    requires Loaded(k)
    ensures var m := k.(service := TI.FirstService(k.slots, k.newest));
      Startable(m) <==> k.slots[1 - k.newest].entries != [] || !TI.AllMerged(k.slots[k.newest].entries)
  {
    var m := k.(service := TI.FirstService(k.slots, k.newest));
    assert forall e :: Listed(m, e) <==> Listed(k, e);
  }

  lemma JoinedDistinct(k: Tracker)
    requires Valid(k)
    ensures Distinct(k.slots[0].entries + k.slots[1].entries)
  {
    var a, b := k.slots[0].entries, k.slots[1].entries;
    var all: seq<Entry> := a + b;
    forall i, j | 0 <= i < j < |all| ensures all[i].tablet != all[j].tablet {
      if i < |a| <= j { assert a[i].tablet.version % 2 == 0 && b[j - |a|].tablet.version % 2 == 1; }
    }
  }

  /** A scheduler can start on every such image. */
  lemma EveryImageStarts(k: Tracker, c: Config, n: nat) returns (s: State)
    requires Startable(k) && n > 0
    ensures Init(s) && Mirrors(s, k) && s.config == c && |s.workers| == n
  {
    var all := k.slots[0].entries + k.slots[1].entries;
    var service := if k.service < 0 then 0 else k.slots[k.service].version;
    var shared := Shared([], 0, 0, n + c.missing, service, service, true, true, false, seq(COUNTERS, _ => 0));
    s := State(c, shared, service, k.slots[k.newest].version, Statuses(all), seq(n, _ => Top), false);
    JoinedDistinct(k);
    forall e: Entry ensures Listed(k, e) <==> e.tablet in s.status && s.status[e.tablet] == e.status && e.status.inImage {
      StatusesAre(all, e);
    }
    assert Mirrors(s, k);
    forall t | t in s.status ensures Listed(k, TI.Entry(t, s.status[t])) { StatusesAre(all, TI.Entry(t, s.status[t])); }
    StartIsLoaded(s, k);
  }

  lemma StartIsLoaded(s: State, k: Tracker)
    requires Startable(k) && Mirrors(s, k) && forall t :: t in s.status ==> Listed(k, TI.Entry(t, s.status[t]))
    ensures ImageLoaded(s)
  {
    if k.service >= 0 {
      KeptIffSlot(s, k, k.service);
      forall t | t in s.status && s.status[t].inImage
        ensures s.service - 1 <= t.version <= s.service + 1 && (t.version == s.service + 1 ==> s.newest == s.service + 1)
      {
        StartIsNear(s, k, t);
      }
    }
  }

  lemma StartIsNear(s: State, k: Tracker, t: Tablet)
    requires Startable(k) && Mirrors(s, k) && k.service >= 0 && t in s.status && Listed(k, TI.Entry(t, s.status[t]))
    ensures s.service - 1 <= t.version <= s.service + 1 && (t.version == s.service + 1 ==> s.newest == s.service + 1)
  {
    EntryVersion(k, TI.Entry(t, s.status[t]));
  }
}
