/** The queue of tablets waiting for their compact sstable: a ring whose two
    indices are wrapped only when the next call finds them at the end. */
module CompactQueue {
  import opened Versions

  /** MAX_TABLETS_NUM. */
  const CAPACITY: nat := 1024

  datatype Ref = Null | Tablet(id: int)

  datatype Op = Push(tablet: Ref, version: Version) | Pop
  datatype Answer = Accepted | Invalid | Overflow | Popped(tablet: Ref)

  function Newer(a: Version, b: Version): Version {
    if Compare(a, b) > 0 then a else b
  }

  // ------------------------------------------------------ what the ring does

  datatype Ring = Ring(slots: seq<Ref>, read: int, write: int, num: int, version: Version)

  ghost predicate Bounded(r: Ring) {
    && |r.slots| == CAPACITY && 0 <= r.read <= CAPACITY && 0 <= r.write <= CAPACITY
    && 0 <= r.num <= CAPACITY
  }

  function PushRing(r: Ring, t: Ref, v: Version): (out: (Ring, Answer))
    requires Bounded(r)
    ensures Bounded(out.0)
  {
    if t == Null || !Positive(v) then (r, Invalid)
    else
      var version := Newer(v, r.version);
      var write := if r.write >= CAPACITY then 0 else r.write;
      if r.num < CAPACITY then
        (Ring(r.slots[write := t], r.read, write + 1, r.num + 1, version), Accepted)
      else (Ring(r.slots, r.read, write, r.num, version), Overflow)
  }

  function PopRing(r: Ring): (out: (Ring, Answer))
    requires Bounded(r)
    ensures Bounded(out.0)
  {
    if r.write == r.read then (r, Popped(Null))
    else
      var read := if r.read >= CAPACITY then 0 else r.read;
      if r.num > 0 && read != r.write then
        (r.(read := read + 1, num := r.num - 1), Popped(r.slots[read]))
      else (r.(read := read), Popped(Null))
  }

  function StepRing(r: Ring, op: Op): (out: (Ring, Answer))
    requires Bounded(r)
    ensures Bounded(out.0)
  {
    match op
    case Push(t, v) => PushRing(r, t, v)
    case Pop => PopRing(r)
  }

  // ------------------------------------------------------- what it should do

  /** A bounded first-in first-out queue. `popped` and `refused` record that a
      tablet was ever taken out, and that one was ever turned away. */
  datatype Fifo = Fifo(items: seq<Ref>, popped: bool, refused: bool, version: Version)

  const EMPTY := Fifo([], false, false, NO_VERSION)

  function PushFifo(q: Fifo, t: Ref, v: Version): (Fifo, Answer) {
    if t == Null || !Positive(v) then (q, Invalid)
    else
      var version := Newer(v, q.version);
      if |q.items| < CAPACITY then (q.(items := q.items + [t], version := version), Accepted)
      else (q.(refused := true, version := version), Overflow)
  }

  function PopFifo(q: Fifo): (Fifo, Answer) {
    if q.items == [] then (q, Popped(Null))
    else (q.(items := q.items[1..], popped := true), Popped(q.items[0]))
  }

  function StepFifo(q: Fifo, op: Op): (Fifo, Answer) {
    match op
    case Push(t, v) => PushFifo(q, t, v)
    case Pop => PopFifo(q)
  }

  /** Full, and not in the state of a first fill nobody has touched since. */
  predicate Jammed(q: Fifo) {
    |q.items| == CAPACITY && (q.popped || q.refused)
  }

  /** The first-in first-out queue that gives nothing back once jammed. */
  function StepJamming(q: Fifo, op: Op): (Fifo, Answer) {
    if op.Pop? && Jammed(q) then (q, Popped(Null)) else StepFifo(q, op)
  }

  // ------------------------------------------------------------- refinement

  function Slot(read: int, i: int): int {
    if read + i < CAPACITY then read + i else read + i - CAPACITY
  }

  ghost predicate NoNull(items: seq<Ref>) {
    forall i :: 0 <= i < |items| ==> items[i] != Null
  }

  /** The ring stands for the queue `q`. */
  ghost predicate Stands(r: Ring, q: Fifo) {
    && Bounded(r) && r.num == |q.items| && r.version == q.version
    && NoNull(q.items)
    && (if Jammed(q) then r.read == r.write || (r.read == CAPACITY && r.write == 0)
        else
          && !q.refused
          && (r.read == 0 <==> !q.popped)
          && (r.write == 0 ==> r.read == 0 && r.num == 0)
          && (r.write - r.read == r.num || r.write - r.read == r.num - CAPACITY)
          && (forall i {:trigger q.items[i]} :: 0 <= i < |q.items| ==> r.slots[Slot(r.read, i)] == q.items[i]))
  }

  lemma PushStands(r: Ring, q: Fifo, t: Ref, v: Version)
    requires Stands(r, q)
    ensures Stands(PushRing(r, t, v).0, PushFifo(q, t, v).0) && PushRing(r, t, v).1 == PushFifo(q, t, v).1
  {
  }

  lemma PopStands(r: Ring, q: Fifo)
    requires Stands(r, q)
    ensures Stands(PopRing(r).0, StepJamming(q, Pop).0) && PopRing(r).1 == StepJamming(q, Pop).1
  {
  }

  /** The answers of a run, in order. */
  ghost function RingAnswers(r: Ring, ops: seq<Op>): seq<Answer>
    requires Bounded(r)
    decreases |ops|
  {
    if ops == [] then []
    else [StepRing(r, ops[0]).1] + RingAnswers(StepRing(r, ops[0]).0, ops[1..])
  }

  function FifoAnswers(q: Fifo, ops: seq<Op>): seq<Answer>
    decreases |ops|
  {
    if ops == [] then []
    else [StepFifo(q, ops[0]).1] + FifoAnswers(StepFifo(q, ops[0]).0, ops[1..])
  }

  function JammingAnswers(q: Fifo, ops: seq<Op>): seq<Answer>
    decreases |ops|
  {
    if ops == [] then []
    else [StepJamming(q, ops[0]).1] + JammingAnswers(StepJamming(q, ops[0]).0, ops[1..])
  }

  function AfterJamming(q: Fifo, ops: seq<Op>): Fifo
    decreases |ops|
  {
    if ops == [] then q else AfterJamming(StepJamming(q, ops[0]).0, ops[1..])
  }

  function Fresh(slots: seq<Ref>): Ring {
    Ring(slots, 0, 0, 0, NO_VERSION)
  }

  lemma {:induction false} StandingAnswers(r: Ring, q: Fifo, ops: seq<Op>)
    requires Stands(r, q)
    ensures RingAnswers(r, ops) == JammingAnswers(q, ops)
    decreases |ops|
  {
    if ops != [] {
      match ops[0] {
        case Push(t, v) => PushStands(r, q, t, v);
        case Pop => PopStands(r, q);
      }
      StandingAnswers(StepRing(r, ops[0]).0, StepJamming(q, ops[0]).0, ops[1..]);
    }
  }

  /** For every sequence of pushes and pops, whatever the array held before, the
      ring answers exactly as the jamming queue does. */
  lemma RingIsJammingQueue(slots: seq<Ref>, ops: seq<Op>)
    requires |slots| == CAPACITY
    ensures RingAnswers(Fresh(slots), ops) == JammingAnswers(EMPTY, ops)
  {
    StandingAnswers(Fresh(slots), EMPTY, ops);
  }

  // ------------------------------------------------------ what follows of it

  /** No pop of the sequence finds the first-in first-out queue jammed. */
  predicate Careful(q: Fifo, ops: seq<Op>)
    decreases |ops|
  {
    ops == [] || (!(ops[0].Pop? && Jammed(q)) && Careful(StepFifo(q, ops[0]).0, ops[1..]))
  }

  lemma {:induction false} CarefulAnswers(q: Fifo, ops: seq<Op>)
    requires NoNull(q.items)
    ensures JammingAnswers(q, ops) == FifoAnswers(q, ops) <==> Careful(q, ops)
    decreases |ops|
  {
    if ops != [] {
      var j, f := JammingAnswers(q, ops), FifoAnswers(q, ops);
      if ops[0].Pop? && Jammed(q) {
        assert j[0] == Popped(Null) && f[0] == Popped(q.items[0]);
      } else {
        CarefulAnswers(StepFifo(q, ops[0]).0, ops[1..]);
        assert j[1..] == JammingAnswers(StepFifo(q, ops[0]).0, ops[1..]);
        assert f[1..] == FifoAnswers(StepFifo(q, ops[0]).0, ops[1..]);
      }
    }
  }

  /** The ring is a bounded first-in first-out queue exactly on the sequences in
      which no pop meets a queue that is full after a pop or after a refusal. */
  lemma FifoIffCareful(slots: seq<Ref>, ops: seq<Op>)
    requires |slots| == CAPACITY
    ensures RingAnswers(Fresh(slots), ops) == FifoAnswers(EMPTY, ops) <==> Careful(EMPTY, ops)
  {
    RingIsJammingQueue(slots, ops);
    CarefulAnswers(EMPTY, ops);
  }

  /** Once a tablet has been taken out, filling the queue is enough to jam it. */
  lemma {:induction false} FillingJams(q: Fifo, ops: seq<Op>)
    requires q.popped && |q.items| + |ops| == CAPACITY
    requires forall i :: 0 <= i < |ops| ==> ops[i].Push? && ops[i].tablet != Null && Positive(ops[i].version)
    ensures Jammed(AfterJamming(q, ops))
    decreases |ops|
  {
    if ops != [] { FillingJams(StepJamming(q, ops[0]).0, ops[1..]); }
  }

  /** Once jammed, every later push is refused and every later pop finds nothing. */
  lemma {:induction false} JamIsForever(r: Ring, q: Fifo, ops: seq<Op>, k: int)
    requires Stands(r, q) && Jammed(q) && 0 <= k < |ops|
    ensures |RingAnswers(r, ops)| == |ops|
    ensures RingAnswers(r, ops)[k] ==
            if ops[k].Pop? then Popped(Null)
            else if ops[k].tablet == Null || !Positive(ops[k].version) then Invalid else Overflow
    decreases |ops|
  {
    StandingAnswers(r, q, ops);
    var next := StepJamming(q, ops[0]).0;
    match ops[0] {
      case Push(t, v) => PushStands(r, q, t, v);
      case Pop => PopStands(r, q);
    }
    AnswersCount(StepRing(r, ops[0]).0, ops[1..]);
    if k > 0 { JamIsForever(StepRing(r, ops[0]).0, next, ops[1..], k - 1); }
  }

  lemma {:induction false} AnswersCount(r: Ring, ops: seq<Op>)
    requires Bounded(r)
    ensures |RingAnswers(r, ops)| == |ops|
    decreases |ops|
  {
    if ops != [] { AnswersCount(StepRing(r, ops[0]).0, ops[1..]); }
  }

  /** The tablets accepted, in the order of the pushes. */
  function Entered(ops: seq<Op>, answers: seq<Answer>): seq<Ref>
    requires |ops| == |answers|
    decreases |ops|
  {
    if ops == [] then []
    else In(ops[0], answers[0]) + Entered(ops[1..], answers[1..])
  }

  /** The tablets handed out, in the order of the pops. */
  function Left(answers: seq<Answer>): seq<Ref>
    decreases |answers|
  {
    if answers == [] then []
    else Out(answers[0]) + Left(answers[1..])
  }

  function In(op: Op, answer: Answer): seq<Ref> {
    if op.Push? && answer == Accepted then [op.tablet] else []
  }

  function Out(answer: Answer): seq<Ref> {
    if answer.Popped? && answer.tablet != Null then [answer.tablet] else []
  }

  lemma StepConserves(q: Fifo, op: Op)
    requires NoNull(q.items)
    ensures NoNull(StepJamming(q, op).0.items)
    ensures q.items + In(op, StepJamming(q, op).1) == Out(StepJamming(q, op).1) + StepJamming(q, op).0.items
  {
    if op.Pop? && q.items != [] {
      assert q.items == [q.items[0]] + q.items[1..];
    }
  }

  lemma Regroup(a: seq<Ref>, i: seq<Ref>, e: seq<Ref>, o: seq<Ref>, n: seq<Ref>, l: seq<Ref>, z: seq<Ref>)
    requires a + i == o + n && n + e == l + z
    ensures a + (i + e) == (o + l) + z
  {
    calc { a + (i + e); (a + i) + e; o + (n + e); o + (l + z); (o + l) + z; }
  }

  lemma {:induction false} Conserved(q: Fifo, ops: seq<Op>)
    requires NoNull(q.items)
    ensures |JammingAnswers(q, ops)| == |ops|
    ensures q.items + Entered(ops, JammingAnswers(q, ops))
            == Left(JammingAnswers(q, ops)) + AfterJamming(q, ops).items
    decreases |ops|
  {
    if ops != [] {
      var (next, answer) := StepJamming(q, ops[0]);
      var rest := JammingAnswers(next, ops[1..]);
      StepConserves(q, ops[0]);
      Conserved(next, ops[1..]);
      assert JammingAnswers(q, ops)[1..] == rest;
      Regroup(q.items, In(ops[0], answer), Entered(ops[1..], rest),
              Out(answer), next.items, Left(rest), AfterJamming(next, ops[1..]).items);
    }
  }

  /** Whatever the calls, nothing is lost from the order, doubled or invented: the
      tablets handed out are the first ones accepted, and the others still queue. */
  lemma HandedOutInOrder(slots: seq<Ref>, ops: seq<Op>)
    requires |slots| == CAPACITY
    ensures |RingAnswers(Fresh(slots), ops)| == |ops|
    ensures Entered(ops, RingAnswers(Fresh(slots), ops))
            == Left(RingAnswers(Fresh(slots), ops)) + AfterJamming(EMPTY, ops).items
  {
    RingIsJammingQueue(slots, ops);
    Conserved(EMPTY, ops);
    assert EMPTY.items + Entered(ops, JammingAnswers(EMPTY, ops)) == Entered(ops, JammingAnswers(EMPTY, ops));
  }

  /** Emptying `q`: `released` are out, `tablet` is next and `rest` still queue. */
  ghost predicate Draining(q: Fifo, released: seq<Ref>, tablet: Ref, rest: Fifo) {
    if Jammed(q) then released == [] && tablet == Null
    else
      && |rest.items| < CAPACITY
      && (if tablet == Null then rest.items == [] && released == q.items
          else q.items == released + [tablet] + rest.items)
  }

  lemma DrainStarts(q: Fifo)
    requires NoNull(q.items) && |q.items| <= CAPACITY
    ensures Draining(q, [], StepJamming(q, Pop).1.tablet, StepJamming(q, Pop).0)
  {
    if !Jammed(q) && q.items != [] {
      assert q.items == [] + [q.items[0]] + q.items[1..];
    }
  }

  lemma DrainGoesOn(q: Fifo, released: seq<Ref>, tablet: Ref, rest: Fifo)
    requires Draining(q, released, tablet, rest) && tablet != Null && NoNull(rest.items)
    ensures Draining(q, released + [tablet], StepJamming(rest, Pop).1.tablet, StepJamming(rest, Pop).0)
  {
    if rest.items != [] {
      assert rest.items == [rest.items[0]] + rest.items[1..];
    }
  }

  // ----------------------------------------------------------------- the class

  class Queue {
    const tablets: array<Ref>
    var readIndex: int
    var writeIndex: int
    var tabletsNum: int
    var dataVersion: Version

    ghost function View(): Ring
      reads this, tablets
    {
      Ring(tablets[..], readIndex, writeIndex, tabletsNum, dataVersion)
    }

    ghost predicate Holds(q: Fifo)
      reads this, tablets
    {
      Stands(View(), q)
    }

    constructor ()
      ensures fresh(tablets) && Holds(EMPTY)
    {
      tablets := new Ref[CAPACITY];
      readIndex, writeIndex, tabletsNum, dataVersion := 0, 0, 0, NO_VERSION;
    }

    method Push(tablet: Ref, version: Version, ghost q: Fifo) returns (answer: Answer)
      requires Holds(q)
      modifies this, tablets
      ensures View() == PushRing(old(View()), tablet, version).0
      ensures Holds(PushFifo(q, tablet, version).0) && answer == PushFifo(q, tablet, version).1
    {
      PushStands(View(), q, tablet, version);
      if tablet == Null || !Positive(version) {
        return Invalid;
      }
      if Compare(version, dataVersion) > 0 {
        dataVersion := version;
      }
      if writeIndex >= CAPACITY {
        writeIndex := 0;
      }
      if tabletsNum < CAPACITY {
        tablets[writeIndex] := tablet;
        writeIndex := writeIndex + 1;
        tabletsNum := tabletsNum + 1;
        answer := Accepted;
      } else {
        answer := Overflow;
      }
    }

    method Pop(ghost q: Fifo) returns (tablet: Ref)
      requires Holds(q)
      modifies this`readIndex, this`tabletsNum
      ensures View() == PopRing(old(View())).0
      ensures Holds(StepJamming(q, Op.Pop).0) && Popped(tablet) == StepJamming(q, Op.Pop).1
    {
      PopStands(View(), q);
      tablet := Null;
      if writeIndex != readIndex {
        if readIndex >= CAPACITY {
          readIndex := 0;
        }
        if tabletsNum > 0 && readIndex != writeIndex {
          tablet := tablets[readIndex];
          readIndex := readIndex + 1;
          tabletsNum := tabletsNum - 1;
        }
      }
    }

    /** Shutting down releases what is queued, in order; a jammed queue keeps all
        of its tablets unreleased. */
    method Destroy(ghost q: Fifo) returns (released: seq<Ref>)
      requires Holds(q)
      modifies this
      ensures released == if Jammed(q) then [] else q.items
      ensures Holds(EMPTY)
    {
      released := [];
      ghost var rest := q;
      DrainStarts(rest);
      var tablet := Pop(rest);
      rest := StepJamming(rest, Op.Pop).0;
      while tablet != Null
        invariant Holds(rest) && Draining(q, released, tablet, rest)
        decreases if tablet == Null then 0 else 1 + |rest.items|
      {
        DrainGoesOn(q, released, tablet, rest);
        released := released + [tablet];
        tablet := Pop(rest);
        rest := StepJamming(rest, Op.Pop).0;
      }
      readIndex, writeIndex, tabletsNum, dataVersion := 0, 0, 0, NO_VERSION;
    }
  }

  // ------------------------------------------------------------------ the data version

  ghost function AfterRing(r: Ring, ops: seq<Op>): (out: Ring)
    requires Bounded(r)
    ensures Bounded(out)
    decreases |ops|
  {
    if ops == [] then r else AfterRing(StepRing(r, ops[0]).0, ops[1..])
  }

  /** A push with a tablet and a valid version, whether there is room or not. */
  predicate Offers(op: Op) {
    op.Push? && op.tablet != Null && Positive(op.version)
  }

  /** The queue's version is the greatest that was offered, or the one it had. */
  lemma {:induction false} VersionIsGreatest(r: Ring, ops: seq<Op>)
    requires Bounded(r)
    ensures var v := AfterRing(r, ops).version;
      && UpTo(r.version, v) && (forall i :: 0 <= i < |ops| && Offers(ops[i]) ==> UpTo(ops[i].version, v))
      && (v == r.version || exists i :: 0 <= i < |ops| && Offers(ops[i]) && ops[i].version == v)
    decreases |ops|
  {
    if ops != [] {
      var next, rest := StepRing(r, ops[0]).0, ops[1..];
      VersionIsGreatest(next, rest);
      VersionStep(r, ops[0]);
      var v := AfterRing(next, rest).version;
      forall i | 0 <= i < |ops| && Offers(ops[i]) ensures UpTo(ops[i].version, v) {
        if i > 0 { assert rest[i - 1] == ops[i]; }
      }
      if v != next.version {
        var i :| 0 <= i < |rest| && Offers(rest[i]) && rest[i].version == v;
        assert ops[i + 1] == rest[i];
      }
    }
  }

  lemma VersionStep(r: Ring, op: Op)
    requires Bounded(r)
    ensures var v := StepRing(r, op).0.version;
      && UpTo(r.version, v) && (Offers(op) ==> UpTo(op.version, v))
      && (v == r.version || (Offers(op) && v == op.version))
  {
    if op.Push? { CompareIsOrder(op.version, r.version, 0, 0); }
  }
}
