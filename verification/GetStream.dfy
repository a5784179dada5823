/** Many remote calls presented as one stream of cells: the paging of the get
    stream over the requested cells. */
module GetStream {

  import opened Cells

  /** What one remote call brings: how many of the requested cells it answers,
      whether the server calls the request fulfilled, and the cells found. */
  datatype Reply = Failed | Reply(items: int, fulfilled: bool, cells: seq<Item>)

  datatype Fault = RpcFailed | EmptyUnfulfilled | ItemCount | Unexpected
  datatype Result = Next(item: Item) | End | Error(fault: Fault)

  /** `total` requested cells, `index` of them settled; `last` is the response
      being read and `pos` the cells read from it. */
  datatype Stream = Stream(total: nat, index: int, first: bool, finish: bool, last: Reply, pos: nat)

  function Start(total: nat): Stream {
    Stream(total, 0, true, false, Reply(0, false, []), 0)
  }

  ghost predicate Valid(s: Stream) {
    s.last.Reply? && s.pos <= |s.last.cells|
  }

  // ------------------------------------------------------------------ one call

  datatype Status = Going | Finished | Broken

  function CheckFinish(s: Stream): (Stream, Status)
    requires s.last.Reply?
  {
    if s.finish then (s, Finished)
    else if s.last.items <= 0 then (s, Broken)
    else
      var t := s.(index := s.index + s.last.items);
      if t.index == t.total then (t.(finish := true), Finished)
      else if t.index < t.total || !t.last.fulfilled then (t, Going)
      else (t, Broken)
  }

  /** Before a remote call: settle the response just read. */
  function Settle(s: Stream): (Stream, Status)
    requires s.last.Reply?
  {
    if s.first then (s, Going) else CheckFinish(s)
  }

  predicate Read(s: Stream)
    requires s.last.Reply?
  {
    s.pos >= |s.last.cells|
  }

  /** Whether the next call for a cell has to ask the server. */
  predicate Asks(s: Stream)
    requires s.last.Reply?
  {
    s.total > 0 && Read(s) && Settle(s).1 == Going && Settle(s).0.index < s.total
  }

  function Receive(s: Stream, reply: Reply): (Stream, Result)
    requires s.last.Reply?
  {
    if reply.Failed? then (s, Error(RpcFailed))
    else if !reply.fulfilled && reply.cells == [] then (s.(last := reply, pos := 0), Error(EmptyUnfulfilled))
    else
      var t := s.(first := false, last := reply, pos := 0);
      if reply.cells != [] then (t.(pos := 1), Next(reply.cells[0]))
      else
        var (u, status) := CheckFinish(t);
        (u, if status == Finished then End else if status == Going then Error(Unexpected) else Error(ItemCount))
  }

  function Refill(s: Stream, reply: Reply): (Stream, Result)
    requires s.last.Reply?
  {
    var (t, status) := Settle(s);
    if status == Broken then (t, Error(ItemCount))
    else if status == Finished || t.index >= t.total then (t, End)
    else Receive(t, reply)
  }

  /** One call for a cell; `reply` is what the server would answer if asked. */
  function Step(s: Stream, reply: Reply): (Stream, Result)
    requires Valid(s)
  {
    if s.total == 0 then (s, End)
    else if s.pos < |s.last.cells| then (s.(pos := s.pos + 1), Next(s.last.cells[s.pos]))
    else Refill(s, reply)
  }

  // ------------------------------------------------------------------ all calls

  /** Reading a stream to its end: the cells delivered, how it ended, and the index
      of the first requested cell of every remote call. */
  datatype Log = Log(delivered: seq<Item>, result: Result, starts: seq<int>, last: Stream)

  function Ahead(items: seq<Item>, starts: seq<int>, log: Log): Log {
    Log(items + log.delivered, log.result, starts + log.starts, log.last)
  }

  lemma AheadTwice(a: seq<Item>, b: seq<Item>, starts: seq<int>, log: Log)
    ensures Ahead(a, starts, Ahead(b, [], log)) == Ahead(a + b, starts, log)
  {
    assert a + (b + log.delivered) == (a + b) + log.delivered;
    assert [] + log.starts == log.starts;
  }

  lemma NothingAhead(log: Log)
    ensures Ahead([], [], log) == log
  {
    assert [] + log.delivered == log.delivered && [] + log.starts == log.starts;
  }

  function Answered(replies: seq<Reply>): Reply {
    if replies == [] then Failed else replies[0]
  }

  function RunOf(s: Stream, replies: seq<Reply>): (log: Log)
    requires Valid(s)
    decreases |replies|, |s.last.cells| - s.pos
  {
    var (t, r) := Step(s, Answered(replies));
    var starts := if Asks(s) then [Settle(s).0.index] else [];
    if !r.Next? then Log([], r, starts, t)
    else Ahead([r.item], starts, RunOf(t, if Asks(s) then replies[1..] else replies))
  }

  /** A server that answers between one and all of the `rest` cells still wanted in
      every call, with no empty response other than a last, fulfilled one. */
  predicate Serves(replies: seq<Reply>, rest: int)
    decreases |replies|
  {
    && replies != [] && replies[0].Reply?
    && 1 <= replies[0].items <= rest
    && (replies[0].cells == [] ==> replies[0].fulfilled && replies[0].items == rest)
    && (replies[0].items < rest ==> Serves(replies[1..], rest - replies[0].items))
  }

  /** How many calls such a server needs. */
  function Calls(replies: seq<Reply>, rest: int): (n: nat)
    requires Serves(replies, rest)
    ensures 1 <= n <= |replies| && n <= rest
    decreases |replies|
  {
    if replies[0].items == rest then 1 else 1 + Calls(replies[1..], rest - replies[0].items)
  }

  function AllCells(replies: seq<Reply>): seq<Item>
    decreases |replies|
  {
    if replies == [] then []
    else (if replies[0].Reply? then replies[0].cells else []) + AllCells(replies[1..])
  }

  /** Where each call starts: after the cells settled by the earlier ones. */
  function Starts(replies: seq<Reply>, from: int): seq<int>
    decreases |replies|
  {
    if replies == [] then []
    else [from] + Starts(replies[1..], from + if replies[0].Reply? then replies[0].items else 0)
  }

  // ------------------------------------------------------------------- theorems

  /** A response is read to its last cell before anything else happens. */
  lemma {:induction false} ReadsOut(s: Stream, replies: seq<Reply>)
    requires Valid(s) && s.total > 0
    ensures RunOf(s, replies) == Ahead(s.last.cells[s.pos..], [], RunOf(s.(pos := |s.last.cells|), replies))
    decreases |s.last.cells| - s.pos
  {
    if s.pos < |s.last.cells| {
      var c := s.last.cells[s.pos];
      var t := s.(pos := s.pos + 1);
      assert Step(s, Answered(replies)) == (t, Next(c)) && !Asks(s);
      assert RunOf(s, replies) == Ahead([c], [], RunOf(t, replies));
      ReadsOut(t, replies);
      AheadTwice([c], s.last.cells[s.pos + 1..], [], RunOf(s.(pos := |s.last.cells|), replies));
      assert s.last.cells[s.pos..] == [c] + s.last.cells[s.pos + 1..];
    } else {
      NothingAhead(RunOf(s, replies));
    }
  }

  /** The stream is between two responses, or before the first. */
  ghost predicate Between(s: Stream) {
    Valid(s) && s.total > 0 && Read(s) && !s.finish && 0 <= s.index < s.total && (s.first ==> s.index == 0)
  }

  /** The stream once it has asked, got `reply` and read it out. */
  function After(s: Stream, reply: Reply): Stream
    requires s.last.Reply? && reply.Reply?
  {
    Settle(s).0.(first := false, last := reply, pos := |reply.cells|)
  }

  /** Receiving a response with cells: they are delivered and the stream is between
      responses again. */
  lemma Receives(s: Stream, replies: seq<Reply>)
    requires Between(s) && Asks(s) && replies != [] && replies[0].Reply? && replies[0].cells != []
    ensures Between(After(s, replies[0]))
    ensures RunOf(s, replies)
            == Ahead(replies[0].cells, [Settle(s).0.index], RunOf(After(s, replies[0]), replies[1..]))
  {
    var cells := replies[0].cells;
    var t := After(s, replies[0]).(pos := 1);
    assert Step(s, replies[0]) == (t, Next(cells[0]));
    ReadsOut(t, replies[1..]);
    AheadTwice([cells[0]], cells[1..], [Settle(s).0.index], RunOf(After(s, replies[0]), replies[1..]));
    assert cells == [cells[0]] + cells[1..];
  }

  function Rest(s: Stream): int {
    s.total - s.index - if s.first || !s.last.Reply? then 0 else s.last.items
  }

  /** What is left to serve once the response at hand is settled. */
  ghost predicate WellServed(s: Stream, replies: seq<Reply>)
    requires s.last.Reply?
  {
    (s.first || s.last.items >= 1) && Rest(s) >= 0 && (Rest(s) > 0 ==> Serves(replies, Rest(s)))
  }

  ghost predicate Complete(log: Log, total: nat) {
    log.result == End && log.last.index == total
  }

  lemma {:induction false} CompleteIff(s: Stream, replies: seq<Reply>)
    requires Between(s)
    ensures Complete(RunOf(s, replies), s.total) <==> WellServed(s, replies)
    decreases |replies|
  {
    if Asks(s) && replies != [] && replies[0].Reply? && replies[0].cells != [] {
      Receives(s, replies);
      CompleteIff(After(s, replies[0]), replies[1..]);
    }
  }

  /** The stream ends having settled exactly the requested cells if and only if the
      server serves them, however it cuts them into responses. */
  lemma EndsWellIffServed(total: nat, replies: seq<Reply>)
    ensures Complete(RunOf(Start(total), replies), total) <==> total == 0 || Serves(replies, total)
  {
    if total > 0 { CompleteIff(Start(total), replies); }
  }

  /** As `Serves`, but a response that is not called fulfilled may claim more cells
      than were asked for. */
  predicate Tolerated(replies: seq<Reply>, rest: int)
    decreases |replies|
  {
    && replies != [] && replies[0].Reply? && 1 <= replies[0].items
    && (replies[0].cells == [] ==> replies[0].fulfilled && replies[0].items == rest)
    && (replies[0].items > rest ==> !replies[0].fulfilled)
    && (replies[0].items < rest ==> Tolerated(replies[1..], rest - replies[0].items))
  }

  lemma {:induction false} EndIff(s: Stream, replies: seq<Reply>)
    requires Between(s)
    ensures RunOf(s, replies).result == End <==>
            && (s.first || s.last.items >= 1)
            && (Rest(s) < 0 ==> !s.last.fulfilled)
            && (Rest(s) > 0 ==> Tolerated(replies, Rest(s)))
    decreases |replies|
  {
    if Asks(s) && replies != [] && replies[0].Reply? && replies[0].cells != [] {
      Receives(s, replies);
      EndIff(After(s, replies[0]), replies[1..]);
    }
  }

  /** The exact condition for a normal end, which an overlong claim also reaches. */
  lemma EndsIffTolerated(total: nat, replies: seq<Reply>)
    ensures RunOf(Start(total), replies).result == End <==> total == 0 || Tolerated(replies, total)
  {
    if total > 0 { EndIff(Start(total), replies); }
  }

  lemma {:induction false} DeliversAll(s: Stream, replies: seq<Reply>)
    requires Between(s)
    ensures var log := RunOf(s, replies);
            && |log.starts| <= |replies| + 1
            && log.delivered == AllCells(replies[..if |log.starts| <= |replies| then |log.starts| else |replies|])
    decreases |replies|
  {
    if Asks(s) && replies != [] {
      if replies[0].Reply? && replies[0].cells != [] {
        Receives(s, replies);
        DeliversAll(After(s, replies[0]), replies[1..]);
        var n := |RunOf(After(s, replies[0]), replies[1..]).starts|;
        var k := if n <= |replies| - 1 then n else |replies| - 1;
        assert replies[..k + 1][1..] == replies[1..][..k];
      } else {
        assert replies[..1][1..] == [];
      }
    }
  }

  /** Whatever the server does, the cells delivered are those of the responses it
      gave, joined in order: none is dropped, repeated or reordered. */
  lemma DeliversResponses(total: nat, replies: seq<Reply>)
    ensures var log := RunOf(Start(total), replies);
            && |log.starts| <= |replies| + 1
            && log.delivered == AllCells(replies[..if |log.starts| <= |replies| then |log.starts| else |replies|])
  {
    if total > 0 { DeliversAll(Start(total), replies); }
  }

  lemma {:induction false} AsksInOrder(s: Stream, replies: seq<Reply>)
    requires Between(s) && WellServed(s, replies) && Rest(s) > 0
    ensures RunOf(s, replies).starts == Starts(replies[..Calls(replies, Rest(s))], s.total - Rest(s))
    decreases |replies|
  {
    var n := Calls(replies, Rest(s));
    assert Settle(s).0.index == s.total - Rest(s);
    assert replies[..n][1..] == replies[1..][..n - 1];
    if replies[0].cells != [] {
      Receives(s, replies);
      var t := After(s, replies[0]);
      assert Rest(t) == Rest(s) - replies[0].items;
      if Rest(t) > 0 { AsksInOrder(t, replies[1..]); }
    }
  }

  /** The `i`th call covers the requested cell `x`. */
  ghost predicate Covers(replies: seq<Reply>, rest: int, from: int, i: int, x: int)
    requires Serves(replies, rest)
  {
    var starts := Starts(replies[..Calls(replies, rest)], from);
    0 <= i < |starts| && i < |replies| && replies[i].Reply? && starts[i] <= x < starts[i] + replies[i].items
  }

  lemma CoversLater(replies: seq<Reply>, rest: int, from: int, i: int, x: int)
    requires Serves(replies, rest) && i > 0
    ensures Covers(replies, rest, from, i, x)
            <==> replies[0].items < rest && Covers(replies[1..], rest - replies[0].items, from + replies[0].items, i - 1, x)
  {
    var n := Calls(replies, rest);
    assert replies[..n][1..] == replies[1..][..n - 1];
    StartsCount(replies[..n], from);
  }

  lemma {:induction false} CoversWanted(replies: seq<Reply>, rest: int, from: int, i: int, x: int)
    requires Serves(replies, rest) && Covers(replies, rest, from, i, x)
    ensures from <= x < from + rest
    decreases |replies|
  {
    if i > 0 {
      CoversLater(replies, rest, from, i, x);
      CoversWanted(replies[1..], rest - replies[0].items, from + replies[0].items, i - 1, x);
    }
  }

  /** Every requested cell is covered by exactly one call. */
  lemma {:induction false} CallsTile(replies: seq<Reply>, rest: int, from: int, x: int) returns (call: int)
    requires Serves(replies, rest) && from <= x < from + rest
    ensures 0 <= call < Calls(replies, rest)
    ensures forall i :: Covers(replies, rest, from, i, x) <==> i == call
    decreases |replies|
  {
    var items := replies[0].items;
    if x < from + items {
      call := 0;
      forall i | i > 0 ensures !Covers(replies, rest, from, i, x) {
        CoversLater(replies, rest, from, i, x);
        if Covers(replies, rest, from, i, x) {
          CoversWanted(replies[1..], rest - items, from + items, i - 1, x);
        }
      }
    } else {
      var later := CallsTile(replies[1..], rest - items, from + items, x);
      call := later + 1;
      forall i | i > 0 ensures Covers(replies, rest, from, i, x) <==> i == call {
        CoversLater(replies, rest, from, i, x);
      }
    }
  }

  /** The calls of a served stream: as many as the server needs and never more than
      there are cells, each starting where the one before it left off. */
  lemma CallsInOrder(total: nat, replies: seq<Reply>)
    requires total > 0 && Serves(replies, total)
    ensures RunOf(Start(total), replies).starts == Starts(replies[..Calls(replies, total)], 0)
    ensures |RunOf(Start(total), replies).starts| == Calls(replies, total) <= total
  {
    AsksInOrder(Start(total), replies);
    StartsCount(replies[..Calls(replies, total)], 0);
  }

  lemma {:induction false} StartsCount(replies: seq<Reply>, from: int)
    ensures |Starts(replies, from)| == |replies|
    decreases |replies|
  {
    if replies != [] {
      StartsCount(replies[1..], from + if replies[0].Reply? then replies[0].items else 0);
    }
  }

  /** How a read of `rest` more cells ends, from the responses alone. */
  function Ending(replies: seq<Reply>, rest: int): Result
    decreases |replies|
  {
    if replies == [] || replies[0].Failed? then Error(RpcFailed)
    else
      var reply := replies[0];
      if reply.cells == [] && !reply.fulfilled then Error(EmptyUnfulfilled)
      else if reply.items <= 0 || (reply.items > rest && reply.fulfilled) then Error(ItemCount)
      else if reply.items >= rest then End
      else if reply.cells == [] then Error(Unexpected)
      else Ending(replies[1..], rest - reply.items)
  }

  lemma {:induction false} EndsBetween(s: Stream, replies: seq<Reply>)
    requires Between(s)
    ensures RunOf(s, replies).result ==
            if !s.first && (s.last.items <= 0 || (Rest(s) < 0 && s.last.fulfilled)) then Error(ItemCount)
            else if Rest(s) <= 0 then End else Ending(replies, Rest(s))
    decreases |replies|
  {
    if Asks(s) && replies != [] && replies[0].Reply? && replies[0].cells != [] {
      Receives(s, replies);
      EndsBetween(After(s, replies[0]), replies[1..]);
    }
  }

  /** Every end of a stream, normal or not: the first response that does not fit decides,
      and says which error it is. */
  lemma EndsAs(total: nat, replies: seq<Reply>)
    ensures RunOf(Start(total), replies).result == if total == 0 then End else Ending(replies, total)
  {
    if total > 0 { EndsBetween(Start(total), replies); }
  }
}
