/** The gateway's two threads over their shared state, and what the client can rely on. */
module Gateway {
  import opened Options
  import opened GatewayProtocol
  import opened GatewaySafety

  // ---------------------------------------------------------------- the code

  /** The state behind the mutex; each method is one critical section. */
  class Shared {
    var awaiting: nat
    var asking: bool
    var answer: Option<seq<ServerMsg>>
    var captured: seq<ServerMsg>
    var closed: bool

    function View(): Locked
      reads this
    {
      Locked(awaiting, asking, captured, answer, closed)
    }

    constructor ()
      ensures View() == Init().locked
    {
      awaiting, asking, answer, captured, closed := 1, false, None, [], false;
    }

    /** Server thread, one message: true if it goes to the client. */
    method Received(m: ServerMsg) returns (forward: bool)
      modifies this
      ensures (View(), forward) == Receive(old(View()), m)
    {
      if asking && !m.Async? {
        captured := captured + [m];
        if m.Ready? {
          asking := false;
          answer := Some(captured);
          captured := [];
        }
        return false;
      }
      if m.Ready? {
        awaiting := if awaiting > 0 then awaiting - 1 else 0;
      }
      forward := true;
    }

    method Sent()
      modifies this`awaiting
      ensures View() == old(View()).(awaiting := old(awaiting) + 1)
    {
      awaiting := awaiting + 1;
    }

    /** The first wait of `ask`, at the moment it ends. */
    method BeginAsk() returns (ok: bool)
      requires awaiting == 0 || closed
      modifies this
      ensures ok == !closed && closed == old(closed)
      ensures View() == if ok then old(View()).(asking := true, answer := None) else old(View())
    {
      if closed {
        return false;
      }
      asking := true;
      answer := None;
      ok := true;
    }

    /** The second wait of `ask`, at the moment it ends. */
    method TakeAnswer() returns (taken: Option<seq<ServerMsg>>)
      modifies this`answer
      ensures taken == old(answer) && View() == old(View()).(answer := None)
    {
      taken := answer;
      answer := None;
    }
  }

  /** The client thread: `up`, with its local `unsynced`. */
  class ClientThread {
    const shared: Shared
    var up: Up
    var unsynced: bool
    var written: seq<ServerMsg>
    var issued: nat

    /** The part of the system this thread sees, the rest as in `base`. */
    function View(base: System): System
      reads this, shared
    {
      base.(locked := shared.View(), up := up, unsynced := unsynced, issued := issued)
    }

    constructor (shared: Shared)
      ensures this.shared == shared && up == Idle && !unsynced && issued == 0 && written == []
    {
      this.shared := shared;
      up, unsynced, issued, written := Idle, false, 0, [];
    }

    method SendCounted(sync: bool, text: string, copies: nat, effect: Effect, ghost base: System)
      modifies this, shared
      ensures View(base) == Count(old(View(base)), sync, text, copies, effect) && written == old(written)
    {
      shared.Sent();
      up := Writing(Counted(issued, sync, text, copies, effect));
      issued := issued + 1;
    }

    method SendBatched(text: string, copies: nat, effect: Effect, ghost base: System)
      modifies this
      ensures View(base) == SendBatch(old(View(base)), text, copies, effect) && written == old(written)
    {
      up := Writing(Batch(text, copies, effect));
      unsynced := true;
    }

    /** One message from the client. */
    method Read(m: ClientMsg, ghost base: System)
      modifies this, shared
      ensures View(base) == UpReads(old(View(base)), m) && written == old(written)
    {
      match m {
        case Query(sql, fabric, copies) =>
          if fabric && !unsynced {
            up := WantAsk(sql, ViaQuery);
          } else {
            SendCounted(false, if fabric then Fallback(sql) else sql, if fabric then 0 else copies, Drops, base);
          }
        case Parse(sql, fabric, named) =>
          if fabric && !unsynced {
            up := WantAsk(sql, ViaParse(named));
          } else {
            SendBatched(if fabric then Fallback(sql) else sql, 0, ParseEffect(named), base);
          }
        case Sync =>
          unsynced := false;
          SendCounted(true, "", 0, Spares, base);
        case FunctionCall =>
          SendCounted(false, "", 0, Spares, base);
        case Terminate =>
          up := Done;
        case Extended(copy, closes) =>
          SendBatched("", if copy then 1 else 0, if closes then Drops else Spares, base);
        case Flush =>
          unsynced := true;
          up := Writing(Silent(Plain));
        case Other(part) =>
          up := Writing(Silent(part));
      }
    }

    /** The first half of `ask`: its wait over, the question may be put. */
    method Ask(ghost base: System)
      requires up.WantAsk? && (shared.awaiting == 0 || shared.closed)
      modifies this, shared
      ensures var s, a := old(View(base)), if old(shared.closed) then UpFail else UpAsk;
        Enabled(s, a) && View(base) == Next(s, a) && written == old(written)
    {
      var ok := shared.BeginAsk();
      up := if ok then WritingQuestion(up.sql, up.via) else Done;
    }

    /** The second half of `ask`: the wait for the answer over, it is read. */
    method Take(ghost base: System)
      requires up.WaitAnswer? && (shared.answer.Some? || shared.closed)
      modifies this, shared
      ensures var s, a := old(View(base)), if old(shared.answer).Some? then UpTake else UpFail;
        Enabled(s, a) && View(base) == Next(s, a) && written == old(written)
    {
      var taken := shared.TakeAnswer();
      up := if taken.Some? then Got(TranslationOf(taken.value), up.sql, up.via) else Done;
    }

    /** The message about to be written goes out. */
    method Write(ghost base: System) returns (sent: Request)
      requires up.Writing? || up.WritingQuestion?
      modifies this`up
      ensures var s := old(View(base)); View(base.(inq := base.inq + [sent])) == Next(s, UpWrite)
    {
      if up.Writing? {
        sent := up.request;
        up := Idle;
      } else {
        sent := Question(AskText(up.sql), up.via);
        up := WaitAnswer(up.sql, up.via);
      }
    }

    /** The refusal is this thread's own reply to a Query. */
    method Refuse(error: string, status: char, ghost base: System)
      requires up.Got? && up.translation == Refused(error, status) && up.via.ViaQuery?
      requires base.delivered == []
      modifies this
      ensures |old(written)| <= |written| && written[..|old(written)|] == old(written)
      ensures View(base.(delivered := written[|old(written)|..])) == UpActs(old(View(base)))
    {
      written := written + [Reply(ForClient(issued), ErrorText(error)), Ready(ForClient(issued), status)];
      issued := issued + 1;
      up := Idle;
    }

    /** What follows an answer.  `written` is what this thread itself sends to the client. */
    method Act(ghost base: System)
      requires up.Got?
      requires base.delivered == []
      modifies this, shared
      ensures |old(written)| <= |written| && written[..|old(written)|] == old(written)
      ensures View(base.(delivered := written[|old(written)|..])) == UpActs(old(View(base)))
    {
      var translation, sql, via := up.translation, up.sql, up.via;
      if translation.Broken? {
        up := Done;
      } else if via.ViaParse? {
        SendBatched(if translation.Sql? then translation.text else AskText(sql), 0, ParseEffect(via.named), base);
      } else if translation.Sql? {
        SendCounted(false, translation.text, 0, Drops, base);
      } else {
        Refuse(translation.error, translation.status, base);
      }
    }
  }

  // ---------------------------------------------------------------- every run

  ghost predicate Reachable(s: System)
  {
    exists actions :: Runs(Init(), actions) && After(Init(), actions) == s
  }

  lemma ReachableInv(s: System)
    requires Reachable(s)
    ensures Inv(s)
  {
    var actions :| Runs(Init(), actions) && After(Init(), actions) == s;
    InitInv();
    RunKeeps(Init(), actions);
  }

  lemma {:induction false} OutItemsMember(q: seq<ServerMsg>, m: ServerMsg)
    requires m in q && !m.Async?
    ensures Item(m.owner, m.Ready?, true) in OutItems(q)
  {
    if m == q[0] {
      assert Item(m.owner, m.Ready?, true) in MsgItems(q[0]);
    } else {
      OutItemsMember(q[1..], m);
    }
  }

  lemma {:induction false} InItemsMember(q: seq<Request>, r: Request)
    requires r in q && (r.Counted? || r.Batch?)
    ensures exists x :: x in InItems(q) && x.owner != ForQuestion
  {
    if r == q[0] {
      var x := RequestItems(q[0], false)[0];
      assert x in InItems(q) && x.owner != ForQuestion;
    } else {
      InItemsMember(q[1..], r);
      var x :| x in InItems(q[1..]) && x.owner != ForQuestion;
      assert x in InItems(q) && x.owner != ForQuestion;
    }
  }

  /** While the gateway asks, the server has nothing of the client's before it, and every reply on its way
      belongs to the question. */
  lemma AskingIsAlone(s: System)
    requires Reachable(s) && s.locked.asking
    ensures forall r :: r in s.inq ==> r.Question? || r.Silent?
    ensures s.current.Some? ==> s.current.value.Question? || s.current.value.Silent?
    ensures forall m :: m in s.outq ==> m.Async? || IsAnswer(m)
    ensures s.lost == {} && s.locked.awaiting == 0
  {
    ReachableInv(s);
    var t := Pipeline(s);
    OwedOfQuestions(t);
    assert forall x :: x in OutItems(s.outq) || x in WorkItems(s) || x in InItems(s.inq) ==> x in t;
    forall r | r in s.inq ensures r.Question? || r.Silent? {
      if r.Counted? || r.Batch? { InItemsMember(s.inq, r); }
    }
    forall m | m in s.outq ensures m.Async? || IsAnswer(m) {
      if !m.Async? { OutItemsMember(s.outq, m); }
    }
    assert s.current.Some? && (s.current.value.Counted? || s.current.value.Batch?) ==>
      RequestItems(s.current.value, true)[0] in WorkItems(s);
    AskingLosesNothing(s);
  }

  /** Asking began with no request outstanding, so none was ever discarded. */
  lemma AskingLosesNothing(s: System)
    requires Reachable(s) && s.locked.asking
    ensures s.lost == {} && s.locked.awaiting == 0
  {
    var actions :| Runs(Init(), actions) && After(Init(), actions) == s;
    InitInv();
    AskingStartsIdle(Init(), actions);
    RunKeeps(Init(), actions);
    CountAt(s, Pipeline(s), Given(s));
  }

  /** No request has been lost while the gateway asks. */
  ghost predicate AskIdle(s: System)
  {
    s.locked.asking ==> s.lost == {}
  }

  lemma {:induction false} AskingStartsIdle(s: System, actions: seq<Action>)
    requires Inv(s) && AskIdle(s) && Runs(s, actions)
    ensures AskIdle(After(s, actions))
    decreases |actions|
  {
    if actions != [] {
      AskIdleStep(s, actions[0]);
      StepKeeps(s, actions[0]);
      AskingStartsIdle(Next(s, actions[0]), actions[1..]);
    }
  }

  lemma AskIdleStep(s: System, a: Action)
    requires Inv(s) && AskIdle(s) && Enabled(s, a)
    ensures AskIdle(Next(s, a))
  {
    CountAt(s, Pipeline(s), Given(s));
    if s.copying {
      AskingReadsNoCopy(s);
    }
    AskIdleAt(s, a);
  }

  lemma AskingReadsNoCopy(s: System)
    requires Inv(s) && s.copying
    ensures !s.locked.asking
  {
    CopyIsWork(s);
    WorkingPipeline(s);
    assert Pipeline(s)[|OutItems(s.outq)|] == WorkItem(s);
    NotAsking(s, Pipeline(s), Given(s), WorkItem(s));
  }

  lemma ReadLeaves(s: System, m: ClientMsg)
    ensures UpReads(s, m).lost == s.lost && UpReads(s, m).locked.asking == s.locked.asking
  {
    match m
    case Query(_, _, _) =>
    case Parse(_, _, _) =>
    case _ =>
  }

  lemma ActLeaves(s: System)
    requires s.up.Got?
    ensures UpActs(s).lost == s.lost && UpActs(s).locked.asking == s.locked.asking
  {
    match s.up
    case Got(Sql(_), _, via) => if via.ViaParse? {} else {}
    case Got(Refused(_, _), _, via) => if via.ViaParse? {} else {}
    case Got(Broken, _, _) =>
  }

  /** A request is discarded only by a server that skips a batch or reads a COPY. */
  lemma NothingLostIdle(s: System, a: Action)
    requires Enabled(s, a) && !s.skipping && !s.copying
    ensures Next(s, a).lost == s.lost
  {
    match a
    case UpRead(m) => ReadLeaves(s, m);
    case UpAct => ActLeaves(s);
    case SrvEnd(_, _) =>
    case _ =>
  }

  lemma OnlyAskAsks(s: System, a: Action)
    requires Enabled(s, a) && !a.UpAsk? && !s.locked.asking
    ensures !Next(s, a).locked.asking
  {
    match a
    case UpRead(m) => ReadLeaves(s, m);
    case UpAct => ActLeaves(s);
    case DownRead =>
    case SrvAbsorb =>
    case _ =>
  }

  lemma LostGrows(s: System, a: Action)
    requires Enabled(s, a)
    ensures s.lost <= Next(s, a).lost
  {
    match a
    case UpRead(m) => ReadLeaves(s, m);
    case UpAct => ActLeaves(s);
    case SrvAbsorb =>
    case _ =>
  }

  lemma AskIdleAt(s: System, a: Action)
    requires AskIdle(s) && Enabled(s, a)
    requires s.locked.asking ==> !s.skipping && !s.copying
    requires s.locked.awaiting >= |s.lost|
    ensures AskIdle(Next(s, a))
  {
    if a.UpAsk? {
      assert |s.lost| == 0;
    } else if s.locked.asking {
      NothingLostIdle(s, a);
    } else {
      OnlyAskAsks(s, a);
    }
  }

  lemma CountAt(s: System, t: seq<Item>, v: seq<Owner>)
    requires InvAt(s, t, v)
    ensures s.locked.awaiting == |Owed(t)| + |s.lost|
    ensures v + Owed(t) == Expected(s.issued, s.lost)
    ensures s.locked.asking ==> !s.skipping && Owed(t) == []
  {
    if s.locked.asking {
      OwedOfQuestions(t);
    }
  }

  /** The client never sees any of the gateway's own conversation, and the gateway never takes any of the client's. */
  lemma AnswersStayApart(s: System)
    requires Reachable(s)
    ensures forall m :: m in s.delivered ==> !IsAnswer(m)
    ensures s.held.Some? ==> !IsAnswer(s.held.value)
    ensures forall m :: m in s.locked.captured ==> IsAnswer(m)
    ensures s.locked.answer.Some? ==> WholeAnswer(s.locked.answer.value)
  {
    ReachableInv(s);
  }

  /** The counter is the number of ReadyForQuery messages under way, and one for each request the server
      discarded: it is never too low, and its saturating decrement never saturates. */
  lemma AwaitingCounts(s: System)
    requires Reachable(s)
    ensures s.locked.awaiting == |Owed(Pipeline(s))| + |s.lost|
    ensures Enabled(s, DownRead) && !s.locked.asking && s.outq[0].Ready? ==> s.locked.awaiting > 0
  {
    ReachableInv(s);
    if Enabled(s, DownRead) && !s.locked.asking && s.outq[0].Ready? {
      ReadPipeline(s);
      var x := MsgItems(s.outq[0])[0];
      ForwardKeepsAt(s, x, Pipeline(Next(s, DownRead)), Given(s));
    }
  }

  /** The client gets one ReadyForQuery per request, in the order of its requests, whoever wrote it. */
  lemma RepliesInOrder(s: System)
    requires Reachable(s)
    ensures Visible(s.delivered) <= Expected(s.issued, s.lost)
    ensures Pipeline(s) == [] && Quiet(s.held) ==> Visible(s.delivered) == Expected(s.issued, s.lost)
  {
    ReachableInv(s);
    CountAt(s, Pipeline(s), Given(s));
    GivenInOrder(Visible(s.delivered), Visible(HeldSeq(s.held)), Owed(Pipeline(s)), Expected(s.issued, s.lost));
    if Quiet(s.held) {
      QuietIsInvisible(s.held);
    }
  }

  lemma GivenInOrder(a: seq<Owner>, b: seq<Owner>, c: seq<Owner>, e: seq<Owner>)
    requires (a + b) + c == e
    ensures a <= e && (b == [] && c == [] ==> a == e)
  {
  }

  lemma QuietIsInvisible(held: Option<ServerMsg>)
    requires Quiet(held)
    ensures Visible(HeldSeq(held)) == []
  {
    if held.Some? {
      VisibleOne(held.value);
    }
  }

  /** What the gateway writes to the client itself comes after every reply the client was owed before. */
  lemma RefusalInTurn(s: System)
    requires Reachable(s) && s.up.Got? && s.up.translation.Refused? && s.up.via.ViaQuery?
    ensures s.outq == [] || forall m :: m in s.outq ==> m.Async?
    ensures Quiet(s.held) && Visible(s.delivered) == Expected(s.issued, s.lost)
    ensures Visible(Next(s, UpAct).delivered) == Expected(s.issued, s.lost) + [ForClient(s.issued)]
  {
    ReachableInv(s);
    RepliesInOrder(s);
    forall m | m in s.outq ensures m.Async? {
      if !m.Async? {
        OutItemsMember(s.outq, m);
        assert false;
      }
    }
    RefusalShows(s);
  }

  lemma RefusalShows(s: System)
    requires s.up.Got? && s.up.translation.Refused? && s.up.via.ViaQuery?
    ensures Visible(UpActs(s).delivered) == Visible(s.delivered) + [ForClient(s.issued)]
  {
    var e, z := Reply(ForClient(s.issued), ErrorText(s.up.translation.error)), Ready(ForClient(s.issued), s.up.translation.status);
    VisibleJoin(s.delivered, [e, z]);
    VisiblePair(e, z);
    assert Owed(MsgItems(z)) == [ForClient(s.issued)];
    assert Owed(MsgItems(e)) == [];
  }

  /** The status reported with a refusal is the one that ended the answer. */
  lemma RefusalStatus(s: System)
    requires Reachable(s) && Enabled(s, UpTake)
    ensures var answer, got := s.locked.answer.value, Next(s, UpTake).up.translation;
      answer != [] && answer[|answer| - 1].Ready? && (got.Refused? ==> got.status == answer[|answer| - 1].status)
  {
    ReachableInv(s);
  }

  // ---------------------------------------------------------------- discarded requests

  lemma {:induction false} LostStays(s: System, actions: seq<Action>)
    requires Runs(s, actions)
    ensures s.lost <= After(s, actions).lost
    decreases |actions|
  {
    if actions != [] {
      LostGrows(s, actions[0]);
      LostStays(Next(s, actions[0]), actions[1..]);
    }
  }

  /** After the server discarded one counted request the gateway can never ask again: the wait for
      `awaiting == 0` lasts until the connection closes. */
  lemma LostBlocksAsking(s: System, actions: seq<Action>)
    requires Reachable(s) && s.lost != {} && Runs(s, actions)
    ensures !Enabled(After(s, actions), UpAsk)
  {
    ReachableInv(s);
    RunKeeps(s, actions);
    LostStays(s, actions);
    var lost := After(s, actions).lost;
    var k :| k in s.lost;
    assert k in lost;
    assert |lost| > 0;
  }
}
