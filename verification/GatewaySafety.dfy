/**
 What every run of the gateway keeps.

 Everything under way between the two threads is one sequence, the pipeline: what
 the server has answered and the server thread has not read, what the server is
 working on, what waits for it, and what the client thread is about to write.  The
 steps of the system move items along this sequence, so each step is a fact about
 taking an item off its front, putting one on its back, or changing one in the
 middle, and the invariant is stated over the pipeline and what the client has been
 given so far.  The summaries of a pipeline (what it owes the client, whether it
 holds a question, whether every reply in it is still followed by an end) are
 recursive, with lemmas for how they split over a concatenation; no step needs more
 of the pipeline than that.
 */
module GatewaySafety {
  import opened Sequences
  import opened Options
  import opened GatewayProtocol

  // ---------------------------------------------------------------- the pipeline

  /** What is still under way between the client thread and the server thread, in order.  `ends` marks
      what becomes a ReadyForQuery, `firm` what no failed batch can discard. */
  datatype Item = Item(owner: Owner, ends: bool, firm: bool)

  function MsgItems(m: ServerMsg): seq<Item>
  {
    match m
    case Async(_) => []
    case Reply(o, _) => [Item(o, false, true)]
    case Ready(o, _) => [Item(o, true, true)]
  }

  function OutItems(q: seq<ServerMsg>): seq<Item>
  {
    if q == [] then [] else MsgItems(q[0]) + OutItems(q[1..])
  }

  function RequestItems(r: Request, begun: bool): seq<Item>
  {
    match r
    case Question(_, _) => [Item(ForQuestion, true, true)]
    case Counted(id, sync, _, _, _) => [Item(ForClient(id), true, begun || sync)]
    case Batch(_, _, _) => [Item(ForBatch, false, false)]
    case Silent(_) => []
  }

  function InItems(q: seq<Request>): seq<Item>
  {
    if q == [] then [] else RequestItems(q[0], false) + InItems(q[1..])
  }

  function WorkItems(s: System): seq<Item>
  {
    (if s.startup then [Item(ForStartup, true, true)] else [])
    + if s.current.Some? then RequestItems(s.current.value, true) else []
  }

  function WriteItems(up: Up): seq<Item>
  {
    match up
    case Writing(r) => RequestItems(r, false)
    case WritingQuestion(_, _) => [Item(ForQuestion, true, true)]
    case _ => []
  }

  function Pipeline(s: System): seq<Item>
  {
    OutItems(s.outq) + WorkItems(s) + InItems(s.inq) + WriteItems(s.up)
  }

  // ---------------------------------------------------------------- facts about pipelines

  ghost predicate AllQuestion(t: seq<Item>)
  {
    forall x :: x in t ==> x.owner == ForQuestion
  }

  ghost predicate NoQuestion(t: seq<Item>)
  {
    forall x :: x in t ==> x.owner != ForQuestion
  }

  /** The ReadyForQuery messages still to come for the client. */
  function Owed(t: seq<Item>): seq<Owner>
  {
    if t == [] then []
    else (if t[0].ends && t[0].owner != ForQuestion then [t[0].owner] else []) + Owed(t[1..])
  }

  function Ends(t: seq<Item>): nat
  {
    if t == [] then 0 else (if t[0].ends then 1 else 0) + Ends(t[1..])
  }

  /** Something that no failed batch can discard will still end a round. */
  predicate HasEnd(t: seq<Item>)
  {
    t != [] && ((t[0].ends && t[0].firm) || HasEnd(t[1..]))
  }

  /** Every reply is followed by a firm end; `more` says that one comes after `t` anyway, and an
      unsynced batch may still wait for its Sync. */
  predicate Covered(t: seq<Item>, unsynced: bool, more: bool)
  {
    t == [] ||
    (&& Covered(t[1..], unsynced, more)
     && (t[0].ends || (unsynced && t[0].owner == ForBatch) || HasEnd(t[1..]) || more))
  }

  lemma {:induction false} OutItemsJoin(a: seq<ServerMsg>, b: seq<ServerMsg>)
    ensures OutItems(a + b) == OutItems(a) + OutItems(b)
  {
    if a == [] {
      assert a + b == b;
    } else {
      ConcatTail(a, b);
      OutItemsJoin(a[1..], b);
      Assoc(MsgItems(a[0]), OutItems(a[1..]), OutItems(b));
    }
  }

  lemma {:induction false} InItemsJoin(a: seq<Request>, b: seq<Request>)
    ensures InItems(a + b) == InItems(a) + InItems(b)
  {
    if a == [] {
      assert a + b == b;
    } else {
      ConcatTail(a, b);
      InItemsJoin(a[1..], b);
      Assoc(RequestItems(a[0], false), InItems(a[1..]), InItems(b));
    }
  }

  /** How the summaries of a pipeline split over a concatenation. */
  lemma {:induction false} Join(a: seq<Item>, b: seq<Item>, unsynced: bool, more: bool)
    ensures Owed(a + b) == Owed(a) + Owed(b)
    ensures Ends(a + b) == Ends(a) + Ends(b)
    ensures HasEnd(a + b) == (HasEnd(a) || HasEnd(b))
    ensures Covered(a + b, unsynced, more) == (Covered(b, unsynced, more) && Covered(a, unsynced, more || HasEnd(b)))
  {
    if a == [] {
      assert a + b == b;
    } else {
      Join(a[1..], b, unsynced, more);
      assert (a + b)[1..] == a[1..] + b;
    }
  }

  lemma {:induction false} CoveredMonotone(t: seq<Item>, unsynced: bool, more: bool, unsynced': bool, more': bool)
    requires Covered(t, unsynced, more) && (unsynced ==> unsynced' || more') && (more ==> more')
    ensures Covered(t, unsynced', more')
  {
    if t != [] {
      CoveredMonotone(t[1..], unsynced, more, unsynced', more');
    }
  }

  lemma {:induction false} CoveredByEnd(t: seq<Item>, unsynced: bool)
    ensures Covered(t, unsynced, true)
  {
    if t != [] {
      CoveredByEnd(t[1..], unsynced);
    }
  }

  lemma {:induction false} OwedNothing(t: seq<Item>)
    requires Owed(t) == [] && NoQuestion(t)
    ensures Ends(t) == 0 && !HasEnd(t)
  {
    if t != [] {
      assert t == [t[0]] + t[1..];
      OwedNothing(t[1..]);
    }
  }

  lemma {:induction false} OwedOfQuestions(t: seq<Item>)
    requires AllQuestion(t)
    ensures Owed(t) == []
  {
    if t != [] {
      assert t == [t[0]] + t[1..];
      OwedOfQuestions(t[1..]);
    }
  }

  /** Nothing owed to the client and no batch open: the pipeline is empty. */
  lemma IdlePipeline(t: seq<Item>)
    requires Covered(t, false, false) && NoQuestion(t) && Owed(t) == []
    ensures t == []
  {
    OwedNothing(t);
  }

  lemma {:induction false} LastEnds(t: seq<Item>)
    requires t != [] && t[|t| - 1].ends
    ensures Ends(t) > 0
  {
    if |t| > 1 {
      LastEnds(t[1..]);
    }
  }

  // ---------------------------------------------------------------- what the client is owed

  /** The ReadyForQuery messages of a conversation with `n` requests, those the server discarded left out. */
  function Expected(n: nat, lost: set<nat>): seq<Owner>
  {
    if n == 0 then [ForStartup]
    else Expected(n - 1, lost) + if n - 1 in lost then [] else [ForClient(n - 1)]
  }

  lemma {:induction false} ExpectedMembers(n: nat, lost: set<nat>, k: nat)
    ensures ForClient(k) in Expected(n, lost) <==> k < n && k !in lost
  {
    if n > 0 {
      ExpectedMembers(n - 1, lost, k);
    }
  }

  lemma {:induction false} ExpectedUntouched(n: nat, lost: set<nat>, k: nat)
    requires n <= k
    ensures Expected(n, lost + {k}) == Expected(n, lost)
  {
    if n > 0 {
      ExpectedUntouched(n - 1, lost, k);
    }
  }

  lemma LastOnce(e: seq<Owner>, x: seq<Owner>, o: Owner, y: seq<Owner>)
    requires e + [o] == x + [o] + y && o !in e
    ensures x + y == e
  {
    assert forall i :: 0 <= i < |e| ==> e[i] in e && (e + [o])[i] == e[i];
    assert (x + [o] + y)[|x|] == o;
    assert |x| == |e|;
    assert x == (x + [o] + y)[..|x|] == (e + [o])[..|e|] == e;
  }

  /** Discarding a request takes its ReadyForQuery out and leaves the order of the others. */
  lemma {:induction false} ExpectedRemove(n: nat, lost: set<nat>, x: seq<Owner>, k: nat, y: seq<Owner>)
    requires Expected(n, lost) == x + [ForClient(k)] + y
    ensures Expected(n, lost + {k}) == x + y
  {
    assert (x + [ForClient(k)] + y)[|x|] == ForClient(k);
    ExpectedMembers(n, lost, k);
    if k == n - 1 {
      ExpectedUntouched(n - 1, lost, k);
      ExpectedMembers(n - 1, lost, k);
      LastOnce(Expected(n - 1, lost), x, ForClient(k), y);
    } else if n - 1 in lost {
      ExpectedRemove(n - 1, lost, x, k, y);
    } else {
      var e, w := Expected(n, lost), |y| - 1;
      assert e[|e| - 1] == ForClient(n - 1);
      assert y != [];
      assert Expected(n - 1, lost) == e[..|e| - 1] == x + [ForClient(k)] + y[..w];
      assert y[w] == ForClient(n - 1);
      ExpectedRemove(n - 1, lost, x, k, y[..w]);
      assert x + y == (x + y[..w]) + [y[w]];
    }
  }

  function Visible(q: seq<ServerMsg>): seq<Owner>
  {
    Owed(OutItems(q))
  }

  /** The ReadyForQuery messages the client has, or that the server thread is about to write. */
  function Given(s: System): seq<Owner>
  {
    Visible(s.delivered) + Visible(HeldSeq(s.held))
  }

  function HeldSeq(held: Option<ServerMsg>): seq<ServerMsg>
  {
    if held.Some? then [held.value] else []
  }

  // ---------------------------------------------------------------- the invariant

  /** A message that answers the gateway's own question. */
  predicate IsAnswer(m: ServerMsg)
  {
    !m.Async? && m.owner == ForQuestion
  }

  predicate Quiet(held: Option<ServerMsg>)
  {
    held.Some? ==> held.value.Async?
  }

  ghost predicate SyncWaiting(s: System)
  {
    (exists r :: r in s.inq && IsSync(r)) || (s.up.Writing? && IsSync(s.up.request))
  }

  /** A whole answer: replies to the question, then its ReadyForQuery. */
  ghost predicate WholeAnswer(a: seq<ServerMsg>)
  {
    && a != [] && a[|a| - 1].Ready?
    && (forall m :: m in a ==> IsAnswer(m))
    && (forall m :: m in a[..|a| - 1] ==> !m.Ready?)
  }

  ghost predicate PhaseOk(s: System, t: seq<Item>)
  {
    match s.up
    case WantAsk(_, _) => !s.locked.asking && !s.unsynced
    case WritingQuestion(_, _) => s.locked.asking && !s.unsynced
    case WaitAnswer(_, _) =>
      && !s.unsynced
      && (!s.locked.asking ==> s.locked.answer.Some? && t == [] && Quiet(s.held))
    case Got(_, _, _) => !s.locked.asking && !s.unsynced && t == [] && Quiet(s.held)
    case Done => s.locked.asking ==> !s.unsynced
    case _ => !s.locked.asking
  }

  /** While the gateway asks, its question is all there is; otherwise nothing of it is left. */
  ghost predicate QuestionOk(s: System, t: seq<Item>)
  {
    if s.locked.asking then AllQuestion(t) && Ends(t) == 1 && t != [] && t[|t| - 1].ends && s.locked.answer.None? && !s.skipping
    else NoQuestion(t) && s.locked.captured == []
  }

  ghost predicate CaptureOk(s: System)
  {
    && (forall m :: m in s.locked.captured ==> IsAnswer(m) && !m.Ready?)
    && (s.locked.answer.Some? ==> WholeAnswer(s.locked.answer.value))
    && (forall m :: m in s.delivered ==> !IsAnswer(m))
    && (s.held.Some? ==> !IsAnswer(s.held.value))
  }

  /** What the server is working on fits its state. */
  predicate CurrentOk(s: System)
  {
    && (s.startup ==> s.current.None?)
    && (s.copying ==> s.current.Some? && (s.current.value.Counted? || s.current.value.Batch?))
  }

  /** The invariant, for a pipeline `t` and what the client was given, `v`.  That every reply is still followed by an end
      holds until a request is lost: from then on the counter never comes down to zero. */
  ghost predicate InvAt(s: System, t: seq<Item>, v: seq<Owner>)
  {
    && PhaseOk(s, t)
    && QuestionOk(s, t)
    && CaptureOk(s)
    && s.locked.awaiting == |Owed(t)| + |s.lost|
    && v + Owed(t) == Expected(s.issued, s.lost)
    && (s.lost == {} ==> Covered(t, s.unsynced, false))
    && (s.lost == {} && s.skipping ==> s.unsynced || SyncWaiting(s))
    && CurrentOk(s)
    && (forall k :: k in s.lost ==> k < s.issued)
  }

  ghost predicate Inv(s: System)
  {
    InvAt(s, Pipeline(s), Given(s))
  }

  lemma InitInv()
    ensures Inv(Init())
  {
    var s := Init();
    assert Pipeline(s) == [Item(ForStartup, true, true)];
    assert Owed(Pipeline(s)) == [ForStartup];
  }

  // ---------------------------------------------------------------- client thread

  lemma Appended(t: seq<Item>, x: Item, unsynced: bool)
    ensures Owed(t + [x]) == Owed(t) + Owed([x])
    ensures Ends(t + [x]) == Ends(t) + Ends([x])
    ensures x.ends && Covered(t, unsynced, false) ==> Covered(t + [x], unsynced, false)
    ensures x.ends && x.firm ==> Covered(t + [x], unsynced, false)
    ensures x.owner == ForBatch && Covered(t, unsynced, false) ==> Covered(t + [x], true, false)
  {
    Join(t, [x], unsynced, false);
    Join(t, [x], true, false);
    CoveredByEnd(t, unsynced);
    if Covered(t, unsynced, false) {
      CoveredMonotone(t, unsynced, false, true, HasEnd([x]));
      CoveredMonotone(t, unsynced, false, unsynced, HasEnd([x]));
    }
  }

  lemma WriterIdle(s: System, up: Up)
    requires WriteItems(s.up) == []
    ensures Pipeline(s.(up := up)) == Pipeline(s) + WriteItems(up)
  {
    assert Pipeline(s) == OutItems(s.outq) + WorkItems(s) + InItems(s.inq);
  }

  /** Forwarding one more counted request. */
  lemma CountKeepsAt(s: System, t: seq<Item>, v: seq<Owner>, sync: bool, text: string, copies: nat, effect: Effect)
    requires InvAt(s, t, v) && !s.locked.asking && WriteItems(s.up) == []
    ensures InvAt(Count(s.(unsynced := s.unsynced && !sync), sync, text, copies, effect), t + [Item(ForClient(s.issued), true, sync)], v)
  {
    var s', x := Count(s.(unsynced := s.unsynced && !sync), sync, text, copies, effect), Item(ForClient(s.issued), true, sync);
    Appended(t, x, s'.unsynced);
    assert Owed([x]) == [ForClient(s.issued)];
    assert v + (Owed(t) + [ForClient(s.issued)]) == v + Owed(t) + [ForClient(s.issued)];
    assert s.lost == {} && s'.skipping ==> s'.unsynced || SyncWaiting(s') by {
      if !sync && SyncWaiting(s) {
        assert !(s.up.Writing? && IsSync(s.up.request));
      }
    }
  }

  lemma CountKeeps(s: System, sync: bool, text: string, copies: nat, effect: Effect)
    requires Inv(s) && WriteItems(s.up) == [] && !s.locked.asking
    ensures Inv(Count(s.(unsynced := s.unsynced && !sync), sync, text, copies, effect))
  {
    CountKeepsAt(s, Pipeline(s), Given(s), sync, text, copies, effect);
    WriterIdle(s, Writing(Counted(s.issued, sync, text, copies, effect)));
  }

  lemma SendBatchKeepsAt(s: System, t: seq<Item>, v: seq<Owner>, text: string, copies: nat, effect: Effect)
    requires InvAt(s, t, v) && !s.locked.asking
    ensures InvAt(SendBatch(s, text, copies, effect), t + [Item(ForBatch, false, false)], v)
  {
    Appended(t, Item(ForBatch, false, false), s.unsynced);
    assert Owed([Item(ForBatch, false, false)]) == [];
  }

  lemma SendBatchKeeps(s: System, text: string, copies: nat, effect: Effect)
    requires Inv(s) && WriteItems(s.up) == [] && !s.locked.asking
    ensures Inv(SendBatch(s, text, copies, effect))
  {
    SendBatchKeepsAt(s, Pipeline(s), Given(s), text, copies, effect);
    WriterIdle(s, Writing(Batch(text, copies, effect)));
  }

  /** A step that leaves the pipeline and the client's messages as they are. */
  lemma StandStill(s: System, s': System)
    requires Inv(s) && Pipeline(s') == Pipeline(s)
    requires s' == s.(up := s'.up, inq := s'.inq, outq := s'.outq, current := s'.current, startup := s'.startup,
                      unsynced := s'.unsynced, skipping := s'.skipping, copying := s'.copying, unnamed := s'.unnamed,
                      locked := s.locked.(closed := s'.locked.closed))
    requires PhaseOk(s', Pipeline(s)) && CurrentOk(s') && (s.unsynced ==> s'.unsynced)
    requires s'.skipping ==> s.skipping && SyncWaiting(s) == SyncWaiting(s')
    ensures Inv(s')
  {
    CoveredMore(s, Pipeline(s), s'.unsynced);
  }

  lemma CoveredMore(s: System, t: seq<Item>, unsynced: bool)
    requires s.unsynced ==> unsynced
    ensures Covered(t, s.unsynced, false) ==> Covered(t, unsynced, false)
  {
    if Covered(t, s.unsynced, false) {
      CoveredMonotone(t, s.unsynced, false, unsynced, false);
    }
  }

  /** The same for a step of the server, the pipeline given as `t`. */
  lemma ServerStill(s: System, s': System, t: seq<Item>, v: seq<Owner>)
    requires InvAt(s, t, v)
    requires s' == s.(inq := s'.inq, outq := s'.outq, current := s'.current, startup := s'.startup, skipping := s'.skipping,
                      copying := s'.copying, unnamed := s'.unnamed)
    requires CurrentOk(s')
    requires s'.skipping ==> s.skipping && SyncWaiting(s) == SyncWaiting(s')
    ensures InvAt(s', t, v)
  {
  }

  /** A statement for the engine, read between batches, waits to be translated. */
  lemma WantKeeps(s: System, sql: string, via: Via)
    requires Inv(s) && s.up.Idle? && !s.unsynced
    ensures Inv(s.(up := WantAsk(sql, via)))
  {
    WriterIdle(s, WantAsk(sql, via));
    StandStill(s, s.(up := WantAsk(sql, via)));
  }

  lemma LeaveKeeps(s: System)
    requires Inv(s) && s.up.Idle?
    ensures Inv(s.(up := Done))
  {
    WriterIdle(s, Done);
    StandStill(s, s.(up := Done));
  }

  lemma QueryKeeps(s: System, sql: string, fabric: bool, copies: nat)
    requires Inv(s) && s.up.Idle?
    ensures Inv(UpReads(s, Query(sql, fabric, copies)))
  {
    if !fabric {
      CountKeeps(s, false, sql, copies, Drops);
    } else if s.unsynced {
      CountKeeps(s, false, Fallback(sql), 0, Drops);
    } else {
      WantKeeps(s, sql, ViaQuery);
    }
  }

  lemma ParseKeeps(s: System, sql: string, fabric: bool, named: bool)
    requires Inv(s) && s.up.Idle?
    ensures Inv(UpReads(s, Parse(sql, fabric, named)))
  {
    if !fabric {
      SendBatchKeeps(s, sql, 0, ParseEffect(named));
    } else if s.unsynced {
      SendBatchKeeps(s, Fallback(sql), 0, ParseEffect(named));
    } else {
      WantKeeps(s, sql, ViaParse(named));
    }
  }

  lemma UpReadKeeps(s: System, m: ClientMsg)
    requires Inv(s) && s.up.Idle?
    ensures Inv(UpReads(s, m))
  {
    match m
    case Query(sql, fabric, copies) => QueryKeeps(s, sql, fabric, copies);
    case Parse(sql, fabric, named) => ParseKeeps(s, sql, fabric, named);
    case Sync => CountKeeps(s, true, "", 0, Spares);
    case FunctionCall => CountKeeps(s, false, "", 0, Spares);
    case Terminate => LeaveKeeps(s);
    case Extended(copy, closes) => SendBatchKeeps(s, "", if copy then 1 else 0, if closes then Drops else Spares);
    case Flush => SilentReadKeeps(s, Plain, true);
    case Other(part) => SilentReadKeeps(s, part, s.unsynced);
  }

  lemma SilentReadKeeps(s: System, part: Part, unsynced: bool)
    requires Inv(s) && s.up.Idle? && (s.unsynced ==> unsynced)
    ensures Inv(s.(up := Writing(Silent(part)), unsynced := unsynced))
  {
    var s' := s.(up := Writing(Silent(part)), unsynced := unsynced);
    WriterIdle(s, s'.up);
    assert Pipeline(s') == Pipeline(s.(up := s'.up)) == Pipeline(s);
    StandStill(s, s');
  }

  /** The request about to be written. */
  function Outgoing(s: System): Request
    requires s.up.Writing? || s.up.WritingQuestion?
  {
    if s.up.Writing? then s.up.request else Question(AskText(s.up.sql), s.up.via)
  }

  lemma WritePipeline(s: System)
    requires s.up.Writing? || s.up.WritingQuestion?
    ensures Pipeline(UpWrites(s)) == Pipeline(s)
  {
    var s', r := UpWrites(s), Outgoing(s);
    InItemsJoin(s.inq, [r]);
    assert InItems([r]) == RequestItems(r, false) + [] == WriteItems(s.up);
    Assoc(OutItems(s.outq) + WorkItems(s), InItems(s.inq), WriteItems(s.up));
    assert WriteItems(s'.up) == [];
  }

  lemma WriteSyncs(s: System)
    requires s.up.Writing? || s.up.WritingQuestion?
    ensures SyncWaiting(UpWrites(s)) == SyncWaiting(s)
  {
    assert forall q :: q in UpWrites(s).inq <==> q in s.inq || q == Outgoing(s);
  }

  lemma UpWriteKeeps(s: System)
    requires Inv(s) && (s.up.Writing? || s.up.WritingQuestion?)
    ensures Inv(UpWrites(s))
  {
    WritePipeline(s);
    WriteSyncs(s);
    StandStill(s, UpWrites(s));
  }

  lemma {:induction false} SyncHasItems(q: seq<Request>, r: Request)
    requires r in q && IsSync(r)
    ensures InItems(q) != []
  {
    if q[0] != r {
      SyncHasItems(q[1..], r);
    }
  }

  lemma NoSyncInEmpty(s: System)
    requires Pipeline(s) == []
    ensures !SyncWaiting(s)
  {
    if r :| r in s.inq && IsSync(r) {
      SyncHasItems(s.inq, r);
    }
  }

  /** The question is put to an idle server: nothing is under way. */
  lemma UpAskKeeps(s: System)
    requires Inv(s) && s.up.WantAsk? && s.locked.awaiting == 0 && !s.locked.closed
    ensures Inv(UpAsks(s))
    ensures Pipeline(s) == []
  {
    var s' := UpAsks(s);
    NothingLost(s, Pipeline(s), Given(s));
    IdlePipeline(Pipeline(s));
    NoSyncInEmpty(s);
    WriterIdle(s, s'.up);
    var t := [Item(ForQuestion, true, true)];
    assert Pipeline(s') == t;
    AskKeepsAt(s, t, Given(s));
  }

  /** A counter at zero: nothing is owed and nothing was lost. */
  lemma NothingLost(s: System, t: seq<Item>, v: seq<Owner>)
    requires InvAt(s, t, v) && s.locked.awaiting == 0
    ensures s.lost == {} && Owed(t) == []
  {
    assert |s.lost| == 0;
  }

  lemma AskKeepsAt(s: System, t: seq<Item>, v: seq<Owner>)
    requires InvAt(s, [], v) && s.up.WantAsk? && s.locked.awaiting == 0 && !s.locked.closed && !SyncWaiting(s)
    requires t == [Item(ForQuestion, true, true)]
    ensures InvAt(UpAsks(s), t, v)
  {
    assert t[1..] == [];
    assert Owed(t) == [] && Ends(t) == 1;
  }

  lemma UpTakeKeeps(s: System)
    requires Inv(s) && s.up.WaitAnswer? && s.locked.answer.Some?
    ensures Inv(UpTakes(s))
  {
    var s' := UpTakes(s);
    assert Pipeline(s') == Pipeline(s);
    TakeKeepsAt(s, Pipeline(s), Given(s));
  }

  lemma TakeKeepsAt(s: System, t: seq<Item>, v: seq<Owner>)
    requires InvAt(s, t, v) && s.up.WaitAnswer? && s.locked.answer.Some?
    ensures InvAt(UpTakes(s), t, v)
  {
  }

  lemma UpActKeeps(s: System)
    requires Inv(s) && s.up.Got?
    ensures Inv(UpActs(s))
  {
    if s.up.translation.Broken? {
      StopKeeps(s);
    } else if s.up.via.ViaParse? {
      GotParseKeeps(s);
    } else if s.up.translation.Sql? {
      CountKeeps(s, false, s.up.translation.text, 0, Drops);
    } else {
      RefusalKeeps(s, s.up.translation.error, s.up.translation.status);
    }
  }

  lemma StopKeeps(s: System)
    requires Inv(s) && s.up.Got?
    ensures Inv(s.(up := Done))
  {
    WriterIdle(s, Done);
    StandStill(s, s.(up := Done));
  }

  lemma GotParseKeeps(s: System)
    requires Inv(s) && s.up.Got? && s.up.via.ViaParse? && !s.up.translation.Broken?
    ensures Inv(UpActs(s))
  {
    SendBatchKeeps(s, if s.up.translation.Sql? then s.up.translation.text else AskText(s.up.sql), 0, ParseEffect(s.up.via.named));
  }

  lemma VisibleJoin(a: seq<ServerMsg>, b: seq<ServerMsg>)
    ensures Visible(a + b) == Visible(a) + Visible(b)
  {
    OutItemsJoin(a, b);
    Join(OutItems(a), OutItems(b), false, false);
  }

  lemma VisibleOne(m: ServerMsg)
    ensures Visible([m]) == Owed(MsgItems(m))
  {
    assert OutItems([m]) == MsgItems(m) + OutItems([m][1..]);
    assert OutItems([m][1..]) == [];
    assert MsgItems(m) + [] == MsgItems(m);
  }

  lemma VisiblePair(m: ServerMsg, n: ServerMsg)
    ensures Visible([m, n]) == Owed(MsgItems(m)) + Owed(MsgItems(n))
  {
    assert [m, n] == [m] + [n];
    VisibleJoin([m], [n]);
    VisibleOne(m);
    VisibleOne(n);
  }

  /** A refusal is written when no reply is under way, so it takes its place in order. */
  lemma RefusalKeeps(s: System, e: string, status: char)
    requires Inv(s) && s.up.Got? && s.up.translation == Refused(e, status) && s.up.via.ViaQuery?
    ensures Inv(UpActs(s))
  {
    var s', id := UpActs(s), ForClient(s.issued);
    var own := [Reply(id, ErrorText(e)), Ready(id, status)];
    VisibleJoin(s.delivered, own);
    VisiblePair(own[0], own[1]);
    assert Owed(MsgItems(own[0])) == [] && Owed(MsgItems(own[1])) == [id];
    if s.held.Some? {
      VisibleOne(s.held.value);
    }
    assert Given(s') == Given(s) + [id];
    assert Pipeline(s') == Pipeline(s);
    RefusalKeepsAt(s, Given(s), e, status);
  }

  lemma RefusalKeepsAt(s: System, v: seq<Owner>, e: string, status: char)
    requires InvAt(s, [], v) && s.up.Got? && s.up.translation == Refused(e, status) && s.up.via.ViaQuery?
    ensures InvAt(UpActs(s), [], v + [ForClient(s.issued)])
  {
    assert v + Owed([]) == v;
  }

  lemma UpFailKeeps(s: System)
    requires Inv(s) && Enabled(s, UpFail)
    ensures Inv(s.(up := Done))
  {
    StandStill(s, s.(up := Done));
  }

  // ---------------------------------------------------------------- server thread

  /** Taking the first message off takes its items off the pipeline. */
  lemma ReadPipeline(s: System)
    requires s.outq != [] && s.held.None? && !s.locked.closed
    ensures Pipeline(s) == MsgItems(s.outq[0]) + Pipeline(DownReads(s))
  {
    var m, o := MsgItems(s.outq[0]), OutItems(s.outq[1..]);
    Assoc(m, o, WorkItems(s));
    Assoc(m, o + WorkItems(s), InItems(s.inq));
    Assoc(m, o + WorkItems(s) + InItems(s.inq), WriteItems(s.up));
  }

  /** What taking the first item off does to the summaries. */
  lemma Popped(x: Item, t: seq<Item>, unsynced: bool)
    ensures Owed([x] + t) == Owed([x]) + Owed(t)
    ensures Ends([x] + t) == Ends([x]) + Ends(t)
    ensures Covered([x] + t, unsynced, false) ==> Covered(t, unsynced, false)
    ensures x.ends && Ends([x] + t) == 1 && ([x] + t)[|t|].ends ==> t == []
    ensures t != [] ==> ([x] + t)[|t|] == t[|t| - 1]
    ensures x in [x] + t && forall y :: y in t ==> y in [x] + t
  {
    Join([x], t, unsynced, false);
    if t != [] && t[|t| - 1].ends {
      LastEnds(t);
    }
  }

  /** The ReadyForQuery of the question completes the answer, and nothing is left under way. */
  lemma CaptureLastAt(s: System, x: Item, v: seq<Owner>)
    requires InvAt(s, [x], v) && s.outq != [] && s.held.None? && !s.locked.closed && s.locked.asking && !s.up.WritingQuestion?
    requires s.outq[0].Ready? && MsgItems(s.outq[0]) == [x] && IsAnswer(s.outq[0])
    ensures InvAt(DownReads(s), [], v)
  {
    var m := s.outq[0];
    Popped(x, [], s.unsynced);
    OwedOfQuestions([x]);
    assert [x] + [] == [x] && Owed([]) == [];
    var a := s.locked.captured + [m];
    assert a[..|a| - 1] == s.locked.captured;
  }

  /** A reply to the question is kept. */
  lemma CaptureMoreAt(s: System, x: Item, t: seq<Item>, v: seq<Owner>)
    requires InvAt(s, [x] + t, v) && s.outq != [] && s.held.None? && !s.locked.closed && s.locked.asking && t != []
    requires s.outq[0].Reply? && MsgItems(s.outq[0]) == [x] && IsAnswer(s.outq[0])
    ensures InvAt(DownReads(s), t, v)
  {
    Popped(x, t, s.unsynced);
    OwedOfQuestions([x] + t);
    OwedOfQuestions(t);
  }

  /** While asking, what is taken off answers the question. */
  lemma CaptureKeepsAt(s: System, x: Item, t: seq<Item>, v: seq<Owner>)
    requires InvAt(s, [x] + t, v) && s.outq != [] && s.held.None? && !s.locked.closed && s.locked.asking
    requires !s.outq[0].Async? && MsgItems(s.outq[0]) == [x]
    requires s.up.WritingQuestion? ==> t != []
    ensures IsAnswer(s.outq[0]) && InvAt(DownReads(s), t, v)
  {
    Popped(x, t, s.unsynced);
    if s.outq[0].Ready? {
      assert t == [] && [x] + t == [x];
      CaptureLastAt(s, x, v);
    } else {
      CaptureMoreAt(s, x, t, v);
    }
  }

  /** Otherwise it is the client's, and the counter stays exact: the subtraction never saturates. */
  lemma ForwardKeepsAt(s: System, x: Item, t: seq<Item>, v: seq<Owner>)
    requires InvAt(s, [x] + t, v) && s.outq != [] && s.held.None? && !s.locked.closed && !s.locked.asking
    requires !s.outq[0].Async? && MsgItems(s.outq[0]) == [x]
    ensures !IsAnswer(s.outq[0]) && (s.outq[0].Ready? ==> s.locked.awaiting > 0)
    ensures InvAt(DownReads(s), t, v + Owed([x]))
  {
    Popped(x, t, s.unsynced);
    assert Owed([x]) == if x.ends then [x.owner] else [];
    assert v + (Owed([x]) + Owed(t)) == v + Owed([x]) + Owed(t);
  }

  lemma DownReadAsync(s: System)
    requires Inv(s) && s.outq != [] && s.held.None? && !s.locked.closed && s.outq[0].Async?
    ensures Inv(DownReads(s))
  {
    var s' := DownReads(s);
    ReadPipeline(s);
    VisibleOne(s.outq[0]);
    assert MsgItems(s.outq[0]) == [] && Visible([s.outq[0]]) == [] == Visible([]);
    assert HeldSeq(s'.held) == [s.outq[0]] && HeldSeq(s.held) == [];
    assert Pipeline(s) == Pipeline(s');
    assert Given(s') == Given(s);
    PassAlong(s, s', Pipeline(s), Given(s));
  }

  /** Messages of the client that end nothing may move from the server thread to the client at any time. */
  lemma PassAlong(s: System, s': System, t: seq<Item>, v: seq<Owner>)
    requires InvAt(s, t, v) && s' == s.(held := s'.held, delivered := s'.delivered, outq := s'.outq)
    requires s'.held.Some? ==> s'.held.value.Async?
    requires forall m :: m in s'.delivered ==> m in s.delivered || s.held == Some(m)
    ensures InvAt(s', t, v)
  {
  }

  lemma DownReadKeeps(s: System)
    requires Inv(s) && s.outq != [] && s.held.None? && !s.locked.closed
    ensures Inv(DownReads(s))
  {
    var s', m, v := DownReads(s), s.outq[0], Given(s);
    if m.Async? {
      DownReadAsync(s);
    } else {
      ReadPipeline(s);
      VisibleOne(m);
      var x := MsgItems(m)[0];
      assert MsgItems(m) == [x] && v == Visible(s.delivered);
      if s.locked.asking {
        assert s.up.WritingQuestion? ==> Pipeline(s') != [];
        CaptureKeepsAt(s, x, Pipeline(s'), v);
        assert Given(s') == v;
      } else {
        ForwardKeepsAt(s, x, Pipeline(s'), v);
        assert Given(s') == v + Owed([x]);
      }
    }
  }

  lemma DownWriteKeeps(s: System)
    requires Inv(s) && s.held.Some?
    ensures Inv(s.(delivered := s.delivered + [s.held.value], held := None))
  {
    var s' := s.(delivered := s.delivered + [s.held.value], held := None);
    assert Pipeline(s') == Pipeline(s);
    assert HeldSeq(s.held) == [s.held.value];
    VisibleJoin(s.delivered, [s.held.value]);
    assert Visible(HeldSeq(None)) == [];
    assert Given(s') == Given(s);
    PassAlong(s, s', Pipeline(s), Given(s));
  }

  lemma CloseKeeps(s: System)
    requires Inv(s)
    ensures Inv(s.(locked := s.locked.(closed := true)))
  {
    StandStill(s, s.(locked := s.locked.(closed := true)));
  }

  // ---------------------------------------------------------------- server

  /** Work in progress at the head, with what was answered before it and what waits behind it. */
  lemma Inserted(a: seq<Item>, x: Item, b: seq<Item>, r: Item, unsynced: bool)
    requires !r.ends
    requires (x.ends && x.firm) || (!x.ends && x.owner == ForBatch && r.owner == ForBatch)
    ensures Owed(a + [r] + ([x] + b)) == Owed(a + ([x] + b))
    ensures Ends(a + [r] + ([x] + b)) == Ends(a + ([x] + b))
    ensures Covered(a + ([x] + b), unsynced, false) ==> Covered(a + [r] + ([x] + b), unsynced, false)
  {
    var t := [x] + b;
    Join(a, t, unsynced, false);
    Join(a + [r], t, unsynced, false);
    Join(a, [r], unsynced, HasEnd(t));
    Join([x], b, unsynced, false);
    assert Owed(a) + Owed([r]) == Owed(a);
    if Covered(a, unsynced, HasEnd(t)) {
      CoveredMonotone(a, unsynced, HasEnd(t), unsynced, HasEnd(t) || HasEnd([r]));
    }
  }

  lemma ReplyKeepsAt(s: System, a: seq<Item>, x: Item, b: seq<Item>, v: seq<Owner>, p: Payload)
    requires InvAt(s, a + ([x] + b), v) && Working(s).Some?
    requires x.owner == Working(s).value && ((x.ends && x.firm) || (!x.ends && x.owner == ForBatch))
    ensures InvAt(s.(outq := s.outq + [Reply(Working(s).value, p)]), a + [Item(x.owner, false, true)] + ([x] + b), v)
  {
    var t, r := a + ([x] + b), Item(x.owner, false, true);
    var t' := a + [r] + ([x] + b);
    Inserted(a, x, b, r, s.unsynced);
    assert x in t && forall y :: y in t' ==> y in t || y == r;
    assert t'[|t'| - 1] == t[|t| - 1];
  }

  /** The item the server is working on. */
  function WorkItem(s: System): Item
    requires Working(s).Some?
  {
    Item(Working(s).value, !Working(s).value.ForBatch?, !Working(s).value.ForBatch?)
  }

  lemma WorkingPipeline(s: System)
    requires Working(s).Some? && (s.startup ==> s.current.None?)
    ensures WorkItems(s) == [WorkItem(s)]
    ensures Pipeline(s) == OutItems(s.outq) + ([WorkItem(s)] + (InItems(s.inq) + WriteItems(s.up)))
  {
  }

  lemma OutAppend(q: seq<ServerMsg>, m: ServerMsg)
    ensures OutItems(q + [m]) == OutItems(q) + MsgItems(m)
  {
    OutItemsJoin(q, [m]);
    assert OutItems([m]) == MsgItems(m) + OutItems([m][1..]);
    assert MsgItems(m) + [] == MsgItems(m);
  }

  lemma SrvReplyKeeps(s: System, p: Payload)
    requires Inv(s) && Working(s).Some?
    ensures Inv(s.(outq := s.outq + [Reply(Working(s).value, p)]))
  {
    var s' := s.(outq := s.outq + [Reply(Working(s).value, p)]);
    var a, b := OutItems(s.outq), InItems(s.inq) + WriteItems(s.up);
    WorkingPipeline(s);
    WorkingPipeline(s');
    OutAppend(s.outq, Reply(Working(s).value, p));
    ReplyKeepsAt(s, a, WorkItem(s), b, Given(s), p);
    assert Given(s') == Given(s);
  }

  lemma AsyncPipeline(s: System, p: Payload)
    ensures Pipeline(s.(outq := s.outq + [Async(p)])) == Pipeline(s)
  {
    OutAppend(s.outq, Async(p));
    assert OutItems(s.outq) + [] == OutItems(s.outq);
  }

  lemma SrvAsyncKeeps(s: System, p: Payload)
    requires Inv(s)
    ensures Inv(s.(outq := s.outq + [Async(p)]))
  {
    AsyncPipeline(s, p);
    ServerStill(s, s.(outq := s.outq + [Async(p)]), Pipeline(s), Given(s));
  }

  /** Taking a message without a reply of its own off the queue leaves the pipeline alone. */
  lemma SilentPipeline(s: System, s': System)
    requires s.inq != [] && s.inq[0].Silent? && s'.inq == s.inq[1..]
    requires s'.outq == s.outq && s'.up == s.up && s'.startup == s.startup
    requires s'.current == s.current || (s.current.None? && s'.current.Some? && s'.current.value.Silent?)
    ensures Pipeline(s') == Pipeline(s)
  {
    assert InItems(s.inq) == [] + InItems(s'.inq) == InItems(s'.inq);
    assert WorkItems(s') == WorkItems(s);
  }

  /** Taking a request that is no Sync off the queue leaves the waiting Syncs waiting. */
  lemma SyncBehind(s: System, s': System)
    requires s.inq != [] && s'.inq == s.inq[1..] && s'.up == s.up && !IsSync(s.inq[0])
    ensures SyncWaiting(s') == SyncWaiting(s)
  {
    assert s.inq == [s.inq[0]] + s'.inq;
    assert forall q :: q in s.inq <==> q == s.inq[0] || q in s'.inq;
  }

  /** Taking out an item that ends nothing for sure. */
  lemma Removed(a: seq<Item>, x: Item, b: seq<Item>, unsynced: bool)
    requires !(x.ends && x.firm)
    ensures Owed(a + ([x] + b)) == Owed(a) + Owed([x]) + Owed(b)
    ensures Owed(a + b) == Owed(a) + Owed(b)
    ensures !x.ends ==> Ends(a + b) == Ends(a + ([x] + b))
    ensures Covered(a + ([x] + b), unsynced, false) ==> Covered(a + b, unsynced, false)
    ensures Covered(a + ([x] + b), unsynced, false) && !x.ends ==> (unsynced && x.owner == ForBatch) || HasEnd(b)
  {
    Join(a, [x] + b, unsynced, false);
    Join([x], b, unsynced, false);
    Join(a, b, unsynced, false);
    assert Owed(a) + (Owed([x]) + Owed(b)) == Owed(a) + Owed([x]) + Owed(b);
  }

  lemma {:induction false} EndIsSync(q: seq<Request>) returns (r: Request)
    requires HasEnd(InItems(q)) && NoQuestion(InItems(q))
    ensures r in q && IsSync(r)
  {
    var first := RequestItems(q[0], false);
    Join(first, InItems(q[1..]), false, false);
    if IsSync(q[0]) {
      r := q[0];
    } else {
      assert forall y :: y in first ==> y in InItems(q);
      assert Item(ForQuestion, true, true) !in first;
      assert !HasEnd(first);
      assert forall y :: y in InItems(q[1..]) ==> y in InItems(q);
      r := EndIsSync(q[1..]);
    }
  }

  lemma EndBehindIsSync(s: System)
    requires var b := InItems(s.inq) + WriteItems(s.up); HasEnd(b) && NoQuestion(b)
    ensures SyncWaiting(s)
  {
    var i, w := InItems(s.inq), WriteItems(s.up);
    Join(i, w, false, false);
    assert forall y :: y in i || y in w ==> y in i + w;
    if HasEnd(i) {
      var r := EndIsSync(s.inq);
    } else {
      assert Item(ForQuestion, true, true) !in w;
    }
  }

  lemma BatchEndKeepsAt(s: System, a: seq<Item>, x: Item, b: seq<Item>, v: seq<Owner>, skipping: bool, unnamed: bool)
    requires InvAt(s, a + ([x] + b), v) && x == Item(ForBatch, false, false)
    requires b == InItems(s.inq) + WriteItems(s.up)
    requires s.skipping ==> skipping
    ensures InvAt(s.(current := None, copying := false, skipping := skipping, unnamed := unnamed), a + b, v)
  {
    var t, s' := a + ([x] + b), s.(current := None, copying := false, skipping := skipping, unnamed := unnamed);
    Removed(a, x, b, s.unsynced);
    assert x in t && forall y :: y in a + b ==> y in t;
    assert !s.locked.asking;
    if HasEnd(b) {
      assert forall y :: y in b ==> y in t;
      EndBehindIsSync(s);
    }
    assert SyncWaiting(s') == SyncWaiting(s);
  }

  lemma SrvEndKeeps(s: System, status: char, fails: bool)
    requires Inv(s) && (s.startup || s.current.Some?)
    ensures Inv(SrvEnds(s, status, fails))
  {
    if !s.startup && s.current.value.Batch? {
      BatchEndKeeps(s, status, fails);
    } else if !s.startup && s.current.value.Silent? {
      SilentEndKeeps(s, status, fails);
    } else {
      RoundEndKeeps(s, status, fails);
    }
  }

  lemma RoundEndKeeps(s: System, status: char, fails: bool)
    requires Inv(s) && (s.startup || s.current.Some?) && (s.startup || !(s.current.value.Batch? || s.current.value.Silent?))
    ensures Inv(SrvEnds(s, status, fails))
  {
    var s', t := SrvEnds(s, status, fails), Pipeline(s);
    EndIs(s, status, fails);
    EndPipeline(s, s', status);
    ServerStill(s, s', t, Given(s));
  }

  // Messages read while a COPY reads from the client.

  lemma SrvCopyInKeeps(s: System)
    requires Inv(s) && Enabled(s, SrvCopyIn)
    ensures Inv(s.(copying := true))
  {
    StandStill(s, s.(copying := true));
  }

  /** The message off the queue, a counted one lost. */
  function Taken(s: System): System
    requires s.inq != []
  {
    s.(inq := s.inq[1..], lost := if s.inq[0].Counted? then s.lost + {s.inq[0].id} else s.lost)
  }

  /** Taking out an item in the middle of a pipeline. */
  lemma Without(a: seq<Item>, w: Item, x: Item, b: seq<Item>, unsynced: bool)
    requires !(x.ends && x.firm)
    ensures Owed(a + ([w] + ([x] + b))) == Owed(a + [w]) + Owed([x]) + Owed(b)
    ensures Owed(a + ([w] + b)) == Owed(a + [w]) + Owed(b)
    ensures Covered(a + ([w] + ([x] + b)), unsynced, false) ==> Covered(a + ([w] + b), unsynced, false)
  {
    Assoc(a, [w], [x] + b);
    Assoc(a, [w], b);
    Removed(a + [w], x, b, unsynced);
  }

  lemma WithoutSync(a: seq<Item>, w: Item, x: Item, b: seq<Item>)
    ensures Owed(a + ([w] + ([x] + b))) == Owed(a + [w]) + Owed([x]) + Owed(b)
    ensures Owed(a + ([w] + b)) == Owed(a + [w]) + Owed(b)
  {
    Assoc(a, [w], [x] + b);
    Assoc(a, [w], b);
    Join(a + [w], [x] + b, false, false);
    Join([x], b, false, false);
    Join(a + [w], b, false, false);
    Assoc(Owed(a + [w]), Owed([x]), Owed(b));
  }

  /** The message taken is one of a batch: `t` loses its item. */
  lemma TakenBatchAt(s: System, t: seq<Item>, t': seq<Item>, v: seq<Owner>)
    requires InvAt(s, t, v) && s.copying && s.inq != [] && s.inq[0].Batch? && !s.locked.asking
    requires Owed(t') == Owed(t) && (forall y :: y in t' ==> y in t) && t != []
    requires Covered(t, s.unsynced, false) ==> Covered(t', s.unsynced, false)
    ensures InvAt(Taken(s), t', v)
  {
    SyncBehind(s, Taken(s));
  }

  /** The message taken is a counted request: what it was owed is lost. */
  lemma TakenCountedAt(s: System, t: seq<Item>, t': seq<Item>, before: seq<Owner>, after: seq<Owner>, v: seq<Owner>)
    requires InvAt(s, t, v) && s.copying && s.inq != [] && s.inq[0].Counted? && !s.locked.asking
    requires Owed(t) == before + [ForClient(s.inq[0].id)] + after && Owed(t') == before + after
    requires (forall y :: y in t' ==> y in t) && t != []
    ensures InvAt(Taken(s), t', v)
  {
    DiscardOwed(v, before, s.inq[0].id, after, s.issued, s.lost);
  }

  lemma NotAsking(s: System, t: seq<Item>, v: seq<Owner>, w: Item)
    requires InvAt(s, t, v) && w in t && w.owner != ForQuestion
    ensures !s.locked.asking && NoQuestion(t)
  {
  }

  lemma TakenKeepsAt(s: System, a: seq<Item>, w: Item, x: Item, b: seq<Item>, v: seq<Owner>)
    requires InvAt(s, a + ([w] + ([x] + b)), v) && s.copying && s.inq != []
    requires w.owner != ForQuestion && [x] == RequestItems(s.inq[0], false)
    ensures InvAt(Taken(s), a + ([w] + b), v)
  {
    var t, t' := a + ([w] + ([x] + b)), a + ([w] + b);
    assert t[|a|] == w && t[|a| + 1] == x;
    assert forall y :: y in t' ==> y in t;
    NotAsking(s, t, v, w);
    assert !s.inq[0].Question?;
    if s.inq[0].Counted? {
      WithoutSync(a, w, x, b);
      assert Owed([x]) == [ForClient(s.inq[0].id)];
      TakenCountedAt(s, t, t', Owed(a + [w]), Owed(b), v);
    } else {
      Without(a, w, x, b, s.unsynced);
      assert Owed([x]) == [];
      assert Owed(a + [w]) + [] == Owed(a + [w]);
      TakenBatchAt(s, t, t', v);
    }
  }

  lemma TakenSilentKeeps(s: System)
    requires Inv(s) && s.copying && s.inq != [] && s.inq[0].Silent?
    ensures Inv(Taken(s))
  {
    SilentPipeline(s, Taken(s));
    SyncBehind(s, Taken(s));
    ServerStill(s, Taken(s), Pipeline(s), Given(s));
  }

  /** The pipeline while a COPY reads, with the message it will read next. */
  lemma CopyPipeline(s: System, a: seq<Item>, w: Item, x: Item, b: seq<Item>)
    requires Working(s).Some? && (s.startup ==> s.current.None?) && s.inq != [] && RequestItems(s.inq[0], false) == [x]
    requires a == OutItems(s.outq) && w == WorkItem(s) && b == InItems(s.inq[1..]) + WriteItems(s.up)
    ensures Pipeline(s) == a + ([w] + ([x] + b))
    ensures Pipeline(Taken(s)) == a + ([w] + b)
  {
    WorkingPipeline(s);
    WorkingPipeline(Taken(s));
    Assoc([x], InItems(s.inq[1..]), WriteItems(s.up));
  }

  lemma CopyIsWork(s: System)
    requires Inv(s) && s.copying
    ensures Working(s).Some? && Working(s).value != ForQuestion && CurrentOk(s)
  {
  }

  lemma TakenKeeps(s: System)
    requires Inv(s) && s.copying && s.inq != []
    ensures Inv(Taken(s))
  {
    if s.inq[0].Silent? {
      TakenSilentKeeps(s);
    } else {
      CopyIsWork(s);
      var x, a, b := RequestItems(s.inq[0], false)[0], OutItems(s.outq), InItems(s.inq[1..]) + WriteItems(s.up);
      CopyPipeline(s, a, WorkItem(s), x, b);
      TakenKeepsAt(s, a, WorkItem(s), x, b, Given(s));
    }
  }

  lemma SrvAbsorbKeeps(s: System)
    requires Inv(s) && Enabled(s, SrvAbsorb)
    ensures Inv(SrvAbsorbs(s))
  {
    var s' := SrvAbsorbs(s);
    if s.startup {
      SilentPipeline(s, s');
      SyncBehind(s, s');
      ServerStill(s, s', Pipeline(s), Given(s));
    } else {
      TakenKeeps(s);
      CopyIsWork(s);
      CopyingKeeps(s, Taken(s), s');
    }
  }

  /** The COPY of a batch message is broken off: so is the batch. */
  lemma AbortKeeps(s: System)
    requires Inv(s) && !s.startup && s.current.Some? && s.current.value.Batch?
    ensures Inv(s.(current := None, copying := false, skipping := true))
  {
    WorkingPipeline(s);
    BatchEndKeepsAt(s, OutItems(s.outq), WorkItem(s), InItems(s.inq) + WriteItems(s.up), Given(s), true, s.unnamed);
    RestPipeline(s.(current := None, copying := false, skipping := true));
  }

  /** The COPY ends, and its request goes on with fewer to read. */
  lemma CopiedKeeps(s: System, copies: nat)
    requires Inv(s) && s.current.Some? && (s.current.value.Counted? || s.current.value.Batch?)
    ensures Inv(s.(copying := false, current := Some(With(s.current.value, copies))))
  {
    var s' := s.(copying := false, current := Some(With(s.current.value, copies)));
    assert WorkItems(s') == WorkItems(s);
    StandStill(s, s');
  }

  /** What becomes of the request whose COPY reads a message: nothing, its end, or one COPY less. */
  lemma CopyingIs(s: System, s1: System)
    requires Enabled(s, SrvAbsorb) && !s.startup && s1 == Taken(s)
    ensures var s' := SrvAbsorbs(s);
      || s' == s1
      || (s.current.value.Batch? && s' == s1.(current := None, copying := false, skipping := true))
      || exists copies :: s' == s1.(copying := false, current := Some(With(s.current.value, copies)))
  {
    var c, r := s.current.value, s.inq[0];
    if r == Silent(CopyDone) {
      var n := if Left(c) > 0 then Left(c) - 1 else 0;
      assert SrvAbsorbs(s) == s1.(copying := false, current := Some(With(c, n)));
    } else if !(r == Silent(Plain) || IsSync(r)) && !c.Batch? {
      assert SrvAbsorbs(s) == s1.(copying := false, current := Some(With(c, 0)));
    }
  }

  lemma CopyingKeeps(s: System, s1: System, s': System)
    requires Enabled(s, SrvAbsorb) && !s.startup && s1 == Taken(s) && s' == SrvAbsorbs(s)
    requires Inv(s1) && (s.current.value.Counted? || s.current.value.Batch?)
    ensures Inv(s')
  {
    CopyingIs(s, s1);
    if s' == s1 {
    } else if s.current.value.Batch? && s' == s1.(current := None, copying := false, skipping := true) {
      AbortKeeps(s1);
    } else {
      var copies :| s' == s1.(copying := false, current := Some(With(s.current.value, copies)));
      CopiedKeeps(s1, copies);
    }
  }

  lemma BatchEndKeeps(s: System, status: char, fails: bool)
    requires Inv(s) && (s.startup || s.current.Some?) && !s.startup && s.current.value.Batch?
    ensures Inv(SrvEnds(s, status, fails))
  {
    var s' := SrvEnds(s, status, fails);
    WorkingPipeline(s);
    BatchEndKeepsAt(s, OutItems(s.outq), WorkItem(s), InItems(s.inq) + WriteItems(s.up), Given(s), s'.skipping, s'.unnamed);
    RestPipeline(s');
  }

  lemma SilentEndKeeps(s: System, status: char, fails: bool)
    requires Inv(s) && (s.startup || s.current.Some?) && !s.startup && s.current.value.Silent?
    ensures Inv(SrvEnds(s, status, fails))
  {
    var s' := SrvEnds(s, status, fails);
    BegunPipeline(s);
    RestPipeline(s');
    ServerStill(s, s', Pipeline(s), Given(s));
  }

  lemma Regroup(a: seq<Item>, x: Item, b: seq<Item>)
    ensures (a + [x]) + b == a + ([x] + b)
  {
  }

  lemma EndIs(s: System, status: char, fails: bool)
    requires Working(s).Some? && !Working(s).value.ForBatch? && (s.startup ==> s.current.None?)
    ensures var s' := SrvEnds(s, status, fails);
      && s'.outq == s.outq + [Ready(Working(s).value, status)] && s'.inq == s.inq && s'.up == s.up
      && s'.current.None? && !s'.startup
  {
  }

  /** Ending a request turns the item being worked on into the ReadyForQuery it stood for. */
  lemma EndPipeline(s: System, s': System, status: char)
    requires Working(s).Some? && !Working(s).value.ForBatch? && (s.startup ==> s.current.None?)
    requires s'.outq == s.outq + [Ready(Working(s).value, status)] && s'.inq == s.inq && s'.up == s.up
    requires s'.current.None? && !s'.startup
    ensures Pipeline(s') == Pipeline(s)
  {
    WorkingPipeline(s);
    OutAppend(s.outq, Ready(Working(s).value, status));
    RestPipeline(s');
    Regroup(OutItems(s.outq), WorkItem(s), InItems(s.inq) + WriteItems(s.up));
  }

  /** Discarding a counted request takes it out of what is owed and out of what is expected. */
  lemma DiscardOwed(v: seq<Owner>, a: seq<Owner>, k: nat, b: seq<Owner>, n: nat, lost: set<nat>)
    requires v + (a + [ForClient(k)] + b) == Expected(n, lost)
    ensures k < n && k !in lost
    ensures v + (a + b) == Expected(n, lost + {k})
  {
    var va := v + a;
    assert v + (a + [ForClient(k)] + b) == va + [ForClient(k)] + b;
    assert (va + [ForClient(k)] + b)[|va|] == ForClient(k);
    ExpectedMembers(n, lost, k);
    ExpectedRemove(n, lost, va, k, b);
    Assoc(v, a, b);
  }

  lemma DiscardBatchAt(s: System, t: seq<Item>, t': seq<Item>, v: seq<Owner>)
    requires InvAt(s, t, v) && s.inq != [] && !s.startup && s.current.None? && s.skipping && s.inq[0].Batch? && !s.locked.asking
    requires Owed(t') == Owed(t) && (forall y :: y in t' ==> y in t) && t != []
    requires Covered(t, s.unsynced, false) ==> Covered(t', s.unsynced, false)
    ensures InvAt(SrvBegins(s), t', v)
  {
    SyncBehind(s, SrvBegins(s));
  }

  lemma DiscardCountedAt(s: System, t: seq<Item>, t': seq<Item>, before: seq<Owner>, after: seq<Owner>, v: seq<Owner>)
    requires InvAt(s, t, v) && s.inq != [] && !s.startup && s.current.None? && s.skipping && s.inq[0].Counted? && !s.inq[0].sync && !s.locked.asking
    requires Owed(t) == before + [ForClient(s.inq[0].id)] + after && Owed(t') == before + after
    requires (forall y :: y in t' ==> y in t) && t != []
    ensures InvAt(SrvBegins(s), t', v)
  {
    DiscardOwed(v, before, s.inq[0].id, after, s.issued, s.lost);
  }

  /** A message discarded until the next Sync. */
  lemma DiscardKeepsAt(s: System, a: seq<Item>, x: Item, b: seq<Item>, v: seq<Owner>)
    requires InvAt(s, a + ([x] + b), v) && s.inq != [] && !s.startup && s.current.None? && s.skipping
    requires [x] == RequestItems(s.inq[0], false) && !IsSync(s.inq[0])
    ensures InvAt(SrvBegins(s), a + b, v)
  {
    var t := a + ([x] + b);
    assert t[|a|] == x && forall y :: y in a + b ==> y in t;
    assert !s.inq[0].Question? && !s.locked.asking;
    Removed(a, x, b, s.unsynced);
    if s.inq[0].Counted? {
      assert Owed([x]) == [ForClient(s.inq[0].id)];
      DiscardCountedAt(s, t, a + b, Owed(a), Owed(b), v);
    } else {
      assert Owed([x]) == [];
      assert Owed(a) + [] == Owed(a);
      DiscardBatchAt(s, t, a + b, v);
    }
  }

  /** A request taken up can no longer be discarded. */
  lemma FirmUp(a: seq<Item>, x: Item, y: Item, b: seq<Item>, unsynced: bool)
    requires y == x || y == x.(firm := true)
    ensures Owed(a + ([y] + b)) == Owed(a + ([x] + b))
    ensures Ends(a + ([y] + b)) == Ends(a + ([x] + b))
    ensures Covered(a + ([x] + b), unsynced, false) ==> Covered(a + ([y] + b), unsynced, false)
  {
    Join(a, [x] + b, unsynced, false);
    Join(a, [y] + b, unsynced, false);
    Join([x], b, unsynced, false);
    Join([y], b, unsynced, false);
    assert Owed([x]) == Owed([y]) && Ends([x]) == Ends([y]);
    if Covered(a, unsynced, HasEnd([x] + b)) {
      CoveredMonotone(a, unsynced, HasEnd([x] + b), unsynced, HasEnd([y] + b));
    }
  }

  lemma BeginKeepsAt(s: System, a: seq<Item>, x: Item, y: Item, b: seq<Item>, v: seq<Owner>)
    requires InvAt(s, a + ([x] + b), v) && s.inq != [] && !s.startup && s.current.None? && (s.skipping ==> IsSync(s.inq[0]))
    requires y == x || y == x.(firm := true)
    ensures InvAt(SrvBegins(s), a + ([y] + b), v)
  {
    var t, t' := a + ([x] + b), a + ([y] + b);
    FirmUp(a, x, y, b, s.unsynced);
    assert x in t && forall z :: z in t' ==> z == y || z in t;
    assert b == [] ==> t'[|t'| - 1] == y && t[|t| - 1] == x;
    assert b != [] ==> t'[|t'| - 1] == t[|t| - 1];
  }

  /** The queue, seen from its first request. */
  lemma QueuePipeline(s: System)
    requires s.inq != [] && s.current.None? && !s.startup
    ensures Pipeline(s) == OutItems(s.outq) + (RequestItems(s.inq[0], false) + (InItems(s.inq[1..]) + WriteItems(s.up)))
  {
  }

  lemma BegunPipeline(s: System)
    requires s.current.Some? && !s.startup
    ensures Pipeline(s) == OutItems(s.outq) + (RequestItems(s.current.value, true) + (InItems(s.inq) + WriteItems(s.up)))
  {
  }

  lemma RestPipeline(s: System)
    requires s.current.None? && !s.startup
    ensures Pipeline(s) == OutItems(s.outq) + (InItems(s.inq) + WriteItems(s.up))
  {
  }

  lemma DiscardKeeps(s: System)
    requires Inv(s) && s.inq != [] && !s.startup && s.current.None? && s.skipping && !IsSync(s.inq[0]) && !s.inq[0].Silent?
    ensures Inv(SrvBegins(s))
  {
    var s', r := SrvBegins(s), s.inq[0];
    QueuePipeline(s);
    DiscardKeepsAt(s, OutItems(s.outq), RequestItems(r, false)[0], InItems(s.inq[1..]) + WriteItems(s.up), Given(s));
    RestPipeline(s');
  }

  lemma TakeUpKeeps(s: System)
    requires Inv(s) && s.inq != [] && !s.startup && s.current.None? && (s.skipping ==> IsSync(s.inq[0])) && !s.inq[0].Silent?
    ensures Inv(SrvBegins(s))
  {
    var s', r := SrvBegins(s), s.inq[0];
    QueuePipeline(s);
    BeginKeepsAt(s, OutItems(s.outq), RequestItems(r, false)[0], RequestItems(r, true)[0],
      InItems(s.inq[1..]) + WriteItems(s.up), Given(s));
    BegunPipeline(s');
  }

  lemma SrvBeginKeeps(s: System)
    requires Inv(s) && s.inq != [] && !s.startup && s.current.None?
    ensures Inv(SrvBegins(s))
  {
    if s.inq[0].Silent? {
      SilentBeginKeeps(s);
    } else if s.skipping && !IsSync(s.inq[0]) {
      DiscardKeeps(s);
    } else {
      TakeUpKeeps(s);
    }
  }

  lemma SilentBeginKeeps(s: System)
    requires Inv(s) && s.inq != [] && !s.startup && s.current.None? && s.inq[0].Silent?
    ensures Inv(SrvBegins(s))
  {
    var s' := SrvBegins(s);
    SilentPipeline(s, s');
    SyncBehind(s, s');
    ServerStill(s, s', Pipeline(s), Given(s));
  }

  // ---------------------------------------------------------------- every run

  lemma StepKeeps(s: System, a: Action)
    requires Inv(s) && Enabled(s, a)
    ensures Inv(Next(s, a))
  {
    match a
    case UpRead(m) => UpReadKeeps(s, m);
    case UpWrite => UpWriteKeeps(s);
    case UpAsk => UpAskKeeps(s);
    case UpTake => UpTakeKeeps(s);
    case UpAct => UpActKeeps(s);
    case UpFail => UpFailKeeps(s);
    case DownRead => DownReadKeeps(s);
    case DownWrite => DownWriteKeeps(s);
    case SrvBegin => SrvBeginKeeps(s);
    case SrvReply(p) => SrvReplyKeeps(s, p);
    case SrvAsync(p) => SrvAsyncKeeps(s, p);
    case SrvCopyIn => SrvCopyInKeeps(s);
    case SrvAbsorb => SrvAbsorbKeeps(s);
    case SrvEnd(status, fails) => SrvEndKeeps(s, status, fails);
    case Close => CloseKeeps(s);
  }

  lemma {:induction false} RunKeeps(s: System, actions: seq<Action>)
    requires Inv(s) && Runs(s, actions)
    ensures Inv(After(s, actions))
    decreases |actions|
  {
    if actions != [] {
      StepKeeps(s, actions[0]);
      RunKeeps(Next(s, actions[0]), actions[1..]);
    }
  }
}
