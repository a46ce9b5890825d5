/**
 For every script that is not safe, a run in which the harm is done.

 The run is put together message by message.  Between two messages everything
 rests: both threads wait, the server is in one of the modes, and all that was
 answered has been delivered.  Each message is read, asked about where the gateway
 asks, and sent; then the server takes it whichever way leads to the next mode on
 the way to the harm.  So each lemma here starts from a state at rest, or from one
 with a message in the queue, and gives a run to the next state at rest; and the
 script that is not safe says which ways to take.
 */
module GatewayLosses {
  import opened Options
  import opened GatewayProtocol
  import opened GatewayScripts

  // ---------------------------------------------------------------- runs, put together

  /** Some run from `s` to `s'` reads exactly `ms`. */
  ghost predicate Leads(s: System, ms: seq<ClientMsg>, s': System)
  {
    exists actions :: Runs(s, actions) && After(s, actions) == s' && Reads(actions) == ms
  }

  lemma Stays(s: System)
    ensures Leads(s, [], s)
  {
    assert Runs(s, []) && After(s, []) == s && Reads([]) == [];
  }

  /** A step in front of a run. */
  lemma First(s: System, a: Action, ms: seq<ClientMsg>, s': System)
    requires Enabled(s, a) && Leads(Next(s, a), ms, s')
    ensures Leads(s, (if a.UpRead? then [a.m] else []) + ms, s')
  {
    var actions :| Runs(Next(s, a), actions) && After(Next(s, a), actions) == s' && Reads(actions) == ms;
    var all := [a] + actions;
    assert all[0] == a && all[1..] == actions;
    assert Runs(s, all) && After(s, all) == s';
    assert Reads(all) == (if a.UpRead? then [a.m] else []) + ms;
  }

  /** A step that reads nothing. */
  lemma Quietly(s: System, a: Action, ms: seq<ClientMsg>, s': System)
    requires Enabled(s, a) && !a.UpRead? && Leads(Next(s, a), ms, s')
    ensures Leads(s, ms, s')
  {
    First(s, a, ms, s');
    assert [] + ms == ms;
  }

  lemma RunOne(s: System, actions: seq<Action>)
    requires actions != [] && Enabled(s, actions[0]) && Runs(Next(s, actions[0]), actions[1..])
    ensures Runs(s, actions) && After(s, actions) == After(Next(s, actions[0]), actions[1..])
  {
  }

  lemma RunHead(s: System, a: seq<Action>, s1: System)
    requires a != [] && Runs(s, a) && s1 == Next(s, a[0])
    ensures Runs(s1, a[1..]) && After(s, a) == After(s1, a[1..])
  {
  }

  lemma {:induction false} RunsJoin(s: System, a: seq<Action>, b: seq<Action>)
    requires Runs(s, a) && Runs(After(s, a), b)
    ensures Runs(s, a + b) && After(s, a + b) == After(After(s, a), b)
    decreases |a|
  {
    if a == [] {
      assert a + b == b;
    } else {
      var s1 := Next(s, a[0]);
      RunHead(s, a, s1);
      RunsJoin(s1, a[1..], b);
      RunsMore(s, a[0], s1, a[1..] + b);
      assert a + b == [a[0]] + (a[1..] + b);
    }
  }

  lemma RunsMore(s: System, a: Action, s1: System, rest: seq<Action>)
    requires Enabled(s, a) && s1 == Next(s, a) && Runs(s1, rest)
    ensures Runs(s, [a] + rest) && After(s, [a] + rest) == After(s1, rest)
  {
    assert ([a] + rest)[0] == a && ([a] + rest)[1..] == rest;
  }

  lemma {:induction false} ReadsJoin(a: seq<Action>, b: seq<Action>)
    ensures Reads(a + b) == Reads(a) + Reads(b)
  {
    if a == [] {
      assert a + b == b;
    } else {
      assert (a + b)[0] == a[0] && (a + b)[1..] == a[1..] + b;
      ReadsJoin(a[1..], b);
    }
  }

  lemma Onward(s: System, ms: seq<ClientMsg>, s1: System, ns: seq<ClientMsg>, s2: System)
    requires Leads(s, ms, s1) && Leads(s1, ns, s2)
    ensures Leads(s, ms + ns, s2)
  {
    var a :| Runs(s, a) && After(s, a) == s1 && Reads(a) == ms;
    var b :| Runs(s1, b) && After(s1, b) == s2 && Reads(b) == ns;
    RunsJoin(s, a, b);
    ReadsJoin(a, b);
    assert Runs(s, a + b) && After(s, a + b) == s2 && Reads(a + b) == ms + ns;
  }

  // ---------------------------------------------------------------- states between messages

  /** Both threads wait, everything answered so far has been delivered, and nothing was lost. */
  predicate Calm(s: System, unsynced: bool)
  {
    && s.up.Idle? && s.unsynced == unsynced && !s.startup && s.lost == {}
    && !s.locked.asking && !s.locked.closed && s.locked.captured == [] && s.held.None? && s.outq == []
  }

  /** The server works on a request with `left` COPY statements to come. */
  predicate Works(s: System, left: nat, batch: bool)
  {
    && s.current.Some? && (if batch then s.current.value.Batch? else s.current.value.Counted?)
    && Left(s.current.value) == left && !s.skipping && s.locked.awaiting == (if batch then 0 else 1)
    && (Making(s) ==> left == 0 && !s.copying && !s.unnamed)
  }

  predicate In(s: System, mode: Mode)
  {
    match mode
    case AtRest => s.current.None? && !s.skipping && !s.copying && s.locked.awaiting == 0
    case Skipping => s.current.None? && s.skipping && !s.copying && s.locked.awaiting == 0
    case CopyOpen(left, batch) => s.copying && Works(s, left, batch)
  }

  predicate Rests(s: System, mode: Mode, unsynced: bool)
  {
    Calm(s, unsynced) && In(s, mode) && s.inq == []
  }

  /** The same with `r` in the queue. */
  predicate Waits(s: System, mode: Mode, unsynced: bool, r: Request)
  {
    && Calm(s, unsynced) && s.inq == [r]
    && In(s.(locked := s.locked.(awaiting := if r.Counted? && s.locked.awaiting > 0 then s.locked.awaiting - 1 else s.locked.awaiting)), mode)
    && (r.Counted? ==> s.locked.awaiting > 0)
  }

  predicate Busy(s: System, left: nat, batch: bool, unsynced: bool)
  {
    Calm(s, unsynced) && s.inq == [] && Works(s, left, batch)
  }

  // ---------------------------------------------------------------- one message served

  /** The last ReadyForQuery reaches the client. */
  lemma Delivers(s: System, unsynced: bool, id: nat, status: char) returns (s': System)
    requires Calm(s.(outq := []), unsynced) && s.outq == [Ready(ForClient(id), status)] && s.inq == []
    requires s.current.None? && !s.skipping && !s.copying && s.locked.awaiting == 1
    ensures Leads(s, [], s') && Rests(s', AtRest, unsynced) && s'.unnamed == s.unnamed
  {
    var s1 := Next(s, DownRead);
    s' := Next(s1, DownWrite);
    Stays(s');
    Quietly(s1, DownWrite, [], s');
    Quietly(s, DownRead, [], s');
  }

  /** The request at work ends, well or badly. */
  lemma Finishes(s: System, left: nat, batch: bool, unsynced: bool, fails: bool) returns (s': System)
    requires Busy(s, left, batch, unsynced) && (batch && (s.copying || left > 0) ==> fails)
    ensures Leads(s, [], s') && Rests(s', if batch && fails then Skipping else AtRest, unsynced)
    ensures s'.unnamed == if Making(s) then !fails else s.unnamed
  {
    var a := SrvEnd('I', fails);
    var s1 := Next(s, a);
    if batch {
      s' := s1;
      Stays(s1);
    } else {
      assert [] + [Ready(ForClient(s.current.value.id), 'I')] == [Ready(ForClient(s.current.value.id), 'I')];
      s' := Delivers(s1, unsynced, s.current.value.id, 'I');
    }
    Quietly(s, a, [], s');
  }

  /** A request taken up may go any way it may. */
  lemma GoesWay(s: System, left: nat, batch: bool, unsynced: bool, next: Mode) returns (s': System)
    requires Busy(s, left, batch, unsynced) && !s.copying && next in Pending(left, batch)
    ensures Leads(s, [], s') && Rests(s', next, unsynced)
    ensures s'.unnamed == if Making(s) then next.AtRest? else s.unnamed
  {
    if next.CopyOpen? {
      s' := Next(s, SrvCopyIn);
      Stays(s');
      Quietly(s, SrvCopyIn, [], s');
    } else {
      s' := Finishes(s, left, batch, unsynced, next.Skipping?);
    }
  }

  /** A message with nothing before it, or a Sync while skipping, is taken up. */
  lemma TakenUp(s: System, mode: Mode, unsynced: bool, r: Request, next: Mode) returns (s': System)
    requires Waits(s, mode, unsynced, r) && !r.Question? && next in Steps(mode, r)
    requires (mode == AtRest || (mode == Skipping && IsSync(r))) && WellMade(r)
    ensures Leads(s, [], s') && Rests(s', next, unsynced) && s'.unnamed == HeldAfter(mode, s.unnamed, r, next)
  {
    var s1 := Next(s, SrvBegin);
    assert s1.current == Some(r) && !s1.skipping && s1.inq == [];
    if r.Silent? {
      s' := Next(s1, SrvEnd('I', false));
      Stays(s');
      Quietly(s1, SrvEnd('I', false), [], s');
    } else {
      s' := GoesWay(s1, Left(r), r.Batch?, unsynced, next);
    }
    Quietly(s, SrvBegin, [], s');
  }

  /** Anything but a request for the client is skipped without loss. */
  lemma Skipped(s: System, unsynced: bool, r: Request) returns (s': System)
    requires Waits(s, Skipping, unsynced, r) && !r.Counted? && !r.Question?
    ensures Leads(s, [], s') && Rests(s', Skipping, unsynced) && s'.unnamed == s.unnamed
  {
    s' := Next(s, SrvBegin);
    Stays(s');
    Quietly(s, SrvBegin, [], s');
  }

  /** A message read by a COPY. */
  lemma Absorbed(s: System, left: nat, batch: bool, unsynced: bool, r: Request, next: Mode) returns (s': System)
    requires Waits(s, CopyOpen(left, batch), unsynced, r) && !r.Counted? && !r.Question?
    requires next in Steps(CopyOpen(left, batch), r)
    ensures Leads(s, [], s') && Rests(s', next, unsynced) && s'.unnamed == s.unnamed
  {
    var s1 := Next(s, SrvAbsorb);
    if r == Silent(Plain) {
      if next.CopyOpen? {
        s' := s1;
        Stays(s1);
      } else {
        s' := Finishes(s1, left, batch, unsynced, true);
      }
    } else if r == Silent(CopyDone) {
      s' := GoesWay(s1, OneLess(left), batch, unsynced, next);
    } else if batch {
      s' := s1;
      Stays(s1);
    } else {
      s' := Finishes(s1, 0, batch, unsynced, false);
    }
    Quietly(s, SrvAbsorb, [], s');
  }

  lemma Served(s: System, mode: Mode, unsynced: bool, r: Request, next: Mode) returns (s': System)
    requires Waits(s, mode, unsynced, r) && !r.Question? && !Loses(mode, r) && next in Steps(mode, r) && WellMade(r)
    ensures Leads(s, [], s') && Rests(s', next, unsynced) && s'.unnamed == HeldAfter(mode, s.unnamed, r, next)
  {
    match mode
    case AtRest => s' := TakenUp(s, mode, unsynced, r, next);
    case Skipping =>
      if IsSync(r) {
        s' := TakenUp(s, mode, unsynced, r, next);
      } else {
        s' := Skipped(s, unsynced, r);
      }
    case CopyOpen(left, batch) => s' := Absorbed(s, left, batch, unsynced, r, next);
  }

  /** The server skips the request, or reads it as part of a COPY. */
  lemma Dropped(s: System, mode: Mode, unsynced: bool, r: Request) returns (s': System)
    requires Waits(s, mode, unsynced, r) && Loses(mode, r)
    ensures Leads(s, [], s') && s'.lost == {r.id}
  {
    var a := if mode.Skipping? then SrvBegin else SrvAbsorb;
    s' := Next(s, a);
    Stays(s');
    Quietly(s, a, [], s');
  }

  // ---------------------------------------------------------------- one message read

  /** A message that is sent at once. */
  lemma ReadAndSent(s: System, mode: Mode, unsynced: bool, m: ClientMsg) returns (r: Request, s': System)
    requires Rests(s, mode, unsynced) && !m.Terminate? && !Asks(m, unsynced)
    ensures Leads(s, [m], s') && Waits(s', mode, Unsynced(m, unsynced), r) && Like(r, Sent(m)) && s'.unnamed == s.unnamed
  {
    var s1 := Next(s, UpRead(m));
    ReadIs(s, m);
    r := s1.up.request;
    s' := Next(s1, UpWrite);
    assert s.inq + [r] == [r];
    Stays(s');
    Quietly(s1, UpWrite, [], s');
    First(s, UpRead(m), [], s');
    assert [m] + [] == [m];
  }

  // A statement for the engine, asked about and then sent.

  /** The question is with the server. */
  predicate Asked(s: System, sql: string, via: Via)
  {
    && s.up == WaitAnswer(sql, via) && !s.unsynced && !s.startup && s.lost == {}
    && s.locked == Locked(0, true, [], None, false) && s.held.None? && s.outq == []
    && s.inq == [Question(AskText(sql), via)] && s.current.None? && !s.skipping && !s.copying
  }

  /** The translation is there. */
  predicate Told(s: System, text: string, sql: string, via: Via)
  {
    && s.up == Got(Sql(text), sql, via) && Calm(s.(up := Idle), false) && In(s, AtRest) && s.inq == []
  }

  lemma Questions(s: System, m: ClientMsg) returns (s': System)
    requires Rests(s, AtRest, false) && Asks(m, false)
    ensures Leads(s, [m], s') && Asked(s', SqlOf(m), ViaOf(m)) && s'.unnamed == s.unnamed
  {
    ReadIs(s, m);
    var s1 := Next(s, UpRead(m));
    assert s1 == s.(up := WantAsk(SqlOf(m), ViaOf(m))) by {
      AskReads(s, m);
    }
    var s2 := Next(s1, UpAsk);
    s' := Next(s2, UpWrite);
    assert s.inq + [Question(AskText(SqlOf(m)), ViaOf(m))] == [Question(AskText(SqlOf(m)), ViaOf(m))];
    Stays(s');
    Quietly(s2, UpWrite, [], s');
    Quietly(s1, UpAsk, [], s');
    First(s, UpRead(m), [], s');
    assert [m] + [] == [m];
  }

  lemma AskReads(s: System, m: ClientMsg)
    requires Asks(m, s.unsynced)
    ensures UpReads(s, m) == s.(up := WantAsk(SqlOf(m), ViaOf(m)))
  {
  }

  /** The server answers with a row and its ReadyForQuery. */
  lemma Answers(s: System, sql: string, via: Via) returns (s': System)
    requires Asked(s, sql, via)
    ensures Leads(s, [], s') && Asked(s'.(inq := s.inq, outq := []), sql, via) && s'.inq == []
    ensures s'.outq == [Reply(ForQuestion, RowData("")), Ready(ForQuestion, 'I')] && !s'.unnamed
  {
    var s1 := Next(s, SrvBegin);
    var s2 := Next(s1, SrvReply(RowData("")));
    s' := Next(s2, SrvEnd('I', false));
    assert s2.outq == [Reply(ForQuestion, RowData(""))];
    Stays(s');
    Quietly(s2, SrvEnd('I', false), [], s');
    Quietly(s1, SrvReply(RowData("")), [], s');
    Quietly(s, SrvBegin, [], s');
  }

  lemma Captures(s: System, sql: string, via: Via) returns (s': System)
    requires s.up == WaitAnswer(sql, via) && Calm(s.(up := Idle, outq := [], locked := s.locked.(asking := false)), false)
    requires s.locked == Locked(0, true, [], None, false) && s.inq == [] && In(s, AtRest)
    requires s.outq == [Reply(ForQuestion, RowData("")), Ready(ForQuestion, 'I')]
    ensures Leads(s, [], s') && Told(s', "", sql, via) && s'.unnamed == s.unnamed
  {
    var answer := s.outq;
    var s1 := Next(s, DownRead);
    var s2 := Next(s1, DownRead);
    assert s1.outq == [answer[1]] && s2.outq == [];
    assert s2.locked.answer == Some(answer) by {
      assert [] + [answer[0]] + [answer[1]] == answer;
    }
    s' := Next(s2, UpTake);
    RowTranslates(answer);
    Stays(s');
    Quietly(s2, UpTake, [], s');
    Quietly(s1, DownRead, [], s');
    Quietly(s, DownRead, [], s');
  }

  lemma RowTranslates(answer: seq<ServerMsg>)
    requires answer == [Reply(ForQuestion, RowData("")), Ready(ForQuestion, 'I')]
    ensures TranslationOf(answer) == Sql("")
  {
    assert answer[1..] == [Ready(ForQuestion, 'I')] && answer[1..][1..] == [];
    assert FirstError(answer[1..]) == None;
  }

  lemma Resumes(s: System, m: ClientMsg) returns (r: Request, s': System)
    requires Told(s, "", SqlOf(m), ViaOf(m)) && Asks(m, false)
    ensures Leads(s, [], s') && Waits(s', AtRest, Unsynced(m, false), r) && Like(r, Sent(m)) && s'.unnamed == s.unnamed
  {
    var s1 := Next(s, UpAct);
    r := s1.up.request;
    s' := Next(s1, UpWrite);
    assert s.inq + [r] == [r];
    Stays(s');
    Quietly(s1, UpWrite, [], s');
    Quietly(s, UpAct, [], s');
  }

  lemma AskedAndSent(s: System, m: ClientMsg) returns (r: Request, s': System)
    requires Rests(s, AtRest, false) && Asks(m, false)
    ensures Leads(s, [m], s') && Waits(s', AtRest, Unsynced(m, false), r) && Like(r, Sent(m)) && !s'.unnamed
  {
    var s1 := Questions(s, m);
    var s2 := Answers(s1, SqlOf(m), ViaOf(m));
    var s3 := Captures(s2, SqlOf(m), ViaOf(m));
    r, s' := Resumes(s3, m);
    Onward(s2, [], s3, [], s');
    Onward(s1, [], s2, [] + [], s');
    Onward(s, [m], s1, [] + ([] + []), s');
    assert [m] + ([] + ([] + [])) == [m];
  }

  // ---------------------------------------------------------------- every script

  /** The question takes nothing that its own statement would leave, or the harm is done by it. */
  lemma AskedHeld(harm: Harm, m: ClientMsg, rest: seq<ClientMsg>, u: bool, held: bool, next: Mode)
    requires Asks(m, false) && !(harm.TakenStatement? && Robs(m, false, held))
    requires !Safe(harm, rest, u, next, HeldAfter(AtRest, held, Sent(m), next))
    ensures !Safe(harm, rest, u, next, HeldAfter(AtRest, false, Sent(m), next))
  {
    if harm.LostRequest? && Safe(harm, rest, u, next, HeldAfter(AtRest, false, Sent(m), next)) {
      LossIgnoresHeld(rest, u, next, HeldAfter(AtRest, false, Sent(m), next), HeldAfter(AtRest, held, Sent(m), next));
    }
  }

  /** A message read and sent, with the harm still to come after it. */
  lemma OneOn(harm: Harm, s: System, m: ClientMsg, rest: seq<ClientMsg>, unsynced: bool, mode: Mode, next: Mode)
    returns (s': System)
    requires Rests(s, mode, unsynced) && !m.Terminate? && (Asks(m, unsynced) ==> mode == AtRest)
    requires !Loses(mode, Sent(m)) && !(harm.TakenStatement? && Robs(m, unsynced, s.unnamed)) && next in Steps(mode, Sent(m))
    requires !Safe(harm, rest, Unsynced(m, unsynced), next, HeldAfter(mode, s.unnamed, Sent(m), next))
    ensures Leads(s, [m], s') && Rests(s', next, Unsynced(m, unsynced))
    ensures !Safe(harm, rest, Unsynced(m, unsynced), next, s'.unnamed)
  {
    var u := Unsynced(m, unsynced);
    var r, s1;
    if Asks(m, unsynced) {
      r, s1 := AskedAndSent(s, m);
      AskedHeld(harm, m, rest, u, s.unnamed, next);
    } else {
      r, s1 := ReadAndSent(s, mode, unsynced, m);
    }
    LikeSteps(r, Sent(m), mode);
    s' := Served(s1, mode, u, r, next);
    Onward(s, [m], s1, [], s');
    assert [m] + [] == [m];
  }

  /** A message read and sent, and lost. */
  lemma OneLost(s: System, m: ClientMsg, unsynced: bool, mode: Mode) returns (s': System)
    requires Rests(s, mode, unsynced) && !m.Terminate? && (Asks(m, unsynced) ==> mode == AtRest) && Loses(mode, Sent(m))
    ensures Leads(s, [m], s') && s'.lost != {}
  {
    var r, s1 := ReadAndSent(s, mode, unsynced, m);
    LikeSteps(r, Sent(m), mode);
    s' := Dropped(s1, mode, Unsynced(m, unsynced), r);
    assert r.id in s'.lost;
    Onward(s, [m], s1, [], s');
    assert [m] + [] == [m];
  }

  predicate HarmDone(harm: Harm, s: System)
  {
    if harm.LostRequest? then s.lost != {} else Disturbs(s, SrvBegin)
  }

  /** The rest of a script that is not safe: some run does the harm, or comes to where the next step does it. */
  /** A way of the server from which the rest is not safe. */
  lemma UnsafeStep(harm: Harm, script: seq<ClientMsg>, unsynced: bool, mode: Mode, held: bool) returns (next: Mode)
    requires !Safe(harm, script, unsynced, mode, held) && script != []
    requires !Loses(mode, Sent(script[0])) && !(harm.TakenStatement? && Robs(script[0], unsynced, held))
    ensures next in Steps(mode, Sent(script[0]))
    ensures !Safe(harm, script[1..], Unsynced(script[0], unsynced), next, HeldAfter(mode, held, Sent(script[0]), next))
  {
    next :| next in Steps(mode, Sent(script[0])) &&
      !Safe(harm, script[1..], Unsynced(script[0], unsynced), next, HeldAfter(mode, held, Sent(script[0]), next));
  }

  lemma {:induction false} UnsafeHarms(harm: Harm, s: System, script: seq<ClientMsg>, unsynced: bool, mode: Mode)
    returns (ms: seq<ClientMsg>, s': System)
    requires Rests(s, mode, unsynced) && !Safe(harm, script, unsynced, mode, s.unnamed)
    ensures ms <= script && Leads(s, ms, s') && HarmDone(harm, s')
    decreases |script|
  {
    var m, rest := script[0], script[1..];
    assert script == [m] + rest;
    if Loses(mode, Sent(m)) {
      s' := OneLost(s, m, unsynced, mode);
      ms := [m];
    } else if harm.TakenStatement? && Robs(m, unsynced, s.unnamed) {
      s' := Questions(s, m);
      ms := [m];
    } else {
      var next := UnsafeStep(harm, script, unsynced, mode, s.unnamed);
      var s1 := OneOn(harm, s, m, rest, unsynced, mode, next);
      var ns;
      ns, s' := UnsafeHarms(harm, s1, rest, Unsynced(m, unsynced), next);
      ms := [m] + ns;
      Onward(s, [m], s1, ns, s');
      assert ms == script[..|ms|];
    }
  }

  /** The startup over, the server is at rest. */
  lemma StartupRests() returns (s: System)
    ensures Leads(Init(), [], s) && Rests(s, AtRest, false) && !s.unnamed
  {
    var s1 := Next(Init(), SrvEnd('I', false));
    assert s1.outq == [Ready(ForStartup, 'I')];
    var s2 := Next(s1, DownRead);
    s := Next(s2, DownWrite);
    Stays(s);
    Quietly(s2, DownWrite, [], s);
    Quietly(s1, DownRead, [], s);
    Quietly(Init(), SrvEnd('I', false), [], s);
  }

  lemma {:induction false} DisturbedAtEnd(s: System, actions: seq<Action>, a: Action)
    requires Runs(s, actions) && Disturbs(After(s, actions), a)
    ensures Runs(s, actions + [a]) && Disturbed(s, actions + [a])
    decreases |actions|
  {
    var all := actions + [a];
    if actions == [] {
      assert all[0] == a && all[1..] == [];
    } else {
      assert all[0] == actions[0] && all[1..] == actions[1..] + [a];
      DisturbedAtEnd(Next(s, actions[0]), actions[1..], a);
    }
  }

  /** A script that is not safe: a run of its messages does the harm. */
  lemma UnsafeRun(harm: Harm, script: seq<ClientMsg>) returns (actions: seq<Action>)
    requires !Safe(harm, script, false, AtRest, false)
    ensures Runs(Init(), actions) && Reads(actions) <= script
    ensures if harm.LostRequest? then After(Init(), actions).lost != {} else Disturbed(Init(), actions)
  {
    var s := StartupRests();
    var ms, s' := UnsafeHarms(harm, s, script, false, AtRest);
    Onward(Init(), [], s, ms, s');
    assert [] + ms == ms;
    actions :| Runs(Init(), actions) && After(Init(), actions) == s' && Reads(actions) == ms;
    if harm.TakenStatement? {
      DisturbedAtEnd(Init(), actions, SrvBegin);
      ReadsJoin(actions, [SrvBegin]);
      assert Reads([SrvBegin]) == [] && ms + [] == ms;
      actions := actions + [SrvBegin];
    }
  }
}
