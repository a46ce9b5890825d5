/**
 Which clients the gateway serves to the end, and whose session it leaves alone.

 What the server makes of a message depends on what it is doing when it comes to
 it, and the client cannot know that: a batch may have failed, a COPY may be
 reading.  A script is safe from a harm if no way the server may take leads to it.
 That is a condition on the messages alone.  Two harms are looked at: a request
 that never gets its ReadyForQuery, and the gateway's own question taking away a
 prepared statement of the client's.  Here a script that is safe is shown to
 suffer neither, however the two threads and the server interleave: what is
 queued, what is being written and what the client has still to send stay clear
 of the harm from every mode the server may be in.  The statements of the engine
 are the barrier in it: they wait until the server is at rest.
 */
module GatewayScripts {
  import opened Options
  import opened GatewayProtocol
  import opened GatewaySafety
  import opened Gateway

  // ---------------------------------------------------------------- what a client may send

  /** What the server may be doing when it comes to the next message: nothing, reading a COPY with `left` of them
      to go, or skipping to the next Sync.  `batch` says that the COPY runs in an extended-query batch. */
  datatype Mode = AtRest | CopyOpen(left: nat, batch: bool) | Skipping

  /** Where a failed request leaves the server. */
  function Fallen(batch: bool): Mode
  {
    if batch then Skipping else AtRest
  }

  /** What may become of a request with `left` COPY statements. */
  function Pending(left: nat, batch: bool): set<Mode>
  {
    {Fallen(batch), if left > 0 then CopyOpen(left, batch) else AtRest}
  }

  function OneLess(left: nat): nat
  {
    if left > 0 then left - 1 else 0
  }

  /** The modes the server may be in after message `r`. */
  function Steps(mode: Mode, r: Request): set<Mode>
  {
    if r.Question? then {mode}
    else match mode
      case AtRest => if r.Silent? then {AtRest} else Pending(Left(r), r.Batch?)
      case Skipping => if IsSync(r) then Pending(Left(r), false) else {Skipping}
      case CopyOpen(left, batch) =>
        if r == Silent(Plain) then {mode, Fallen(batch)}
        else if r == Silent(CopyDone) then Pending(OneLess(left), batch)
        else {Fallen(batch)}
  }

  /** The server gives `r` no ReadyForQuery. */
  predicate Loses(mode: Mode, r: Request)
  {
    r.Counted? && (mode.CopyOpen? || (mode.Skipping? && !r.sync))
  }

  /** Whether the session has an unnamed statement once the server is done with `r`, and in mode `next`. */
  function HeldAfter(mode: Mode, held: bool, r: Request, next: Mode): bool
  {
    if r.Silent? || !(mode.AtRest? || (mode.Skipping? && IsSync(r))) then held
    else if r.Question? then false
    else match r.effect
      case Spares => held
      case Drops => false
      case Makes => r.Batch? && next.AtRest?
  }

  /** A question the server takes up takes away the unnamed statement, for a Parse that leaves it alone. */
  predicate Takes(mode: Mode, held: bool, r: Request)
  {
    mode.AtRest? && held && r.Question? && r.via == ViaParse(true)
  }

  /** The message makes the gateway wait for an idle server and ask it. */
  predicate Asks(m: ClientMsg, unsynced: bool)
  {
    !unsynced && (m.Query? || m.Parse?) && m.fabric
  }

  /** What the server gets for `m`, number and text left out. */
  function Sent(m: ClientMsg): Request
  {
    match m
    case Query(_, fabric, copies) => Counted(0, false, "", if fabric then 0 else copies, Drops)
    case Parse(_, _, named) => Batch("", 0, ParseEffect(named))
    case Extended(copy, closes) => Batch("", if copy then 1 else 0, if closes then Drops else Spares)
    case Flush => Silent(Plain)
    case Sync => Counted(0, true, "", 0, Spares)
    case FunctionCall => Counted(0, false, "", 0, Spares)
    case Terminate => Silent(Plain)
    case Other(part) => Silent(part)
  }

  function Unsynced(m: ClientMsg, unsynced: bool): bool
  {
    if m.Sync? then false else unsynced || m.Parse? || m.Extended? || m.Flush?
  }

  /** What may happen to a client that it cannot see coming. */
  datatype Harm = LostRequest | TakenStatement

  /** The question about `m` would take the unnamed statement away. */
  predicate Robs(m: ClientMsg, unsynced: bool, held: bool)
  {
    Asks(m, unsynced) && held && m.Parse? && m.named
  }

  /** Whatever the server makes of the messages, the harm is not done.  Safe from loss: it skips no Query and no
      FunctionCall, and reads none and no Sync as part of a COPY.  Safe from theft: the gateway asks about no named Parse
      while the session has an unnamed statement; after a loss it does not ask at all. */
  predicate Safe(harm: Harm, script: seq<ClientMsg>, unsynced: bool, mode: Mode, held: bool)
  {
    || script == []
    || script[0].Terminate?
    || (Asks(script[0], unsynced) && mode != AtRest)
    || (if Loses(mode, Sent(script[0])) then harm.TakenStatement?
        else
          && (harm.TakenStatement? ==> !Robs(script[0], unsynced, held))
          && forall next :: next in Steps(mode, Sent(script[0])) ==>
               Safe(harm, script[1..], Unsynced(script[0], unsynced), next, HeldAfter(mode, held, Sent(script[0]), next)))
  }

  predicate Polite(script: seq<ClientMsg>)
  {
    Safe(LostRequest, script, false, AtRest, false)
  }

  predicate Unrobbed(script: seq<ClientMsg>)
  {
    Safe(TakenStatement, script, false, AtRest, false)
  }

  /** The messages the client thread reads in a run. */
  function Reads(actions: seq<Action>): seq<ClientMsg>
  {
    if actions == [] then []
    else (if actions[0].UpRead? then [actions[0].m] else []) + Reads(actions[1..])
  }

  /** No run that reads messages of `script` loses a request. */
  ghost predicate LosesNothing(script: seq<ClientMsg>)
  {
    forall actions :: Runs(Init(), actions) && Reads(actions) <= script ==> After(Init(), actions).lost == {}
  }

  /** In this step the server takes up a question about a named Parse, and drops the unnamed statement for it. */
  predicate Disturbs(s: System, a: Action)
  {
    a.SrvBegin? && Enabled(s, a) && s.unnamed && s.inq[0].Question? && s.inq[0].via == ViaParse(true)
  }

  ghost predicate Disturbed(s: System, actions: seq<Action>)
    requires Runs(s, actions)
    decreases |actions|
  {
    actions != [] && (Disturbs(s, actions[0]) || Disturbed(Next(s, actions[0]), actions[1..]))
  }

  /** In no run that reads messages of `script` does a question take away what the client's own messages leave. */
  ghost predicate LeavesStatements(script: seq<ClientMsg>)
  {
    forall actions :: Runs(Init(), actions) && Reads(actions) <= script ==> !Disturbed(Init(), actions)
  }

  // ---------------------------------------------------------------- a safe script comes to no harm

  /** No harm is done by `q`, nor by what the client sends after it. */
  predicate Clear(harm: Harm, q: seq<Request>, todo: seq<ClientMsg>, unsynced: bool, mode: Mode, held: bool)
  {
    if q == [] then Safe(harm, todo, unsynced, mode, held)
    else if Loses(mode, q[0]) then harm.TakenStatement?
    else
      && (harm.TakenStatement? ==> !Takes(mode, held, q[0]))
      && forall next :: next in Steps(mode, q[0]) ==>
           Clear(harm, q[1..], todo, unsynced, next, HeldAfter(mode, held, q[0], next))
  }

  lemma {:induction false} ClearStill(harm: Harm, q: seq<Request>, todo: seq<ClientMsg>, unsynced: bool,
                                      todo': seq<ClientMsg>, unsynced': bool, mode: Mode, held: bool)
    requires Clear(harm, q, todo, unsynced, mode, held)
    requires forall last, h :: Safe(harm, todo, unsynced, last, h) ==> Safe(harm, todo', unsynced', last, h)
    ensures Clear(harm, q, todo', unsynced', mode, held)
  {
    if q != [] && !Loses(mode, q[0]) {
      forall next | next in Steps(mode, q[0])
        ensures Clear(harm, q[1..], todo', unsynced', next, HeldAfter(mode, held, q[0], next))
      {
        ClearStill(harm, q[1..], todo, unsynced, todo', unsynced', next, HeldAfter(mode, held, q[0], next));
      }
    }
  }

  /** One more request is sent, and the rest of the script is clear after it. */
  lemma {:induction false} ClearMore(harm: Harm, q: seq<Request>, r: Request, todo: seq<ClientMsg>, unsynced: bool,
                                     todo': seq<ClientMsg>, unsynced': bool, mode: Mode, held: bool)
    requires Clear(harm, q, todo, unsynced, mode, held)
    requires forall last, h :: Safe(harm, todo, unsynced, last, h) ==> Clear(harm, [r], todo', unsynced', last, h)
    ensures Clear(harm, q + [r], todo', unsynced', mode, held)
  {
    if q == [] {
      assert q + [r] == [r];
    } else {
      assert (q + [r])[0] == q[0] && (q + [r])[1..] == q[1..] + [r];
      if !Loses(mode, q[0]) {
        forall next | next in Steps(mode, q[0])
          ensures Clear(harm, q[1..] + [r], todo', unsynced', next, HeldAfter(mode, held, q[0], next))
        {
          ClearMore(harm, q[1..], r, todo, unsynced, todo', unsynced', next, HeldAfter(mode, held, q[0], next));
        }
      }
    }
  }

  /** Messages without a reply leave a server at rest there, and its session alone. */
  lemma {:induction false} ClearQuiet(harm: Harm, q: seq<Request>, p: seq<Request>, todo: seq<ClientMsg>, unsynced: bool, held: bool)
    requires forall r :: r in q ==> r.Silent?
    ensures Clear(harm, q + p, todo, unsynced, AtRest, held) == Clear(harm, p, todo, unsynced, AtRest, held)
  {
    if q == [] {
      assert q + p == p;
    } else {
      assert q[0] in q && Steps(AtRest, q[0]) == {AtRest};
      assert (q + p)[1..] == q[1..] + p;
      ClearQuiet(harm, q[1..], p, todo, unsynced, held);
    }
  }

  lemma ClearOne(harm: Harm, r: Request, todo: seq<ClientMsg>, unsynced: bool, mode: Mode, held: bool)
    ensures Clear(harm, [r], todo, unsynced, mode, held) ==
      if Loses(mode, r) then harm.TakenStatement?
      else
        && (harm.TakenStatement? ==> !Takes(mode, held, r))
        && forall next :: next in Steps(mode, r) ==> Safe(harm, todo, unsynced, next, HeldAfter(mode, held, r, next))
  {
    assert [r][1..] == [];
    forall next | next in Steps(mode, r)
      ensures Clear(harm, [r][1..], todo, unsynced, next, HeldAfter(mode, held, r, next))
           == Safe(harm, todo, unsynced, next, HeldAfter(mode, held, r, next))
    {
    }
  }

  function Modes(s: System): set<Mode>
  {
    if s.startup || s.current.None? then {if s.skipping then Skipping else AtRest}
    else
      var r := s.current.value;
      if !(r.Counted? || r.Batch?) then {AtRest}
      else if s.copying then {CopyOpen(Left(r), r.Batch?), Fallen(r.Batch?)}
      else Pending(Left(r), r.Batch?)
  }

  /** Whether the session has an unnamed statement in mode `mode` of those the server may come to. */
  function HeldIn(s: System, mode: Mode): bool
  {
    if Making(s) then mode.AtRest? else s.unnamed
  }

  /** The server works on a Parse of the unnamed statement. */
  predicate Making(s: System)
  {
    !s.startup && s.current.Some? && s.current.value.Batch? && s.current.value.effect.Makes?
  }

  function Written(up: Up): seq<Request>
  {
    if up.Writing? then [up.request] else []
  }

  /** What the client thread has still to deal with: the statement being translated, and what is not read yet. */
  function Todo(up: Up, rest: seq<ClientMsg>): seq<ClientMsg>
  {
    match up
    case Idle => rest
    case Writing(_) => rest
    case WantAsk(sql, via) => [Statement(sql, via)] + rest
    case WritingQuestion(sql, via) => [Statement(sql, via)] + rest
    case WaitAnswer(sql, via) => [Statement(sql, via)] + rest
    case Got(_, sql, via) => [Statement(sql, via)] + rest
    case Done => []
  }

  function SqlOf(m: ClientMsg): string
  {
    if m.Query? || m.Parse? then m.sql else ""
  }

  function ViaOf(m: ClientMsg): Via
  {
    if m.Parse? then ViaParse(m.named) else ViaQuery
  }

  function Statement(sql: string, via: Via): ClientMsg
  {
    if via.ViaParse? then Parse(sql, true, via.named) else Query(sql, true, 0)
  }

  /** No harm is done and none will be, while the client keeps to `rest`. */
  ghost predicate Sheltered(harm: Harm, s: System, rest: seq<ClientMsg>)
  {
    && (harm.LostRequest? ==> s.lost == {}) && (s.current.Some? ==> !s.skipping)
    && (s.lost == {} ==>
          forall mode :: mode in Modes(s) ==> Clear(harm, s.inq + Written(s.up), Todo(s.up, rest), s.unsynced, mode, HeldIn(s, mode)))
  }

  // The client thread.

  /** What the client thread's steps leave of the server. */
  predicate SameServer(s: System, s': System)
  {
    && s'.lost == s.lost && s'.current == s.current && s'.skipping == s.skipping && s'.startup == s.startup
    && s'.copying == s.copying && s'.unnamed == s.unnamed
  }

  lemma SameModes(s: System, s': System, mode: Mode)
    requires SameServer(s, s')
    ensures Modes(s') == Modes(s) && HeldIn(s', mode) == HeldIn(s, mode)
  {
  }

  /** The client thread moves on without sending anything. */
  lemma MovesOn(harm: Harm, s: System, s': System, rest: seq<ClientMsg>, rest': seq<ClientMsg>)
    requires Sheltered(harm, s, rest) && SameServer(s, s')
    requires s'.inq + Written(s'.up) == s.inq + Written(s.up)
    requires forall last, h ::
      Safe(harm, Todo(s.up, rest), s.unsynced, last, h) ==> Safe(harm, Todo(s'.up, rest'), s'.unsynced, last, h)
    ensures Sheltered(harm, s', rest')
  {
    if s.lost == {} {
      forall mode | mode in Modes(s')
        ensures Clear(harm, s'.inq + Written(s'.up), Todo(s'.up, rest'), s'.unsynced, mode, HeldIn(s', mode))
      {
        SameModes(s, s', mode);
        ClearStill(harm, s.inq + Written(s.up), Todo(s.up, rest), s.unsynced, Todo(s'.up, rest'), s'.unsynced, mode, HeldIn(s, mode));
      }
    }
  }

  /** The client thread sends `r`. */
  lemma Sends(harm: Harm, s: System, s': System, r: Request, rest: seq<ClientMsg>, rest': seq<ClientMsg>)
    requires Sheltered(harm, s, rest) && SameServer(s, s') && Written(s.up) == []
    requires s'.inq + Written(s'.up) == s.inq + [r]
    requires forall last, h ::
      Safe(harm, Todo(s.up, rest), s.unsynced, last, h) ==> Clear(harm, [r], Todo(s'.up, rest'), s'.unsynced, last, h)
    ensures Sheltered(harm, s', rest')
  {
    assert s.inq + [] == s.inq;
    if s.lost == {} {
      forall mode | mode in Modes(s')
        ensures Clear(harm, s'.inq + Written(s'.up), Todo(s'.up, rest'), s'.unsynced, mode, HeldIn(s', mode))
      {
        SameModes(s, s', mode);
        ClearMore(harm, s.inq, r, Todo(s.up, rest), s.unsynced, Todo(s'.up, rest'), s'.unsynced, mode, HeldIn(s, mode));
      }
    }
  }

  /** What reading a message leaves of the system. */
  ghost predicate ReadLike(s: System, m: ClientMsg, s': System)
  {
    && s' == s.(up := s'.up, unsynced := s'.unsynced, issued := s'.issued, locked := s'.locked)
    && s'.unsynced == (!Asks(m, s.unsynced) && Unsynced(m, s.unsynced))
    && (m.Terminate? ==> s'.up == Done)
    && (Asks(m, s.unsynced) ==> s'.up == WantAsk(SqlOf(m), ViaOf(m)) && s'.locked == s.locked)
    && (!m.Terminate? && !Asks(m, s.unsynced) ==>
          && s'.up.Writing? && Like(s'.up.request, Sent(m))
          && s'.locked == s.locked.(awaiting := s.locked.awaiting + (if s'.up.request.Counted? then 1 else 0)))
  }

  lemma ReadIs(s: System, m: ClientMsg)
    ensures ReadLike(s, m, UpReads(s, m))
  {
    match m
    case Query(_, _, _) => QueryIs(s, m, UpReads(s, m));
    case Parse(_, _, _) => ParseIs(s, m, UpReads(s, m));
    case Sync => SyncIs(s, UpReads(s, m));
    case _ => RestIs(s, m, UpReads(s, m));
  }

  lemma SyncIs(s: System, s': System)
    requires s' == UpReads(s, Sync)
    ensures ReadLike(s, Sync, s')
  {
  }

  lemma RestIs(s: System, m: ClientMsg, s': System)
    requires !m.Query? && !m.Parse? && !m.Sync? && s' == UpReads(s, m)
    ensures ReadLike(s, m, s')
  {
    match m
    case Extended(copy, closes) =>
      assert s' == SendBatch(s, "", if copy then 1 else 0, if closes then Drops else Spares);
    case Flush =>
    case FunctionCall =>
    case Terminate =>
    case Other(_) =>
  }

  lemma QueryIs(s: System, m: ClientMsg, s': System)
    requires m.Query? && s' == UpReads(s, m)
    ensures ReadLike(s, m, s')
  {
    if !m.fabric {
      CountIs(s, m.sql, m.copies, s');
    } else if s.unsynced {
      CountIs(s, Fallback(m.sql), 0, s');
    }
  }

  lemma CountIs(s: System, text: string, copies: nat, s': System)
    requires s' == Count(s, false, text, copies, Drops)
    ensures s' == s.(up := s'.up, issued := s'.issued, locked := s'.locked)
    ensures s'.up == Writing(Counted(s.issued, false, text, copies, Drops))
    ensures s'.locked == s.locked.(awaiting := s.locked.awaiting + 1)
  {
  }

  lemma ParseIs(s: System, m: ClientMsg, s': System)
    requires m.Parse? && s' == UpReads(s, m)
    ensures ReadLike(s, m, s')
  {
    if !m.fabric {
      assert s' == SendBatch(s, m.sql, 0, ParseEffect(m.named));
    } else if s.unsynced {
      assert s' == SendBatch(s, Fallback(m.sql), 0, ParseEffect(m.named));
    }
  }

  /** The server treats both requests alike. */
  predicate Like(r: Request, q: Request)
  {
    match r
    case Question(_, via) => q.Question? && q.via == via
    case Counted(_, sync, _, copies, effect) => q.Counted? && q.sync == sync && q.copies == copies && q.effect == effect
    case Batch(_, copies, effect) => q.Batch? && q.copies == copies && q.effect == effect
    case Silent(_) => q == r
  }

  lemma LikeSteps(r: Request, q: Request, mode: Mode)
    requires Like(r, q)
    ensures Steps(mode, r) == Steps(mode, q) && Loses(mode, r) == Loses(mode, q)
    ensures forall held, next :: HeldAfter(mode, held, r, next) == HeldAfter(mode, held, q, next)
  {
  }

  /** A message that is sent at once: safe before it means clear with it. */
  lemma SafeSends(harm: Harm, m: ClientMsg, r: Request, rest: seq<ClientMsg>, unsynced: bool, mode: Mode, held: bool)
    requires Like(r, Sent(m)) && !m.Terminate? && Safe(harm, [m] + rest, unsynced, mode, held)
    requires Asks(m, unsynced) ==> mode == AtRest
    ensures Clear(harm, [r], rest, Unsynced(m, unsynced), mode, held)
  {
    LikeSteps(r, Sent(m), mode);
    assert ([m] + rest)[1..] == rest;
    ClearOne(harm, r, rest, Unsynced(m, unsynced), mode, held);
  }

  lemma ReadShelters(harm: Harm, s: System, m: ClientMsg, rest: seq<ClientMsg>)
    requires Sheltered(harm, s, [m] + rest) && s.up.Idle?
    ensures Sheltered(harm, UpReads(s, m), rest)
  {
    var s' := UpReads(s, m);
    ReadIs(s, m);
    if m.Terminate? {
      MovesOn(harm, s, s', [m] + rest, rest);
    } else if Asks(m, s.unsynced) {
      StatementIs(harm, m, rest, s.unsynced);
      MovesOn(harm, s, s', [m] + rest, rest);
    } else {
      var r := s'.up.request;
      forall last, h | Safe(harm, [m] + rest, s.unsynced, last, h) ensures Clear(harm, [r], rest, s'.unsynced, last, h) {
        SafeSends(harm, m, r, rest, s.unsynced, last, h);
      }
      Sends(harm, s, s', r, [m] + rest, rest);
    }
  }

  /** A statement for the engine counts as its translation, whatever COPY statements the text holds. */
  lemma StatementIs(harm: Harm, m: ClientMsg, rest: seq<ClientMsg>, unsynced: bool)
    requires Asks(m, unsynced)
    ensures forall last, h ::
      Safe(harm, [m] + rest, unsynced, last, h) ==> Safe(harm, [Statement(SqlOf(m), ViaOf(m))] + rest, false, last, h)
  {
  }

  /** Losses do not depend on prepared statements. */
  lemma {:induction false} LossIgnoresHeld(script: seq<ClientMsg>, unsynced: bool, mode: Mode, held: bool, held': bool)
    requires Safe(LostRequest, script, unsynced, mode, held)
    ensures Safe(LostRequest, script, unsynced, mode, held')
  {
    if script != [] && !script[0].Terminate? && !(Asks(script[0], unsynced) && mode != AtRest) {
      var r, u := Sent(script[0]), Unsynced(script[0], unsynced);
      forall next | next in Steps(mode, r) ensures Safe(LostRequest, script[1..], u, next, HeldAfter(mode, held', r, next)) {
        LossIgnoresHeld(script[1..], u, next, HeldAfter(mode, held, r, next), HeldAfter(mode, held', r, next));
      }
    }
  }

  /** A question is the gateway's own: the client's script does not move on.  What it takes away, its statement would. */
  lemma QuestionSafe(harm: Harm, q: Request, m: ClientMsg, rest: seq<ClientMsg>, mode: Mode, held: bool)
    requires q.Question? && q.via == ViaOf(m) && Asks(m, false) && Safe(harm, [m] + rest, false, mode, held)
    ensures Clear(harm, [q], [m] + rest, false, mode, held)
  {
    ClearOne(harm, q, [m] + rest, false, mode, held);
    if mode == AtRest {
      if harm.LostRequest? {
        LossIgnoresHeld([m] + rest, false, mode, held, false);
      } else {
        assert forall next :: HeldAfter(AtRest, held, Sent(m), next) == HeldAfter(AtRest, false, Sent(m), next);
      }
    }
  }

  lemma QuestionShelters(harm: Harm, s: System, rest: seq<ClientMsg>)
    requires Sheltered(harm, s, rest) && s.up.WritingQuestion? && !s.unsynced
    ensures Sheltered(harm, UpWrites(s), rest)
  {
    var s', q, m := UpWrites(s), Question(AskText(s.up.sql), s.up.via), Statement(s.up.sql, s.up.via);
    assert ViaOf(m) == s.up.via;
    forall last, h | Safe(harm, Todo(s.up, rest), s.unsynced, last, h)
      ensures Clear(harm, [q], Todo(s'.up, rest), s'.unsynced, last, h)
    {
      QuestionSafe(harm, q, m, rest, last, h);
    }
    assert s.inq + [q] + [] == s.inq + [q];
    Sends(harm, s, s', q, rest, rest);
  }

  /** When the answer is there, the server is at rest. */
  lemma GotAtRest(s: System)
    requires Inv(s) && s.up.Got? && s.lost == {}
    ensures !s.unsynced && !s.skipping && Modes(s) == {AtRest} && (forall r :: r in s.inq ==> r.Silent?)
  {
    assert Pipeline(s) == [];
    NoSyncInEmpty(s);
    assert WorkItems(s) == [] && InItems(s.inq) == [];
    AllSilent(s.inq);
  }

  lemma {:induction false} AllSilent(q: seq<Request>)
    requires InItems(q) == []
    ensures forall r :: r in q ==> r.Silent?
  {
    if q != [] {
      assert RequestItems(q[0], false) == [] && InItems(q[1..]) == [];
      AllSilent(q[1..]);
    }
  }

  /** With the answer in hand, the client thread sends the statement in its place, or nothing. */
  ghost predicate ActLike(s: System, m: ClientMsg, s': System)
  {
    && s' == s.(up := s'.up, unsynced := s'.unsynced, issued := s'.issued, locked := s'.locked, delivered := s'.delivered)
    && (s'.up.Writing? ==> Like(s'.up.request, Sent(m)) && s'.unsynced == (s.unsynced || m.Parse?))
    && (!s'.up.Writing? ==> s'.unsynced == s.unsynced && (s'.up.Done? || (s'.up.Idle? && m.Query?)))
  }

  lemma ActIs(s: System)
    requires s.up.Got?
    ensures ActLike(s, Statement(s.up.sql, s.up.via), UpActs(s))
  {
    if s.up.translation.Broken? {
      assert UpActs(s) == s.(up := Done);
    } else if s.up.via.ViaParse? {
      ActParseIs(s, UpActs(s));
    } else {
      ActQueryIs(s, UpActs(s));
    }
  }

  lemma ActParseIs(s: System, s': System)
    requires s.up.Got? && s' == UpActs(s) && s.up.via.ViaParse? && !s.up.translation.Broken?
    ensures ActLike(s, Statement(s.up.sql, s.up.via), s')
  {
    var text := if s.up.translation.Sql? then s.up.translation.text else AskText(s.up.sql);
    assert s' == SendBatch(s, text, 0, ParseEffect(s.up.via.named));
  }

  lemma ActQueryIs(s: System, s': System)
    requires s.up.Got? && s' == UpActs(s) && s.up.via.ViaQuery? && !s.up.translation.Broken?
    ensures ActLike(s, Statement(s.up.sql, s.up.via), s')
  {
    if s.up.translation.Sql? {
      assert s' == Count(s, false, s.up.translation.text, 0, Drops);
    }
  }

  lemma ActShelters(harm: Harm, s: System, rest: seq<ClientMsg>)
    requires Sheltered(harm, s, rest) && s.up.Got? && s.lost == {}
    requires !s.unsynced && !s.skipping && Modes(s) == {AtRest} && (forall r :: r in s.inq ==> r.Silent?)
    requires !s.unnamed && !Making(s)
    ensures Sheltered(harm, UpActs(s), rest)
  {
    var s', m := UpActs(s), Statement(s.up.sql, s.up.via);
    ActIs(s);
    SameModes(s, s', AtRest);
    assert AtRest in Modes(s);
    assert Todo(s.up, rest) == [m] + rest && ([m] + rest)[1..] == rest;
    ClearQuiet(harm, s.inq, [], [m] + rest, false, false);
    ClearQuiet(harm, s.inq, Written(s'.up), Todo(s'.up, rest), s'.unsynced, false);
    if s'.up.Writing? {
      SafeSends(harm, m, s'.up.request, rest, false, AtRest, false);
    } else if s'.up.Idle? {
      assert AtRest in Steps(AtRest, Sent(m));
    }
  }

  // The server.

  lemma {:induction false} QuestionHasItem(q: seq<Request>, r: Request)
    requires r in q && r.Question?
    ensures Item(ForQuestion, true, true) in InItems(q)
  {
    if r == q[0] {
      assert Item(ForQuestion, true, true) in RequestItems(q[0], false);
    } else {
      QuestionHasItem(q[1..], r);
    }
  }

  /** The server comes to a question only when it is at rest. */
  lemma QuestionAtRest(s: System)
    requires Inv(s) && s.inq != [] && s.inq[0].Question?
    ensures !s.skipping && !s.copying
  {
    QuestionHasItem(s.inq, s.inq[0]);
    assert Item(ForQuestion, true, true) in Pipeline(s);
    assert s.locked.asking;
    if s.copying {
      AskingReadsNoCopy(s);
    }
  }

  /** The server takes a message off the queue, from `mode` to the modes of `s'`. */
  lemma TakesUp(harm: Harm, s: System, s': System, mode: Mode, rest: seq<ClientMsg>)
    requires Sheltered(harm, s, rest) && s.inq != [] && mode in Modes(s)
    requires s'.inq == s.inq[1..] && s'.up == s.up && s'.unsynced == s.unsynced && (s'.current.Some? ==> !s'.skipping)
    requires if Loses(mode, s.inq[0]) then s'.lost != {} else s'.lost == s.lost
    requires !Loses(mode, s.inq[0]) ==> Modes(s') <= Steps(mode, s.inq[0])
    requires !Loses(mode, s.inq[0]) ==>
      forall next :: next in Modes(s') ==> HeldIn(s', next) == HeldAfter(mode, HeldIn(s, mode), s.inq[0], next)
    ensures Sheltered(harm, s', rest)
    ensures harm.TakenStatement? && s.lost == {} ==> !Takes(mode, HeldIn(s, mode), s.inq[0])
  {
    var q := s.inq + Written(s.up);
    assert q[0] == s.inq[0] && q[1..] == s'.inq + Written(s'.up);
    if s.lost == {} {
      assert Clear(harm, q, Todo(s.up, rest), s.unsynced, mode, HeldIn(s, mode));
    }
  }

  lemma BeginModes(s: System, mode: Mode, next: Mode)
    requires s.inq != [] && !s.startup && s.current.None? && !s.copying && !(s.skipping && s.inq[0].Question?)
    requires mode == if s.skipping then Skipping else AtRest
    ensures var s' := SrvBegins(s);
      && (if Loses(mode, s.inq[0]) then s'.lost != {} else s'.lost == s.lost)
      && (!Loses(mode, s.inq[0]) ==> Modes(s') <= Steps(mode, s.inq[0]))
      && (!Loses(mode, s.inq[0]) && next in Modes(s') ==> HeldIn(s', next) == HeldAfter(mode, HeldIn(s, mode), s.inq[0], next))
  {
    if s.skipping && s.inq[0].Counted? && !s.inq[0].sync {
      assert s.inq[0].id in SrvBegins(s).lost;
    }
  }

  lemma BeginShelters(harm: Harm, s: System, rest: seq<ClientMsg>)
    requires Inv(s) && Sheltered(harm, s, rest) && Enabled(s, SrvBegin)
    ensures Sheltered(harm, SrvBegins(s), rest)
    ensures harm.TakenStatement? && s.lost == {} ==> !Disturbs(s, SrvBegin)
  {
    var mode := if s.skipping then Skipping else AtRest;
    if s.inq[0].Question? {
      QuestionAtRest(s);
    }
    BeginModes(s, mode, mode);
    var s' := SrvBegins(s);
    forall next | !Loses(mode, s.inq[0]) && next in Modes(s')
      ensures HeldIn(s', next) == HeldAfter(mode, HeldIn(s, mode), s.inq[0], next)
    {
      BeginModes(s, mode, next);
    }
    TakesUp(harm, s, s', mode, rest);
  }

  lemma AbsorbModes(s: System, mode: Mode, next: Mode)
    requires Enabled(s, SrvAbsorb) && !s.startup && !s.skipping && !s.inq[0].Question? && !Making(s)
    requires s.current.value.Counted? || s.current.value.Batch?
    requires mode == CopyOpen(Left(s.current.value), s.current.value.Batch?)
    ensures var s' := SrvAbsorbs(s);
      && s'.inq == s.inq[1..] && s'.up == s.up && s'.unsynced == s.unsynced && (s'.current.Some? ==> !s'.skipping)
      && (if Loses(mode, s.inq[0]) then s'.lost != {} else s'.lost == s.lost && Modes(s') <= Steps(mode, s.inq[0]))
      && !Making(s') && HeldIn(s', next) == s.unnamed
  {
    if s.inq[0].Counted? {
      assert s.inq[0].id in SrvAbsorbs(s).lost;
    }
  }

  lemma AbsorbShelters(harm: Harm, s: System, rest: seq<ClientMsg>)
    requires Inv(s) && Sheltered(harm, s, rest) && Enabled(s, SrvAbsorb) && (s.copying ==> !Making(s))
    ensures Sheltered(harm, SrvAbsorbs(s), rest)
  {
    var s' := SrvAbsorbs(s);
    if s.startup {
      TakesUp(harm, s, s', if s.skipping then Skipping else AtRest, rest);
    } else {
      if s.inq[0].Question? {
        QuestionAtRest(s);
      }
      CopyIsWork(s);
      var mode := CopyOpen(Left(s.current.value), s.current.value.Batch?);
      forall next ensures HeldIn(s', next) == s.unnamed {
        AbsorbModes(s, mode, next);
      }
      AbsorbModes(s, mode, mode);
      TakesUp(harm, s, s', mode, rest);
    }
  }

  /** The server goes on with what it has. */
  lemma GoesOn(harm: Harm, s: System, s': System, rest: seq<ClientMsg>)
    requires Sheltered(harm, s, rest) && s'.inq == s.inq && s'.up == s.up && s'.unsynced == s.unsynced && s'.lost == s.lost
    requires Modes(s') <= Modes(s) && (s'.current.Some? ==> !s'.skipping)
    requires forall mode :: mode in Modes(s') ==> HeldIn(s', mode) == HeldIn(s, mode)
    ensures Sheltered(harm, s', rest)
  {
  }

  // What else holds in every run.

  /** Only a Parse makes a statement. */
  predicate WellMade(r: Request)
  {
    r.Batch? && r.effect.Makes? ==> r.copies == 0
  }

  /** The requests are well made; while a Parse of the unnamed statement is at work there is none; and once the gateway's
      question is taken up there is none until its statement is sent. */
  ghost predicate Tidy(s: System)
  {
    && AskIdle(s)
    && (forall r :: r in s.inq ==> WellMade(r)) && (s.up.Writing? ==> WellMade(s.up.request))
    && (s.current.Some? ==> WellMade(s.current.value))
    && (Making(s) ==> !s.unnamed && !s.copying)
    && (s.up.WaitAnswer? ==> !s.unnamed || exists r :: r in s.inq && r.Question?)
    && (s.up.Got? ==> !s.unnamed)
  }

  /** While the gateway waits for an answer or has it, the server makes no statement. */
  lemma AskedMakesNothing(s: System)
    requires Inv(s) && Making(s)
    ensures !s.up.WaitAnswer? && !s.up.Got?
  {
    WorkingPipeline(s);
    assert Pipeline(s)[|OutItems(s.outq)|] == WorkItem(s);
    assert WorkItem(s) in Pipeline(s) && WorkItem(s).owner == ForBatch;
  }

  lemma ReadTidy(s: System, m: ClientMsg)
    requires Tidy(s) && s.up.Idle?
    ensures var s' := UpReads(s, m); !s'.up.WaitAnswer? && !s'.up.Got? && (s'.up.Writing? ==> WellMade(s'.up.request))
    ensures UpReads(s, m).inq == s.inq && UpReads(s, m).copying == s.copying
  {
    ReadIs(s, m);
  }

  lemma ActTidy(s: System)
    requires s.up.Got?
    ensures var s' := UpActs(s); !s'.up.WaitAnswer? && !s'.up.Got? && (s'.up.Writing? ==> WellMade(s'.up.request))
    ensures UpActs(s).inq == s.inq && SameServer(s, UpActs(s))
  {
    ActIs(s);
  }

  /** The answer is there only after the question has gone. */
  lemma NoQuestionLeft(s: System)
    requires Inv(s) && Enabled(s, UpTake)
    ensures forall r :: r in s.inq ==> !r.Question?
  {
    assert Pipeline(s) == [];
    assert InItems(s.inq) == [];
    AllSilent(s.inq);
  }

  lemma ClientTidy(s: System, a: Action)
    requires Inv(s) && Tidy(s) && Enabled(s, a) && AskIdle(Next(s, a))
    requires a.UpRead? || a.UpWrite? || a.UpAsk? || a.UpTake? || a.UpAct? || a.UpFail?
    ensures Tidy(Next(s, a))
  {
    if a.UpTake? {
      NoQuestionLeft(s);
    }
    ClientTidyAt(s, a, Next(s, a));
  }

  lemma ClientTidyAt(s: System, a: Action, s': System)
    requires Tidy(s) && Enabled(s, a) && s' == Next(s, a) && AskIdle(s')
    requires a.UpRead? || a.UpWrite? || a.UpAsk? || a.UpTake? || a.UpAct? || a.UpFail?
    requires a.UpTake? ==> forall r :: r in s.inq ==> !r.Question?
    ensures Tidy(s')
  {
    match a
    case UpRead(m) =>
      ReadTidy(s, m);
      ReadIs(s, m);
      StaysTidy(s, s');
    case UpAct =>
      ActTidy(s);
      StaysTidy(s, s');
    case UpWrite => WriteTidy(s, s');
    case UpTake =>
    case _ => StaysTidy(s, s');
  }

  /** Nothing is added to the queue. */
  lemma StaysTidy(s: System, s': System)
    requires Tidy(s) && AskIdle(s') && SameServer(s, s') && s'.inq == s.inq && !s'.up.WaitAnswer? && !s'.up.Got?
    requires s'.up.Writing? ==> WellMade(s'.up.request)
    ensures Tidy(s')
  {
  }

  lemma WriteTidy(s: System, s': System)
    requires Tidy(s) && Enabled(s, UpWrite) && s' == UpWrites(s) && AskIdle(s')
    ensures Tidy(s')
  {
    assert s'.up.WaitAnswer? ==> s'.inq[|s.inq|].Question? && s'.inq[|s.inq|] in s'.inq;
  }

  /** A question in the queue stays there while something else is taken off. */
  lemma QuestionStays(q: seq<Request>)
    requires q != [] && !q[0].Question? && exists r :: r in q && r.Question?
    ensures exists r :: r in q[1..] && r.Question?
  {
    var r :| r in q && r.Question?;
    assert q == [q[0]] + q[1..];
    assert r in q[1..];
  }

  lemma BeginTidy(s: System)
    requires Inv(s) && Tidy(s) && Enabled(s, SrvBegin) && AskIdle(SrvBegins(s))
    ensures Tidy(SrvBegins(s))
  {
    if s.inq[0].Question? {
      QuestionAtRest(s);
    }
    BeginTidyAt(s);
  }

  lemma BeginIs(s: System)
    requires s.inq != [] && !s.startup && s.current.None? && (s.inq[0].Question? ==> !s.skipping)
    ensures var s' := SrvBegins(s);
      && s'.inq == s.inq[1..] && s'.up == s.up && s'.copying == s.copying
      && (s'.unnamed ==> s.unnamed && !s.inq[0].Question? && !Making(s'))
      && (s'.current.Some? ==> s'.current.value == s.inq[0])
  {
  }

  lemma BeginTidyAt(s: System)
    requires Tidy(s) && s.inq != [] && !s.startup && s.current.None? && !s.copying && AskIdle(SrvBegins(s))
    requires s.inq[0].Question? ==> !s.skipping
    ensures Tidy(SrvBegins(s))
  {
    BeginIs(s);
    if !s.inq[0].Question? && exists r :: r in s.inq && r.Question? {
      QuestionStays(s.inq);
    }
  }

  lemma AbsorbIs(s: System)
    requires Enabled(s, SrvAbsorb) && CurrentOk(s) && (s.current.Some? ==> WellMade(s.current.value)) && (Making(s) ==> !s.copying)
    ensures var s' := SrvAbsorbs(s);
      && s'.inq == s.inq[1..] && s'.up == s.up && s'.unnamed == s.unnamed && !Making(s')
      && (s'.current.Some? ==> WellMade(s'.current.value))
  {
  }

  lemma AbsorbTidy(s: System)
    requires Inv(s) && Tidy(s) && Enabled(s, SrvAbsorb) && AskIdle(SrvAbsorbs(s))
    ensures Tidy(SrvAbsorbs(s))
  {
    if !s.startup && s.inq[0].Question? {
      QuestionAtRest(s);
    }
    AbsorbTidyAt(s);
  }

  lemma AbsorbTidyAt(s: System)
    requires CurrentOk(s) && Tidy(s) && Enabled(s, SrvAbsorb) && AskIdle(SrvAbsorbs(s)) && !s.inq[0].Question?
    ensures Tidy(SrvAbsorbs(s))
  {
    AbsorbIs(s);
    if exists r :: r in s.inq && r.Question? {
      QuestionStays(s.inq);
    }
  }

  lemma EndTidy(s: System, status: char, fails: bool)
    requires Inv(s) && Tidy(s) && Enabled(s, SrvEnd(status, fails)) && AskIdle(SrvEnds(s, status, fails))
    ensures Tidy(SrvEnds(s, status, fails))
  {
    EndMakes(s, status, fails);
    if Making(s) {
      AskedMakesNothing(s);
    }
  }

  lemma EndMakes(s: System, status: char, fails: bool)
    requires CurrentOk(s) && Enabled(s, SrvEnd(status, fails))
    ensures var s' := SrvEnds(s, status, fails);
      && s'.inq == s.inq && s'.up == s.up && !Making(s') && (s'.unnamed ==> s.unnamed || Making(s))
      && (s'.current.Some? ==> s'.current == s.current)
  {
  }

  lemma TidyStep(s: System, a: Action)
    requires Inv(s) && Tidy(s) && Enabled(s, a)
    ensures Tidy(Next(s, a))
  {
    AskIdleStep(s, a);
    match a
    case SrvBegin => BeginTidy(s);
    case SrvAbsorb => AbsorbTidy(s);
    case SrvEnd(status, fails) => EndTidy(s, status, fails);
    case SrvCopyIn => SettledTidy(s, a, Next(s, a));
    case SrvReply(_) => SettledTidy(s, a, Next(s, a));
    case SrvAsync(_) => SettledTidy(s, a, Next(s, a));
    case DownRead => SettledTidy(s, a, Next(s, a));
    case DownWrite => SettledTidy(s, a, Next(s, a));
    case Close => SettledTidy(s, a, Next(s, a));
    case _ => ClientTidy(s, a);
  }

  /** Steps that touch no request. */
  lemma SettledTidy(s: System, a: Action, s': System)
    requires Tidy(s) && Enabled(s, a) && s' == Next(s, a) && AskIdle(s')
    requires a.SrvCopyIn? || a.SrvReply? || a.SrvAsync? || a.DownRead? || a.DownWrite? || a.Close?
    ensures Tidy(s')
  {
  }

  // Every run.

  lemma WriteShelters(harm: Harm, s: System, rest: seq<ClientMsg>)
    requires Sheltered(harm, s, rest) && Enabled(s, UpWrite) && (s.up.WritingQuestion? ==> !s.unsynced)
    ensures Sheltered(harm, UpWrites(s), rest)
  {
    if s.up.WritingQuestion? {
      QuestionShelters(harm, s, rest);
    } else {
      assert s.inq + [s.up.request] + [] == s.inq + [s.up.request];
      MovesOn(harm, s, UpWrites(s), rest, rest);
    }
  }

  lemma AskShelters(harm: Harm, s: System, a: Action, rest: seq<ClientMsg>)
    requires Sheltered(harm, s, rest) && Enabled(s, a) && (a.UpAsk? || a.UpTake? || a.UpFail?)
    ensures Sheltered(harm, Next(s, a), rest)
  {
    var s' := Next(s, a);
    assert SameServer(s, s') && Written(s'.up) == Written(s.up);
    assert s'.up.Done? || Todo(s'.up, rest) == Todo(s.up, rest);
    MovesOn(harm, s, s', rest, rest);
  }

  lemma GotShelters(harm: Harm, s: System, rest: seq<ClientMsg>)
    requires Inv(s) && Tidy(s) && Sheltered(harm, s, rest) && s.up.Got?
    ensures Sheltered(harm, UpActs(s), rest)
  {
    if s.lost == {} {
      GotAtRest(s);
      if Making(s) {
        AskedMakesNothing(s);
      }
      ActShelters(harm, s, rest);
    } else {
      ActTidy(s);
    }
  }

  lemma EndShelters(harm: Harm, s: System, status: char, fails: bool, rest: seq<ClientMsg>)
    requires CurrentOk(s) && Sheltered(harm, s, rest) && Enabled(s, SrvEnd(status, fails)) && (Making(s) ==> !s.unnamed)
    ensures Sheltered(harm, SrvEnds(s, status, fails), rest)
  {
    var s' := SrvEnds(s, status, fails);
    if s.startup {
      GoesOn(harm, s, s', rest);
    } else {
      assert s'.skipping == (fails && s.current.value.Batch?) && s'.current == None;
      GoesOn(harm, s, s', rest);
    }
  }

  lemma ServerShelters(harm: Harm, s: System, a: Action, rest: seq<ClientMsg>)
    requires Sheltered(harm, s, rest) && Enabled(s, a)
    requires a.DownRead? || a.DownWrite? || a.SrvReply? || a.SrvAsync? || a.SrvCopyIn? || a.Close?
    ensures Sheltered(harm, Next(s, a), rest)
  {
    var s' := Next(s, a);
    assert s'.skipping == s.skipping && s'.current == s.current && s'.startup == s.startup && s'.unnamed == s.unnamed;
    assert a.SrvCopyIn? || s'.copying == s.copying;
    GoesOn(harm, s, s', rest);
  }

  lemma StepShelters(harm: Harm, s: System, a: Action, rest: seq<ClientMsg>)
    requires Inv(s) && Tidy(s) && Sheltered(harm, s, rest) && Enabled(s, a)
    requires a.UpRead? ==> rest != [] && rest[0] == a.m
    ensures Sheltered(harm, Next(s, a), if a.UpRead? then rest[1..] else rest)
  {
    match a
    case UpRead(m) => assert rest == [m] + rest[1..]; ReadShelters(harm, s, m, rest[1..]);
    case UpAct => GotShelters(harm, s, rest);
    case SrvBegin => BeginShelters(harm, s, rest);
    case SrvAbsorb => AbsorbShelters(harm, s, rest);
    case UpWrite => WriteShelters(harm, s, rest);
    case UpAsk => AskShelters(harm, s, a, rest);
    case UpTake => AskShelters(harm, s, a, rest);
    case UpFail => AskShelters(harm, s, a, rest);
    case SrvEnd(status, fails) => EndShelters(harm, s, status, fails, rest);
    case _ => ServerShelters(harm, s, a, rest);
  }

  /** A question comes only from a gateway that has lost nothing. */
  lemma DisturbsUnlost(s: System, a: Action)
    requires Inv(s) && Tidy(s) && Disturbs(s, a)
    ensures s.lost == {}
  {
    QuestionHasItem(s.inq, s.inq[0]);
    assert Item(ForQuestion, true, true) in Pipeline(s);
  }

  lemma {:induction false} RunShelters(harm: Harm, s: System, actions: seq<Action>, rest: seq<ClientMsg>)
    requires Inv(s) && Tidy(s) && Sheltered(harm, s, rest) && Runs(s, actions) && Reads(actions) <= rest
    ensures harm.LostRequest? ==> After(s, actions).lost == {}
    ensures harm.TakenStatement? ==> !Disturbed(s, actions)
    decreases |actions|
  {
    if actions != [] {
      var a, s' := actions[0], Next(s, actions[0]);
      assert a.UpRead? ==> Reads(actions)[0] == a.m && Reads(actions)[1..] == Reads(actions[1..]);
      assert !a.UpRead? ==> Reads(actions) == Reads(actions[1..]);
      if harm.TakenStatement? && Disturbs(s, a) {
        DisturbsUnlost(s, a);
        BeginShelters(harm, s, rest);
      }
      StepKeeps(s, a);
      TidyStep(s, a);
      StepShelters(harm, s, a, rest);
      RunShelters(harm, s', actions[1..], if a.UpRead? then rest[1..] else rest);
    }
  }

  lemma InitSheltered(harm: Harm, script: seq<ClientMsg>)
    requires Safe(harm, script, false, AtRest, false)
    ensures Inv(Init()) && Tidy(Init()) && Sheltered(harm, Init(), script)
  {
    InitInv();
    assert Modes(Init()) == {AtRest} && !HeldIn(Init(), AtRest);
    assert Init().inq + Written(Init().up) == [];
  }

  lemma PoliteLosesNothing(script: seq<ClientMsg>)
    requires Polite(script)
    ensures LosesNothing(script)
  {
    InitSheltered(LostRequest, script);
    forall actions | Runs(Init(), actions) && Reads(actions) <= script ensures After(Init(), actions).lost == {} {
      RunShelters(LostRequest, Init(), actions, script);
    }
  }

  lemma UnrobbedKeepsStatements(script: seq<ClientMsg>)
    requires Unrobbed(script)
    ensures LeavesStatements(script)
  {
    InitSheltered(TakenStatement, script);
    forall actions | Runs(Init(), actions) && Reads(actions) <= script ensures !Disturbed(Init(), actions) {
      RunShelters(TakenStatement, Init(), actions, script);
    }
  }
}
