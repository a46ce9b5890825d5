/** Every message of the server reaches the client or the gateway's question, whichever it belongs to, once and in order. */
module GatewayTraffic {
  import opened Options
  import opened Sequences
  import opened GatewayProtocol
  import opened GatewaySafety
  import opened GatewayTexts

  /** The messages of the gateway's own conversation, or all others. */
  function Of(q: seq<ServerMsg>, own: bool): seq<ServerMsg>
  {
    if q == [] then [] else (if IsAnswer(q[0]) == own then [q[0]] else []) + Of(q[1..], own)
  }

  lemma {:induction false} OfJoin(a: seq<ServerMsg>, b: seq<ServerMsg>, own: bool)
    ensures Of(a + b, own) == Of(a, own) + Of(b, own)
  {
    if a == [] {
      assert a + b == b;
    } else {
      assert (a + b)[0] == a[0] && (a + b)[1..] == a[1..] + b;
      OfJoin(a[1..], b, own);
      var first := if IsAnswer(a[0]) == own then [a[0]] else [];
      assert first + (Of(a[1..], own) + Of(b, own)) == (first + Of(a[1..], own)) + Of(b, own);
    }
  }

  function Joined(answers: seq<seq<ServerMsg>>): seq<ServerMsg>
  {
    if answers == [] then [] else answers[0] + Joined(answers[1..])
  }

  function Held(s: System): seq<ServerMsg>
  {
    if s.held.Some? then [s.held.value] else []
  }

  function Kept(s: System): seq<ServerMsg>
  {
    (if s.locked.answer.Some? then s.locked.answer.value else []) + s.locked.captured
  }

  /** What the server has said and nobody has got yet. */
  function Underway(s: System, own: bool): seq<ServerMsg>
  {
    (if own then Kept(s) else Held(s)) + Of(s.outq, own)
  }

  /** What a step of the server puts on the wire. */
  function SaidBy(s: System, a: Action): seq<ServerMsg>
    requires Enabled(s, a)
  {
    if a.DownRead? then [] else Added(s.outq, Next(s, a).outq)
  }

  /** What a step hands over: to the client, or as an answer to the client thread. */
  function Handed(s: System, a: Action, own: bool): seq<ServerMsg>
    requires Enabled(s, a)
  {
    if own && a.UpTake? then s.locked.answer.value
    else if !own && a.DownWrite? then Added(s.delivered, Next(s, a).delivered)
    else []
  }

  /** What the server says in a run. */
  ghost function Spoken(s: System, actions: seq<Action>): seq<ServerMsg>
    requires Runs(s, actions)
    decreases |actions|
  {
    if actions == [] then [] else SaidBy(s, actions[0]) + Spoken(Next(s, actions[0]), actions[1..])
  }

  ghost function HandedOver(s: System, actions: seq<Action>, own: bool): seq<ServerMsg>
    requires Runs(s, actions)
    decreases |actions|
  {
    if actions == [] then [] else Handed(s, actions[0], own) + HandedOver(Next(s, actions[0]), actions[1..], own)
  }

  /** An answer is there only for one who waits for it. */
  predicate AnswerWaits(s: System)
  {
    s.locked.answer.Some? ==> s.up.WritingQuestion? || s.up.WaitAnswer? || s.up.Done?
  }

  /** Whoever has a message when `s` becomes `t` is the one it belongs to, and a question waits for its answer. */
  ghost predicate Belongs(s: System, t: System)
  {
    && (forall m :: m in t.locked.captured ==> IsAnswer(m))
    && (t.locked.answer.Some? ==> forall m :: m in t.locked.answer.value ==> IsAnswer(m))
    && (t.held.Some? ==> !IsAnswer(t.held.value))
    && (s.locked.asking ==> s.locked.answer.None? && (s.up.WritingQuestion? || s.up.WaitAnswer? || s.up.Done?))
  }

  lemma InvBelongs(s: System, t: System)
    requires Inv(s) && Inv(t)
    ensures Belongs(s, t)
  {
  }

  lemma ReadHands(s: System, own: bool, t: System)
    requires Enabled(s, DownRead) && t == Next(s, DownRead) && Belongs(s, t)
    ensures Underway(s, own) == Underway(t, own)
    ensures AnswerWaits(s) ==> AnswerWaits(t)
  {
    var m, rest := s.outq[0], s.outq[1..];
    assert Of(s.outq, own) == (if IsAnswer(m) == own then [m] else []) + Of(rest, own);
    if s.locked.asking && !m.Async? {
      Captures(s, t, m);
      if own {
        Assoc(s.locked.captured, [m], Of(rest, own));
      }
    } else {
      Forwards(s, t, m);
      assert !own ==> Held(s) + ([m] + Of(rest, own)) == Held(t) + Of(rest, own);
    }
  }

  /** A message kept for the question. */
  lemma Captures(s: System, t: System, m: ServerMsg)
    requires Enabled(s, DownRead) && t == Next(s, DownRead) && Belongs(s, t) && m == s.outq[0]
    requires s.locked.asking && !m.Async?
    ensures IsAnswer(m) && Kept(s) == s.locked.captured && Kept(t) == s.locked.captured + [m]
    ensures t.outq == s.outq[1..] && Held(t) == Held(s) == [] && AnswerWaits(t)
  {
    var all := s.locked.captured + [m];
    assert all[|all| - 1] == m;
  }

  /** A message for the client. */
  lemma Forwards(s: System, t: System, m: ServerMsg)
    requires Enabled(s, DownRead) && t == Next(s, DownRead) && Belongs(s, t) && m == s.outq[0]
    requires !s.locked.asking || m.Async?
    ensures !IsAnswer(m) && Kept(t) == Kept(s) && t.outq == s.outq[1..] && Held(s) == [] && Held(t) == [m]
    ensures AnswerWaits(s) ==> AnswerWaits(t)
  {
  }

  lemma SayKeeps(s: System, a: Action, own: bool, t: System)
    requires Enabled(s, a) && t == Next(s, a) && !OfClientThread(a) && !a.DownRead? && !a.DownWrite?
    ensures Underway(s, own) + Of(SaidBy(s, a), own) == Underway(t, own)
    ensures t.locked.answer == s.locked.answer && t.up == s.up
  {
    SayExtends(s, a, t);
    QueueGrows(s, t, own, Added(s.outq, t.outq));
  }

  lemma QueueGrows(s: System, t: System, own: bool, new_: seq<ServerMsg>)
    requires t.outq == s.outq + new_ && t.held == s.held
    requires t.locked.answer == s.locked.answer && t.locked.captured == s.locked.captured
    ensures Underway(s, own) + Of(new_, own) == Underway(t, own)
  {
    OfJoin(s.outq, new_, own);
    Assoc(if own then Kept(s) else Held(s), Of(s.outq, own), Of(new_, own));
  }

  lemma SayExtends(s: System, a: Action, t: System)
    requires Enabled(s, a) && t == Next(s, a) && !OfClientThread(a) && !a.DownRead? && !a.DownWrite?
    ensures t.outq == s.outq + Added(s.outq, t.outq)
    ensures t.held == s.held && t.locked.answer == s.locked.answer && t.locked.captured == s.locked.captured && t.up == s.up
  {
    match a
    case SrvEnd(status, fails) => EndExtends(s, status, fails, t);
    case SrvAbsorb => AbsorbExtends(s, t);
    case SrvBegin => assert t.outq == s.outq + [];
    case _ =>
  }

  lemma EndExtends(s: System, status: char, fails: bool, t: System)
    requires Enabled(s, SrvEnd(status, fails)) && t == SrvEnds(s, status, fails)
    ensures t.outq == s.outq + Added(s.outq, t.outq) && t.held == s.held && t.locked == s.locked && t.up == s.up
  {
    assert s.outq + [] == s.outq;
  }

  lemma AbsorbExtends(s: System, t: System)
    requires Enabled(s, SrvAbsorb) && t == SrvAbsorbs(s)
    ensures t.outq == s.outq + Added(s.outq, t.outq) && t.held == s.held && t.locked == s.locked && t.up == s.up
  {
    assert s.outq + [] == s.outq;
  }

  lemma ClientKeeps(s: System, a: Action, own: bool, t: System)
    requires Enabled(s, a) && t == Next(s, a) && OfClientThread(a) && AnswerWaits(s)
    ensures Underway(s, own) == Handed(s, a, own) + Underway(t, own)
    ensures SaidBy(s, a) == [] && AnswerWaits(t)
  {
    ClientLeaves(s, a, t);
    if a.UpTake? && own {
      Assoc(s.locked.answer.value, s.locked.captured, Of(s.outq, own));
      assert Kept(t) == s.locked.captured;
    } else {
      assert Kept(t) == Kept(s) || !own;
      assert [] + Underway(t, own) == Underway(t, own);
    }
  }

  lemma ClientLeaves(s: System, a: Action, t: System)
    requires Enabled(s, a) && t == Next(s, a) && OfClientThread(a) && AnswerWaits(s)
    ensures t.outq == s.outq && t.held == s.held && t.locked.captured == s.locked.captured
    ensures t.locked.answer == if a.UpTake? then None else s.locked.answer
    ensures AnswerWaits(t)
  {
    match a
    case UpRead(m) => ReadLeaves(s, m);
    case UpAct => ActLeaves(s);
    case _ =>
  }

  ghost predicate SameDown(s: System, t: System)
  {
    && t.outq == s.outq && t.held == s.held
    && t.locked.captured == s.locked.captured && t.locked.answer == s.locked.answer
  }

  lemma ReadLeaves(s: System, m: ClientMsg)
    ensures SameDown(s, UpReads(s, m)) && (s.up.Idle? && s.locked.answer.None? ==> AnswerWaits(UpReads(s, m)))
  {
    match m
    case Query(_, fabric, _) => if fabric {} else {}
    case Parse(_, fabric, _) => if fabric {} else {}
    case _ =>
  }

  lemma ActLeaves(s: System)
    requires s.up.Got?
    ensures SameDown(s, UpActs(s)) && (s.locked.answer.None? ==> AnswerWaits(UpActs(s)))
  {
    match s.up
    case Got(Sql(_), _, via) => if via.ViaParse? {} else {}
    case Got(Refused(_, _), _, via) => if via.ViaParse? {} else {}
    case Got(Broken, _, _) =>
  }

  lemma WriteHands(s: System, own: bool, t: System)
    requires Enabled(s, DownWrite) && t == Next(s, DownWrite)
    ensures Underway(s, own) == Handed(s, DownWrite, own) + Underway(t, own)
    ensures SaidBy(s, DownWrite) == [] && t.locked == s.locked && t.up == s.up
  {
    assert Added(s.delivered, t.delivered) == [s.held.value];
    assert [] + Underway(t, own) == Underway(t, own) && [] + Of(s.outq, own) == Of(s.outq, own);
  }

  lemma StepHands(s: System, a: Action, own: bool, t: System)
    requires Belongs(s, t) && AnswerWaits(s) && Enabled(s, a) && t == Next(s, a)
    ensures Underway(s, own) + Of(SaidBy(s, a), own) == Handed(s, a, own) + Underway(t, own) && AnswerWaits(t)
  {
    assert Underway(s, own) + [] == Underway(s, own) && [] + Underway(t, own) == Underway(t, own);
    if a.DownRead? {
      ReadHands(s, own, t);
    } else if a.DownWrite? {
      WriteHands(s, own, t);
    } else if OfClientThread(a) {
      ClientKeeps(s, a, own, t);
    } else {
      SayKeeps(s, a, own, t);
    }
  }

  lemma Regroup(u: seq<ServerMsg>, a: seq<ServerMsg>, b: seq<ServerMsg>, h: seq<ServerMsg>, v: seq<ServerMsg>,
                g: seq<ServerMsg>, w: seq<ServerMsg>)
    requires u + a == h + v && v + b == g + w
    ensures u + (a + b) == (h + g) + w
  {
    assert u + (a + b) == (u + a) + b;
    assert (h + v) + b == h + (v + b);
    assert h + (g + w) == (h + g) + w;
  }

  lemma {:induction false} RunHands(s: System, actions: seq<Action>, own: bool)
    requires Inv(s) && AnswerWaits(s) && Runs(s, actions)
    ensures Underway(s, own) + Of(Spoken(s, actions), own) == HandedOver(s, actions, own) + Underway(After(s, actions), own)
    decreases |actions|
  {
    if actions == [] {
      assert Underway(s, own) + [] == [] + Underway(s, own);
    } else {
      var a, rest := actions[0], actions[1..];
      var t := Next(s, a);
      StepKeeps(s, a);
      InvBelongs(s, t);
      StepHands(s, a, own, t);
      RunHands(t, rest, own);
      OfJoin(SaidBy(s, a), Spoken(t, rest), own);
      Regroup(Underway(s, own), Of(SaidBy(s, a), own), Of(Spoken(t, rest), own), Handed(s, a, own), Underway(t, own),
              HandedOver(t, rest, own), Underway(After(t, rest), own));
    }
  }

  lemma {:induction false} AnswersHanded(s: System, actions: seq<Action>)
    requires Runs(s, actions)
    ensures HandedOver(s, actions, true) == Joined(Answers(s, actions))
    decreases |actions|
  {
    if actions != [] {
      var a, rest := actions[0], actions[1..];
      AnswersHanded(Next(s, a), rest);
      var first := if a.UpTake? then [s.locked.answer.value] else [];
      assert Answers(s, actions) == first + Answers(Next(s, a), rest);
      if a.UpTake? {
        assert (first + Answers(Next(s, a), rest))[1..] == Answers(Next(s, a), rest);
      } else {
        assert [] + Answers(Next(s, a), rest) == Answers(Next(s, a), rest);
        assert [] + HandedOver(Next(s, a), rest, true) == HandedOver(Next(s, a), rest, true);
      }
    }
  }

  /** Of what the server says in a run, the client gets all that is its own, unchanged and in order, up to what is still
      under way; and the answers the gateway reads are, put together, all that belongs to its questions. */
  lemma TrafficArrives(actions: seq<Action>)
    requires Runs(Init(), actions)
    ensures var s, said := After(Init(), actions), Spoken(Init(), actions);
      && Of(said, false) == HandedOver(Init(), actions, false) + Held(s) + Of(s.outq, false)
      && Of(said, true) == Joined(Answers(Init(), actions)) + Kept(s) + Of(s.outq, true)
  {
    InitInv();
    var s, said := After(Init(), actions), Spoken(Init(), actions);
    RunHands(Init(), actions, false);
    RunHands(Init(), actions, true);
    AnswersHanded(Init(), actions);
    assert Underway(Init(), false) == [] && Underway(Init(), true) == [];
    assert [] + Of(said, false) == Of(said, false) && [] + Of(said, true) == Of(said, true);
  }
}
