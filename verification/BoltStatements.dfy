/** What each Bolt message sends to the database, and that its answer is the database's. */
module BoltStatements {
  import opened Options
  import opened BoltSession

  // ---------------------------------------------------------------- what a message calls for

  /** The graph a message is about: the one it names, else the one the transaction is on, else the default. */
  function GraphOf<R>(s: Session<R>, db: Option<string>): string
  {
    if db.Some? && db.value !in {"", "neo4j", "system"} then db.value
    else if s.inTx then s.graph
    else s.home
  }

  function Sets(settings: seq<Setting>): seq<Stmt>
  {
    seq(|settings|, i requires 0 <= i < |settings| => Set(settings[i]))
  }

  /** A query that brings settings of its own, outside a transaction. */
  predicate Wraps<R>(s: Session<R>, m: Message<R>)
  {
    m.Run? && !m.planOnly && !s.inTx && m.settings != []
  }

  /** A message whose answer hangs on the database. */
  predicate Asks<R>(m: Message<R>)
  {
    m.BeginTx? || m.CommitTx? || m.RollbackTx? || (m.Run? && m.query && m.verdict.Some?)
  }

  /** The statements of a query once it is checked. */
  function Queried<R>(s: Session<R>, m: Message<R>): seq<Stmt>
    requires m.Run?
  {
    var query := [Query(GraphOf(s, m.db))];
    if Wraps(s, m) then [Begin] + Sets(m.settings) + query + [Commit] else query
  }

  /** The statements such a message calls for, if none of them fails. */
  function Due<R>(s: Session<R>, m: Message<R>): seq<Stmt>
    requires Asks(m)
  {
    match m
    case Run(_, planOnly, _, _, _, _) =>
      if planOnly then [Check] else [Check, Columns] + Queried(s, m)
    case BeginTx(_, settings) => [Begin] + Sets(settings)
    case CommitTx => [Commit]
    case RollbackTx => [Rollback]
  }

  predicate Alive<R>(s: Session<R>)
  {
    s.pg.Conn? && !s.pg.lost
  }

  /** The answer to the statement `i` from here; what is not said is Done. */
  function AnswerTo(answers: seq<Answer>, i: nat): Answer
  {
    if i < |answers| then answers[i] else Done
  }

  ghost predicate AllDone(answers: seq<Answer>, n: nat)
  {
    forall i :: 0 <= i < n ==> AnswerTo(answers, i) == Done
  }

  /** The statement `f` is the first of `n` that fails. */
  ghost predicate FailsAt(answers: seq<Answer>, n: nat, f: nat)
  {
    f < n && AllDone(answers, f) && AnswerTo(answers, f) != Done
  }

  /** What came of `due`: with every answer Done, success and all of it sent; otherwise failure, and the statements up to
      the one that failed.  A failure behind the statement `own` and before the last is followed by a ROLLBACK. */
  ghost predicate Outcome<R>(s: Session<R>, due: seq<Stmt>, own: int, t: Session<R>, ok: bool)
  {
    && (ok <==> AllDone(s.answers, |due|))
    && (ok ==> Alive(t) && t.log == s.log + due)
    && (forall f: nat :: FailsAt(s.answers, |due|, f) ==> t.log == s.log + due[..f + 1] + Undone(own, f, |due|))
  }

  function Undone(own: int, f: nat, n: nat): seq<Stmt>
  {
    if own < f < n - 1 then [Rollback] else []
  }

  // ---------------------------------------------------------------- statement by statement

  lemma FirstAnswer(answers: seq<Answer>, rest: seq<Answer>, n: nat)
    requires rest == (if answers == [] then [] else answers[1..])
    ensures AllDone(answers, n + 1) <==> Answered(answers) == Done && AllDone(rest, n)
    ensures Answered(answers) == AnswerTo(answers, 0)
  {
    assert forall i: nat :: AnswerTo(rest, i) == AnswerTo(answers, i + 1);
    if Answered(answers) == Done && AllDone(rest, n) {
      forall i | 0 <= i < n + 1 ensures AnswerTo(answers, i) == Done {
        assert i > 0 ==> AnswerTo(rest, i - 1) == Done;
      }
    }
    if AllDone(answers, n + 1) {
      assert AnswerTo(answers, 0) == Done;
      forall i | 0 <= i < n ensures AnswerTo(rest, i) == Done {
        assert AnswerTo(answers, i + 1) == Done;
      }
    }
  }

  /** A statement that is answered Done, before those in `due`. */
  lemma SaidBefore<R>(s: Session<R>, stmt: Stmt, u: Session<R>, due: seq<Stmt>, own: int, t: Session<R>, ok: bool)
    requires Alive(s) && Answered(s.answers) == Done && u.answers == Say(s, stmt).0.answers && u.log == s.log + [stmt]
    requires Outcome(u, due, own, t, ok)
    ensures Outcome(s, [stmt] + due, own + 1, t, ok)
    ensures own == -1 ==> Outcome(s, [stmt] + due, -1, t, ok)
  {
    var all := [stmt] + due;
    FirstAnswer(s.answers, u.answers, |due|);
    assert s.log + all == u.log + due;
    forall f: nat | FailsAt(s.answers, |all|, f)
      ensures f > 0 && t.log == s.log + all[..f + 1] + Undone(own, f - 1, |due|)
    {
      FirstAnswer(s.answers, u.answers, f - 1);
      assert AnswerTo(u.answers, f - 1) == AnswerTo(s.answers, f);
      assert FailsAt(u.answers, |due|, f - 1);
      assert s.log + all[..f + 1] == u.log + due[..f];
    }
  }

  /** A statement that is not answered Done: what comes after it is not sent. */
  lemma SaidInVain<R>(s: Session<R>, stmt: Stmt, due: seq<Stmt>, own: int, t: Session<R>)
    requires Alive(s) && Answered(s.answers) != Done
    requires t.log == s.log + [stmt] + Undone(own, 0, 1 + |due|)
    ensures Outcome(s, [stmt] + due, own, t, false)
  {
    var all := [stmt] + due;
    assert AnswerTo(s.answers, 0) != Done;
    assert all[..1] == [stmt];
    forall f: nat | FailsAt(s.answers, |all|, f) ensures f == 0 {
    }
  }

  lemma NothingSaid<R>(s: Session<R>)
    requires Alive(s)
    ensures Outcome(s, [], 0, s, true)
  {
    assert s.log + [] == s.log;
  }

  /** One statement more, which ends it. */
  lemma SaidLast<R>(s: Session<R>, stmt: Stmt, own: int, t: Session<R>, ok: bool)
    requires Alive(s) && (t, ok) == Say(s, stmt) && own >= -1
    ensures Outcome(s, [stmt], own, t, ok)
  {
    if ok {
      NothingSaid(t);
      assert [stmt] + [] == [stmt];
      SaidBefore(s, stmt, t, [], 0, t, true);
    } else {
      assert [stmt] + [] == [stmt];
      SaidInVain(s, stmt, [], own, t);
    }
    forall f: nat | FailsAt(s.answers, 1, f) ensures f == 0 {
    }
  }

  lemma {:induction false} ApplySends<R>(s: Session<R>, settings: seq<Setting>, t: Session<R>, ok: bool)
    requires Alive(s) && (t, ok) == Apply(s, settings)
    ensures Outcome(s, Sets(settings), |settings|, t, ok)
    decreases |settings|
  {
    if settings == [] {
      NothingSaid(s);
      assert Sets(settings) == [];
    } else {
      assert Sets(settings) == [Set(settings[0])] + Sets(settings[1..]);
      var (u, set_) := Say(s, Set(settings[0]));
      if set_ {
        ApplySends(u, settings[1..], t, ok);
        SaidBefore(s, Set(settings[0]), u, Sets(settings[1..]), |settings| - 1, t, ok);
      } else {
        SaidInVain(s, Set(settings[0]), Sets(settings[1..]), |settings|, t);
      }
    }
  }

  lemma {:induction false} InsideSends<R>(s: Session<R>, settings: seq<Setting>, t: Session<R>, ok: bool)
    requires Alive(s) && (t, ok) == Inside(s, settings)
    ensures Outcome(s, Sets(settings) + [Query(s.graph)] + [Commit], -1, t, ok)
    decreases |settings|
  {
    var query := Query(s.graph);
    var stmt := if settings == [] then query else Set(settings[0]);
    var due := if settings == [] then [Commit] else Sets(settings[1..]) + [query] + [Commit];
    assert Sets(settings) + [query] + [Commit] == [stmt] + due by {
      assert settings != [] ==> Sets(settings) == [Set(settings[0])] + Sets(settings[1..]);
    }
    var (u, said) := Say(s, stmt);
    if !said {
      SaidInVain(s, stmt, due, -1, t);
    } else {
      if settings == [] {
        SaidLast(u, Commit, -1, t, ok);
      } else {
        InsideSends(u, settings[1..], t, ok);
      }
      SaidBefore(s, stmt, u, due, -1, t, ok);
    }
  }

  lemma ExecuteSends<R>(s: Session<R>, m: Message<R>, due: seq<Stmt>, t: Session<R>, ok: bool)
    requires m.Run? && !m.planOnly && Alive(s) && s.graph == GraphOf(s, m.db) && (t, ok) == Execute(s, m.settings)
    requires due == Queried(s, m)
    ensures Outcome(s, due, 0, t, ok)
  {
    if Wraps(s, m) {
      var rest := Sets(m.settings) + [Query(s.graph)] + [Commit];
      assert due == [Begin] + rest;
      var (u, begun) := Say(s, Begin);
      if begun {
        InsideSends(u, m.settings, t, ok);
        SaidBefore(s, Begin, u, rest, -1, t, ok);
      } else {
        SaidInVain(s, Begin, rest, 0, t);
      }
    } else {
      SaidLast(s, Query(s.graph), 0, t, ok);
    }
  }

  lemma CheckedSends<R>(s: Session<R>, m: Message<R>, due: seq<Stmt>, t: Session<R>, ok: bool)
    requires m.Run? && !m.planOnly && Alive(s) && s.graph == GraphOf(s, m.db) && (t, ok) == RunChecked(s, m)
    requires due == Queried(s, m)
    ensures Outcome(s, [Columns] + due, 1, t, ok)
  {
    var (u, asked) := Say(s, Columns);
    if asked {
      var (v, ran) := Execute(u, m.settings);
      ExecuteSends(u, m, due, v, ran);
      SaidBefore(s, Columns, u, due, 0, v, ran);
      SaidThen(s, [Columns] + due, 1, v, t, ran);
    } else {
      SaidInVain(s, Columns, due, 1, t);
    }
  }

  /** What comes after the last statement says nothing. */
  lemma SaidThen<R>(s: Session<R>, due: seq<Stmt>, own: int, t: Session<R>, u: Session<R>, ok: bool)
    requires Outcome(s, due, own, t, ok) && u.pg == t.pg && u.log == t.log
    ensures Outcome(s, due, own, u, ok)
  {
  }

  lemma RunSends<R>(s: Session<R>, m: Message<R>, t: Session<R>, ok: bool)
    requires m.Run? && Asks(m) && Alive(s) && (t, ok) == RunQuery(s, m)
    ensures Outcome(s, Due(s, m), 2, t, ok)
  {
    var (s1, checked) := Say(SelectGraph(s, m.db), Check);
    var s2 := s1.(writes := m.verdict.value);
    if m.planOnly {
      SaidLast(s, Check, 2, Say(s, Check).0, checked);
      SaidThen(s, [Check], 2, Say(s, Check).0, t, checked);
    } else {
      RunQueries(s, m, s2, checked, Queried(s, m), t, ok);
    }
  }

  lemma RunQueries<R>(s: Session<R>, m: Message<R>, u: Session<R>, checked: bool, due: seq<Stmt>, t: Session<R>, ok: bool)
    requires m.Run? && Asks(m) && !m.planOnly && Alive(s) && (t, ok) == RunQuery(s, m)
    requires (u, checked) == (var (v, c) := Say(SelectGraph(s, m.db), Check); (v.(writes := m.verdict.value), c))
    requires due == Queried(s, m)
    ensures Outcome(s, Due(s, m), 2, t, ok)
  {
    assert Due(s, m) == [Check] + ([Columns] + due);
    if checked {
      CheckedSends(u, m, due, t, ok);
      SaidBefore(s, Check, u, [Columns] + due, 1, t, ok);
    } else {
      SaidInVain(s, Check, [Columns] + due, 2, t);
    }
  }

  lemma RunMoves<R>(s: Session<R>, m: Message<R>, t: Session<R>, ok: bool)
    requires m.Run? && Asks(m) && (t, ok) == RunQuery(s, m)
    ensures ok ==> t.state == Streaming && t.pending == (if m.planOnly then [] else m.rows) && t.cursor == 0
    ensures ok ==> t.writes == m.verdict.value
    ensures t.graph == GraphOf(s, m.db) && t.inTx == s.inTx
  {
    var (s1, checked) := Say(SelectGraph(s, m.db), Check);
    if checked {
      CheckedFrame(s1.(writes := m.verdict.value), m, t, ok);
    }
  }

  lemma BeginSends<R>(s: Session<R>, m: Message<R>, t: Session<R>, ok: bool)
    requires m.BeginTx? && Alive(s) && (t, ok) == BeginTransaction(s, m.db, m.settings)
    ensures Outcome(s, Due(s, m), |m.settings| + 1, t, ok)
    ensures t.graph == GraphOf(s, m.db) && (t.inTx <==> s.inTx || AnswerTo(s.answers, 0) == Done)
  {
    var (s1, begun) := Say(SelectGraph(s, m.db), Begin);
    if begun {
      var u := s1.(inTx := true);
      ApplySends(u, m.settings, t, ok);
      ApplyFrame(u, m.settings);
      SaidBefore(s, Begin, u, Sets(m.settings), |m.settings|, t, ok);
    } else {
      SaidInVain(s, Begin, Sets(m.settings), |m.settings| + 1, t);
    }
  }

  /** On a living connection a RUN, BEGIN, COMMIT or ROLLBACK succeeds exactly if the database answers Done to every
      statement it calls for.  All of them are sent then; otherwise those up to the one that failed, and a ROLLBACK if
      that was a setting or the query of a transaction the RUN opened for itself. */
  lemma AnswerIsTheDatabases<R>(s: Session<R>, m: Message<R>)
    requires CursorOk(s) && s.state != Failed && Alive(s) && Asks(m)
    ensures var (t, out), due := Step(s, m), Due(s, m);
      && out == [if AllDone(s.answers, |due|) then Success(false) else Failure]
      && (AllDone(s.answers, |due|) ==> t.log == s.log + due && Alive(t))
      && forall f: nat :: FailsAt(s.answers, |due|, f) ==>
           t.log == s.log + due[..f + 1] + (if Wraps(s, m) && 2 < f < |due| - 1 then [Rollback] else [])
  {
    match m
    case Run(_, _, _, _, _, _) =>
      var (t, ok) := RunQuery(s, m);
      RunSends(s, m, t, ok);
    case BeginTx(db, settings) =>
      var (t, ok) := BeginTransaction(s, db, settings);
      BeginSends(s, m, t, ok);
    case CommitTx =>
      var (t, ok) := Say(s, Commit);
      SaidLast(s, Commit, 0, t, ok);
    case RollbackTx =>
      var (t, ok) := Say(s, Rollback);
      SaidLast(s, Rollback, 0, t, ok);
  }

  /** What these messages leave: a BEGIN the database took is a transaction, a COMMIT or ROLLBACK it refused ends none, and
      a RUN that succeeds opens its rows as the result. */
  lemma AnswerMovesSession<R>(s: Session<R>, m: Message<R>)
    requires CursorOk(s) && s.state != Failed && Alive(s) && Asks(m)
    ensures var (t, out) := Step(s, m);
      && (m.BeginTx? ==> t.graph == GraphOf(s, m.db) && (t.inTx <==> s.inTx || AnswerTo(s.answers, 0) == Done))
      && (m.CommitTx? || m.RollbackTx? ==> t.graph == s.graph && (t.inTx <==> s.inTx && AnswerTo(s.answers, 0) != Done))
      && (m.Run? ==> t.graph == GraphOf(s, m.db) && t.inTx == s.inTx)
      && (m.Run? && out == [Success(false)] ==>
            && t.state == Streaming && t.pending == (if m.planOnly then [] else m.rows) && t.cursor == 0
            && t.writes == m.verdict.value)
  {
    if m.Run? {
      var (t, ok) := RunQuery(s, m);
      RunMoves(s, m, t, ok);
    } else if m.BeginTx? {
      var (t, ok) := BeginTransaction(s, m.db, m.settings);
      BeginSends(s, m, t, ok);
    }
  }

  /** Without a living connection they fail with their first statement, which goes nowhere. */
  lemma NoConnectionNoSuccess<R>(s: Session<R>, m: Message<R>)
    requires CursorOk(s) && s.state != Failed && !Alive(s) && Asks(m)
    ensures Step(s, m).1 == [Failure]
    ensures Step(s, m).0.log == s.log + if s.pg.Conn? then Due(s, m)[..1] else []
  {
    assert s.log + [] == s.log;
    assert Due(s, m)[..1] == [Due(s, m)[0]];
  }

  // ---------------------------------------------------------------- the other messages

  /** A PULL or DISCARD that leaves nothing of the open result. */
  predicate Empties<R>(s: Session<R>, m: Message<R>)
    requires CursorOk(s)
  {
    s.state == Streaming && (m.Pull? || m.Discard?) && (m.n < 0 || m.n >= |s.pending| - s.cursor)
  }

  /** What the other messages send: RESET rolls an open transaction back, the summary of a write asks for its counts, a
      query that does not parse was checked, and nothing else sends anything. */
  function Sent<R>(s: Session<R>, m: Message<R>): seq<Stmt>
    requires CursorOk(s)
  {
    if s.pg.NoHello? then []
    else if m.Reset? then if s.inTx then [Rollback] else []
    else if s.state == Failed then []
    else if Empties(s, m) then if s.writes then [Stats] else []
    else if m.Run? && m.query then [Check]
    else []
  }

  lemma OthersSend<R>(s: Session<R>, m: Message<R>)
    requires CursorOk(s) && (s.state == Failed || !Asks(m))
    ensures Step(s, m).0.log == s.log + Sent(s, m)
    ensures s.state != Failed && !m.Pull? && !m.Discard? && !m.Goodbye? ==>
      Step(s, m).1 == [if m.Reset? || m.Route? || (m.Hello? && m.connects) then Success(false) else Failure]
    ensures s.state == Ready && (m.Pull? || m.Discard?) ==> Step(s, m).1 == [Failure]
  {
    assert s.log + [] == s.log;
  }

  lemma OthersMoveSession<R>(s: Session<R>, m: Message<R>)
    requires CursorOk(s) && s.state != Failed && !Asks(m)
    ensures var t := Step(s, m).0;
      && t.inTx == (s.inTx && !m.Reset?) && t.graph == (if m.Run? && m.query then GraphOf(s, m.db) else s.graph)
      && (m.Hello? ==> if m.connects then Alive(t) && !t.pg.open else t.pg == s.pg)
      && (m.Reset? ==> t.pending == [] && t.cursor == 0)
  {
  }

  // ---------------------------------------------------------------- over a run

  /** A message that leaves a transaction open and names no graph of its own. */
  predicate Within<R>(m: Message<R>)
  {
    || m.Pull? || m.Discard? || m.Route? || m.Unknown?
    || (m.Run? && (m.db.None? || m.db.value in {"", "neo4j", "system"}))
  }

  /** Every query among the statements is on the graph. */
  ghost predicate QueriesOn(stmts: seq<Stmt>, graph: string)
  {
    forall stmt :: stmt in stmts && stmt.Query? ==> stmt.graph == graph
  }

  lemma StepOnGraph<R>(s: Session<R>, m: Message<R>, t: Session<R>) returns (sent: seq<Stmt>)
    requires CursorOk(s) && s.inTx && Within(m) && t == Step(s, m).0
    ensures t.inTx && t.graph == s.graph && t.log == s.log + sent && QueriesOn(sent, s.graph)
  {
    if s.state == Failed || !Asks(m) {
      OthersSend(s, m);
      sent := Sent(s, m);
    } else if Alive(s) {
      AnswerMovesSession(s, m);
      sent := SentOf(s, m, t);
    } else {
      NoConnectionNoSuccess(s, m);
      sent := if s.pg.Conn? then Due(s, m)[..1] else [];
    }
  }

  /** All that is due or a part of it, and perhaps a ROLLBACK. */
  lemma SentOf<R>(s: Session<R>, m: Message<R>, t: Session<R>) returns (sent: seq<Stmt>)
    requires CursorOk(s) && s.state != Failed && Alive(s) && Asks(m) && t == Step(s, m).0
    ensures t.log == s.log + sent && forall stmt :: stmt in sent ==> stmt in Due(s, m) || stmt == Rollback
  {
    AnswerIsTheDatabases(s, m);
    var due := Due(s, m);
    if AllDone(s.answers, |due|) {
      sent := due;
    } else {
      var f := FirstFailure(s.answers, |due|);
      var undone := if Wraps(s, m) && 2 < f < |due| - 1 then [Rollback] else [];
      sent := due[..f + 1] + undone;
      assert t.log == s.log + due[..f + 1] + undone;
      assert s.log + sent == s.log + due[..f + 1] + undone;
    }
  }

  lemma {:induction false} FirstFailure(answers: seq<Answer>, n: nat) returns (f: nat)
    requires !AllDone(answers, n)
    ensures FailsAt(answers, n, f)
  {
    if AllDone(answers, n - 1) {
      f := n - 1;
    } else {
      f := FirstFailure(answers, n - 1);
    }
  }

  lemma AfterNext<R>(s: Session<R>, ms: seq<Message<R>>) returns (t: Session<R>)
    requires CursorOk(s) && ms != [] && !ms[0].Goodbye?
    ensures t == Step(s, ms[0]).0 && CursorOk(t) && After(s, ms) == After(t, ms[1..])
  {
    StepCursor(s, ms[0]);
    t := Step(s, ms[0]).0;
  }

  lemma QueriesJoin(a: seq<Stmt>, b: seq<Stmt>, graph: string)
    requires QueriesOn(a, graph) && QueriesOn(b, graph)
    ensures QueriesOn(a + b, graph)
  {
  }

  /** A driver names the graph once, with BEGIN: every query of the transaction is on it. */
  lemma {:induction false} TransactionKeepsGraph<R>(s: Session<R>, ms: seq<Message<R>>) returns (sent: seq<Stmt>)
    requires CursorOk(s) && s.inTx && forall m :: m in ms ==> Within(m)
    ensures After(s, ms).log == s.log + sent && QueriesOn(sent, s.graph)
    ensures After(s, ms).inTx && After(s, ms).graph == s.graph
    decreases |ms|
  {
    if ms == [] {
      sent := [];
    } else {
      assert Within(ms[0]);
      var t := AfterNext(s, ms);
      var first := StepOnGraph(s, ms[0], t);
      var rest := TransactionKeepsGraph(t, ms[1..]);
      sent := first + rest;
      assert s.log + sent == t.log + rest;
      QueriesJoin(first, rest, s.graph);
    }
  }

  /** How often the counts of a write were asked for. */
  function Asked<R>(s: Session<R>): nat
  {
    multiset(s.log)[Stats]
  }

  lemma StepAsks<R>(s: Session<R>, m: Message<R>, t: Session<R>)
    requires CursorOk(s) && s.pg.Conn? && !m.Goodbye? && t == Step(s, m).0
    ensures t.pg.Conn? && Asked(t) == Asked(s) + if Ends(s, m) && s.writes then 1 else 0
    ensures t.state == Streaming && !Opens(s, m) ==> s.state == Streaming && t.writes == s.writes
  {
    StepStays(s, m, t);
    if s.state == Failed || !Asks(m) {
      OthersSend(s, m);
      if m.Pull? || m.Discard? {
        EmptiesIsEnds(s, m);
      }
    } else {
      var sent := AsksSendNoStats(s, m, t);
    }
  }

  lemma StepStays<R>(s: Session<R>, m: Message<R>, t: Session<R>)
    requires CursorOk(s) && s.pg.Conn? && !m.Goodbye? && t == Step(s, m).0
    ensures t.pg.Conn?
    ensures t.state == Streaming && !Opens(s, m) ==> s.state == Streaming && t.writes == s.writes
  {
    if s.state != Failed && m.Run? {
      RunStays(s, m, t);
    } else if s.state != Failed && m.BeginTx? {
      BeginStays(s, m, t);
    }
  }

  lemma RunStays<R>(s: Session<R>, m: Message<R>, t: Session<R>)
    requires CursorOk(s) && s.pg.Conn? && m.Run? && s.state != Failed && t == Step(s, m).0
    ensures t.pg.Conn? && (t.state == Streaming ==> Opens(s, m))
  {
    RunFrame(s, m);
  }

  lemma BeginStays<R>(s: Session<R>, m: Message<R>, t: Session<R>)
    requires CursorOk(s) && s.pg.Conn? && m.BeginTx? && s.state != Failed && t == Step(s, m).0
    ensures t.pg.Conn? && (t.state == Streaming ==> s.state == Streaming && t.writes == s.writes)
  {
    ApplyFrame(Say(SelectGraph(s, m.db), Begin).0.(inTx := true), m.settings);
  }

  lemma EmptiesIsEnds<R>(s: Session<R>, m: Message<R>)
    requires CursorOk(s) && (m.Pull? || m.Discard?)
    ensures Ends(s, m) <==> Empties(s, m)
  {
    if Hands(s, m) {
      StepTracks(s, Tracked(s.pending, s.pending[..s.cursor]), m);
      var c := s.cursor + |Slice(s, m.n)|;
      assert s.pending[..s.cursor] + Slice(s, m.n) == s.pending[..c];
      assert s.pending[..c] == s.pending <==> c == |s.pending|;
      var out := Step(s, m).1;
      assert out[|out| - 1] == Success(c != |s.pending|);
    }
  }

  lemma AsksSendNoStats<R>(s: Session<R>, m: Message<R>, t: Session<R>) returns (sent: seq<Stmt>)
    requires CursorOk(s) && s.state != Failed && Asks(m) && t == Step(s, m).0
    ensures t.log == s.log + sent && Stats !in sent
  {
    if Alive(s) {
      sent := SentOf(s, m, t);
    } else {
      NoConnectionNoSuccess(s, m);
      sent := if s.pg.Conn? then Due(s, m)[..1] else [];
    }
  }

  /** The counts of a write are asked for once, with the summary that says nothing is left of its result; those of a read
      never. */
  lemma {:induction false} CountsAskedOnce<R>(s: Session<R>, ms: seq<Message<R>>, write: bool)
    requires CursorOk(s) && s.pg.Conn? && NoneOpened(s, ms) && (s.state == Streaming ==> s.writes == write)
    ensures Asked(After(s, ms)) == Asked(s) + if write && Finished(s, ms) then 1 else 0
    decreases |ms|
  {
    if ms != [] && !ms[0].Goodbye? {
      var t := Step(s, ms[0]).0;
      StepCursor(s, ms[0]);
      StepAsks(s, ms[0], t);
      CountsAskedOnce(t, ms[1..], write);
      if t.state != Streaming {
        ClosedTakesNothing(t, ms[1..], false);
      }
    }
  }
}
