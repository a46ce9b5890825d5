/** One Bolt connection: how each message moves the session and the database transaction behind it. */
module BoltSession {
  import opened Options

  datatype Answer = Done | Refused | Lost

  datatype Setting = Setting(name: string, value: string)

  /** What a connection is asked: transaction verbs, one setting, a query on a graph, and three questions to the engine: does
      a query parse and write, which columns does it return, what did the last write change. */
  datatype Stmt = Begin | Commit | Rollback | Set(setting: Setting) | Query(graph: string) | Check | Columns | Stats

  /** The PostgreSQL connection: a transaction open on it, the connection gone, a setting ever applied outside a transaction. */
  datatype Pg = NoHello | Conn(open: bool, lost: bool, stray: bool)

  datatype State = Ready | Streaming | Failed

  /** `answers` is what the server will answer to the statements sent to it, in order; `log` the statements so far. */
  datatype Session<R> = Session(
    pg: Pg,
    answers: seq<Answer>,
    log: seq<Stmt>,
    state: State,
    inTx: bool,
    home: string,
    graph: string,
    pending: seq<R>,
    cursor: nat,
    writes: bool)

  datatype Message<R> =
    | Hello(connects: bool)
    | Goodbye
    | Reset
    | Run(query: bool, planOnly: bool, verdict: Option<bool>, db: Option<string>, settings: seq<Setting>, rows: seq<R>)
    | BeginTx(db: Option<string>, settings: seq<Setting>)
    | CommitTx
    | RollbackTx
    | Pull(n: int)
    | Discard(n: int)
    | Route
    | Unknown

  datatype Reply<R> = Record(record: R) | Success(hasMore: bool) | Failure | Ignored

  // ---------------------------------------------------------------- one statement

  function Answered(answers: seq<Answer>): Answer
  {
    if answers == [] then Done else answers[0]
  }

  /** The connection after a statement.  COMMIT and ROLLBACK end the transaction even when they fail. */
  function Exec(pg: Pg, stmt: Stmt, a: Answer): Pg
    requires pg.Conn?
  {
    if pg.lost then pg
    else if a == Lost then Conn(false, true, pg.stray)
    else match stmt
      case Begin => pg.(open := pg.open || a == Done)
      case Commit => pg.(open := false)
      case Rollback => pg.(open := false)
      case Set(_) => pg.(stray := pg.stray || !pg.open)
      case _ => pg
  }

  /** Sends a statement; false if there is no connection or the statement fails. */
  function Say<R>(s: Session<R>, stmt: Stmt): (Session<R>, bool)
  {
    if s.pg.NoHello? then (s, false)
    else
      var a := Answered(s.answers);
      (s.(pg := Exec(s.pg, stmt, a), answers := if s.answers == [] then [] else s.answers[1..], log := s.log + [stmt]),
       !s.pg.lost && a == Done)
  }

  /** `apply_settings`: stops at the first one that fails. */
  function Apply<R>(s: Session<R>, settings: seq<Setting>): (Session<R>, bool)
    decreases |settings|
  {
    if settings == [] then (s, true)
    else
      var (t, ok) := Say(s, Set(settings[0]));
      if ok then Apply(t, settings[1..]) else (t, false)
  }

  // ---------------------------------------------------------------- messages

  function SelectGraph<R>(s: Session<R>, db: Option<string>): Session<R>
  {
    if db.Some? && db.value != "" && db.value != "neo4j" && db.value != "system" then s.(graph := db.value)
    else if s.inTx then s
    else s.(graph := s.home)
  }

  function OpenResult<R>(s: Session<R>, rows: seq<R>): Session<R>
  {
    s.(pending := rows, cursor := 0, state := Streaming)
  }

  /** The query proper, in a transaction of its own where it brings settings. */
  function Execute<R>(s: Session<R>, settings: seq<Setting>): (Session<R>, bool)
  {
    if s.inTx || settings == [] then Say(s, Query(s.graph))
    else
      var (s1, begun) := Say(s, Begin);
      if begun then Inside(s1, settings) else (s1, false)
  }

  /** The transaction of its own, once it is begun. */
  function Inside<R>(s: Session<R>, settings: seq<Setting>): (Session<R>, bool)
  {
    var (s1, set_) := Apply(s, settings);
    if !set_ then (Say(s1, Rollback).0, false)
    else
      var (s2, ran) := Say(s1, Query(s.graph));
      if !ran then (Say(s2, Rollback).0, false) else Say(s2, Commit)
  }

  function RunQuery<R>(s: Session<R>, m: Message<R>): (Session<R>, bool)
    requires m.Run?
  {
    if !m.query then (s, false)
    else
      var (s1, checked) := Say(SelectGraph(s, m.db), Check);
      if !checked || m.verdict.None? then (s1, false)
      else
        RunChecked(s1.(writes := m.verdict.value), m)
  }

  /** The part of RUN after the query is known to parse. */
  function RunChecked<R>(s: Session<R>, m: Message<R>): (Session<R>, bool)
    requires m.Run?
  {
    if m.planOnly then (OpenResult(s, []), true)
    else
      var (s1, asked) := Say(s, Columns);
      if !asked then (s1, false)
      else
        var (s2, ran) := Execute(s1, m.settings);
        if ran then (OpenResult(s2, m.rows), true) else (s2, false)
  }

  function BeginTransaction<R>(s: Session<R>, db: Option<string>, settings: seq<Setting>): (Session<R>, bool)
  {
    var (s1, begun) := Say(SelectGraph(s, db), Begin);
    if begun then Apply(s1.(inTx := true), settings) else (s1, false)
  }

  function EndTransaction<R>(s: Session<R>, verb: Stmt): (Session<R>, bool)
  {
    var (s1, ended) := Say(s, verb);
    if ended then (s1.(inTx := false), true) else (s1, false)
  }

  function ResetSession<R>(s: Session<R>): Session<R>
  {
    var s1 := s.(pending := [], cursor := 0);
    (if s.inTx then Say(s1, Rollback).0.(inTx := false) else s1).(state := Ready)
  }

  function Take(n: int, remaining: nat): nat
  {
    if n < 0 || n > remaining then remaining else n
  }

  /** The records a PULL or DISCARD of `n` is about. */
  function Slice<R>(s: Session<R>, n: int): seq<R>
    requires s.cursor <= |s.pending|
  {
    s.pending[s.cursor..s.cursor + Take(n, |s.pending| - s.cursor)]
  }

  function Records<R>(rs: seq<R>): seq<Reply<R>>
  {
    seq(|rs|, i requires 0 <= i < |rs| => Record(rs[i]))
  }

  function Stream<R>(s: Session<R>, n: int, deliver: bool): (Session<R>, seq<Reply<R>>)
    requires s.cursor <= |s.pending|
  {
    if s.state != Streaming then (s.(state := Failed), [Failure])
    else
      var records := if deliver then Records(Slice(s, n)) else [];
      var s1 := s.(cursor := s.cursor + |Slice(s, n)|);
      if s1.cursor < |s1.pending| then (s1, records + [Success(true)])
      else
        var s2 := s1.(state := Ready, pending := [], cursor := 0);
        (if s.writes then Say(s2, Stats).0 else s2, records + [Success(false)])
  }

  /** The summary of a message that streams nothing. */
  function Summary<R>(outcome: (Session<R>, bool)): (Session<R>, seq<Reply<R>>)
  {
    if outcome.1 then (outcome.0, [Success(false)]) else (outcome.0.(state := Failed), [Failure])
  }

  /** One message: the session after it and what the client gets.  GOODBYE gets nothing. */
  function Step<R>(s: Session<R>, m: Message<R>): (Session<R>, seq<Reply<R>>)
    requires s.cursor <= |s.pending|
  {
    if m.Goodbye? then (s, [])
    else if s.state == Failed && !m.Reset? then (s, [Ignored])
    else match m
      case Goodbye => (s, [])
      case Hello(connects) => if connects then (s.(pg := Conn(false, false, StrayBefore(s.pg))), [Success(false)]) else Summary((s, false))
      case Reset => (ResetSession(s), [Success(false)])
      case Run(_, _, _, _, _, _) => Summary(RunQuery(s, m))
      case BeginTx(db, settings) => Summary(BeginTransaction(s, db, settings))
      case CommitTx => Summary(EndTransaction(s, Commit))
      case RollbackTx => Summary(EndTransaction(s, Rollback))
      case Pull(n) => Stream(s, n, true)
      case Discard(n) => Stream(s, n, false)
      case Route => (s, [Success(false)])
      case Unknown => Summary((s, false))
  }

  function StrayBefore(pg: Pg): bool
  {
    pg.Conn? && pg.stray
  }

  function Start<R>(home: string, answers: seq<Answer>): Session<R>
  {
    Session(NoHello, answers, [], Ready, false, home, home, [], 0, false)
  }

  // ---------------------------------------------------------------- one message keeps

  predicate Open<R>(s: Session<R>)
  {
    s.pg.Conn? && s.pg.open
  }

  predicate Gone<R>(s: Session<R>)
  {
    s.pg.Conn? && s.pg.lost
  }

  /** What holds of the connection whatever its session thinks: no transaction on a lost connection, no setting outside one. */
  predicate Sane<R>(s: Session<R>)
  {
    s.pg.Conn? ==> (s.pg.lost ==> !s.pg.open) && !s.pg.stray
  }

  /** The session and the server agree on whether a transaction is open, and one that is open is never forgotten. */
  predicate Agreed<R>(s: Session<R>)
  {
    && Sane(s)
    && (s.state != Failed && !Gone(s) ==> (s.inTx <==> Open(s)))
    && (Open(s) ==> s.inTx)
    && (s.pg.NoHello? ==> !s.inTx)
  }

  predicate CursorOk<R>(s: Session<R>)
  {
    s.cursor <= |s.pending|
  }

  /** Only the connection, the server's answers and the log change. */
  ghost predicate SameBut<R>(s: Session<R>, t: Session<R>)
  {
    t == s.(pg := t.pg, answers := t.answers, log := t.log) && t.pg.Conn? == s.pg.Conn? && (Gone(s) ==> Gone(t))
  }

  lemma SayKeeps<R>(s: Session<R>, stmt: Stmt)
    requires Sane(s) && (stmt.Set? ==> Open(s))
    ensures var (t, ok) := Say(s, stmt);
      && SameBut(s, t) && Sane(t) && (ok ==> s.pg.Conn? && !Gone(t))
      && (match stmt
          case Begin => Open(t) == ((Open(s) && !Gone(t)) || ok)
          case Commit => !Open(t)
          case Rollback => !Open(t)
          case _ => Open(t) == (Open(s) && !Gone(t)))
  {
  }

  lemma {:induction false} ApplyKeeps<R>(s: Session<R>, settings: seq<Setting>)
    requires Sane(s) && Open(s)
    ensures var (t, ok) := Apply(s, settings);
      SameBut(s, t) && Sane(t) && Open(t) == !Gone(t) && (ok ==> !Gone(t))
    decreases |settings|
  {
    if settings != [] {
      SayKeeps(s, Set(settings[0]));
      var (t, ok) := Say(s, Set(settings[0]));
      if ok {
        ApplyKeeps(t, settings[1..]);
      }
    }
  }

  lemma InsideKeeps<R>(s: Session<R>, settings: seq<Setting>)
    requires Sane(s) && Open(s)
    ensures var (t, ok) := Inside(s, settings); SameBut(s, t) && Sane(t) && !Open(t) && (ok ==> !Gone(t))
  {
    ApplyKeeps(s, settings);
    var (s1, applied) := Apply(s, settings);
    if applied {
      SayKeeps(s1, Query(s.graph));
      var (s2, ran) := Say(s1, Query(s.graph));
      SayKeeps(s2, if ran then Commit else Rollback);
    } else {
      SayKeeps(s1, Rollback);
    }
  }

  /** A query leaves an explicit transaction open, and never leaves one of its own. */
  lemma ExecuteKeeps<R>(s: Session<R>, settings: seq<Setting>)
    requires Sane(s) && (Open(s) ==> s.inTx)
    ensures var (t, ok) := Execute(s, settings);
      SameBut(s, t) && Sane(t) && Open(t) == (Open(s) && !Gone(t)) && (ok ==> !Gone(t) && s.pg.Conn?)
  {
    if s.inTx || settings == [] {
      SayKeeps(s, Query(s.graph));
    } else {
      SayKeeps(s, Begin);
      var (s1, begun) := Say(s, Begin);
      if begun {
        InsideKeeps(s1, settings);
      }
    }
  }

  /** What a message leaves of an agreement: the transaction open as before, or the connection gone. */
  ghost predicate TxAsBefore<R>(s: Session<R>, t: Session<R>)
  {
    && t.inTx == s.inTx && Sane(t) && t.pg.Conn? == s.pg.Conn?
    && Open(t) == (Open(s) && !Gone(t)) && (Gone(s) ==> Gone(t)) && CursorOk(t)
  }

  lemma CheckedKeeps<R>(s: Session<R>, m: Message<R>)
    requires m.Run? && Sane(s) && CursorOk(s) && (Open(s) ==> s.inTx)
    ensures var (t, ok) := RunChecked(s, m);
      && TxAsBefore(s, t) && (ok ==> t.state == Streaming && t.cursor == 0 && (!m.planOnly ==> t.pending == m.rows))
  {
    SayKeeps(s, Columns);
    var (s1, asked) := Say(s, Columns);
    ExecuteKeeps(s1, m.settings);
  }

  lemma RunKeeps<R>(s: Session<R>, m: Message<R>)
    requires m.Run? && Agreed(s) && CursorOk(s)
    ensures TxAsBefore(s, RunQuery(s, m).0)
    ensures RunQuery(s, m).1 ==> RunQuery(s, m).0.state == Streaming && RunQuery(s, m).0.cursor == 0
    ensures RunQuery(s, m).1 && !m.planOnly ==> RunQuery(s, m).0.pending == m.rows
  {
    if m.query {
      var s0 := SelectGraph(s, m.db);
      SayKeeps(s0, Check);
      var (s1, checked) := Say(s0, Check);
      if checked && m.verdict.Some? {
        var s2 := s1.(writes := m.verdict.value);
        CheckedKeeps(s2, m);
      }
    }
  }

  lemma BeginKeeps<R>(s: Session<R>, db: Option<string>, settings: seq<Setting>)
    requires Agreed(s) && CursorOk(s)
    ensures var (t, ok) := BeginTransaction(s, db, settings);
      && Sane(t) && CursorOk(t) && t.state == s.state && t.pg.Conn? == s.pg.Conn?
      && (ok ==> t.inTx && Open(t) && !Gone(t)) && (Open(t) ==> t.inTx) && (t.pg.NoHello? ==> !t.inTx)
  {
    var s0 := SelectGraph(s, db);
    SayKeeps(s0, Begin);
    var (s1, begun) := Say(s0, Begin);
    if begun {
      ApplyKeeps(s1.(inTx := true), settings);
    }
  }

  lemma StreamKeeps<R>(s: Session<R>, n: int, deliver: bool)
    requires Agreed(s) && CursorOk(s)
    ensures Agreed(Stream(s, n, deliver).0) && CursorOk(Stream(s, n, deliver).0)
  {
    if s.state == Streaming {
      var s1 := s.(cursor := s.cursor + |Slice(s, n)|);
      SayKeeps(s1.(state := Ready, pending := [], cursor := 0), Stats);
    }
  }

  lemma ResetAgrees<R>(s: Session<R>)
    requires Agreed(s)
    ensures var t := ResetSession(s);
      Agreed(t) && CursorOk(t) && t.state == Ready && !t.inTx && !Open(t) && t.pending == []
  {
    SayKeeps(s.(pending := [], cursor := 0), Rollback);
  }

  /** Exactly one thing breaks the agreement: a successful HELLO inside a transaction, which drops the connection the
      transaction was on and keeps the session thinking it is in one. */
  lemma StepAgrees<R>(s: Session<R>, m: Message<R>)
    requires Agreed(s) && CursorOk(s)
    ensures CursorOk(Step(s, m).0)
    ensures Agreed(Step(s, m).0) <==> !(m.Hello? && m.connects && s.inTx && s.state != Failed)
  {
    if s.state != Failed || m.Reset? {
      match m
      case Run(_, _, _, _, _, _) => RunKeeps(s, m);
      case BeginTx(db, settings) => BeginKeeps(s, db, settings);
      case CommitTx => SayKeeps(s, Commit);
      case RollbackTx => SayKeeps(s, Rollback);
      case Pull(n) => StreamKeeps(s, n, true);
      case Discard(n) => StreamKeeps(s, n, false);
      case Reset => ResetAgrees(s);
      case _ =>
    }
  }

  // ---------------------------------------------------------------- every run

  /** The messages up to the GOODBYE that ends the session. */
  function After<R>(s: Session<R>, ms: seq<Message<R>>): (t: Session<R>)
    requires CursorOk(s)
    ensures CursorOk(t)
    decreases |ms|
  {
    if ms == [] || ms[0].Goodbye? then s
    else
      StepCursor(s, ms[0]);
      After(Step(s, ms[0]).0, ms[1..])
  }

  function Replies<R>(s: Session<R>, ms: seq<Message<R>>): seq<Reply<R>>
    requires CursorOk(s)
    decreases |ms|
  {
    if ms == [] || ms[0].Goodbye? then []
    else
      StepCursor(s, ms[0]);
      Step(s, ms[0]).1 + Replies(Step(s, ms[0]).0, ms[1..])
  }

  lemma StepCursor<R>(s: Session<R>, m: Message<R>)
    requires CursorOk(s)
    ensures CursorOk(Step(s, m).0)
  {
    SayFrame(s);
    if m.Run? && !(s.state == Failed) {
      RunFrame(s, m);
    } else if m.BeginTx? {
      BeginFrame(s, m.db, m.settings);
    }
  }

  lemma SayFrame<R>(s: Session<R>)
    ensures forall stmt :: Say(s, stmt).0 == s.(pg := Say(s, stmt).0.pg, answers := Say(s, stmt).0.answers, log := Say(s, stmt).0.log)
  {
  }

  lemma SaySame<R>(s: Session<R>, stmt: Stmt, t: Session<R>, ok: bool)
    requires (t, ok) == Say(s, stmt)
    ensures SameBut(s, t)
  {
  }

  lemma SameTrans<R>(s: Session<R>, t: Session<R>, u: Session<R>)
    requires SameBut(s, t) && SameBut(t, u)
    ensures SameBut(s, u)
  {
  }

  lemma {:induction false} ApplyFrame<R>(s: Session<R>, settings: seq<Setting>)
    ensures SameBut(s, Apply(s, settings).0)
    decreases |settings|
  {
    if settings != [] {
      var (t, ok) := Say(s, Set(settings[0]));
      SaySame(s, Set(settings[0]), t, ok);
      if ok {
        ApplyFrame(t, settings[1..]);
        SameTrans(s, t, Apply(s, settings).0);
      }
    }
  }

  lemma BeginFrame<R>(s: Session<R>, db: Option<string>, settings: seq<Setting>)
    ensures var t := BeginTransaction(s, db, settings).0; t.pending == s.pending && t.cursor == s.cursor
  {
    var (s1, begun) := Say(SelectGraph(s, db), Begin);
    if begun {
      ApplyFrame(s1.(inTx := true), settings);
    }
  }

  lemma InsideFrame<R>(s: Session<R>, settings: seq<Setting>, t: Session<R>)
    requires t == Inside(s, settings).0
    ensures SameBut(s, t)
  {
    ApplyFrame(s, settings);
    var (s1, set_) := Apply(s, settings);
    var (s2, ran) := Say(s1, if set_ then Query(s.graph) else Rollback);
    SaySame(s1, if set_ then Query(s.graph) else Rollback, s2, ran);
    SameTrans(s, s1, s2);
    if set_ {
      var (s3, ended) := Say(s2, if ran then Commit else Rollback);
      SaySame(s2, if ran then Commit else Rollback, s3, ended);
      SameTrans(s, s2, s3);
    }
  }

  lemma ExecuteFrame<R>(s: Session<R>, settings: seq<Setting>, t: Session<R>)
    requires t == Execute(s, settings).0
    ensures SameBut(s, t)
  {
    var stmt := if s.inTx || settings == [] then Query(s.graph) else Begin;
    var (s1, ok) := Say(s, stmt);
    SaySame(s, stmt, s1, ok);
    if stmt == Begin && ok {
      InsideFrame(s1, settings, t);
      SameTrans(s, s1, t);
    }
  }

  /** The result and the state it leaves, if it succeeds. */
  lemma CheckedFrame<R>(s: Session<R>, m: Message<R>, t: Session<R>, ok: bool)
    requires m.Run? && (t, ok) == RunChecked(s, m)
    ensures SameBut(if ok then OpenResult(s, if m.planOnly then [] else m.rows) else s, t)
  {
    if !m.planOnly {
      var (s1, asked) := Say(s, Columns);
      SaySame(s, Columns, s1, asked);
      if asked {
        var s2 := Execute(s1, m.settings).0;
        ExecuteFrame(s1, m.settings, s2);
        SameTrans(s, s1, s2);
      }
    }
  }

  lemma RunFrame<R>(s: Session<R>, m: Message<R>)
    requires m.Run? && CursorOk(s)
    ensures CursorOk(RunQuery(s, m).0) && RunQuery(s, m).0.pg.Conn? == s.pg.Conn?
  {
    if m.query {
      var (s1, checked) := Say(SelectGraph(s, m.db), Check);
      if checked && m.verdict.Some? {
        var s2 := s1.(writes := m.verdict.value);
        var (t, ok) := RunChecked(s2, m);
        CheckedFrame(s2, m, t, ok);
      }
    }
  }

  /** No HELLO inside an explicit transaction. */
  ghost predicate NoHelloInTx<R>(s: Session<R>, ms: seq<Message<R>>)
    requires CursorOk(s)
    decreases |ms|
  {
    ms == [] || ms[0].Goodbye? ||
    (&& !(ms[0].Hello? && ms[0].connects && s.inTx && s.state != Failed)
     && CursorOk(Step(s, ms[0]).0) && NoHelloInTx(Step(s, ms[0]).0, ms[1..]))
  }

  /** Outside `Failed`, on a living connection, the session is in a transaction exactly if the server is. */
  lemma {:induction false} RunAgrees<R>(s: Session<R>, ms: seq<Message<R>>)
    requires Agreed(s) && CursorOk(s) && NoHelloInTx(s, ms)
    ensures Agreed(After(s, ms))
    decreases |ms|
  {
    if ms != [] && !ms[0].Goodbye? {
      StepAgrees(s, ms[0]);
      RunAgrees(Step(s, ms[0]).0, ms[1..]);
    }
  }

  lemma SessionAgrees<R>(home: string, answers: seq<Answer>, ms: seq<Message<R>>)
    requires NoHelloInTx(Start(home, answers), ms)
    ensures Agreed(After(Start(home, answers), ms))
  {
    RunAgrees(Start(home, answers), ms);
  }

  /** After a second HELLO inside a transaction the session waits for a COMMIT of nothing. */
  lemma HelloForgetsTransaction(home: string)
    ensures var ms: seq<Message<int>> := [Hello(true), BeginTx(None, []), Hello(true)];
      var s := After(Start(home, []), ms);
      s.state == Ready && s.inTx && !Open(s) && !Gone(s)
  {
    var s0: Session<int> := Start(home, []);
    var s1 := Step(s0, Hello(true)).0;
    var s2 := Step(s1, BeginTx(None, [])).0;
    var s3 := Step(s2, Hello(true)).0;
    var ms: seq<Message<int>> := [Hello(true), BeginTx(None, []), Hello(true)];
    assert ms[1..] == [BeginTx(None, []), Hello(true)] && ms[1..][1..] == [Hello(true)] && ms[1..][1..][1..] == [];
    assert After(s2, ms[1..][1..]) == s3;
    assert After(s1, ms[1..]) == s3;
  }

  // ---------------------------------------------------------------- failures

  predicate IsSummary<R>(r: Reply<R>)
  {
    !r.Record?
  }

  /** Every message gets exactly one summary, after its records; it is FAILURE exactly when the session fails; and in
      `Failed` everything but RESET is ignored and changes nothing. */
  lemma OneSummary<R>(s: Session<R>, m: Message<R>)
    requires CursorOk(s) && !m.Goodbye?
    ensures var (t, out) := Step(s, m);
      && out != [] && IsSummary(out[|out| - 1]) && (forall i :: 0 <= i < |out| - 1 ==> out[i].Record?)
      && (out[|out| - 1] == Failure <==> s.state != Failed && t.state == Failed)
      && (s.state == Failed && !m.Reset? ==> out == [Ignored] && t == s)
      && (m.Reset? ==> t.state == Ready && out == [Success(false)])
  {
    SayFrame(s);
    if s.state != Failed && m.Run? {
      RunState(s, m);
    } else if m.BeginTx? {
      BeginState(s, m.db, m.settings);
    }
  }

  lemma BeginState<R>(s: Session<R>, db: Option<string>, settings: seq<Setting>)
    ensures BeginTransaction(s, db, settings).0.state == s.state
  {
    var (s1, begun) := Say(SelectGraph(s, db), Begin);
    if begun {
      ApplyFrame(s1.(inTx := true), settings);
    }
  }

  lemma RunState<R>(s: Session<R>, m: Message<R>)
    requires m.Run?
    ensures RunQuery(s, m).1 ==> RunQuery(s, m).0.state == Streaming
  {
  }

  function Summaries<R>(rs: seq<Reply<R>>): nat
  {
    if rs == [] then 0 else (if IsSummary(rs[0]) then 1 else 0) + Summaries(rs[1..])
  }

  lemma {:induction false} SummariesJoin<R>(a: seq<Reply<R>>, b: seq<Reply<R>>)
    ensures Summaries(a + b) == Summaries(a) + Summaries(b)
  {
    if a == [] {
      assert a + b == b;
    } else {
      SummariesJoin(a[1..], b);
      assert (a + b)[1..] == a[1..] + b;
    }
  }

  lemma {:induction false} SummariesOfOne<R>(out: seq<Reply<R>>)
    requires out != [] && IsSummary(out[|out| - 1]) && (forall i :: 0 <= i < |out| - 1 ==> out[i].Record?)
    ensures Summaries(out) == 1
  {
    if |out| > 1 {
      SummariesOfOne(out[1..]);
    }
  }

  function Served<R>(ms: seq<Message<R>>): nat
  {
    if ms == [] || ms[0].Goodbye? then 0 else 1 + Served(ms[1..])
  }

  lemma SummaryOfStep<R>(s: Session<R>, m: Message<R>)
    requires CursorOk(s) && !m.Goodbye?
    ensures Summaries(Step(s, m).1) == 1
  {
    OneSummary(s, m);
    SummariesOfOne(Step(s, m).1);
  }

  /** The client gets one summary for each message it sent before GOODBYE. */
  lemma {:induction false} SummaryEach<R>(s: Session<R>, ms: seq<Message<R>>)
    requires CursorOk(s)
    ensures Summaries(Replies(s, ms)) == Served(ms)
    decreases |ms|
  {
    if ms != [] && !ms[0].Goodbye? {
      StepCursor(s, ms[0]);
      var (t, out) := Step(s, ms[0]);
      SummaryOfStep(s, ms[0]);
      SummaryEach(t, ms[1..]);
      SummariesJoin(out, Replies(t, ms[1..]));
    }
  }

  // ---------------------------------------------------------------- results

  /** The result opened last, and what of it has been delivered or discarded. */
  datatype Tracked<R> = Tracked(result: seq<R>, taken: seq<R>)

  function Track<R>(s: Session<R>, k: Tracked<R>, m: Message<R>): Tracked<R>
    requires CursorOk(s)
  {
    if s.state == Failed || m.Goodbye? then k
    else if m.Run? && RunQuery(s, m).1 then Tracked(RunQuery(s, m).0.pending, [])
    else if (m.Pull? || m.Discard?) && s.state == Streaming then k.(taken := k.taken + Slice(s, m.n))
    else k
  }

  /** What is taken of the open result is its start, up to the cursor. */
  ghost predicate TrackOk<R>(s: Session<R>, k: Tracked<R>)
  {
    CursorOk(s) && (s.state == Streaming ==> k.result == s.pending && k.taken == s.pending[..s.cursor])
  }

  /** A result is handed over piece by piece, in order, nothing twice and nothing left out; when the summary says that
      there is no more, all of it has been taken; and PULL delivers exactly the records it takes. */
  lemma StepTracks<R>(s: Session<R>, k: Tracked<R>, m: Message<R>)
    requires TrackOk(s, k)
    ensures var (t, out) := Step(s, m);
      && TrackOk(t, Track(s, k, m))
      && ((m.Pull? || m.Discard?) && s.state == Streaming ==>
            var rest := k.taken + Slice(s, m.n);
            && out == (if m.Pull? then Records(Slice(s, m.n)) else []) + [Success(rest != k.result)]
            && (t.state == Streaming <==> rest != k.result)
            && |Slice(s, m.n)| == (if m.n < 0 || |k.result| - |k.taken| < m.n then |k.result| - |k.taken| else m.n))
  {
    StepCursor(s, m);
    if s.state != Failed || m.Reset? {
      match m
      case Run(_, _, _, _, _, _) => RunTracks(s, k, m);
      case BeginTx(db, settings) => BeginFrame(s, db, settings); BeginState(s, db, settings);
      case Pull(n) => StreamTracks(s, k, n, true);
      case Discard(n) => StreamTracks(s, k, n, false);
      case _ => SayFrame(s);
    }
  }

  lemma RunTracks<R>(s: Session<R>, k: Tracked<R>, m: Message<R>)
    requires TrackOk(s, k) && m.Run? && s.state != Failed
    ensures TrackOk(Step(s, m).0, Track(s, k, m))
  {
    RunFrame(s, m);
  }

  lemma StreamTracks<R>(s: Session<R>, k: Tracked<R>, n: int, deliver: bool)
    requires TrackOk(s, k) && s.state != Failed
    ensures var (t, out) := Stream(s, n, deliver);
      s.state == Streaming ==>
        var rest := k.taken + Slice(s, n);
        && out == (if deliver then Records(Slice(s, n)) else []) + [Success(rest != k.result)]
        && (t.state == Streaming <==> rest != k.result)
        && (t.state == Streaming ==> t.pending == k.result && rest == t.pending[..t.cursor])
  {
    if s.state == Streaming {
      var c := s.cursor + |Slice(s, n)|;
      assert s.pending[..s.cursor] + Slice(s, n) == s.pending[..c];
      assert s.pending[..c] == s.pending <==> c == |s.pending|;
    }
  }

  // Over a whole run.

  /** The message is a RUN that opens a result. */
  predicate Opens<R>(s: Session<R>, m: Message<R>)
  {
    m.Run? && s.state != Failed && RunQuery(s, m).1
  }

  predicate Hands<R>(s: Session<R>, m: Message<R>)
  {
    (m.Pull? || m.Discard?) && s.state == Streaming
  }

  ghost predicate NoneOpened<R>(s: Session<R>, ms: seq<Message<R>>)
    requires CursorOk(s)
    decreases |ms|
  {
    ms == [] || ms[0].Goodbye? ||
    (!Opens(s, ms[0]) && CursorOk(Step(s, ms[0]).0) && NoneOpened(Step(s, ms[0]).0, ms[1..]))
  }

  /** The message says that nothing is left. */
  predicate Ends<R(==)>(s: Session<R>, m: Message<R>)
    requires CursorOk(s)
  {
    Hands(s, m) && Success(false) in Step(s, m).1
  }

  /** What it takes of the open result; with `pulled`, only if it is a PULL. */
  function Portion<R>(s: Session<R>, m: Message<R>, pulled: bool): seq<R>
    requires CursorOk(s)
  {
    if Hands(s, m) && (m.Pull? || !pulled) then Slice(s, m.n) else []
  }

  /** Everything the PULL and DISCARD messages of a run take, in order; with `pulled`, what the PULL messages take. */
  function Taken<R>(s: Session<R>, ms: seq<Message<R>>, pulled: bool): seq<R>
    requires CursorOk(s)
    decreases |ms|
  {
    if ms == [] || ms[0].Goodbye? then []
    else
      StepCursor(s, ms[0]);
      Portion(s, ms[0], pulled) + Taken(Step(s, ms[0]).0, ms[1..], pulled)
  }

  /** Some PULL or DISCARD of the run is answered with "no more". */
  predicate Finished<R(==)>(s: Session<R>, ms: seq<Message<R>>)
    requires CursorOk(s)
    decreases |ms|
  {
    && ms != [] && !ms[0].Goodbye?
    && (StepCursor(s, ms[0]);
        Ends(s, ms[0]) || Finished(Step(s, ms[0]).0, ms[1..]))
  }

  function RecordsOf<R>(out: seq<Reply<R>>): seq<R>
  {
    if out == [] then [] else (if out[0].Record? then [out[0].record] else []) + RecordsOf(out[1..])
  }

  lemma {:induction false} RecordsOfJoin<R>(a: seq<Reply<R>>, b: seq<Reply<R>>)
    ensures RecordsOf(a + b) == RecordsOf(a) + RecordsOf(b)
  {
    if a == [] {
      assert a + b == b;
    } else {
      assert (a + b)[0] == a[0] && (a + b)[1..] == a[1..] + b;
      RecordsOfJoin(a[1..], b);
      var first := if a[0].Record? then [a[0].record] else [];
      assert (first + RecordsOf(a[1..])) + RecordsOf(b) == first + (RecordsOf(a[1..]) + RecordsOf(b));
    }
  }

  lemma {:induction false} RecordsOfRecords<R>(rs: seq<R>)
    ensures RecordsOf(Records(rs)) == rs
  {
    if rs != [] {
      assert Records(rs)[1..] == Records(rs[1..]);
      RecordsOfRecords(rs[1..]);
    }
  }

  lemma RecordsOfStream<R>(s: Session<R>, n: int, deliver: bool)
    requires CursorOk(s) && s.state == Streaming
    ensures RecordsOf(Stream(s, n, deliver).1) == if deliver then Slice(s, n) else []
  {
    var rs, out := if deliver then Slice(s, n) else [], Stream(s, n, deliver).1;
    var last := [out[|out| - 1]];
    assert out == Records(rs) + last;
    RecordsOfRecords(rs);
    RecordsOfJoin(Records(rs), last);
    assert last[1..] == [] && !last[0].Record?;
  }

  lemma RecordsOfNone<R>(out: seq<Reply<R>>)
    requires out == [] || (|out| == 1 && !out[0].Record?)
    ensures RecordsOf(out) == []
  {
    if out != [] {
      assert out[1..] == [];
    }
  }

  /** Only a PULL sends records. */
  lemma RecordsOfStep<R>(s: Session<R>, m: Message<R>)
    requires CursorOk(s)
    ensures RecordsOf(Step(s, m).1) == Portion(s, m, true)
  {
    if Hands(s, m) {
      RecordsOfStream(s, m.n, m.Pull?);
    } else {
      RecordsOfNone(Step(s, m).1);
    }
  }

  /** The records the client gets in a run are what its PULL messages take. */
  lemma {:induction false} RecordsArePulled<R>(s: Session<R>, ms: seq<Message<R>>)
    requires CursorOk(s)
    ensures RecordsOf(Replies(s, ms)) == Taken(s, ms, true)
    decreases |ms|
  {
    if ms != [] && !ms[0].Goodbye? {
      StepCursor(s, ms[0]);
      var (t, out) := Step(s, ms[0]);
      RecordsOfStep(s, ms[0]);
      RecordsArePulled(t, ms[1..]);
      RecordsOfJoin(out, Replies(t, ms[1..]));
    }
  }

  /** Without an open result nothing opens one but a RUN. */
  lemma StaysClosed<R>(s: Session<R>, m: Message<R>)
    requires CursorOk(s) && s.state != Streaming && !Opens(s, m)
    ensures Step(s, m).0.state != Streaming
  {
    SayFrame(s);
    if m.BeginTx? {
      BeginState(s, m.db, m.settings);
    }
  }

  lemma {:induction false} ClosedTakesNothing<R>(s: Session<R>, ms: seq<Message<R>>, pulled: bool)
    requires CursorOk(s) && s.state != Streaming && NoneOpened(s, ms)
    ensures Taken(s, ms, pulled) == [] && !Finished(s, ms)
    decreases |ms|
  {
    if ms != [] && !ms[0].Goodbye? {
      StaysClosed(s, ms[0]);
      ClosedTakesNothing(Step(s, ms[0]).0, ms[1..], pulled);
    }
  }

  /** One message of a run in which a result is open. */
  lemma OneTaken<R>(s: Session<R>, k: Tracked<R>, m: Message<R>, t: Session<R>, first: seq<R>)
    requires TrackOk(s, k) && s.state == Streaming && !Opens(s, m) && !m.Goodbye?
    requires t == Step(s, m).0 && first == Portion(s, m, false)
    ensures TrackOk(t, k.(taken := k.taken + first)) && k.taken + first <= k.result
    ensures Ends(s, m) <==> Hands(s, m) && k.taken + first == k.result
    ensures Hands(s, m) ==> (t.state == Streaming <==> k.taken + first != k.result)
    ensures !Hands(s, m) ==> first == []
  {
    StepTracks(s, k, m);
    assert Track(s, k, m) == k.(taken := k.taken + first);
  }

  /** The same for what comes after it, `rest`; `more` says whether the rest finishes the result. */
  lemma TakenOn<R>(k: Tracked<R>, first: seq<R>, rest: seq<R>, hands: bool, open: bool, more: bool)
    requires hands ==> (open <==> k.taken + first != k.result)
    requires (!hands ==> first == []) && k.taken + first <= k.result && (!open ==> rest == [] && !more)
    requires open ==> (k.taken + first) + rest <= k.result && (more ==> (k.taken + first) + rest == k.result)
    requires open && k.taken + first != k.result && (k.taken + first) + rest == k.result ==> more
    ensures k.taken + (first + rest) <= k.result
    ensures (hands && k.taken + first == k.result) || more ==> k.taken + (first + rest) == k.result
    ensures k.taken != k.result && k.taken + (first + rest) == k.result ==> (hands && k.taken + first == k.result) || more
  {
    assert (k.taken + first) + rest == k.taken + (first + rest);
    assert !hands ==> k.taken + first == k.taken;
  }

  /** What is taken in a run continues what was taken before it. */
  lemma {:induction false} TakenInOrder<R>(s: Session<R>, k: Tracked<R>, ms: seq<Message<R>>)
    requires TrackOk(s, k) && s.state == Streaming && NoneOpened(s, ms)
    ensures k.taken + Taken(s, ms, false) <= k.result
    ensures Finished(s, ms) ==> k.taken + Taken(s, ms, false) == k.result
    ensures k.taken != k.result && k.taken + Taken(s, ms, false) == k.result ==> Finished(s, ms)
    decreases |ms|
  {
    if ms == [] || ms[0].Goodbye? {
      assert k.taken + [] == k.taken;
    } else {
      var m, t := ms[0], Step(s, ms[0]).0;
      var first := Portion(s, m, false);
      OneTaken(s, k, m, t, first);
      if t.state == Streaming {
        TakenInOrder(t, k.(taken := k.taken + first), ms[1..]);
      } else {
        ClosedTakesNothing(t, ms[1..], false);
      }
      TakenOn(k, first, Taken(t, ms[1..], false), Hands(s, m), t.state == Streaming, Finished(t, ms[1..]));
    }
  }

  /** A result a RUN opened is handed over in order until another is opened: what the PULL and DISCARD messages take, put
      together, is its start, and all of it exactly once a summary says that there is no more.  Without DISCARD these
      are the records the client gets. */
  lemma ResultInOrder<R>(s: Session<R>, run: Message<R>, ms: seq<Message<R>>)
    requires CursorOk(s) && Opens(s, run) && CursorOk(Step(s, run).0) && NoneOpened(Step(s, run).0, ms)
    ensures var t, rows := Step(s, run).0, if run.planOnly then [] else run.rows;
      && Taken(t, ms, false) <= rows
      && (Finished(t, ms) ==> Taken(t, ms, false) == rows)
      && (rows != [] && Taken(t, ms, false) == rows ==> Finished(t, ms))
      && ((forall m :: m in ms ==> !m.Discard?) ==> RecordsOf(Replies(t, ms)) == Taken(t, ms, false))
  {
    var t, rows := Step(s, run).0, if run.planOnly then [] else run.rows;
    assert t.pending == rows && t.cursor == 0 && t.state == Streaming;
    assert t.pending[..0] == [];
    TakenInOrder(t, Tracked(rows, []), ms);
    assert [] + Taken(t, ms, false) == Taken(t, ms, false);
    RecordsArePulled(t, ms);
    if forall m :: m in ms ==> !m.Discard? {
      PullsTakeAll(t, ms);
    }
  }

  lemma {:induction false} PullsTakeAll<R>(s: Session<R>, ms: seq<Message<R>>)
    requires CursorOk(s) && forall m :: m in ms ==> !m.Discard?
    ensures Taken(s, ms, true) == Taken(s, ms, false)
    decreases |ms|
  {
    if ms != [] && !ms[0].Goodbye? {
      StepCursor(s, ms[0]);
      assert ms[0] in ms && forall m :: m in ms[1..] ==> m in ms;
      PullsTakeAll(Step(s, ms[0]).0, ms[1..]);
    }
  }
}
