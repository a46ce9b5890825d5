/** The session object: its message loop and its handlers, over the fields they update. */
module BoltServer {
  import opened Options
  import opened Sequences
  import opened BoltSession

  class Connection<R> {
    var pg: Pg
    var answers: seq<Answer>
    var log: seq<Stmt>
    var state: State
    var inTx: bool
    const home: string
    var graph: string
    var pending: seq<R>
    var cursor: nat
    var writes: bool
    var sent: seq<Reply<R>>

    function View(): Session<R>
      reads this
    {
      Session(pg, answers, log, state, inTx, home, graph, pending, cursor, writes)
    }

    constructor (home: string, answers: seq<Answer>)
      ensures View() == Start(home, answers) && sent == []
    {
      this.home, this.answers, log, graph := home, answers, [], home;
      pg, state, inTx, pending, cursor, writes, sent := NoHello, Ready, false, [], 0, false, [];
    }

    /** `sql` and the other single statements. */
    method Sql(stmt: Stmt) returns (ok: bool)
      modifies this`pg, this`answers, this`log
      ensures (View(), ok) == Say(old(View()), stmt)
    {
      if pg.NoHello? {
        return false;
      }
      var a := Answered(answers);
      ok := !pg.lost && a == Done;
      pg := Exec(pg, stmt, a);
      answers := if answers == [] then [] else answers[1..];
      log := log + [stmt];
    }

    method ApplySettings(settings: seq<Setting>) returns (ok: bool)
      modifies this`pg, this`answers, this`log
      ensures (View(), ok) == Apply(old(View()), settings)
    {
      ok := true;
      var i := 0;
      while i < |settings| && ok
        invariant 0 <= i <= |settings|
        invariant ok ==> Apply(old(View()), settings) == Apply(View(), settings[i..])
        invariant !ok ==> Apply(old(View()), settings) == (View(), false)
      {
        assert settings[i..][0] == settings[i] && settings[i..][1..] == settings[i + 1..];
        ok := Sql(Set(settings[i]));
        i := i + 1;
      }
    }

    method Select(db: Option<string>)
      modifies this`graph
      ensures View() == SelectGraph(old(View()), db)
    {
      if db.Some? && db.value != "" && db.value != "neo4j" && db.value != "system" {
        graph := db.value;
        return;
      }
      if inTx {
        return;
      }
      graph := home;
    }

    /** The query, wrapped in a transaction of its own where it brings settings. */
    method ExecuteQuery(settings: seq<Setting>) returns (ok: bool)
      modifies this`pg, this`answers, this`log
      ensures (View(), ok) == Execute(old(View()), settings)
    {
      var wrap := !inTx && settings != [];
      if wrap {
        ok := Sql(Begin);
        if !ok {
          return;
        }
        ok := ApplySettings(settings);
        if !ok {
          var _ := Sql(Rollback);
          return;
        }
      }
      ok := Sql(Query(graph));
      if wrap {
        if ok {
          ok := Sql(Commit);
        } else {
          var _ := Sql(Rollback);
        }
      }
    }

    method HandleRun(m: Message<R>) returns (ok: bool)
      requires m.Run?
      modifies this
      ensures (View(), ok) == RunQuery(old(View()), m) && sent == old(sent)
    {
      if !m.query {
        return false;
      }
      Select(m.db);
      ok := Sql(Check);
      if !ok || m.verdict.None? {
        return false;
      }
      writes := m.verdict.value;
      ok := RunStatement(m);
    }

    /** A plan is an empty result; anything else is executed. */
    method RunStatement(m: Message<R>) returns (ok: bool)
      requires m.Run?
      modifies this
      ensures (View(), ok) == RunChecked(old(View()), m) && sent == old(sent)
    {
      if m.planOnly {
        pending, cursor, state := [], 0, Streaming;
        return true;
      }
      ok := Sql(Columns);
      if !ok {
        return;
      }
      ok := ExecuteQuery(m.settings);
      if ok {
        pending, cursor, state := m.rows, 0, Streaming;
      }
    }

    method HandleBegin(db: Option<string>, settings: seq<Setting>) returns (ok: bool)
      modifies this
      ensures (View(), ok) == BeginTransaction(old(View()), db, settings) && sent == old(sent)
    {
      Select(db);
      ok := Sql(Begin);
      if ok {
        inTx := true;
        ok := ApplySettings(settings);
      }
    }

    method HandleEnd(verb: Stmt) returns (ok: bool)
      modifies this
      ensures (View(), ok) == EndTransaction(old(View()), verb) && sent == old(sent)
    {
      ok := Sql(verb);
      if ok {
        inTx := false;
      }
    }

    method HandleReset()
      modifies this
      ensures View() == ResetSession(old(View())) && sent == old(sent)
    {
      pending, cursor := [], 0;
      if inTx {
        var _ := Sql(Rollback);
        inTx := false;
      }
      state := Ready;
    }

    /** Streams up to `n` records, or drops them, and summarises. */
    method HandlePull(n: int, deliver: bool)
      requires cursor <= |pending|
      modifies this
      ensures (View(), sent) == (Stream(old(View()), n, deliver).0, old(sent) + Stream(old(View()), n, deliver).1)
    {
      if state != Streaming {
        state := Failed;
        sent := sent + [Failure];
        return;
      }
      var take := Take(n, |pending| - cursor);
      ghost var records: seq<Reply<R>> := if deliver then Records(Slice(View(), n)) else [];
      if deliver {
        SendRecords(take);
      }
      assert sent == old(sent) + records;
      Assoc(old(sent), records, [Success(cursor + take < |pending|)]);
      cursor := cursor + take;
      var hasMore := cursor < |pending|;
      if !hasMore {
        state, pending, cursor := Ready, [], 0;
        if writes {
          var _ := Sql(Stats);
        }
      }
      sent := sent + [Success(hasMore)];
    }

    method SendRecords(take: nat)
      requires cursor + take <= |pending|
      modifies this`sent
      ensures sent == old(sent) + Records(pending[cursor..cursor + take])
    {
      ghost var records := Records(pending[cursor..cursor + take]);
      var i := 0;
      while i < take
        invariant 0 <= i <= take
        invariant sent == old(sent) + records[..i]
      {
        assert records[..i + 1] == records[..i] + [Record(pending[cursor + i])];
        sent := sent + [Record(pending[cursor + i])];
        i := i + 1;
      }
      assert records[..take] == records;
    }

    /** One message; true if it was GOODBYE. */
    method Handle(m: Message<R>) returns (bye: bool)
      requires cursor <= |pending|
      modifies this
      ensures bye == m.Goodbye? && View() == Step(old(View()), m).0
      ensures sent == old(sent) + Step(old(View()), m).1
    {
      bye := m.Goodbye?;
      if bye {
        assert sent + [] == sent;
        return;
      }
      if state == Failed && !m.Reset? {
        sent := sent + [Ignored];
        return;
      }
      var ok := true;
      match m {
        case Pull(n) =>
          HandlePull(n, true);
          return;
        case Discard(n) =>
          HandlePull(n, false);
          return;
        case Hello(connects) =>
          ok := connects;
          if connects {
            pg := Conn(false, false, StrayBefore(pg));
          }
        case Run(_, _, _, _, _, _) => ok := HandleRun(m);
        case BeginTx(db, settings) => ok := HandleBegin(db, settings);
        case CommitTx => ok := HandleEnd(Commit);
        case RollbackTx => ok := HandleEnd(Rollback);
        case Reset => HandleReset();
        case Route =>
        case Unknown => ok := false;
      }
      if !ok {
        state := Failed;
      }
      sent := sent + [if ok then Success(false) else Failure];
    }

    /** The message loop. */
    method Serve(ms: seq<Message<R>>)
      requires cursor <= |pending|
      modifies this
      ensures View() == After(old(View()), ms)
      ensures sent == old(sent) + Replies(old(View()), ms)
    {
      var i := 0;
      ghost var all := Replies(View(), ms);
      assert ms[0..] == ms && sent + all == old(sent) + all;
      while i < |ms|
        invariant 0 <= i <= |ms| && cursor <= |pending|
        invariant After(old(View()), ms) == After(View(), ms[i..])
        invariant old(sent) + Replies(old(View()), ms) == sent + Replies(View(), ms[i..])
        decreases |ms| - i
      {
        ghost var v, before := View(), sent;
        assert ms[i..][0] == ms[i] && ms[i..][1..] == ms[i + 1..];
        StepCursor(v, ms[i]);
        var bye := Handle(ms[i]);
        if bye {
          return;
        }
        Assoc(before, Step(v, ms[i]).1, Replies(View(), ms[i + 1..]));
        i := i + 1;
      }
    }
  }
}
