/** Which texts the gateway sends, and which it answers with itself: a function of what it read and was answered. */
module GatewayTexts {
  import opened Options
  import DollarQuote
  import opened GatewayProtocol
  import opened GatewayScripts

  // ---------------------------------------------------------------- what an answer means

  predicate IsError(m: ServerMsg)
  {
    m.Reply? && m.payload.ErrorText?
  }

  predicate IsRow(m: ServerMsg)
  {
    m.Reply? && m.payload.RowData?
  }

  ghost predicate FirstErrorAt(answer: seq<ServerMsg>, i: int)
  {
    0 <= i < |answer| && IsError(answer[i]) && forall j :: 0 <= j < i ==> !IsError(answer[j])
  }

  ghost predicate FirstRowAt(answer: seq<ServerMsg>, i: int)
  {
    0 <= i < |answer| && IsRow(answer[i]) && forall j :: 0 <= j < i ==> !IsRow(answer[j])
  }

  ghost predicate LastReadyAt(answer: seq<ServerMsg>, i: int)
  {
    0 <= i < |answer| && answer[i].Ready? && forall j :: i < j < |answer| ==> !answer[j].Ready?
  }

  ghost predicate NoError(answer: seq<ServerMsg>)
  {
    forall i :: 0 <= i < |answer| ==> !IsError(answer[i])
  }

  ghost predicate NoRow(answer: seq<ServerMsg>)
  {
    forall i :: 0 <= i < |answer| ==> !IsRow(answer[i])
  }

  ghost predicate NoReady(answer: seq<ServerMsg>)
  {
    forall i :: 0 <= i < |answer| ==> !answer[i].Ready?
  }

  ghost predicate EndsIn(answer: seq<ServerMsg>, status: char)
  {
    if NoReady(answer) then status == 'I' else exists i :: LastReadyAt(answer, i) && answer[i].status == status
  }

  /** An error anywhere refuses the statement; otherwise the first row is its translation. */
  ghost predicate Means(answer: seq<ServerMsg>, v: Translation)
  {
    match v
    case Refused(e, status) => (exists i :: FirstErrorAt(answer, i) && answer[i].payload.text == e) && EndsIn(answer, status)
    case Sql(t) => NoError(answer) && exists i :: FirstRowAt(answer, i) && answer[i].payload.sql == t
    case Broken => NoError(answer) && NoRow(answer)
  }

  lemma {:induction false} ErrorsRead(answer: seq<ServerMsg>)
    ensures FirstError(answer).None? ==> NoError(answer)
    ensures FirstError(answer).Some? ==> exists i :: FirstErrorAt(answer, i) && answer[i].payload.text == FirstError(answer).value
  {
    if answer != [] {
      var rest := answer[1..];
      if IsError(answer[0]) {
        assert FirstErrorAt(answer, 0);
      } else {
        ErrorsRead(rest);
        if FirstError(rest).Some? {
          var i :| FirstErrorAt(rest, i) && rest[i].payload.text == FirstError(rest).value;
          assert FirstErrorAt(answer, i + 1) by {
            assert forall j :: 0 < j < |answer| ==> answer[j] == rest[j - 1];
          }
        }
      }
    }
  }

  lemma {:induction false} RowsRead(answer: seq<ServerMsg>)
    ensures FirstRow(answer).None? ==> NoRow(answer)
    ensures FirstRow(answer).Some? ==> exists i :: FirstRowAt(answer, i) && answer[i].payload.sql == FirstRow(answer).value
  {
    if answer != [] {
      var rest := answer[1..];
      if IsRow(answer[0]) {
        assert FirstRowAt(answer, 0);
      } else {
        RowsRead(rest);
        if FirstRow(rest).Some? {
          var i :| FirstRowAt(rest, i) && rest[i].payload.sql == FirstRow(rest).value;
          assert FirstRowAt(answer, i + 1) by {
            assert forall j :: 0 < j < |answer| ==> answer[j] == rest[j - 1];
          }
        }
      }
    }
  }

  lemma {:induction false} StatusRead(answer: seq<ServerMsg>)
    ensures EndsIn(answer, StatusOf(answer))
    decreases |answer|
  {
    if answer != [] {
      var n := |answer| - 1;
      if answer[n].Ready? {
        assert LastReadyAt(answer, n);
      } else {
        var front := answer[..n];
        StatusRead(front);
        if !NoReady(front) {
          var i :| LastReadyAt(front, i) && front[i].status == StatusOf(front);
          assert LastReadyAt(answer, i);
        } else {
          assert forall j :: 0 <= j < n ==> answer[j] == front[j];
        }
      }
    }
  }

  lemma AnswerIsRead(answer: seq<ServerMsg>)
    ensures Means(answer, TranslationOf(answer))
  {
    ErrorsRead(answer);
    RowsRead(answer);
    StatusRead(answer);
  }

  /** An answer means one thing. */
  lemma MeansOne(answer: seq<ServerMsg>, v: Translation, w: Translation)
    requires Means(answer, v) && Means(answer, w)
    ensures v == w
  {
    if v.Refused? && w.Refused? {
      var i :| FirstErrorAt(answer, i) && answer[i].payload.text == v.error;
      var j :| FirstErrorAt(answer, j) && answer[j].payload.text == w.error;
      if !NoReady(answer) {
        var k :| LastReadyAt(answer, k) && answer[k].status == v.status;
        var l :| LastReadyAt(answer, l) && answer[l].status == w.status;
      }
    } else if v.Sql? && w.Sql? {
      var i :| FirstRowAt(answer, i) && answer[i].payload.sql == v.text;
      var j :| FirstRowAt(answer, j) && answer[j].payload.sql == w.text;
    }
  }

  // ---------------------------------------------------------------- one answer

  /** The actions after an answer: it is taken, acted upon, and what comes of it is written. */
  const REACTION: seq<Action> := [UpTake, UpAct, UpWrite]

  lemma TakesAndActs(s: System, v: Translation) returns (t: System)
    requires s.up.WaitAnswer? && s.locked.answer.Some? && Means(s.locked.answer.value, v)
    ensures Runs(s, [UpTake, UpAct]) && t == After(s, [UpTake, UpAct])
    ensures t == UpActs(s.(locked := s.locked.(answer := None), up := Got(v, s.up.sql, s.up.via)))
  {
    AnswerIsRead(s.locked.answer.value);
    MeansOne(s.locked.answer.value, v, TranslationOf(s.locked.answer.value));
    var s1 := Next(s, UpTake);
    t := Next(s1, UpAct);
    assert Runs(t, []) && After(t, []) == t;
    assert [UpTake, UpAct][1..] == [UpAct] && [UpAct][1..] == [];
    assert Runs(s1, [UpAct]) && After(s1, [UpAct]) == t;
  }

  /** A translated statement goes up as its translation, and nothing else happens. */
  lemma TranslationGoesUp(s: System, text: string)
    requires s.up.WaitAnswer? && s.locked.answer.Some? && Means(s.locked.answer.value, Sql(text))
    ensures Runs(s, REACTION)
    ensures var t := After(s, REACTION);
      && t.up.Idle? && t.delivered == s.delivered
      && t.inq == s.inq + [match s.up.via
                           case ViaQuery => Counted(s.issued, false, text, 0, Drops)
                           case ViaParse(named) => Batch(text, 0, ParseEffect(named))]
  {
    var t := TakesAndActs(s, Sql(text));
    ThenWritten(s, t);
  }

  lemma ThenWritten(s: System, t: System)
    requires Runs(s, [UpTake, UpAct]) && t == After(s, [UpTake, UpAct]) && t.up.Writing?
    ensures Runs(s, REACTION) && After(s, REACTION) == Next(t, UpWrite)
  {
    var s1, u := Next(s, UpTake), Next(t, UpWrite);
    assert [UpTake, UpAct][1..] == [UpAct] && [UpAct][1..] == [];
    assert t == Next(s1, UpAct);
    assert REACTION[1..] == [UpAct, UpWrite] && [UpAct, UpWrite][1..] == [UpWrite] && [UpWrite][1..] == [];
    assert Runs(u, []) && After(u, []) == u;
    assert Runs(t, [UpWrite]) && After(t, [UpWrite]) == u;
    assert Runs(s1, [UpAct, UpWrite]) && After(s1, [UpAct, UpWrite]) == u;
  }

  /** A refused Query is answered by the gateway, in the server's words and with its status; the server gets nothing. */
  lemma RefusalGoesDown(s: System, e: string, status: char)
    requires s.up.WaitAnswer? && s.up.via.ViaQuery? && s.locked.answer.Some? && Means(s.locked.answer.value, Refused(e, status))
    ensures Runs(s, [UpTake, UpAct])
    ensures var t := After(s, [UpTake, UpAct]);
      && t.up.Idle? && t.inq == s.inq
      && t.delivered == s.delivered + [Reply(ForClient(s.issued), ErrorText(e)), Ready(ForClient(s.issued), status)]
  {
    var t := TakesAndActs(s, Refused(e, status));
  }

  /** A refused Parse goes up as the question, for the server to refuse again when it is run. */
  lemma RefusalIsAskedAgain(s: System, e: string, status: char)
    requires s.up.WaitAnswer? && s.up.via.ViaParse? && s.locked.answer.Some? && Means(s.locked.answer.value, Refused(e, status))
    ensures Runs(s, REACTION)
    ensures var t := After(s, REACTION);
      t.up.Idle? && t.delivered == s.delivered && t.inq == s.inq + [Batch(AskText(s.up.sql), 0, ParseEffect(s.up.via.named))]
  {
    var t := TakesAndActs(s, Refused(e, status));
    ThenWritten(s, t);
  }

  /** An answer of neither kind ends the session. */
  lemma NoAnswerEnds(s: System)
    requires s.up.WaitAnswer? && s.locked.answer.Some? && Means(s.locked.answer.value, Broken)
    ensures Runs(s, [UpTake, UpAct])
    ensures var t := After(s, [UpTake, UpAct]); t.up.Done? && t.inq == s.inq && t.delivered == s.delivered
  {
    var t := TakesAndActs(s, Broken);
  }

  // ---------------------------------------------------------------- the engine's side

  /** What `text` passes as the argument of `call`, if nothing but the closing parenthesis is left after it. */
  function Argument(call: string, text: string): Option<string>
  {
    if call <= text then
      match DollarQuote.ReadQuoted(text[|call|..])
      case Some((argument, rest)) => if rest == ")" then Some(argument) else None
      case None => None
    else None
  }

  /** The engine is asked about the statement itself, and the fallback runs it, unless the quoting cuts its end off: then
      the text is not even a call. */
  lemma EngineGetsStatement(sql: string, tag: string)
    requires tag == DollarQuote.Tag(DollarQuote.FirstFree(sql, 0))
    ensures var got := if DollarQuote.EndsWith(sql, tag[..|tag| - 1]) then None else Some(sql);
      Argument("SELECT og_fabric_translate(", AskText(sql)) == got == Argument("SELECT * FROM og_fabric(", Fallback(sql))
  {
    CalledWith("SELECT og_fabric_translate(", sql, tag, AskText(sql));
    CalledWith("SELECT * FROM og_fabric(", sql, tag, Fallback(sql));
  }

  lemma CalledWith(call: string, sql: string, tag: string, text: string)
    requires tag == DollarQuote.Tag(DollarQuote.FirstFree(sql, 0)) && text == call + DollarQuote.Quoted(sql) + ")"
    ensures Argument(call, text) == if DollarQuote.EndsWith(sql, tag[..|tag| - 1]) then None else Some(sql)
  {
    assert text[|call|..] == DollarQuote.Quoted(sql) + ")";
    DollarQuote.ReadBackExactly(sql, ")", tag);
    DollarQuote.TagShape(DollarQuote.FirstFree(sql, 0));
    assert |tag[1..] + ")"| > 1;
  }

  // ---------------------------------------------------------------- every run

  /** What the client thread utters: requests to the server, and replies of its own to the client. */
  datatype Line = Up(request: Request) | Down(message: ServerMsg)

  function Requests(rs: seq<Request>): seq<Line>
  {
    seq(|rs|, i requires 0 <= i < |rs| => Line.Up(rs[i]))
  }

  function Messages(ms: seq<ServerMsg>): seq<Line>
  {
    seq(|ms|, i requires 0 <= i < |ms| => Down(ms[i]))
  }

  /** What `b` has more than `a`. */
  function Added<T>(a: seq<T>, b: seq<T>): seq<T>
  {
    if |a| <= |b| then b[|a|..] else []
  }

  predicate OfClientThread(a: Action)
  {
    a.UpRead? || a.UpAsk? || a.UpWrite? || a.UpTake? || a.UpAct? || a.UpFail?
  }

  /** What a step of the client thread adds to what the server has to read and to what the client has been given. */
  function Uttered(s: System, a: Action): seq<Line>
    requires Enabled(s, a)
  {
    if OfClientThread(a) then Requests(Added(s.inq, Next(s, a).inq)) + Messages(Added(s.delivered, Next(s, a).delivered)) else []
  }

  ghost function Lines(s: System, actions: seq<Action>): seq<Line>
    requires Runs(s, actions)
    decreases |actions|
  {
    if actions == [] then [] else Uttered(s, actions[0]) + Lines(Next(s, actions[0]), actions[1..])
  }

  /** The answers the client thread takes in a run. */
  ghost function Answers(s: System, actions: seq<Action>): seq<seq<ServerMsg>>
    requires Runs(s, actions)
    decreases |actions|
  {
    if actions == [] then []
    else (if actions[0].UpTake? then [s.locked.answer.value] else []) + Answers(Next(s, actions[0]), actions[1..])
  }

  // What is to be uttered: one message after the other.

  predicate Numbered(m: ClientMsg)
  {
    m.Query? || m.Sync? || m.FunctionCall?
  }

  /** `m` as the server gets it, with the text `text`. */
  function Form(m: ClientMsg, text: string, n: nat): Request
  {
    match Sent(m)
    case Counted(_, sync, _, copies, effect) => Counted(n, sync, text, copies, effect)
    case Batch(_, copies, effect) => Batch(text, copies, effect)
    case r => r
  }

  /** A statement of the engine goes through the fallback inside a batch; any other goes up as it came. */
  function Wording(m: ClientMsg): string
  {
    if !m.Query? && !m.Parse? then "" else if m.fabric then Fallback(m.sql) else m.sql
  }

  /** For the messages `ms` with the answers `vs`; `open` says that a batch is open, `n` counts what gets a ReadyForQuery. */
  function Said(ms: seq<ClientMsg>, open: bool, n: nat, vs: seq<Translation>): seq<Line>
    decreases |ms|, 2
  {
    if ms == [] || ms[0].Terminate? then []
    else if Asks(ms[0], open) then [Line.Up(Question(AskText(ms[0].sql), ViaOf(ms[0])))] + Heard(ms, n, vs)
    else [Line.Up(Form(ms[0], Wording(ms[0]), n))] + Onwards(ms, open, n, vs)
  }

  function Onwards(ms: seq<ClientMsg>, open: bool, n: nat, vs: seq<Translation>): seq<Line>
    requires ms != []
    decreases |ms|, 0
  {
    Said(ms[1..], Unsynced(ms[0], open), if Numbered(ms[0]) then n + 1 else n, vs)
  }

  /** From the answer to the question about the first message on. */
  function Heard(ms: seq<ClientMsg>, n: nat, vs: seq<Translation>): seq<Line>
    requires ms != [] && Asks(ms[0], false)
    decreases |ms|, 1
  {
    if vs == [] || vs[0].Broken? then []
    else
      (match vs[0]
       case Sql(text) => [Line.Up(Form(ms[0], text, n))]
       case Refused(e, status) =>
         if ms[0].Query? then [Down(Reply(ForClient(n), ErrorText(e))), Down(Ready(ForClient(n), status))]
         else [Line.Up(Form(ms[0], AskText(ms[0].sql), n))])
      + Onwards(ms, false, n, vs[1..])
  }

  /** The same from a place within a message. */
  function Remaining(s: System, ms: seq<ClientMsg>, vs: seq<Translation>): seq<Line>
  {
    match s.up
    case Idle => Said(ms, s.unsynced, s.issued, vs)
    case Writing(r) => [Line.Up(r)] + Said(ms, s.unsynced, s.issued, vs)
    case WantAsk(sql, via) => Said([Statement(sql, via)] + ms, false, s.issued, vs)
    case WritingQuestion(sql, via) => Said([Statement(sql, via)] + ms, false, s.issued, vs)
    case WaitAnswer(sql, via) => Heard([Statement(sql, via)] + ms, s.issued, vs)
    case Got(v, sql, via) => Heard([Statement(sql, via)] + ms, s.issued, [v] + vs)
    case Done => []
  }

  /** While a question is about, no batch is open. */
  predicate Synced(s: System)
  {
    s.up.WantAsk? || s.up.WritingQuestion? || s.up.WaitAnswer? || s.up.Got? ==> !s.unsynced
  }

  lemma NothingUttered(s: System, a: Action)
    requires Enabled(s, a) && Next(s, a).inq == s.inq && Next(s, a).delivered == s.delivered
    ensures Uttered(s, a) == []
  {
  }

  lemma ReadUtters(s: System, m: ClientMsg, ms: seq<ClientMsg>, vs: seq<Translation>, t: System)
    requires s.up.Idle? && t == UpReads(s, m)
    ensures Remaining(t, ms, vs) == Remaining(s, [m] + ms, vs)
    ensures t.inq == s.inq && t.delivered == s.delivered && Synced(t)
  {
    var all := [m] + ms;
    assert all[0] == m && all[1..] == ms;
    if Asks(m, s.unsynced) {
      AskedUtters(s, m, all, vs, t);
    } else if m.Terminate? {
    } else {
      SentUtters(s, m, all, vs, t);
    }
  }

  lemma AskedUtters(s: System, m: ClientMsg, ms: seq<ClientMsg>, vs: seq<Translation>, t: System)
    requires s.up.Idle? && Asks(m, s.unsynced) && ms != [] && ms[0] == m && t == UpReads(s, m)
    ensures t == s.(up := WantAsk(m.sql, ViaOf(m))) && Remaining(t, ms[1..], vs) == Remaining(s, ms, vs)
  {
    var asked := [Statement(m.sql, ViaOf(m))] + ms[1..];
    assert asked[0] == Statement(m.sql, ViaOf(m)) && asked[1..] == ms[1..];
    SameHeard(ms, asked, s.issued, vs);
  }

  lemma SentUtters(s: System, m: ClientMsg, ms: seq<ClientMsg>, vs: seq<Translation>, t: System)
    requires s.up.Idle? && !Asks(m, s.unsynced) && !m.Terminate? && ms != [] && ms[0] == m && t == UpReads(s, m)
    ensures t.up.Writing? && t.inq == s.inq && t.delivered == s.delivered
    ensures Remaining(t, ms[1..], vs) == Remaining(s, ms, vs)
  {
    ReadForms(s, m, Wording(m), t);
    assert Onwards(ms, s.unsynced, s.issued, vs) == Said(ms[1..], t.unsynced, t.issued, vs);
  }

  lemma ReadForms(s: System, m: ClientMsg, text: string, t: System)
    requires s.up.Idle? && !m.Terminate? && !Asks(m, s.unsynced) && text == Wording(m) && t == UpReads(s, m)
    ensures t.up == Writing(Form(m, text, s.issued)) && t.unsynced == Unsynced(m, s.unsynced)
    ensures t.issued == if Numbered(m) then s.issued + 1 else s.issued
    ensures t.inq == s.inq && t.delivered == s.delivered
  {
    match m
    case Query(sql, fabric, copies) => ReadQuery(s, m, text, t);
    case Parse(sql, fabric, named) => ReadParse(s, m, text, t);
    case Extended(copy, closes) =>
    case Sync =>
    case FunctionCall =>
    case Flush =>
    case Other(part) =>
    case Terminate =>
  }

  lemma ReadQuery(s: System, m: ClientMsg, text: string, t: System)
    requires m.Query? && !Asks(m, s.unsynced) && text == Wording(m) && t == UpReads(s, m)
    ensures t == Count(s, false, text, if m.fabric then 0 else m.copies, Drops)
  {
  }

  lemma ReadParse(s: System, m: ClientMsg, text: string, t: System)
    requires m.Parse? && !Asks(m, s.unsynced) && text == Wording(m) && t == UpReads(s, m)
    ensures t == SendBatch(s, text, 0, ParseEffect(m.named))
  {
  }

  lemma SameHeard(ms: seq<ClientMsg>, ns: seq<ClientMsg>, n: nat, vs: seq<Translation>)
    requires ms != [] && ns != [] && ms[1..] == ns[1..] && Asks(ms[0], false) && ns[0] == Statement(ms[0].sql, ViaOf(ms[0]))
    ensures Heard(ms, n, vs) == Heard(ns, n, vs)
  {
  }

  lemma ActUtters(s: System, ms: seq<ClientMsg>, vs: seq<Translation>)
    requires s.up.Got? && !s.unsynced
    ensures var t := UpActs(s);
      && Remaining(s, ms, vs) == Messages(Added(s.delivered, t.delivered)) + Remaining(t, ms, vs)
      && t.inq == s.inq && Synced(t)
  {
    var m := Statement(s.up.sql, s.up.via);
    var all, us, t := [m] + ms, [s.up.translation] + vs, UpActs(s);
    assert all[0] == m && all[1..] == ms && us[0] == s.up.translation && us[1..] == vs;
    ActForms(s, t, m);
    if s.up.translation.Refused? && m.Query? {
      var own := [Reply(ForClient(s.issued), ErrorText(s.up.translation.error)), Ready(ForClient(s.issued), s.up.translation.status)];
      assert Added(s.delivered, t.delivered) == own;
      assert Messages(own) == [Down(own[0]), Down(own[1])];
      assert Remaining(t, ms, vs) == Onwards(all, false, s.issued, vs);
    } else {
      assert Messages(Added(s.delivered, t.delivered)) == [];
      assert [] + Remaining(t, ms, vs) == Remaining(t, ms, vs);
      if !t.up.Done? {
        assert Remaining(t, ms, vs) == [Line.Up(t.up.request)] + Onwards(all, false, s.issued, vs);
      }
    }
  }

  lemma ActForms(s: System, t: System, m: ClientMsg)
    requires s.up.Got? && !s.unsynced && t == UpActs(s) && m == Statement(s.up.sql, s.up.via)
    ensures t.inq == s.inq
    ensures match s.up.translation
      case Broken => t.up.Done? && t.delivered == s.delivered
      case Sql(text) => t.up == Writing(Form(m, text, s.issued)) && t.delivered == s.delivered
      case Refused(e, status) =>
        if m.Query? then
          t.up.Idle? && t.delivered == s.delivered + [Reply(ForClient(s.issued), ErrorText(e)), Ready(ForClient(s.issued), status)]
        else t.up == Writing(Form(m, AskText(m.sql), s.issued)) && t.delivered == s.delivered
    ensures !t.up.Done? ==> t.unsynced == Unsynced(m, false) && t.issued == if Numbered(m) then s.issued + 1 else s.issued
  {
    match s.up
    case Got(Sql(_), _, via) => if via.ViaParse? {} else {}
    case Got(Refused(_, _), _, via) => if via.ViaParse? {} else {}
    case Got(Broken, _, _) =>
  }

  lemma WriteUtters(s: System, ms: seq<ClientMsg>, vs: seq<Translation>)
    requires s.up.Writing? || s.up.WritingQuestion?
    ensures var t := UpWrites(s);
      Remaining(s, ms, vs) == Requests(Added(s.inq, t.inq)) + Remaining(t, ms, vs) && t.delivered == s.delivered
  {
    var t := UpWrites(s);
    var r := if s.up.Writing? then s.up.request else Question(AskText(s.up.sql), s.up.via);
    assert Added(s.inq, t.inq) == [r];
    assert Requests([r]) == [Line.Up(r)];
  }

  /** The answers, read. */
  ghost predicate AllMean(answers: seq<seq<ServerMsg>>, vs: seq<Translation>)
  {
    |vs| == |answers| && forall i :: 0 <= i < |vs| ==> Means(answers[i], vs[i])
  }

  /** One step: what it utters is the front of what remained. */
  lemma StepUtters(s: System, a: Action, ms: seq<ClientMsg>, vs: seq<Translation>, v: Translation)
    requires Enabled(s, a) && Synced(s) && (a.UpTake? ==> Means(s.locked.answer.value, v))
    ensures var before, after := Remaining(s, Reads([a]) + ms, if a.UpTake? then [v] + vs else vs), Remaining(Next(s, a), ms, vs);
      && Synced(Next(s, a))
      && if a.UpFail? then Uttered(s, a) + after == [] else before == Uttered(s, a) + after
  {
    assert Reads([a]) == if a.UpRead? then [a.m] else [];
    var t := Next(s, a);
    assert [] + ms == ms && [] + Remaining(t, ms, vs) == Remaining(t, ms, vs);
    match a
    case UpRead(m) => ReadUtters(s, m, ms, vs, t); NothingUttered(s, a);
    case UpWrite => WriteStep(s, ms, vs);
    case UpAct => ActStep(s, ms, vs);
    case UpTake => TakeStep(s, ms, vs, v);
    case UpAsk => NothingUttered(s, a);
    case UpFail => NothingUttered(s, a);
    case _ => OtherThreads(s, a, ms, vs);
  }

  lemma WriteStep(s: System, ms: seq<ClientMsg>, vs: seq<Translation>)
    requires Enabled(s, UpWrite) && Synced(s)
    ensures Remaining(s, ms, vs) == Uttered(s, UpWrite) + Remaining(Next(s, UpWrite), ms, vs) && Synced(Next(s, UpWrite))
  {
    WriteUtters(s, ms, vs);
    var new_ := Requests(Added(s.inq, Next(s, UpWrite).inq));
    assert new_ + Messages([]) == new_;
  }

  lemma ActStep(s: System, ms: seq<ClientMsg>, vs: seq<Translation>)
    requires Enabled(s, UpAct) && Synced(s)
    ensures Remaining(s, ms, vs) == Uttered(s, UpAct) + Remaining(Next(s, UpAct), ms, vs) && Synced(Next(s, UpAct))
  {
    ActUtters(s, ms, vs);
    var new_ := Messages(Added(s.delivered, Next(s, UpAct).delivered));
    assert Requests([]) + new_ == new_;
  }

  lemma TakeStep(s: System, ms: seq<ClientMsg>, vs: seq<Translation>, v: Translation)
    requires Enabled(s, UpTake) && Synced(s) && Means(s.locked.answer.value, v)
    ensures Remaining(s, ms, [v] + vs) == Remaining(Next(s, UpTake), ms, vs)
    ensures Uttered(s, UpTake) == [] && Synced(Next(s, UpTake))
  {
    AnswerIsRead(s.locked.answer.value);
    MeansOne(s.locked.answer.value, v, TranslationOf(s.locked.answer.value));
    NothingUttered(s, UpTake);
  }

  /** The client thread does not move. */
  lemma OtherThreads(s: System, a: Action, ms: seq<ClientMsg>, vs: seq<Translation>)
    requires Enabled(s, a) && !OfClientThread(a)
    ensures Remaining(Next(s, a), ms, vs) == Remaining(s, ms, vs)
    ensures Synced(s) ==> Synced(Next(s, a))
  {
    NotMoved(s, a, Next(s, a));
  }

  lemma NotMoved(s: System, a: Action, t: System)
    requires Enabled(s, a) && !OfClientThread(a) && t == Next(s, a)
    ensures t.up == s.up && t.unsynced == s.unsynced && t.issued == s.issued
  {
    match a
    case SrvEnd(_, _) =>
    case SrvAbsorb =>
    case _ =>
  }

  /** What the gateway utters in a run is what its messages and answers call for, from the first on; all of it when the
      client thread is between messages or waits for an answer. */
  lemma {:induction false} UttersInOrder(s: System, actions: seq<Action>, vs: seq<Translation>)
    requires Synced(s) && Runs(s, actions) && AllMean(Answers(s, actions), vs)
    ensures var said := Remaining(s, Reads(actions), vs);
      && Lines(s, actions) <= said
      && (After(s, actions).up.Idle? || After(s, actions).up.WaitAnswer? ==> Lines(s, actions) == said)
    decreases |actions|
  {
    if actions != [] {
      var a, rest := actions[0], actions[1..];
      var t := Next(s, a);
      var us := if a.UpTake? then vs[1..] else vs;
      var v := if a.UpTake? then vs[0] else Broken;
      AnswersSplit(s, actions, vs, us, v);
      StepUtters(s, a, Reads(rest), us, v);
      UttersInOrder(t, rest, us);
      if a.UpFail? {
        DoneStays(t, rest);
      }
      FrontFirst(Uttered(s, a), Lines(t, rest), Remaining(t, Reads(rest), us));
    }
  }

  lemma FrontFirst<T>(a: seq<T>, b: seq<T>, c: seq<T>)
    requires b <= c
    ensures a + b <= a + c
  {
  }

  lemma AnswersSplit(s: System, actions: seq<Action>, vs: seq<Translation>, us: seq<Translation>, v: Translation)
    requires actions != [] && Runs(s, actions) && AllMean(Answers(s, actions), vs)
    requires us == (if actions[0].UpTake? then vs[1..] else vs) && v == (if actions[0].UpTake? && vs != [] then vs[0] else Broken)
    ensures AllMean(Answers(Next(s, actions[0]), actions[1..]), us)
    ensures Reads(actions) == Reads([actions[0]]) + Reads(actions[1..])
    ensures actions[0].UpTake? ==> vs == [v] + us && Means(s.locked.answer.value, v)
  {
    var a := actions[0];
    assert Reads([a]) == if a.UpRead? then [a.m] else [];
    var first := if a.UpTake? then [s.locked.answer.value] else [];
    assert Answers(s, actions) == first + Answers(Next(s, a), actions[1..]);
    MeanSplit(first, Answers(Next(s, a), actions[1..]), vs);
  }

  lemma MeanSplit(first: seq<seq<ServerMsg>>, rest: seq<seq<ServerMsg>>, vs: seq<Translation>)
    requires |first| <= 1 && AllMean(first + rest, vs)
    ensures AllMean(rest, vs[|first|..])
    ensures |first| == 1 ==> vs == [vs[0]] + vs[1..] && Means(first[0], vs[0])
  {
    var all := first + rest;
    assert forall i :: 0 <= i < |rest| ==> rest[i] == all[i + |first|];
    assert |first| == 1 ==> all[0] == first[0];
  }

  lemma {:induction false} DoneStays(s: System, actions: seq<Action>)
    requires Runs(s, actions) && s.up.Done?
    ensures After(s, actions).up.Done?
    decreases |actions|
  {
    if actions != [] {
      NotMoved(s, actions[0], Next(s, actions[0]));
      DoneStays(Next(s, actions[0]), actions[1..]);
    }
  }

  /** From the start. */
  lemma TextsAreCalledFor(actions: seq<Action>, vs: seq<Translation>)
    requires Runs(Init(), actions) && AllMean(Answers(Init(), actions), vs)
    ensures var said := Said(Reads(actions), false, 0, vs);
      && Lines(Init(), actions) <= said
      && (After(Init(), actions).up.Idle? || After(Init(), actions).up.WaitAnswer? ==> Lines(Init(), actions) == said)
  {
    UttersInOrder(Init(), actions, vs);
  }
}
