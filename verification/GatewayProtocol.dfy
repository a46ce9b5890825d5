/**
 The SQL gateway as a transition system: the thread that reads the client, the
 thread that reads the server, and a server that answers in order.

 The server follows the "Message Flow" chapter of the PostgreSQL
 Frontend/Backend Protocol 3.0: one ReadyForQuery ends each Query, Sync and
 FunctionCall; after an error in an extended-query batch everything up to the
 next Sync is discarded, a Query or FunctionCall among it included; while a COPY
 reads from the client, Flush and Sync are ignored and any other message that is
 no copy data ends it with an error; notices, parameter changes and notifications
 may come at any time.  The unnamed prepared statement lives until the next Parse of
 it, its Close, or a simple Query.
 */
module GatewayProtocol {
  import opened Options
  import DollarQuote

  /** Whose conversation a message of the server belongs to. */
  datatype Owner = ForStartup | ForClient(id: nat) | ForBatch | ForQuestion

  datatype Payload = RowData(sql: string) | ErrorText(text: string) | Opaque

  datatype ServerMsg =
    | Async(payload: Payload)
    | Reply(owner: Owner, payload: Payload)
    | Ready(owner: Owner, status: char)

  /** What the client sends, as the gateway and the server tell messages apart.  `fabric` is the verdict on the SQL text,
      `copies` how many statements of it are a COPY FROM STDIN; `named` says that the prepared statement has a name;
      `copy` marks the Execute of a COPY FROM STDIN, `closes` the Close of the unnamed statement. */
  datatype ClientMsg =
    | Query(sql: string, fabric: bool, copies: nat)
    | Parse(sql: string, fabric: bool, named: bool)
    | Extended(copy: bool, closes: bool)
    | Flush
    | Sync
    | FunctionCall
    | Terminate
    | Other(part: Part)

  /** What a message without a reply of its own means to a COPY: nothing or more data, its end, its failure. */
  datatype Part = Plain | CopyDone | CopyFail

  /** What a message does to the unnamed prepared statement of the session. */
  datatype Effect = Spares | Drops | Makes

  /** The message of the client a question is about. */
  datatype Via = ViaQuery | ViaParse(named: bool)

  /** What the gateway sends on.  `Silent` messages (Flush, COPY data, passwords) get no reply of their own.  `copies` are
      the COPY statements still to read from the client. */
  datatype Request =
    | Question(statement: string, via: Via)
    | Counted(id: nat, sync: bool, text: string, copies: nat, effect: Effect)
    | Batch(text: string, copies: nat, effect: Effect)
    | Silent(part: Part)

  // ---------------------------------------------------------------- the shared state

  /** The fields behind the mutex. */
  datatype Locked = Locked(awaiting: nat, asking: bool, captured: seq<ServerMsg>, answer: Option<seq<ServerMsg>>, closed: bool)

  /** The critical section of the server thread: the new state, and whether the message is the client's. */
  function Receive(st: Locked, m: ServerMsg): (Locked, bool)
  {
    if st.asking && !m.Async? then
      var captured := st.captured + [m];
      if m.Ready? then (st.(asking := false, answer := Some(captured), captured := []), false)
      else (st.(captured := captured), false)
    else if m.Ready? then (st.(awaiting := if st.awaiting > 0 then st.awaiting - 1 else 0), true)
    else (st, true)
  }

  datatype Translation = Sql(text: string) | Refused(error: string, status: char) | Broken

  /** The transaction status after the answer: that of its last ReadyForQuery. */
  function StatusOf(answer: seq<ServerMsg>): char
  {
    if answer == [] then 'I'
    else if answer[|answer| - 1].Ready? then answer[|answer| - 1].status
    else StatusOf(answer[..|answer| - 1])
  }

  function FirstError(answer: seq<ServerMsg>): Option<string>
  {
    if answer == [] then None
    else if answer[0].Reply? && answer[0].payload.ErrorText? then Some(answer[0].payload.text)
    else FirstError(answer[1..])
  }

  function FirstRow(answer: seq<ServerMsg>): Option<string>
  {
    if answer == [] then None
    else if answer[0].Reply? && answer[0].payload.RowData? then Some(answer[0].payload.sql)
    else FirstRow(answer[1..])
  }

  /** How `ask` reads its answer. */
  function TranslationOf(answer: seq<ServerMsg>): Translation
  {
    if FirstError(answer).Some? then Refused(FirstError(answer).value, StatusOf(answer))
    else if FirstRow(answer).Some? then Sql(FirstRow(answer).value)
    else Broken
  }

  // ---------------------------------------------------------------- the whole system

  /** Where the client thread stands.  `via` says what the statement came in. */
  datatype Up =
    | Idle
    | Writing(request: Request)
    | WantAsk(sql: string, via: Via)
    | WritingQuestion(sql: string, via: Via)
    | WaitAnswer(sql: string, via: Via)
    | Got(translation: Translation, sql: string, via: Via)
    | Done

  datatype System = System(
    locked: Locked,
    up: Up,
    unsynced: bool,
    held: Option<ServerMsg>,
    delivered: seq<ServerMsg>,
    inq: seq<Request>,
    current: Option<Request>,
    outq: seq<ServerMsg>,
    skipping: bool,
    copying: bool,
    unnamed: bool,
    issued: nat,
    lost: set<nat>,
    startup: bool)

  /** After the StartupMessage: one ReadyForQuery is owed, and the server is working on it. */
  function Init(): System
  {
    System(Locked(1, false, [], None, false), Idle, false, None, [], [], None, [], false, false, false, 0, {}, true)
  }

  datatype Action =
    | UpRead(m: ClientMsg)
    | UpWrite
    | UpAsk
    | UpTake
    | UpAct
    | UpFail
    | DownRead
    | DownWrite
    | SrvBegin
    | SrvReply(payload: Payload)
    | SrvAsync(payload: Payload)
    | SrvCopyIn
    | SrvAbsorb
    | SrvEnd(status: char, fails: bool)
    | Close

  function Fallback(sql: string): string
  {
    "SELECT * FROM og_fabric(" + DollarQuote.Quoted(sql) + ")"
  }

  function AskText(sql: string): string
  {
    "SELECT og_fabric_translate(" + DollarQuote.Quoted(sql) + ")"
  }

  function Count(s: System, sync: bool, text: string, copies: nat, effect: Effect): System
  {
    s.(locked := s.locked.(awaiting := s.locked.awaiting + 1), up := Writing(Counted(s.issued, sync, text, copies, effect)),
       issued := s.issued + 1)
  }

  function SendBatch(s: System, text: string, copies: nat, effect: Effect): System
  {
    s.(up := Writing(Batch(text, copies, effect)), unsynced := true)
  }

  function ParseEffect(named: bool): Effect
  {
    if named then Spares else Makes
  }

  function UpReads(s: System, m: ClientMsg): System
  {
    match m
    case Query(sql, fabric, copies) =>
      if !fabric then Count(s, false, sql, copies, Drops)
      else if s.unsynced then Count(s, false, Fallback(sql), 0, Drops)
      else s.(up := WantAsk(sql, ViaQuery))
    case Parse(sql, fabric, named) =>
      if !fabric then SendBatch(s, sql, 0, ParseEffect(named))
      else if s.unsynced then SendBatch(s, Fallback(sql), 0, ParseEffect(named))
      else s.(up := WantAsk(sql, ViaParse(named)))
    case Sync => Count(s.(unsynced := false), true, "", 0, Spares)
    case FunctionCall => Count(s, false, "", 0, Spares)
    case Terminate => s.(up := Done)
    case Extended(copy, closes) => SendBatch(s, "", if copy then 1 else 0, if closes then Drops else Spares)
    case Flush => s.(up := Writing(Silent(Plain)), unsynced := true)
    case Other(part) => s.(up := Writing(Silent(part)))
  }

  function UpActs(s: System): System
    requires s.up.Got?
  {
    match s.up
    case Got(Sql(t), _, ViaQuery) => Count(s, false, t, 0, Drops)
    case Got(Refused(e, status), _, ViaQuery) =>
      s.(up := Idle, issued := s.issued + 1,
         delivered := s.delivered + [Reply(ForClient(s.issued), ErrorText(e)), Ready(ForClient(s.issued), status)])
    case Got(Sql(t), _, ViaParse(named)) => SendBatch(s, t, 0, ParseEffect(named))
    case Got(Refused(_, _), sql, ViaParse(named)) => SendBatch(s, AskText(sql), 0, ParseEffect(named))
    case Got(Broken, _, _) => s.(up := Done)
  }

  /** The owner whose replies the server is producing. */
  function Working(s: System): Option<Owner>
  {
    if s.startup then Some(ForStartup)
    else match s.current
      case None => None
      case Some(Question(_, _)) => Some(ForQuestion)
      case Some(Counted(id, _, _, _, _)) => Some(ForClient(id))
      case Some(Batch(_, _, _)) => Some(ForBatch)
      case Some(Silent(_)) => None
  }

  predicate IsSync(r: Request)
  {
    r.Counted? && r.sync
  }

  /** The COPY statements of a request still to read from the client. */
  function Left(r: Request): nat
  {
    if r.Counted? || r.Batch? then r.copies else 0
  }

  /** The same request with `copies` COPY statements left. */
  function With(r: Request, copies: nat): Request
  {
    match r
    case Counted(id, sync, text, _, effect) => Counted(id, sync, text, copies, effect)
    case Batch(text, _, effect) => Batch(text, copies, effect)
    case _ => r
  }

  /** What the server does with a message while a COPY reads from the client. */
  function Copying(s: System, r: Request): System
    requires s.current.Some?
  {
    var s1 := if r.Counted? then s.(lost := s.lost + {r.id}) else s;
    if r == Silent(Plain) || IsSync(r) then s1
    else if r == Silent(CopyDone) then
      s1.(copying := false, current := Some(With(s.current.value, if Left(s.current.value) > 0 then Left(s.current.value) - 1 else 0)))
    else if s.current.value.Batch? then s1.(copying := false, current := None, skipping := true)
    else s1.(copying := false, current := Some(With(s.current.value, 0)))
  }

  /** Whether there is an unnamed statement once `r` is taken up: a simple Query takes it away, the gateway's question
      is one, and a Parse of it starts with nothing. */
  function Kept(unnamed: bool, r: Request): bool
  {
    unnamed && (r.Silent? || (!r.Question? && r.effect.Spares?))
  }

  predicate Enabled(s: System, a: Action)
  {
    match a
    case UpRead(_) => s.up.Idle?
    case UpWrite => s.up.Writing? || s.up.WritingQuestion?
    case UpAsk => s.up.WantAsk? && s.locked.awaiting == 0 && !s.locked.closed
    case UpTake => s.up.WaitAnswer? && s.locked.answer.Some?
    case UpAct => s.up.Got?
    case UpFail => s.locked.closed && (s.up.WantAsk? || (s.up.WaitAnswer? && s.locked.answer.None?))
    case DownRead => s.held.None? && s.outq != [] && !s.locked.closed
    case DownWrite => s.held.Some?
    case SrvBegin => !s.startup && s.current.None? && s.inq != []
    case SrvReply(_) => Working(s).Some?
    case SrvAsync(_) => true
    case SrvCopyIn => !s.startup && s.current.Some? && Left(s.current.value) > 0 && !s.copying
    case SrvAbsorb => s.inq != [] && if s.startup then s.inq[0].Silent? else s.copying && s.current.Some?
    case SrvEnd(_, fails) =>
      s.startup || (s.current.Some? && (s.current.value.Batch? && (s.copying || Left(s.current.value) > 0) ==> fails))
    case Close => true
  }

  /** The request at work ends: with its ReadyForQuery, or as one message of a batch. */
  function Ended(s: System, status: char, fails: bool): System
    requires s.current.Some?
  {
    if s.current.value.Counted? then s.(current := None, outq := s.outq + [Ready(ForClient(s.current.value.id), status)])
    else if s.current.value.Question? then s.(current := None, outq := s.outq + [Ready(ForQuestion, status)])
    else
      var batch := s.current.value.Batch?;
      s.(current := None, skipping := s.skipping || (fails && batch),
         unnamed := s.unnamed || (batch && !fails && s.current.value.effect.Makes?))
  }

  function UpWrites(s: System): System
    requires s.up.Writing? || s.up.WritingQuestion?
  {
    if s.up.Writing? then s.(inq := s.inq + [s.up.request], up := Idle)
    else s.(inq := s.inq + [Question(AskText(s.up.sql), s.up.via)], up := WaitAnswer(s.up.sql, s.up.via))
  }

  function UpAsks(s: System): System
    requires s.up.WantAsk?
  {
    s.(locked := s.locked.(asking := true, answer := None), up := WritingQuestion(s.up.sql, s.up.via))
  }

  function UpTakes(s: System): System
    requires s.up.WaitAnswer? && s.locked.answer.Some?
  {
    s.(locked := s.locked.(answer := None), up := Got(TranslationOf(s.locked.answer.value), s.up.sql, s.up.via))
  }

  function DownReads(s: System): System
    requires s.outq != []
  {
    var (locked, forward) := Receive(s.locked, s.outq[0]);
    s.(locked := locked, outq := s.outq[1..], held := if forward then Some(s.outq[0]) else None)
  }

  function SrvBegins(s: System): System
    requires s.inq != []
  {
    var r := s.inq[0];
    if s.skipping && !IsSync(r) then
      s.(inq := s.inq[1..], lost := if r.Counted? then s.lost + {r.id} else s.lost)
    else
      s.(inq := s.inq[1..], current := Some(r), skipping := s.skipping && !IsSync(r), unnamed := Kept(s.unnamed, r))
  }

  function SrvAbsorbs(s: System): System
    requires s.inq != [] && (s.startup || s.current.Some?)
  {
    if s.startup then s.(inq := s.inq[1..]) else Copying(s.(inq := s.inq[1..]), s.inq[0])
  }

  function SrvEnds(s: System, status: char, fails: bool): System
    requires s.startup || s.current.Some?
  {
    if s.startup then s.(startup := false, outq := s.outq + [Ready(ForStartup, status)])
    else Ended(s.(copying := false), status, fails)
  }

  function Next(s: System, a: Action): System
    requires Enabled(s, a)
  {
    match a
    case UpRead(m) => UpReads(s, m)
    case UpWrite => UpWrites(s)
    case UpAsk => UpAsks(s)
    case UpTake => UpTakes(s)
    case UpAct => UpActs(s)
    case UpFail => s.(up := Done)
    case DownRead => DownReads(s)
    case DownWrite => s.(delivered := s.delivered + [s.held.value], held := None)
    case SrvBegin => SrvBegins(s)
    case SrvReply(p) => s.(outq := s.outq + [Reply(Working(s).value, p)])
    case SrvAsync(p) => s.(outq := s.outq + [Async(p)])
    case SrvCopyIn => s.(copying := true)
    case SrvAbsorb => SrvAbsorbs(s)
    case SrvEnd(status, fails) => SrvEnds(s, status, fails)
    case Close => s.(locked := s.locked.(closed := true))
  }

  /** A run: every action enabled where it is taken. */
  ghost predicate Runs(s: System, actions: seq<Action>)
    decreases |actions|
  {
    actions == [] || (Enabled(s, actions[0]) && Runs(Next(s, actions[0]), actions[1..]))
  }

  ghost function After(s: System, actions: seq<Action>): System
    requires Runs(s, actions)
    decreases |actions|
  {
    if actions == [] then s else After(Next(s, actions[0]), actions[1..])
  }
}
