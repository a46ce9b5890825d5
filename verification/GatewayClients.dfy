/** What a client can rely on: exactly which scripts lose no request, and which keep their prepared statement. */
module GatewayClients {
  import opened Options
  import opened GatewayProtocol
  import opened GatewaySafety
  import opened Gateway
  import opened GatewayScripts
  import opened GatewayLosses

  /** A script loses nothing in any run exactly if it is polite. */
  lemma PoliteExactly(script: seq<ClientMsg>)
    ensures Polite(script) <==> LosesNothing(script)
  {
    if Polite(script) {
      PoliteLosesNothing(script);
    } else {
      var actions := UnsafeRun(LostRequest, script);
    }
  }

  /** The gateway's questions leave the client's unnamed statement alone in every run of a script exactly if no named Parse
      of a statement of the engine comes, between batches, where the session may have one. */
  lemma UnrobbedExactly(script: seq<ClientMsg>)
    ensures Unrobbed(script) <==> LeavesStatements(script)
  {
    if Unrobbed(script) {
      UnrobbedKeepsStatements(script);
    } else {
      var actions := UnsafeRun(TakenStatement, script);
    }
  }

  /** A client that prepares the unnamed statement and, its batch done, a named one of the engine's: whatever it sends
      after that, the gateway may have taken the first from it. */
  lemma StatementTaken(first: string, second: string, rest: seq<ClientMsg>)
    ensures !LeavesStatements([Parse(first, false, false), Sync, Parse(second, true, true)] + rest)
  {
    var a, b, c := Parse(first, false, false), Sync, Parse(second, true, true);
    var script := [a, b, c] + rest;
    assert script[0] == a && script[1..] == [b, c] + rest && script[1..][1..] == [c] + rest;
    assert AtRest in Steps(AtRest, Sent(a)) && HeldAfter(AtRest, false, Sent(a), AtRest);
    assert AtRest in Steps(AtRest, Sent(b)) && HeldAfter(AtRest, true, Sent(b), AtRest);
    assert !Safe(TakenStatement, [c] + rest, false, AtRest, true);
    assert !Safe(TakenStatement, [b, c] + rest, true, AtRest, true);
    UnrobbedExactly(script);
  }

  /** A polite client gets a ReadyForQuery for every one of its requests, and the counter is exact. */
  lemma PoliteGetsEverything(script: seq<ClientMsg>, actions: seq<Action>)
    requires Polite(script) && Runs(Init(), actions) && Reads(actions) <= script
    ensures var s := After(Init(), actions);
      && s.locked.awaiting == |Owed(Pipeline(s))|
      && (Pipeline(s) == [] && Quiet(s.held) ==> Visible(s.delivered) == Expected(s.issued, {}))
  {
    PoliteLosesNothing(script);
    RepliesInOrder(After(Init(), actions));
    AwaitingCounts(After(Init(), actions));
  }

  // ---------------------------------------------------------------- clients without COPY

  predicate NoCopy(m: ClientMsg)
  {
    (m.Query? ==> m.fabric || m.copies == 0) && (m.Extended? ==> !m.copy)
  }

  /** No Query and no FunctionCall comes between a batch message and the next Sync; `open` says that one is open. */
  predicate Apart(script: seq<ClientMsg>, open: bool)
  {
    || script == []
    || match script[0]
       case Terminate => true
       case Query(_, _, _) => !open && Apart(script[1..], false)
       case FunctionCall => !open && Apart(script[1..], false)
       case Sync => Apart(script[1..], false)
       case Parse(_, _, _) => Apart(script[1..], true)
       case Extended(_, _) => Apart(script[1..], true)
       case Flush => Apart(script[1..], open)
       case Other(_) => Apart(script[1..], open)
  }

  lemma {:induction false} ApartIsSafe(script: seq<ClientMsg>, unsynced: bool, open: bool, held: bool)
    requires (forall m :: m in script ==> NoCopy(m)) && (open ==> unsynced)
    ensures Apart(script, open) <==>
      Safe(LostRequest, script, unsynced, AtRest, held) && (open ==> Safe(LostRequest, script, unsynced, Skipping, held))
  {
    if script != [] && !script[0].Terminate? {
      var m := script[0];
      var u, rest := Unsynced(m, unsynced), script[1..];
      var batch := m.Parse? || m.Extended?;
      var open' := !m.Sync? && (batch || open);
      assert NoCopy(m) && forall x :: x in rest ==> NoCopy(x);
      assert Left(Sent(m)) == 0;
      assert Steps(AtRest, Sent(m)) == if batch then {AtRest, Skipping} else {AtRest};
      assert Steps(Skipping, Sent(m)) == if m.Sync? then {AtRest} else {Skipping};
      forall mode, next | next in Steps(mode, Sent(m))
        ensures Safe(LostRequest, rest, u, next, HeldAfter(mode, held, Sent(m), next)) == Safe(LostRequest, rest, u, next, false)
      {
        LossEitherWay(rest, u, next, HeldAfter(mode, held, Sent(m), next));
      }
      ApartIsSafe(rest, u, open', false);
      ApartIsSafe(rest, u, false, false);
    }
  }

  lemma LossEitherWay(script: seq<ClientMsg>, unsynced: bool, mode: Mode, held: bool)
    ensures Safe(LostRequest, script, unsynced, mode, held) == Safe(LostRequest, script, unsynced, mode, false)
  {
    if Safe(LostRequest, script, unsynced, mode, held) {
      LossIgnoresHeld(script, unsynced, mode, held, false);
    } else if Safe(LostRequest, script, unsynced, mode, false) {
      LossIgnoresHeld(script, unsynced, mode, false, held);
    }
  }

  /** Without COPY a client loses nothing exactly if it waits for its Sync before a Query or a FunctionCall. */
  lemma NoCopyExactly(script: seq<ClientMsg>)
    requires forall m :: m in script ==> NoCopy(m)
    ensures LosesNothing(script) <==> Apart(script, false)
  {
    ApartIsSafe(script, false, false, false);
    PoliteExactly(script);
  }

  predicate NoClose(m: ClientMsg)
  {
    m.Extended? ==> !m.closes
  }

  /** No named Parse of a statement of the engine comes between batches while an unnamed statement may be there: one was
      parsed since the last Query; `held` says so. */
  predicate Considerate(script: seq<ClientMsg>, unsynced: bool, held: bool)
  {
    || script == []
    || script[0].Terminate?
    || (&& !Robs(script[0], unsynced, held)
        && Considerate(script[1..], Unsynced(script[0], unsynced),
             if script[0].Query? then false else held || (script[0].Parse? && !script[0].named)))
  }

  /** With fewer statements there is less to take. */
  lemma {:induction false} HeldIsWorse(script: seq<ClientMsg>, unsynced: bool, mode: Mode)
    requires Safe(TakenStatement, script, unsynced, mode, true)
    ensures Safe(TakenStatement, script, unsynced, mode, false)
  {
    if script != [] && !script[0].Terminate? && !(Asks(script[0], unsynced) && mode != AtRest) && !Loses(mode, Sent(script[0])) {
      var r, u := Sent(script[0]), Unsynced(script[0], unsynced);
      forall next | next in Steps(mode, r) ensures Safe(TakenStatement, script[1..], u, next, HeldAfter(mode, false, r, next)) {
        if HeldAfter(mode, false, r, next) != HeldAfter(mode, true, r, next) {
          HeldIsWorse(script[1..], u, next);
        }
      }
    }
  }

  /** Skipping to the Sync does not add to what may be taken. */
  lemma {:induction false} SkippingIsNoWorse(script: seq<ClientMsg>)
    requires Apart(script, true) && Safe(TakenStatement, script, true, AtRest, true)
    requires forall m :: m in script ==> NoCopy(m) && NoClose(m)
    ensures Safe(TakenStatement, script, true, Skipping, true)
  {
    if script != [] && !script[0].Terminate? {
      var m, rest := script[0], script[1..];
      assert NoCopy(m) && NoClose(m) && forall x :: x in rest ==> x in script;
      assert Left(Sent(m)) == 0;
      assert AtRest in Steps(AtRest, Sent(m)) && HeldAfter(AtRest, true, Sent(m), AtRest);
      assert Steps(Skipping, Sent(m)) == if m.Sync? then {AtRest} else {Skipping};
      if !m.Sync? {
        SkippingIsNoWorse(rest);
      }
    }
  }

  lemma {:induction false} ConsiderateIsSafe(script: seq<ClientMsg>, unsynced: bool, open: bool, held: bool)
    requires Apart(script, open) && (open ==> unsynced)
    requires forall m :: m in script ==> NoCopy(m) && NoClose(m)
    ensures Considerate(script, unsynced, held) <==>
      Safe(TakenStatement, script, unsynced, AtRest, held) && (open ==> Safe(TakenStatement, script, unsynced, Skipping, held))
  {
    if script != [] && !script[0].Terminate? {
      var m := script[0];
      var u, rest := Unsynced(m, unsynced), script[1..];
      var batch := m.Parse? || m.Extended?;
      var open', held' := !m.Sync? && (batch || open), if m.Query? then false else held || (m.Parse? && !m.named);
      assert NoCopy(m) && NoClose(m) && forall x :: x in rest ==> x in script;
      assert Left(Sent(m)) == 0;
      assert Steps(AtRest, Sent(m)) == if batch then {AtRest, Skipping} else {AtRest};
      assert Steps(Skipping, Sent(m)) == if m.Sync? then {AtRest} else {Skipping};
      assert HeldAfter(AtRest, held, Sent(m), AtRest) == held';
      ConsiderateIsSafe(rest, u, open', held');
      if m.Parse? && !m.named {
        if Safe(TakenStatement, rest, true, AtRest, true) {
          SkippingIsNoWorse(rest);
          HeldIsWorse(rest, true, Skipping);
        }
      }
    }
  }

  /** Without COPY, without Close of the unnamed statement, and with every Sync waited for, the gateway leaves the unnamed
      statement alone exactly if the client is considerate. */
  lemma ConsiderateExactly(script: seq<ClientMsg>)
    requires Apart(script, false) && forall m :: m in script ==> NoCopy(m) && NoClose(m)
    ensures LeavesStatements(script) <==> Considerate(script, false, false)
  {
    ConsiderateIsSafe(script, false, false, false);
    UnrobbedExactly(script);
  }

  // ---------------------------------------------------------------- two clients that lose

  const RUDE_CLIENT := [UpRead(Parse("bad", false, true)), UpWrite, UpRead(Query("q", false, 0)), UpWrite]
  const HARSH_SERVER := [SrvBegin, SrvEnd('I', true), SrvBegin]

  function RudeSent(): System
  {
    Init().(locked := Locked(2, false, [], None, false), unsynced := true, issued := 1, startup := false,
            inq := [Batch("bad", 0, Spares), Counted(0, false, "q", 0, Drops)], outq := [Ready(ForStartup, 'I')])
  }

  lemma RudeClient()
    ensures var s := Next(Init(), SrvEnd('I', false)); Runs(s, RUDE_CLIENT) && After(s, RUDE_CLIENT) == RudeSent()
  {
    var s0, acts := Next(Init(), SrvEnd('I', false)), RUDE_CLIENT;
    var s1 := Next(s0, acts[0]);
    var s2 := Next(s1, acts[1]);
    var s3 := Next(s2, acts[2]);
    RunOne(s3, acts[3..]);
    RunOne(s2, acts[2..]);
    RunOne(s1, acts[1..]);
    RunOne(s0, acts);
  }

  /** A Query inside a failed batch is lost: no ReadyForQuery will come for it, and the counter keeps waiting. */
  lemma RudeLoses()
    ensures var s := Next(Init(), SrvEnd('I', false)); Runs(s, RUDE_CLIENT) && After(s, RUDE_CLIENT) == RudeSent()
    ensures Runs(RudeSent(), HARSH_SERVER)
    ensures var s := After(RudeSent(), HARSH_SERVER);
      s.lost == {0} && s.inq == [] && s.current.None? && s.up.Idle? && s.outq == [Ready(ForStartup, 'I')] && s.locked.awaiting == 2
  {
    RudeClient();
    var s0, acts := RudeSent(), HARSH_SERVER;
    var s1 := Next(s0, acts[0]);
    var s2 := Next(s1, acts[1]);
    RunOne(s2, acts[2..]);
    RunOne(s1, acts[1..]);
    RunOne(s0, acts);
  }

  /** A client that sends its Sync right after the Execute of a COPY, and another after the data. */
  const COPY_CLIENT := [UpRead(Extended(true, false)), UpWrite, UpRead(Sync), UpWrite, UpRead(Other(CopyDone)), UpWrite, UpRead(Sync), UpWrite]
  const COPY_SERVER := [SrvBegin, SrvCopyIn, SrvAbsorb, SrvAbsorb, SrvEnd('I', false), SrvBegin, SrvEnd('I', false)]

  function CopySent(): System
  {
    Init().(locked := Locked(3, false, [], None, false), issued := 2, startup := false, outq := [Ready(ForStartup, 'I')],
            inq := [Batch("", 1, Spares), Counted(0, true, "", 0, Spares), Silent(CopyDone), Counted(1, true, "", 0, Spares)])
  }

  /** Half of it sent. */
  function CopyBegun(): System
  {
    Init().(locked := Locked(2, false, [], None, false), issued := 1, startup := false, outq := [Ready(ForStartup, 'I')],
            inq := [Batch("", 1, Spares), Counted(0, true, "", 0, Spares)])
  }

  lemma CopyBegins()
    ensures var s := Next(Init(), SrvEnd('I', false)); Runs(s, COPY_CLIENT[..4]) && After(s, COPY_CLIENT[..4]) == CopyBegun()
  {
    var s0, acts := Next(Init(), SrvEnd('I', false)), COPY_CLIENT[..4];
    var s1 := Next(s0, acts[0]);
    var s2 := Next(s1, acts[1]);
    var s3 := Next(s2, acts[2]);
    RunOne(s3, acts[3..]);
    RunOne(s2, acts[2..]);
    RunOne(s1, acts[1..]);
    RunOne(s0, acts);
  }

  lemma CopyGoesOn()
    ensures Runs(CopyBegun(), COPY_CLIENT[4..]) && After(CopyBegun(), COPY_CLIENT[4..]) == CopySent()
  {
    var s0, acts := CopyBegun(), COPY_CLIENT[4..];
    var s1 := Next(s0, acts[0]);
    var s2 := Next(s1, acts[1]);
    var s3 := Next(s2, acts[2]);
    RunOne(s3, acts[3..]);
    RunOne(s2, acts[2..]);
    RunOne(s1, acts[1..]);
    RunOne(s0, acts);
  }

  lemma CopyClient()
    ensures var s := Next(Init(), SrvEnd('I', false)); Runs(s, COPY_CLIENT) && After(s, COPY_CLIENT) == CopySent()
  {
    CopyBegins();
    CopyGoesOn();
    RunsJoin(Next(Init(), SrvEnd('I', false)), COPY_CLIENT[..4], COPY_CLIENT[4..]);
    assert COPY_CLIENT[..4] + COPY_CLIENT[4..] == COPY_CLIENT;
  }

  /** The COPY has read the Sync and its end. */
  function CopyRead(): System
  {
    CopySent().(current := Some(Batch("", 0, Spares)), inq := [Counted(1, true, "", 0, Spares)], lost := {0})
  }

  lemma CopyReads()
    ensures Runs(CopySent(), COPY_SERVER[..4]) && After(CopySent(), COPY_SERVER[..4]) == CopyRead()
  {
    var s0, acts := CopySent(), COPY_SERVER[..4];
    var s1 := Next(s0, acts[0]);
    var s2 := Next(s1, acts[1]);
    var s3 := Next(s2, acts[2]);
    assert s3 == s2.(inq := [Silent(CopyDone), Counted(1, true, "", 0, Spares)], lost := {0});
    RunOne(s3, acts[3..]);
    RunOne(s2, acts[2..]);
    RunOne(s1, acts[1..]);
    RunOne(s0, acts);
  }

  lemma CopyEnds()
    ensures Runs(CopyRead(), COPY_SERVER[4..])
    ensures After(CopyRead(), COPY_SERVER[4..]) ==
      CopyRead().(current := None, inq := [], outq := [Ready(ForStartup, 'I'), Ready(ForClient(1), 'I')])
  {
    var s0, acts := CopyRead(), COPY_SERVER[4..];
    var s1 := Next(s0, acts[0]);
    var s2 := Next(s1, acts[1]);
    RunOne(s2, acts[2..]);
    RunOne(s1, acts[1..]);
    RunOne(s0, acts);
  }

  /** The first Sync is read by the COPY: two ReadyForQuery come where the counter waits for three. */
  lemma CopySyncLoses()
    ensures var s := Next(Init(), SrvEnd('I', false)); Runs(s, COPY_CLIENT) && After(s, COPY_CLIENT) == CopySent()
    ensures Runs(CopySent(), COPY_SERVER)
    ensures var s := After(CopySent(), COPY_SERVER);
      && s.lost == {0} && s.inq == [] && s.current.None? && s.up.Idle? && s.locked.awaiting == 3
      && s.outq == [Ready(ForStartup, 'I'), Ready(ForClient(1), 'I')]
  {
    CopyClient();
    CopyReads();
    CopyEnds();
    RunsJoin(CopySent(), COPY_SERVER[..4], COPY_SERVER[4..]);
    assert COPY_SERVER[..4] + COPY_SERVER[4..] == COPY_SERVER;
  }
}
