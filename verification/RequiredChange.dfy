/**
 `set_required`: a NOT VALID check refuses new nulls while the old ones are
 filled, then the column becomes NOT NULL.
 */
module RequiredChange {
  import opened Options
  import opened SchemaPhases

  type Column<V> = map<RowId, Option<V>>

  /** `Touch` updates other columns of the row. */
  datatype Write<V> = Insert(id: RowId, v: Option<V>) | Update(id: RowId, v: Option<V>) | Touch(id: RowId) | Delete(id: RowId)

  /** One statement; the check looks at every row inserted or updated, whichever columns change.  None where it fails. */
  function Apply<V>(checked: bool, t: Column<V>, write: Write<V>): Option<Column<V>>
  {
    match write
    case Insert(id, v) => if id in t || (checked && v.None?) then None else Some(t[id := v])
    case Update(id, v) => if id !in t then Some(t) else if checked && v.None? then None else Some(t[id := v])
    case Touch(id) => if id in t && checked && t[id].None? then None else Some(t)
    case Delete(id) => Some(t - {id})
  }

  function Nulls<V>(t: Column<V>): set<RowId>
  {
    set id | id in t && t[id].None?
  }

  function Fill<V>(t: Column<V>, page: set<RowId>, v: V): Column<V>
  {
    map id | id in t :: if id in page then Some(v) else t[id]
  }

  /** Without a default there is nothing to fill; otherwise any `batch` null rows of the table. */
  predicate IsPage<V>(t: Column<V>, fill: Option<V>, batch: int, page: set<RowId>)
  {
    if fill.None? then page == {}
    else
      var limit := if batch < 1 then 1 else batch;
      page <= Nulls(t) && |page| == if |Nulls(t)| < limit then |Nulls(t)| else limit
  }

  datatype State<V> = State(phase: Phase, db: seq<Column<V>>)

  datatype Op<V> = App(table: nat, write: Write<V>) | Backfill(batch: int, pages: seq<set<RowId>>) | Do(call: Call)

  function NullRows<V>(db: seq<Column<V>>): nat
  {
    if db == [] then 0 else |Nulls(db[0])| + NullRows(db[1..])
  }

  /** New nulls are refused from expand on: by the check, after contract by NOT NULL. */
  predicate Guarded(phase: Phase)
  {
    Open(phase) || phase == Contracted
  }

  predicate Accepted<V>(fill: Option<V>, s: State<V>, op: Op<V>)
  {
    match op
    case App(t, write) => t < |s.db| && Apply(Guarded(s.phase), s.db[t], write).Some?
    case Backfill(batch, pages) =>
      && Allowed(s.phase, Migrate) && |pages| == |s.db|
      && forall i :: 0 <= i < |pages| ==> IsPage(s.db[i], fill, batch, pages[i])
    case Do(call) => call != Migrate && Allowed(s.phase, call)
  }

  function Next<V(==)>(fill: Option<V>, s: State<V>, op: Op<V>): (s': State<V>)
    ensures |s'.db| == |s.db|
  {
    if !Accepted(fill, s, op) then s
    else match op
      case App(t, write) => s.(db := s.db[t := Apply(Guarded(s.phase), s.db[t], write).value])
      case Backfill(_, pages) =>
        State(Migrating, if fill.None? then s.db
                         else seq(|s.db|, i requires 0 <= i < |s.db| => Fill(s.db[i], pages[i], fill.value)))
      case Do(Expand) => s.(phase := Expanded)
      case Do(Validate) => if NullRows(s.db) == 0 then s.(phase := Validated) else s
      case Do(Contract) => s.(phase := Contracted)
      case Do(Abort) => s.(phase := Aborted)
      case Do(Migrate) => s
  }

  function After<V(==)>(fill: Option<V>, s: State<V>, ops: seq<Op<V>>): (s': State<V>)
    ensures |s'.db| == |s.db|
    decreases |ops|
  {
    if ops == [] then s else After(fill, Next(fill, s, ops[0]), ops[1..])
  }

  // ---------------------------------------------------------------- nulls only go

  lemma {:induction false} NoNullRows<V>(db: seq<Column<V>>)
    ensures NullRows(db) == 0 <==> forall i :: 0 <= i < |db| ==> Nulls(db[i]) == {}
  {
    if db != [] {
      NoNullRows(db[1..]);
      assert forall i :: 0 <= i < |db[1..]| ==> db[1..][i] == db[i + 1];
      assert |Nulls(db[0])| == 0 <==> Nulls(db[0]) == {};
    }
  }

  /** While the check stands no step brings a null. */
  lemma NullsShrink<V>(fill: Option<V>, s: State<V>, op: Op<V>, i: nat)
    requires i < |s.db| && Guarded(s.phase)
    ensures Nulls(Next(fill, s, op).db[i]) <= Nulls(s.db[i])
  {
  }

  /** In `validated` and `contracted` there is none. */
  ghost predicate Inv<V>(s: State<V>)
  {
    s.phase == Validated || s.phase == Contracted ==> forall i :: 0 <= i < |s.db| ==> Nulls(s.db[i]) == {}
  }

  lemma StepKeeps<V>(fill: Option<V>, s: State<V>, op: Op<V>)
    requires Inv(s)
    ensures Inv(Next(fill, s, op))
  {
    var s' := Next(fill, s, op);
    NoNullRows(s.db);
    if s'.phase == Validated || s'.phase == Contracted {
      forall i | 0 <= i < |s.db| ensures Nulls(s'.db[i]) == {} {
        NullsShrink(fill, s, op, i);
      }
    }
  }

  /** Once a validation found no null, none comes back: every further validation succeeds and the column can be NOT NULL. */
  lemma {:induction false} ValidatedStays<V>(fill: Option<V>, s: State<V>, ops: seq<Op<V>>)
    requires Inv(s)
    ensures var t := After(fill, s, ops); Inv(t) && (t.phase == Validated || t.phase == Contracted ==> NullRows(t.db) == 0)
    decreases |ops|
  {
    NoNullRows(s.db);
    if ops != [] {
      StepKeeps(fill, s, ops[0]);
      ValidatedStays(fill, Next(fill, s, ops[0]), ops[1..]);
    }
  }

  lemma {:induction false} EndsAreFinal<V>(fill: Option<V>, s: State<V>, ops: seq<Op<V>>)
    requires s.phase == Contracted || s.phase == Aborted
    ensures After(fill, s, ops).phase == s.phase
    decreases |ops|
  {
    if ops != [] {
      EndsAreFinal(fill, Next(fill, s, ops[0]), ops[1..]);
    }
  }

  lemma {:induction false} OneMore<V>(fill: Option<V>, s: State<V>, ops: seq<Op<V>>, op: Op<V>)
    ensures After(fill, s, ops + [op]) == Next(fill, After(fill, s, ops), op)
    decreases |ops|
  {
    if ops == [] {
      assert ops + [op] == [op] && [op][1..] == [];
    } else {
      assert (ops + [op])[0] == ops[0] && (ops + [op])[1..] == ops[1..] + [op];
      OneMore(fill, Next(fill, s, ops[0]), ops[1..], op);
    }
  }

  /** Short of contract an abort ends the change, whatever came before, and leaves every row as it stands. */
  lemma AbortEnds<V>(fill: Option<V>, s: State<V>, ops: seq<Op<V>>)
    requires var end := After(fill, s, ops).phase; end == Planned || end == Expanded || end == Migrating || end == Validated
    ensures After(fill, s, ops + [Do(Call.Abort)]) == State(Aborted, After(fill, s, ops).db)
  {
    OneMore(fill, s, ops, Do(Call.Abort));
  }

  /** Where each call leads from each phase. */
  lemma CallsMovePhase<V>(fill: Option<V>, s: State<V>, call: Call, batch: int, pages: seq<set<RowId>>)
    requires |pages| == |s.db| && forall i :: 0 <= i < |pages| ==> IsPage(s.db[i], fill, batch, pages[i])
    ensures var t, p := Next(fill, s, if call == Call.Migrate then Backfill(batch, pages) else Do(call)), s.phase;
      match call
      case Expand => t == if p == Planned then s.(phase := Expanded) else s
      case Migrate => if p == Expanded || p == Migrating then t.phase == Migrating else t == s
      case Validate =>
        t == if Open(p) && forall i :: 0 <= i < |s.db| ==> Nulls(s.db[i]) == {} then s.(phase := Validated) else s
      case Contract => t == if p == Validated then s.(phase := Contracted) else s
      case Abort => t == if p == Contracted || p == Aborted then s else s.(phase := Aborted)
  {
    NoNullRows(s.db);
  }

  /** What the database accepts of the application: from expand on, through contract, no row inserted, changed or touched
      may be without a value; before the change and after an abort it may. */
  lemma WritesAccepted<V>(fill: Option<V>, s: State<V>, i: nat, write: Write<V>)
    requires i < |s.db|
    ensures Accepted(fill, s, App(i, write)) <==>
      var free := s.phase == Planned || s.phase == Aborted;
      match write
      case Insert(id, v) => id !in s.db[i] && (free || v.Some?)
      case Update(id, v) => id !in s.db[i] || free || v.Some?
      case Touch(id) => id !in s.db[i] || free || s.db[i][id].Some?
      case Delete(_) => true
  {
  }

  // ---------------------------------------------------------------- the application's values

  /** The write with no check on the column. */
  function Put<V>(t: Column<V>, write: Write<V>): Column<V>
  {
    match write
    case Insert(id, v) => t[id := v]
    case Update(id, v) => if id in t then t[id := v] else t
    case Touch(_) => t
    case Delete(id) => t - {id}
  }

  ghost function Replay<V>(fill: Option<V>, s: State<V>, ops: seq<Op<V>>, app: seq<Column<V>>): seq<Column<V>>
    requires |s.db| == |app|
    ensures |Replay(fill, s, ops, app)| == |app|
    decreases |ops|
  {
    if ops == [] then app
    else
      var app' := if ops[0].App? && Accepted(fill, s, ops[0]) then app[ops[0].table := Put(app[ops[0].table], ops[0].write)] else app;
      Replay(fill, Next(fill, s, ops[0]), ops[1..], app')
  }

  /** Every row is there with the value the application gave it, or with the default where it gave none. */
  ghost predicate Filled<V>(fill: Option<V>, app: Column<V>, t: Column<V>)
  {
    t.Keys == app.Keys && forall id :: id in t ==> t[id] == app[id] || (app[id].None? && fill.Some? && t[id] == fill)
  }

  lemma StepFills<V>(fill: Option<V>, s: State<V>, op: Op<V>, app: seq<Column<V>>)
    requires |app| == |s.db| && forall i :: 0 <= i < |s.db| ==> Filled(fill, app[i], s.db[i])
    ensures var app' := if op.App? && Accepted(fill, s, op) then app[op.table := Put(app[op.table], op.write)] else app;
      forall i :: 0 <= i < |s.db| ==> Filled(fill, app'[i], Next(fill, s, op).db[i])
  {
    if op.Backfill? && Accepted(fill, s, op) && fill.Some? {
      forall i | 0 <= i < |s.db| ensures Filled(fill, app[i], Next(fill, s, op).db[i]) {
        assert IsPage(s.db[i], fill, op.batch, op.pages[i]);
      }
    }
  }

  /** Whatever phase a run ends in, only nulls were filled: no value the application wrote is touched, aborted or not. */
  lemma {:induction false} OnlyNullsAreFilled<V>(fill: Option<V>, s: State<V>, ops: seq<Op<V>>, app: seq<Column<V>>)
    requires |app| == |s.db| && forall i :: 0 <= i < |s.db| ==> Filled(fill, app[i], s.db[i])
    ensures forall i :: 0 <= i < |s.db| ==> Filled(fill, Replay(fill, s, ops, app)[i], After(fill, s, ops).db[i])
    decreases |ops|
  {
    if ops != [] {
      StepFills(fill, s, ops[0], app);
      var app' := if ops[0].App? && Accepted(fill, s, ops[0]) then app[ops[0].table := Put(app[ops[0].table], ops[0].write)] else app;
      OnlyNullsAreFilled(fill, Next(fill, s, ops[0]), ops[1..], app');
    }
  }

  // ---------------------------------------------------------------- the calls

  lemma {:induction false} NullRowsAt<V>(db: seq<Column<V>>, i: nat, t: Column<V>)
    requires i < |db|
    ensures NullRows(db[i := t]) == NullRows(db) - |Nulls(db[i])| + |Nulls(t)|
  {
    if i == 0 {
      assert db[0 := t][1..] == db[1..];
    } else {
      NullRowsAt(db[1..], i - 1, t);
      assert db[i := t][1..] == db[1..][i - 1 := t];
    }
  }

  lemma FillCounts<V>(t: Column<V>, page: set<RowId>, v: V)
    requires page <= Nulls(t)
    ensures |Nulls(Fill(t, page, v))| == |Nulls(t)| - |page|
  {
    assert Nulls(Fill(t, page, v)) == Nulls(t) - page;
  }

  /** A page fills `batch` nulls of the table, one if that is none or negative, or all that are left. */
  lemma PageSize<V>(fill: Option<V>, s: State<V>, batch: int, pages: seq<set<RowId>>, i: nat)
    requires Accepted(fill, s, Backfill(batch, pages)) && i < |s.db| && fill.Some?
    ensures var before, after := |Nulls(s.db[i])|, |Nulls(Next(fill, s, Backfill(batch, pages)).db[i])|;
      after == if batch >= 1 && before > batch then before - batch else if batch < 1 && before > 1 then before - 1 else 0
  {
    FillCounts(s.db[i], pages[i], fill.value);
  }

  lemma FillOne<V>(db: seq<Column<V>>, i: nat, fill: Option<V>, batch: int, page: set<RowId>)
    requires i < |db| && fill.Some? && IsPage(db[i], fill, batch, page)
    ensures NullRows(db[i := Fill(db[i], page, fill.value)]) == NullRows(db) - |page|
    ensures |page| == 0 <==> Nulls(db[i]) == {}
  {
    FillCounts(db[i], page, fill.value);
    NullRowsAt(db, i, Fill(db[i], page, fill.value));
    assert |Nulls(db[i])| == 0 <==> Nulls(db[i]) == {};
  }

  /** The change's record and its tables. */
  class Job<V(==)> {
    const fill: Option<V>
    var phase: Phase
    var db: seq<Column<V>>

    function View(): State<V>
      reads this
    {
      State(phase, db)
    }

    constructor Plan(fill: Option<V>, tables: seq<Column<V>>)
      ensures this.fill == fill && View() == State(Planned, tables)
    {
      this.fill, phase, db := fill, Planned, tables;
    }

    method Write(t: nat, write: Write<V>) returns (ok: bool)
      modifies this`db
      ensures View() == Next(fill, old(View()), App(t, write)) && ok == Accepted(fill, old(View()), App(t, write))
    {
      if t >= |db| {
        return false;
      }
      var rows := Apply(Guarded(phase), db[t], write);
      ok := rows.Some?;
      if ok {
        db := db[t := rows.value];
      }
    }

    /** Fills the chosen page of each table; what it moves is gone from the nulls.  None where the phase does not allow it. */
    method Migrate(batch: int, pages: seq<set<RowId>>) returns (moved: Option<nat>)
      requires |pages| == |db| && forall i :: 0 <= i < |db| ==> IsPage(db[i], fill, batch, pages[i])
      modifies this
      ensures View() == Next(fill, old(View()), Backfill(batch, pages))
      ensures moved.Some? <==> Allowed(old(phase), Call.Migrate)
      ensures moved.Some? ==> NullRows(db) == NullRows(old(db)) - moved.value
      ensures moved.Some? ==> (moved.value == 0 <==> fill.None? || NullRows(old(db)) == 0)
    {
      if !Allowed(phase, Call.Migrate) {
        return None;
      }
      var n: nat := 0;
      ghost var db0 := db;
      if fill.Some? {
        NoNullRows(db0);
        var i := 0;
        while i < |db|
          invariant 0 <= i <= |db| == |db0| && phase == old(phase)
          invariant forall j :: 0 <= j < |db| ==> db[j] == if j < i then Fill(db0[j], pages[j], fill.value) else db0[j]
          invariant NullRows(db) == NullRows(db0) - n
          invariant n == 0 <==> forall j :: 0 <= j < i ==> Nulls(db0[j]) == {}
        {
          FillOne(db, i, fill, batch, pages[i]);
          db := db[i := Fill(db[i], pages[i], fill.value)];
          n := n + |pages[i]|;
          i := i + 1;
        }
      }
      phase := Migrating;
      moved := Some(n);
    }

    method Validate() returns (violations: Option<nat>)
      modifies this`phase
      ensures View() == Next(fill, old(View()), Do(Call.Validate))
      ensures violations == if Allowed(old(phase), Call.Validate) then Some(NullRows(db)) else None
    {
      if !Allowed(phase, Call.Validate) {
        return None;
      }
      var n := NullRows(db);
      if n == 0 {
        phase := Validated;
      }
      violations := Some(n);
    }

    /** Expand, contract and abort change the phase and the checks, not the rows. */
    method Proceed(call: Call) returns (ok: bool)
      requires call == Call.Expand || call == Call.Contract || call == Call.Abort
      modifies this`phase
      ensures View() == Next(fill, old(View()), Do(call)) && ok == Allowed(old(phase), call)
    {
      ok := Allowed(phase, call);
      if ok {
        phase := match call case Expand => Expanded case Contract => Contracted case _ => Aborted;
      }
    }

    /** All phases in one transaction: it succeeds exactly if there is a default or no null, and otherwise changes nothing. */
    method ApplyAll(choose: (Column<V>, Option<V>, int) -> set<RowId>) returns (ok: bool)
      requires phase == Planned
      requires forall t, f, b :: IsPage(t, f, b, choose(t, f, b))
      modifies this
      ensures ok <==> fill.Some? || NullRows(old(db)) == 0
      ensures ok ==> phase == Contracted && NullRows(db) == 0
      ensures ok ==> |db| == |old(db)| && forall i :: 0 <= i < |db| ==> Filled(fill, old(db)[i], db[i])
      ensures !ok ==> View() == old(View())
    {
      var saved := View();
      var _ := Proceed(Call.Expand);
      var done := false;
      while !done
        invariant (phase == Expanded || phase == Migrating) && |db| == |old(db)|
        invariant forall i :: 0 <= i < |db| ==> Filled(fill, old(db)[i], db[i])
        invariant fill.None? ==> NullRows(db) == NullRows(old(db))
        invariant done ==> fill.None? || NullRows(db) == 0
        decreases !done, NullRows(db)
      {
        var pages := seq(|db|, i requires 0 <= i < |db| reads this => choose(db[i], fill, 100_000));
        StepFills(fill, View(), Backfill(100_000, pages), old(db));
        var moved := Migrate(100_000, pages);
        done := moved == Some(0);
      }
      var _ := Validate();
      if phase != Validated {
        phase, db := saved.phase, saved.db;
        return false;
      }
      ok := Proceed(Call.Contract);
    }
  }
}
