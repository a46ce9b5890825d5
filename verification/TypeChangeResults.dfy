/** What every run of a type change guarantees, whatever the application writes meanwhile. */
module TypeChangeResults {
  import opened Options
  import opened SchemaPhases
  import opened TypeChange

  // ---------------------------------------------------------------- the application's own table

  /** The property as the application sees it. */
  type Column<V> = map<RowId, Option<V>>

  function Cols<V, W>(rows: Rows<V, W>): Column<V>
  {
    map id | id in rows :: rows[id].col
  }

  /** A write on a table with no schema change going on. */
  function Put<V>(t: Column<V>, write: Write<V>): Column<V>
  {
    match write
    case Insert(id, v) => t[id := v]
    case Update(id, v) => if id in t then t[id := v] else t
    case Delete(id) => t - {id}
  }

  /** The accepted writes of a run, on a table that knows nothing of the change. */
  ghost function Replay<V, W>(c: Casts<V, W>, s: State<V, W>, ops: seq<Op<V>>, app: seq<Column<V>>): seq<Column<V>>
    requires |s.cursor| == |s.db| == |app|
    ensures |Replay(c, s, ops, app)| == |app|
    decreases |ops|
  {
    if ops == [] then app
    else
      var app' := if ops[0].App? && Accepted(c, s, ops[0]) then app[ops[0].table := Put(app[ops[0].table], ops[0].write)] else app;
      Replay(c, Next(c, s, ops[0]), ops[1..], app')
  }

  /** The new value is a conversion of a value with the JSON form of the old one; it is missing only beside NULL and
      beside a value the trigger stores nothing for. */
  ghost predicate Stands<V(!new), W>(c: Casts<V, W>, v: Option<V>, w: Option<W>)
  {
    if w.Some? then Origin(c, v, w.value) else v.None? || Blank(c, v.value)
  }

  /** The converted table: the same rows, each with a converted value. */
  ghost predicate Converted<V(!new), W>(c: Casts<V, W>, t: Column<V>, rows: Rows<V, W>)
  {
    rows.Keys == t.Keys && forall id :: id in rows ==> Stands(c, t[id], rows[id].shadow)
  }

  ghost predicate Follows<V(!new), W>(c: Casts<V, W>, s: State<V, W>, app: seq<Column<V>>)
  {
    && |app| == |s.db|
    && forall i :: 0 <= i < |s.db| ==> if s.phase == Contracted then Converted(c, app[i], s.db[i]) else app[i] == Cols(s.db[i])
  }

  lemma WriteIsPut<V(!new), W>(c: Casts<V, W>, dual: bool, rows: Rows<V, W>, write: Write<V>)
    requires Apply(c, dual, rows, write).Some?
    ensures Cols(Apply(c, dual, rows, write).value) == Put(Cols(rows), write)
  {
  }

  lemma BackfillKeepsColumn<V, W>(c: Casts<V, W>, rows: Rows<V, W>, page: seq<RowId>)
    ensures Cols(Backfill(c, rows, page)) == Cols(rows)
  {
  }

  lemma SwapConverts<V(!new), W>(c: Casts<V, W>, rows: Rows<V, W>, cursor: Option<RowId>)
    requires TableOk(c, Validated, rows, cursor)
    ensures Converted(c, Cols(rows), Swapped(rows))
  {
    forall id | id in rows ensures Stands(c, rows[id].col, rows[id].shadow) {
      assert RowOk(c, rows[id], true) && Checked(c, rows[id]);
    }
  }

  lemma StepFollows<V(!new), W>(c: Casts<V, W>, s: State<V, W>, op: Op<V>, app: seq<Column<V>>)
    requires Inv(c, s) && Follows(c, s, app)
    ensures Follows(c, Next(c, s, op),
      if op.App? && Accepted(c, s, op) then app[op.table := Put(app[op.table], op.write)] else app)
  {
    if Accepted(c, s, op) {
      match op
      case App(t, write) => WriteIsPut(c, Open(s.phase), s.db[t], write);
      case Do(Migrate, batch) =>
        forall i | 0 <= i < |s.db| ensures Cols(Next(c, s, op).db[i]) == Cols(s.db[i]) {
          BackfillKeepsColumn(c, s.db[i], Page(s.db[i], s.cursor[i], batch));
        }
      case Do(Contract, _) =>
        forall i | 0 <= i < |s.db| ensures Converted(c, app[i], Next(c, s, op).db[i]) {
          SwapConverts(c, s.db[i], s.cursor[i]);
        }
      case Do(_, _) =>
    }
  }

  lemma {:induction false} RunFollows<V(!new), W>(c: Casts<V, W>, s: State<V, W>, ops: seq<Op<V>>, app: seq<Column<V>>)
    requires Inv(c, s) && Follows(c, s, app)
    ensures Follows(c, After(c, s, ops), Replay(c, s, ops, app))
    decreases |ops|
  {
    if ops != [] {
      StepKeeps(c, s, ops[0]);
      StepFollows(c, s, ops[0], app);
      var app' := if ops[0].App? && Accepted(c, s, ops[0]) then app[ops[0].table := Put(app[ops[0].table], ops[0].write)] else app;
      RunFollows(c, Next(c, s, ops[0]), ops[1..], app');
    }
  }

  ghost function AllCols<V, W>(db: seq<Rows<V, W>>): seq<Column<V>>
  {
    seq(|db|, i requires 0 <= i < |db| => Cols(db[i]))
  }

  /** The trigger stores something for every value it lets through. */
  ghost predicate NoBlank<V(!new), W>(c: Casts<V, W>)
  {
    forall v :: !Blank(c, v)
  }

  /** Values with the same JSON form have the same cast. */
  ghost predicate FormsCastAlike<V(!new), W>(c: Casts<V, W>)
  {
    forall u, v :: c.form(u) == c.form(v) && c.cast(u).Some? ==> c.cast(v) == c.cast(u)
  }

  /** What the trigger stores is the cast. */
  ghost predicate TriggerCasts<V(!new), W>(c: Casts<V, W>)
  {
    forall v :: c.form(v).Some? && c.write(v).Some? ==> c.cast(v) == c.write(v)
  }

  /** What the change is for: the new value is the cast of the old one, and NULL stays NULL. */
  ghost predicate IsCast<V, W>(c: Casts<V, W>, v: Option<V>, w: Option<W>)
  {
    if v.None? then w.None? else w.Some? && w == c.cast(v.value)
  }

  ghost predicate CastTable<V, W>(c: Casts<V, W>, t: Column<V>, rows: Rows<V, W>)
  {
    rows.Keys == t.Keys && forall id :: id in rows ==> IsCast(c, t[id], rows[id].shadow)
  }

  lemma ConvertedIsCast<V(!new), W>(c: Casts<V, W>, t: Column<V>, rows: Rows<V, W>)
    requires NoBlank(c) && FormsCastAlike(c) && TriggerCasts(c) && Converted(c, t, rows)
    ensures CastTable(c, t, rows)
  {
    forall id | id in rows ensures IsCast(c, t[id], rows[id].shadow) {
      assert Stands(c, t[id], rows[id].shadow);
      if rows[id].shadow.Some? {
        var u :| Alike(c, u, t[id]) && Came(c, u, rows[id].shadow.value);
        assert !Blank(c, u);
      }
    }
  }

  /** However a change ends, no write and no row is lost: aborted, the table is the application's own; contracted, each row
      of it has the conversion of a value with the same JSON form, which is the cast of its own value if the trigger
      agrees with the cast and values of one form cast alike. */
  lemma RunKeepsTheData<V(!new), W>(c: Casts<V, W>, s: State<V, W>, ops: seq<Op<V>>)
    requires Fresh(s)
    ensures var t, app := After(c, s, ops), Replay(c, s, ops, AllCols(s.db));
      && |app| == |t.db|
      && (t.phase == Contracted ==> forall i :: 0 <= i < |t.db| ==> Converted(c, app[i], t.db[i]))
      && (t.phase == Contracted && NoBlank(c) && FormsCastAlike(c) && TriggerCasts(c) ==>
            forall i :: 0 <= i < |t.db| ==> CastTable(c, app[i], t.db[i]))
      && (t.phase != Contracted ==> app == AllCols(t.db))
      && (t.phase == Aborted ==> forall i, id :: 0 <= i < |t.db| && id in t.db[i] ==> t.db[i][id].shadow.None?)
  {
    FreshInv(c, s);
    RunKeeps(c, s, ops);
    RunFollows(c, s, ops, AllCols(s.db));
    var t, app := After(c, s, ops), Replay(c, s, ops, AllCols(s.db));
    if t.phase == Contracted && NoBlank(c) && FormsCastAlike(c) && TriggerCasts(c) {
      forall i | 0 <= i < |t.db| ensures CastTable(c, app[i], t.db[i]) {
        ConvertedIsCast(c, app[i], t.db[i]);
      }
    }
  }

  // ---------------------------------------------------------------- when a validation holds

  lemma ValidatedIsClean<V(!new), W>(c: Casts<V, W>, s: State<V, W>)
    requires Inv(c, s) && NoBlank(c) && s.phase == Validated
    ensures Violations(s.db) == 0
  {
    NoViolations(s.db);
    forall i | 0 <= i < |s.db| ensures Bad(s.db[i]) == {} {
      forall id | id in s.db[i] ensures id !in Bad(s.db[i]) {
        assert Checked(c, s.db[i][id]);
      }
    }
  }

  /** No write can spoil a table once found clean. */
  ghost predicate Stable<V(!new), W(!new)>(c: Casts<V, W>)
  {
    forall s: State<V, W>, ops: seq<Op<V>> ::
      Inv(c, s) && s.phase == Validated && Violations(s.db) == 0 && After(c, s, ops).phase == Validated ==>
        Violations(After(c, s, ops).db) == 0
  }

  /** Validation is stable exactly if the trigger stores something for every value it accepts. */
  lemma StableExactly<V(!new), W(!new)>(c: Casts<V, W>)
    ensures Stable(c) <==> NoBlank(c)
  {
    if NoBlank(c) {
      forall s: State<V, W>, ops: seq<Op<V>> | Inv(c, s) && After(c, s, ops).phase == Validated
        ensures Violations(After(c, s, ops).db) == 0
      {
        RunKeeps(c, s, ops);
        ValidatedIsClean(c, After(c, s, ops));
      }
    } else {
      var v :| Blank(c, v);
      BlankSpoils(c, v);
    }
  }

  /** An empty table, found clean. */
  function EmptyValidated<V, W>(): State<V, W>
  {
    State(Validated, [map[]], [None])
  }

  lemma BlankSpoils<V(!new), W(!new)>(c: Casts<V, W>, v: V)
    requires Blank(c, v)
    ensures !Stable(c)
  {
    var s: State<V, W>, op := EmptyValidated(), App(0, Insert(0, Some(v)));
    NoViolations(s.db);
    assert Inv(c, s);
    var t := Next(c, s, op);
    assert After(c, s, [op]) == After(c, t, []) == t;
    assert t.db[0] == map[0 := Row(Some(v), None)];
    assert 0 in Bad(t.db[0]);
    NoViolations(t.db);
    assert Violations(t.db) != 0;
  }

  // ---------------------------------------------------------------- when the data are the application's

  /** Every contracted run leaves each row of the application with the cast of its own value. */
  ghost predicate KeepsData<V(!new), W(!new)>(c: Casts<V, W>)
  {
    forall s: State<V, W>, ops: seq<Op<V>> ::
      Fresh(s) && After(c, s, ops).phase == Contracted ==>
        forall i :: 0 <= i < |s.db| ==> CastTable(c, Replay(c, s, ops, AllCols(s.db))[i], After(c, s, ops).db[i])
  }

  /** A change keeps the data in every run exactly if the trigger stores something for every value it lets through, what
      it stores is the cast, and values the database calls equal as JSON cast alike. */
  lemma KeepsDataExactly<V(!new), W(!new)>(c: Casts<V, W>)
    ensures KeepsData(c) <==> NoBlank(c) && FormsCastAlike(c) && TriggerCasts(c)
  {
    if NoBlank(c) && FormsCastAlike(c) && TriggerCasts(c) {
      forall s: State<V, W>, ops: seq<Op<V>>, i | Fresh(s) && After(c, s, ops).phase == Contracted && 0 <= i < |s.db|
        ensures CastTable(c, Replay(c, s, ops, AllCols(s.db))[i], After(c, s, ops).db[i])
      {
        RunKeepsTheData(c, s, ops);
      }
    } else if v :| Blank(c, v) {
      BlankIsLost(c, v);
    } else if u, v :| c.form(u) == c.form(v) && c.cast(u).Some? && c.cast(v) != c.cast(u) {
      StaleConversion(c, u, v, c.cast(u).value);
    } else {
      var v :| c.form(v).Some? && c.write(v).Some? && c.cast(v) != c.write(v);
      StaleConversion(c, v, v, c.write(v).value);
    }
  }

  // ---------------------------------------------------------------- runs that show it

  /** One table, as the change is planned. */
  function OneTable<V, W>(rows: Rows<V, W>): State<V, W>
  {
    State(Planned, [rows], [None])
  }

  /** A run and the application's table after it, one step longer. */
  lemma {:induction false} OneMore<V, W>(c: Casts<V, W>, s: State<V, W>, ops: seq<Op<V>>, op: Op<V>, app: seq<Column<V>>)
    requires |s.cursor| == |s.db| == |app|
    ensures var t, r := After(c, s, ops), Replay(c, s, ops, app);
      && After(c, s, ops + [op]) == Next(c, t, op)
      && Replay(c, s, ops + [op], app) == if op.App? && Accepted(c, t, op) then r[op.table := Put(r[op.table], op.write)] else r
    decreases |ops|
  {
    if ops == [] {
      assert ops + [op] == [op] && [op][1..] == [];
    } else {
      assert (ops + [op])[0] == ops[0] && (ops + [op])[1..] == ops[1..] + [op];
      var app' := if ops[0].App? && Accepted(c, s, ops[0]) then app[ops[0].table := Put(app[ops[0].table], ops[0].write)] else app;
      OneMore(c, Next(c, s, ops[0]), ops[1..], op, app');
    }
  }

  lemma TwoSteps<V, W>(c: Casts<V, W>, s: State<V, W>, e: Op<V>, m: Op<V>, app: seq<Column<V>>)
    requires |s.cursor| == |s.db| == |app| && e.Do?
    ensures var t := Next(c, s, e);
      && After(c, s, [e, m]) == Next(c, t, m)
      && Replay(c, s, [e, m], app) == if m.App? && Accepted(c, t, m) then app[m.table := Put(app[m.table], m.write)] else app
  {
    OneMore(c, s, [], e, app);
    OneMore(c, s, [e], m, app);
    assert [] + [e] == [e] && [e] + [m] == [e, m];
  }

  /** A run that ends with the old value `v` beside the new one `w`, still to be validated and contracted. */
  ghost predicate Leads<V, W>(c: Casts<V, W>, ops: seq<Op<V>>, start: Rows<V, W>, v: Option<V>, w: Option<W>)
  {
    var s := OneTable(start);
    var t := After(c, s, ops);
    && Fresh(s) && (t.phase == Expanded || t.phase == Migrating) && t.db == [map[0 := Row(v, w)]]
    && Replay(c, s, ops, AllCols(s.db)) == [map[0 := v]]
  }

  /** Rewritten by the backfill. */
  lemma LedByBackfill<V, W>(c: Casts<V, W>, v: V)
    ensures var start := map[0 := Row(Some(v), None)];
      && Leads(c, [Do(Expand, 0), Do(Migrate, 1)], start, Some(v), c.cast(v))
      && After(c, OneTable(start), [Do(Expand, 0), Do(Migrate, 1)]) == State(Migrating, [map[0 := Row(Some(v), c.cast(v))]], [Some(0)])
  {
    var start: Rows<V, W> := map[0 := Row(Some(v), None)];
    var s := OneTable(start);
    var e: Op<V>, m: Op<V> := Do(Expand, 0), Do(Migrate, 1);
    TwoSteps(c, s, e, m, AllCols(s.db));
    RefillsOne(c, v);
    ColsOfOne(start, Some(v));
  }

  lemma ColsOfOne<V, W>(rows: Rows<V, W>, v: Option<V>)
    requires rows.Keys == {0} && rows[0].col == v
    ensures AllCols([rows]) == [map[0 := v]]
  {
    assert Cols(rows) == map[0 := v];
  }

  lemma RefillsOne<V, W>(c: Casts<V, W>, v: V)
    ensures Next(c, OneTable(map[0 := Row(Some(v), None)]).(phase := Expanded), Do(Migrate, 1))
      == State(Migrating, [map[0 := Row(Some(v), c.cast(v))]], [Some(0)])
  {
    var start: Rows<V, W> := map[0 := Row(Some(v), None)];
    FirstPage(start);
    assert Backfill(c, start, [0]) == map[0 := Row(Some(v), c.cast(v))];
  }

  lemma FirstPage<V, W>(rows: Rows<V, W>)
    requires rows.Keys == {0} && rows[0].col.Some?
    ensures Page(rows, None, 1) == [0]
  {
    var todo := Todo(rows, I64_MIN);
    assert todo == {0};
    assert Least(todo) == 0;
    assert FirstIds(todo - {0}, 0) == [];
  }

  /** Stored by the trigger. */
  lemma LedByTrigger<V, W>(c: Casts<V, W>, v: V)
    requires c.form(v).Some? && c.write(v).Some?
    ensures Leads(c, [Do(Expand, 0), App(0, Insert(0, Some(v)))], map[], Some(v), c.write(v))
  {
    Inserted(c, v, c.write(v));
  }

  lemma Inserted<V, W>(c: Casts<V, W>, v: V, w: Option<W>)
    requires Through(c, true, None, Some(v)) == Some(Row(Some(v), w))
    ensures Leads(c, [Do(Expand, 0), App(0, Insert(0, Some(v)))], map[], Some(v), w)
  {
    var s: State<V, W> := OneTable(map[]);
    var e: Op<V>, n: Op<V> := Do(Expand, 0), App(0, Insert(0, Some(v)));
    TwoSteps(c, s, e, n, AllCols(s.db));
    assert AllCols(s.db) == [map[]];
    InsertsOne(c, s.(phase := Expanded), v, w);
  }

  lemma InsertsOne<V, W>(c: Casts<V, W>, t: State<V, W>, v: V, w: Option<W>)
    requires |t.cursor| == |t.db| && Open(t.phase) && t.db == [map[]] && Through(c, true, None, Some(v)) == Some(Row(Some(v), w))
    ensures var op := App(0, Insert(0, Some(v))); Accepted(c, t, op) && Next(c, t, op) == t.(db := [map[0 := Row(Some(v), w)]])
  {
  }

  /** An update to a value of the same form leaves the new column as it was. */
  lemma LedBySameForm<V, W>(c: Casts<V, W>, ops: seq<Op<V>>, start: Rows<V, W>, v: Option<V>, w: Option<W>, z: Option<V>)
    requires Leads(c, ops, start, v, w) && FormOf(c, v) == FormOf(c, z)
    ensures Leads(c, ops + [App(0, Update(0, z))], start, z, w)
    ensures After(c, OneTable(start), ops + [App(0, Update(0, z))]).cursor == After(c, OneTable(start), ops).cursor
  {
    var s := OneTable(start);
    var op := App(0, Update(0, z));
    OneMore(c, s, ops, op, AllCols(s.db));
    UpdatesOne(c, After(c, s, ops), v, w, z);
    assert map[0 := v][0 := z] == map[0 := z];
  }

  lemma UpdatesOne<V, W>(c: Casts<V, W>, t: State<V, W>, v: Option<V>, w: Option<W>, z: Option<V>)
    requires |t.cursor| == |t.db| && Open(t.phase) && t.db == [map[0 := Row(v, w)]] && FormOf(c, v) == FormOf(c, z)
    ensures var op := App(0, Update(0, z)); Accepted(c, t, op) && Next(c, t, op) == t.(db := [map[0 := Row(z, w)]])
  {
    assert t.db[0][0 := Row(z, w)] == map[0 := Row(z, w)];
  }

  /** Validated and contracted, the row has its new value and nothing else. */
  lemma Swaps<V, W>(c: Casts<V, W>, ops: seq<Op<V>>, start: Rows<V, W>, v: Option<V>, w: Option<W>)
    requires Leads(c, ops, start, v, w) && (v.Some? ==> w.Some?)
    ensures var s, run := OneTable(start), ops + [Do(Validate, 0)] + [Do(Contract, 0)];
      && After(c, s, run).phase == Contracted && After(c, s, run).db == [map[0 := Row(None, w)]]
      && Replay(c, s, run, AllCols(s.db)) == [map[0 := v]]
  {
    var s, d, k := OneTable(start), Do(Validate, 0), Do(Contract, 0);
    var t := After(c, s, ops);
    OneMore(c, s, ops, d, AllCols(s.db));
    OneMore(c, s, ops + [d], k, AllCols(s.db));
    assert Bad(t.db[0]) == {};
    NoViolations(t.db);
    assert Swapped(t.db[0]) == map[0 := Row(None, w)];
  }

  /** A blank value written after validation: accepted, and gone after contract. */
  lemma BlankIsLost<V(!new), W(!new)>(c: Casts<V, W>, v: V)
    requires Blank(c, v)
    ensures var s: State<V, W>, run := OneTable(map[]), [Do(Expand, 0), Do(Validate, 0), App(0, Insert(0, Some(v))), Do(Contract, 0)];
      && Fresh(s) && After(c, s, run).phase == Contracted && After(c, s, run).db == [map[0 := Row(None, None)]]
      && Replay(c, s, run, AllCols(s.db)) == [map[0 := Some(v)]]
    ensures !KeepsData(c)
  {
    var s: State<V, W> := OneTable(map[]);
    var e: Op<V>, d: Op<V>, n: Op<V>, k: Op<V> := Do(Expand, 0), Do(Validate, 0), App(0, Insert(0, Some(v))), Do(Contract, 0);
    var t := s.(phase := Validated);
    NoViolations(s.db);
    assert AllCols(s.db) == [map[]];
    TwoSteps(c, s, e, d, [map[]]);
    assert After(c, s, [e, d]) == t && Replay(c, s, [e, d], [map[]]) == [map[]];
    OneMore(c, s, [e, d], n, [map[]]);
    OneMore(c, s, [e, d, n], k, [map[]]);
    assert [e, d] + [n] == [e, d, n] && [e, d, n] + [k] == [e, d, n, k];
    BlankInserted(c, t, v);
    NotCast(c, s, [e, d, n, k], Some(v), None);
  }

  lemma BlankInserted<V, W>(c: Casts<V, W>, t: State<V, W>, v: V)
    requires t == OneTable(map[]).(phase := Validated) && Blank(c, v)
    ensures var op := App(0, Insert(0, Some(v)));
      && Accepted(c, t, op)
      && Next(c, Next(c, t, op), Do(Contract, 0)) == State(Contracted, [map[0 := Row(None, None)]], [None])
  {
    var n := Next(c, t, App(0, Insert(0, Some(v))));
    assert n.db[0] == map[0 := Row(Some(v), None)];
    assert Swapped(n.db[0]) == map[0 := Row(None, None)];
  }

  lemma NotCast<V(!new), W(!new)>(c: Casts<V, W>, s: State<V, W>, run: seq<Op<V>>, v: Option<V>, w: Option<W>)
    requires Fresh(s) && |s.db| == 1 && After(c, s, run).phase == Contracted && After(c, s, run).db == [map[0 := Row(None, w)]]
    requires Replay(c, s, run, AllCols(s.db)) == [map[0 := v]] && !IsCast(c, v, w)
    ensures !KeepsData(c)
  {
    var t: Column<V>, rows: Rows<V, W> := map[0 := v], map[0 := Row(None, w)];
    assert 0 in rows && !IsCast(c, t[0], rows[0].shadow);
    assert !CastTable(c, Replay(c, s, run, AllCols(s.db))[0], After(c, s, run).db[0]);
  }

  /** A JSON null that casts: filled by the backfill, it stays beside the NULL the application puts in its place, and
      contract gives the application its text for that NULL. */
  lemma TextBesideNull<V(!new), W(!new)>(c: Casts<V, W>, v: V)
    requires Blank(c, v) && c.cast(v).Some?
    ensures var s, run := OneTable(map[0 := Row(Some(v), None)]),
                          [Do(Expand, 0), Do(Migrate, 1)] + [App(0, Update(0, None))] + [Do(Validate, 0)] + [Do(Contract, 0)];
      && Fresh(s) && After(c, s, run).phase == Contracted && After(c, s, run).db == [map[0 := Row(None, c.cast(v))]]
      && Replay(c, s, run, AllCols(s.db)) == [map[0 := None]]
  {
    LedByBackfill(c, v);
    var start: Rows<V, W>, ops := map[0 := Row(Some(v), None)], [Do(Expand, 0), Do(Migrate, 1)];
    LedBySameForm(c, ops, start, Some(v), c.cast(v), None);
    Swaps(c, ops + [App(0, Update(0, None))], start, None, c.cast(v));
  }

  /** A value replaced by one the database calls equal as JSON keeps the conversion of the first, which need not be the
      cast of the second: nor even, written by the trigger, the cast of the first. */
  lemma StaleConversion<V(!new), W(!new)>(c: Casts<V, W>, u: V, v: V, w: W)
    requires c.form(u) == c.form(v) && Came(c, u, w) && c.cast(v) != Some(w)
    ensures exists start, ops :: Leads(c, ops, start, Some(v), Some(w))
    ensures !KeepsData(c)
  {
    var start: Rows<V, W>, ops;
    if c.cast(u) == Some(w) {
      start, ops := map[0 := Row(Some(u), None)], [Do(Expand, 0), Do(Migrate, 1)];
      LedByBackfill(c, u);
    } else {
      start, ops := map[], [Do(Expand, 0), App(0, Insert(0, Some(u)))];
      LedByTrigger(c, u);
    }
    LedBySameForm(c, ops, start, Some(u), Some(w), Some(v));
    var more := ops + [App(0, Update(0, Some(v)))];
    Swaps(c, more, start, Some(v), Some(w));
    NotCast(c, OneTable(start), more + [Do(Validate, 0)] + [Do(Contract, 0)], Some(v), Some(w));
  }

  /** One row rewritten by the backfill, another with the same value written by the application: after contract they differ
      where the two ways to the new column do. */
  lemma TwoConversions<V(!new), W(!new)>(c: Casts<V, W>, v: V)
    requires c.form(v).Some? && c.write(v).Some? && c.cast(v).Some?
    ensures var s, run := OneTable(map[0 := Row(Some(v), None)]),
                          [Do(Expand, 0), Do(Migrate, 1)] + [App(0, Insert(1, Some(v)))] + [Do(Validate, 0)] + [Do(Contract, 0)];
      && Fresh(s) && After(c, s, run).phase == Contracted
      && After(c, s, run).db == [map[0 := Row(None, c.cast(v)), 1 := Row(None, c.write(v))]]
      && Replay(c, s, run, AllCols(s.db)) == [map[0 := Some(v), 1 := Some(v)]]
  {
    LedByBackfill(c, v);
    var s: State<V, W>, ops := OneTable(map[0 := Row(Some(v), None)]), [Do(Expand, 0), Do(Migrate, 1)];
    var n, d, k := App(0, Insert(1, Some(v))), Do(Validate, 0), Do(Contract, 0);
    OneMore(c, s, ops, n, AllCols(s.db));
    OneMore(c, s, ops + [n], d, AllCols(s.db));
    OneMore(c, s, ops + [n] + [d], k, AllCols(s.db));
    SecondInserted(c, After(c, s, ops), v);
    assert map[0 := Some(v)][1 := Some(v)] == map[0 := Some(v), 1 := Some(v)];
  }

  lemma SecondInserted<V, W>(c: Casts<V, W>, t: State<V, W>, v: V)
    requires c.form(v).Some? && c.write(v).Some? && c.cast(v).Some?
    requires t == State(Migrating, [map[0 := Row(Some(v), c.cast(v))]], [Some(0)])
    ensures var n: Op<V> := App(0, Insert(1, Some(v)));
      && Accepted(c, t, n)
      && Next(c, Next(c, Next(c, t, n), Do(Validate, 0)), Do(Contract, 0))
        == State(Contracted, [map[0 := Row(None, c.cast(v)), 1 := Row(None, c.write(v))]], [Some(0)])
  {
    var t1 := Next(c, t, App(0, Insert(1, Some(v))));
    assert t1.db[0] == map[0 := Row(Some(v), c.cast(v)), 1 := Row(Some(v), c.write(v))];
    assert Bad(t1.db[0]) == {};
    NoViolations(t1.db);
    assert Swapped(t1.db[0]) == map[0 := Row(None, c.cast(v)), 1 := Row(None, c.write(v))];
  }

  // ---------------------------------------------------------------- what each call does

  /** A page holds as many rows as were asked for, at least one, or all that are left. */
  lemma PageSize<V, W>(rows: Rows<V, W>, cursor: Option<RowId>, batch: int)
    ensures var asked, left := if batch > 1 then batch else 1, set id | id in rows && rows[id].col.Some? && id > From(cursor);
      |Page(rows, cursor, batch)| == if asked < |left| then asked else |left|
  {
    assert Todo(rows, From(cursor)) == set id | id in rows && rows[id].col.Some? && id > From(cursor);
  }

  /** Every row with a value has its new value. */
  ghost predicate AllFilledIn<V, W>(db: seq<Rows<V, W>>)
  {
    forall i, id :: 0 <= i < |db| && id in db[i] ==> !(db[i][id].col.Some? && db[i][id].shadow.None?)
  }

  lemma NoneMissing<V, W>(db: seq<Rows<V, W>>)
    ensures Violations(db) == 0 <==> AllFilledIn(db)
  {
    NoViolations(db);
    if AllFilledIn(db) {
      forall i | 0 <= i < |db| ensures Bad(db[i]) == {} {
        assert forall id :: id in db[i] ==> !Violates(db[i][id]);
      }
    } else {
      var i, id :| 0 <= i < |db| && id in db[i] && db[i][id].col.Some? && db[i][id].shadow.None?;
      assert id in Bad(db[i]);
    }
  }

  /** Where each call leads from each phase; out of its phase a call changes nothing. */
  lemma CallsMovePhase<V, W>(c: Casts<V, W>, s: State<V, W>, call: Call, batch: int)
    requires |s.cursor| == |s.db|
    ensures var t, p := Next(c, s, Do(call, batch)), s.phase;
      match call
      case Expand => if p == Planned then t == s.(phase := Expanded) else t == s
      case Migrate => if p == Expanded || p == Migrating then t.phase == Migrating && AllCols(t.db) == AllCols(s.db) else t == s
      case Validate => if Open(p) && AllFilledIn(s.db) then t == s.(phase := Validated) else t == s
      case Contract => if p == Validated then t.phase == Contracted else t == s
      case Abort => if p == Contracted || p == Aborted then t == s else t.phase == Aborted
  {
    NoneMissing(s.db);
    if call == Migrate && Allowed(s.phase, Migrate) {
      forall i | 0 <= i < |s.db| ensures Cols(Next(c, s, Do(call, batch)).db[i]) == Cols(s.db[i]) {
        BackfillKeepsColumn(c, s.db[i], Page(s.db[i], s.cursor[i], batch));
      }
    }
  }

  /** What the database accepts of the application: before the change and after an abort whatever the table itself takes;
      while the change is open, an inserted or changed value has to convert unless its JSON form is null or stays. */
  lemma WritesAccepted<V, W>(c: Casts<V, W>, s: State<V, W>, i: nat, write: Write<V>)
    requires |s.cursor| == |s.db| && i < |s.db| && s.phase != Contracted
    ensures Accepted(c, s, App(i, write)) <==>
      match write
      case Insert(id, v) =>
        id !in s.db[i] && (s.phase == Planned || s.phase == Aborted || FormOf(c, v).None? || c.write(v.value).Some?)
      case Update(id, v) =>
        || id !in s.db[i] || s.phase == Planned || s.phase == Aborted
        || FormOf(c, v).None? || FormOf(c, s.db[i][id].col) == FormOf(c, v) || c.write(v.value).Some?
      case Delete(_) => true
  {
  }

  lemma PlainKeepsColumn<V, W>(rows: Rows<V, W>)
    ensures Cols(Plain(rows)) == Cols(rows) && forall id :: id in rows ==> Plain(rows)[id].shadow.None?
  {
  }

  /** However far a change has come short of contract, an abort ends it and gives back the application's own table. */
  lemma AbortRestores<V(!new), W>(c: Casts<V, W>, s: State<V, W>, ops: seq<Op<V>>, batch: int)
    requires Fresh(s)
    requires var end := After(c, s, ops).phase; end == Planned || end == Expanded || end == Migrating || end == Validated
    ensures var t := After(c, s, ops + [Do(Abort, batch)]);
      && t.phase == Aborted && AllCols(t.db) == Replay(c, s, ops, AllCols(s.db))
      && forall i, id :: 0 <= i < |t.db| && id in t.db[i] ==> t.db[i][id].shadow.None?
  {
    var t, u := After(c, s, ops), After(c, s, ops + [Do(Abort, batch)]);
    OneMore(c, s, ops, Do(Abort, batch), AllCols(s.db));
    RunKeepsTheData(c, s, ops);
    assert u == Next(c, t, Do(Abort, batch));
    forall i | 0 <= i < |t.db| ensures Cols(u.db[i]) == Cols(t.db[i]) {
      PlainKeepsColumn(t.db[i]);
    }
    assert AllCols(u.db) == AllCols(t.db);
  }

  // ---------------------------------------------------------------- the order of the phases

  /** A validation of the run that found no violation. */
  ghost predicate SawClean<V, W>(c: Casts<V, W>, s: State<V, W>, ops: seq<Op<V>>)
    requires |s.cursor| == |s.db|
    decreases |ops|
  {
    ops != [] &&
    ((ops[0].Do? && ops[0].call == Validate && Open(s.phase) && Violations(s.db) == 0) || SawClean(c, Next(c, s, ops[0]), ops[1..]))
  }

  /** Contracted is reached only through a clean validation, and both ends are final. */
  lemma {:induction false} PhasesInOrder<V, W>(c: Casts<V, W>, s: State<V, W>, ops: seq<Op<V>>)
    requires |s.cursor| == |s.db|
    ensures var end := After(c, s, ops).phase;
      && (s.phase != Validated && s.phase != Contracted && (end == Validated || end == Contracted) ==> SawClean(c, s, ops))
      && (s.phase == Aborted ==> end == Aborted)
      && (s.phase == Contracted ==> After(c, s, ops) == s)
    decreases |ops|
  {
    if ops != [] {
      PhasesInOrder(c, Next(c, s, ops[0]), ops[1..]);
    }
  }

  // ---------------------------------------------------------------- the backfill over a run

  /** The rows of table `i` one step rewrites, in order. */
  function Rewritten<V, W>(c: Casts<V, W>, s: State<V, W>, op: Op<V>, i: nat): seq<RowId>
    requires |s.cursor| == |s.db| && i < |s.db|
  {
    if op.Do? && op.call == Migrate && Accepted(c, s, op) then Page(s.db[i], s.cursor[i], op.batch) else []
  }

  /** The rows of table `i` the backfill rewrites in a run, in order. */
  ghost function Log<V, W>(c: Casts<V, W>, s: State<V, W>, ops: seq<Op<V>>, i: nat): seq<RowId>
    requires |s.cursor| == |s.db| && i < |s.db|
    decreases |ops|
  {
    if ops == [] then [] else Rewritten(c, s, ops[0], i) + Log(c, Next(c, s, ops[0]), ops[1..], i)
  }

  /** However often it stops, and whatever is written meanwhile, no row is rewritten twice, and all in id order. */
  lemma {:induction false} BackfillRises<V, W>(c: Casts<V, W>, s: State<V, W>, ops: seq<Op<V>>, i: nat)
    requires |s.cursor| == |s.db| && i < |s.db|
    ensures Rising(Log(c, s, ops, i))
    ensures forall id :: id in Log(c, s, ops, i) ==> id > From(s.cursor[i])
    decreases |ops|
  {
    if ops != [] {
      var s' := Next(c, s, ops[0]);
      BackfillRises(c, s', ops[1..], i);
      StepRises(c, s, ops[0], i);
      RisingJoin(Rewritten(c, s, ops[0], i), Log(c, s', ops[1..], i), From(s'.cursor[i]), From(s.cursor[i]));
    }
  }

  lemma StepRises<V, W>(c: Casts<V, W>, s: State<V, W>, op: Op<V>, i: nat)
    requires |s.cursor| == |s.db| && i < |s.db|
    ensures var page, to := Rewritten(c, s, op, i), From(Next(c, s, op).cursor[i]);
      && Rising(page) && From(s.cursor[i]) <= to
      && (forall id :: id in page ==> From(s.cursor[i]) < id) && (page != [] ==> page[|page| - 1] <= to)
  {
    if op.Do? && op.call == Migrate && Accepted(c, s, op) {
      PageAhead(s.db[i], s.cursor[i], op.batch);
    }
  }

  lemma PageAhead<V, W>(rows: Rows<V, W>, cursor: Option<RowId>, batch: int)
    ensures var page := Page(rows, cursor, batch);
      && Rising(page) && From(Advance(cursor, page)) >= From(cursor)
      && forall id :: id in page ==> id > From(cursor)
  {
    var page := Page(rows, cursor, batch);
    if page != [] {
      assert page[|page| - 1] in page;
    }
  }

  lemma RisingJoin(a: seq<RowId>, b: seq<RowId>, m: int, from: int)
    requires Rising(a) && Rising(b)
    requires forall x :: x in b ==> x > m
    requires (a != [] ==> a[|a| - 1] <= m) && from <= m && forall x :: x in a ==> x > from
    ensures Rising(a + b) && forall x :: x in a + b ==> x > from
  {
    assert forall j :: 0 <= j < |b| ==> b[j] in b;
  }

  /** The row is there, with a value, in every state of the run. */
  ghost predicate Steady<V, W>(c: Casts<V, W>, s: State<V, W>, ops: seq<Op<V>>, i: nat, id: RowId)
    requires |s.cursor| == |s.db| && i < |s.db|
    decreases |ops|
  {
    && id in s.db[i] && s.db[i][id].col.Some?
    && (ops != [] ==> Steady(c, Next(c, s, ops[0]), ops[1..], i, id))
  }

  lemma NothingTodo<V, W>(rows: Rows<V, W>, from: int, id: RowId)
    requires Todo(rows, from) == {} && id in rows && from < id
    ensures rows[id].col.None?
  {
    assert id !in Todo(rows, from);
  }

  /** When a call of migrate finds nothing more to move, every row that was there throughout has been rewritten once. */
  lemma {:induction false} BackfillReaches<V, W>(c: Casts<V, W>, s: State<V, W>, ops: seq<Op<V>>, i: nat, id: RowId)
    requires |s.cursor| == |s.db| && i < |s.db|
    requires id > From(s.cursor[i]) && Steady(c, s, ops, i, id)
    requires var t := After(c, s, ops); Todo(t.db[i], From(t.cursor[i])) == {}
    ensures id in Log(c, s, ops, i)
    decreases |ops|
  {
    if ops == [] {
      NothingTodo(s.db[i], From(s.cursor[i]), id);
      assert false;
    } else {
      var s' := Next(c, s, ops[0]);
      if id <= From(s'.cursor[i]) {
        PageBehind(s.db[i], s.cursor[i], ops[0].batch, id);
      } else {
        BackfillReaches(c, s', ops[1..], i, id);
      }
    }
  }

  /** Whether a value casts is the same for values of one JSON form; a blank value does not cast; and what the trigger
      stores, casts. */
  ghost predicate Settling<V(!new), W>(c: Casts<V, W>)
  {
    && (forall u, v :: c.form(u) == c.form(v) ==> (c.cast(u).None? <==> c.cast(v).None?))
    && (forall v :: Blank(c, v) ==> c.cast(v).None?)
    && (forall v :: c.form(v).Some? && c.write(v).Some? ==> c.cast(v).Some?)
  }

  predicate Reported<V, W>(c: Casts<V, W>, row: Row<V, W>)
  {
    Violates(row) <==> row.col.Some? && c.cast(row.col.value).None?
  }

  /** Once done, the rows a validation reports do not cast, share their form with a value that does not, or are blank. */
  lemma DoneLeaves<V(!new), W>(c: Casts<V, W>, s: State<V, W>, batch: int, i: nat, id: RowId)
    requires Inv(c, s) && Allowed(s.phase, Migrate) && Moved(s.db, s.cursor, batch) == 0
    requires i < |s.db| && id in s.db[i]
    ensures Settled(c, s.db[i][id])
    ensures Settling(c) ==> Reported(c, s.db[i][id])
  {
    var row := s.db[i][id];
    NothingMoved(s.db, s.cursor, batch, i);
    assert id !in Todo(s.db[i], From(s.cursor[i]));
    assert RowOk(c, row, true) && (id <= From(s.cursor[i]) ==> Settled(c, row));
    if Settling(c) && row.col.Some? && row.shadow.Some? {
      var u :| Alike(c, u, row.col) && Came(c, u, row.shadow.value);
      assert c.form(u) == c.form(row.col.value);
    }
    if Settling(c) && Violates(row) && Uncast(c, row.col) {
      var u :| Alike(c, u, row.col) && c.cast(u).None?;
      assert c.form(u) == c.form(row.col.value);
    }
  }

  /** In every run, once the backfill is done, a validation reports exactly the rows whose value does not cast. */
  ghost predicate ReportsUncastable<V(!new), W(!new)>(c: Casts<V, W>)
  {
    forall s: State<V, W>, ops: seq<Op<V>>, batch, i, id ::
      Fresh(s) && 0 <= i < |s.db| ==>
        var t := After(c, s, ops);
        Allowed(t.phase, Migrate) && Moved(t.db, t.cursor, batch) == 0 && id in t.db[i] ==> Reported(c, t.db[i][id])
  }

  lemma DoneExactly<V(!new), W(!new)>(c: Casts<V, W>)
    ensures ReportsUncastable(c) <==> Settling(c)
  {
    if Settling(c) {
      forall s: State<V, W>, ops: seq<Op<V>>, batch, i, id | Fresh(s) && 0 <= i < |s.db| &&
          Allowed(After(c, s, ops).phase, Migrate) && Moved(After(c, s, ops).db, After(c, s, ops).cursor, batch) == 0 && id in After(c, s, ops).db[i]
        ensures Reported(c, After(c, s, ops).db[i][id])
      {
        FreshInv(c, s);
        RunKeeps(c, s, ops);
        DoneLeaves(c, After(c, s, ops), batch, i, id);
      }
    } else if u, v :| c.form(u) == c.form(v) && c.cast(u).None? != c.cast(v).None? {
      MisreportedAfterUpdate(c, u, v);
    } else if v :| Blank(c, v) && c.cast(v).Some? {
      MisreportedAfterInsert(c, v, None);
    } else {
      var v :| c.form(v).Some? && c.write(v).Some? && c.cast(v).None?;
      MisreportedAfterInsert(c, v, c.write(v));
    }
  }

  lemma MisreportedAfterUpdate<V(!new), W(!new)>(c: Casts<V, W>, u: V, v: V)
    requires c.form(u) == c.form(v) && c.cast(u).None? != c.cast(v).None?
    ensures !ReportsUncastable(c)
  {
    var start: Rows<V, W>, ops := map[0 := Row(Some(u), None)], [Do(Expand, 0), Do(Migrate, 1)];
    LedByBackfill(c, u);
    LedBySameForm(c, ops, start, Some(u), c.cast(u), Some(v));
    Misreported(c, start, ops + [App(0, Update(0, Some(v)))], v, c.cast(u));
  }

  lemma Misreported<V(!new), W(!new)>(c: Casts<V, W>, start: Rows<V, W>, ops: seq<Op<V>>, v: V, w: Option<W>)
    requires Leads(c, ops, start, Some(v), w) && After(c, OneTable(start), ops).cursor == [Some(0)]
    requires w.None? != c.cast(v).None?
    ensures !ReportsUncastable(c)
  {
    var t := After(c, OneTable(start), ops);
    assert Todo(t.db[0], 0) == {};
    assert t.db[1..] == [] && t.cursor[1..] == [];
    assert Moved(t.db, t.cursor, 1) == 0;
    assert !Reported(c, t.db[0][0]);
  }

  /** Deleted and inserted again behind the cursor, a row has what the trigger made of it. */
  lemma MisreportedAfterInsert<V(!new), W(!new)>(c: Casts<V, W>, v: V, w: Option<W>)
    requires Through(c, true, None, Some(v)) == Some(Row(Some(v), w)) && w.None? != c.cast(v).None?
    ensures !ReportsUncastable(c)
  {
    var start: Rows<V, W>, ops := map[0 := Row(Some(v), None)], [Do(Expand, 0), Do(Migrate, 1)];
    LedByBackfill(c, v);
    LedAgain(c, ops, start, v, w);
    Misreported(c, start, ops + [App(0, Delete(0))] + [App(0, Insert(0, Some(v)))], v, w);
  }

  lemma LedAgain<V, W>(c: Casts<V, W>, ops: seq<Op<V>>, start: Rows<V, W>, v: V, w: Option<W>)
    requires Leads(c, ops, start, Some(v), c.cast(v)) && Through(c, true, None, Some(v)) == Some(Row(Some(v), w))
    ensures var more := ops + [App(0, Delete(0))] + [App(0, Insert(0, Some(v)))];
      && Leads(c, more, start, Some(v), w)
      && After(c, OneTable(start), more).cursor == After(c, OneTable(start), ops).cursor
  {
    var s, x, n := OneTable(start), App(0, Delete(0)), App(0, Insert(0, Some(v)));
    OneMore(c, s, ops, x, AllCols(s.db));
    OneMore(c, s, ops + [x], n, AllCols(s.db));
    var t := After(c, s, ops);
    assert t.db[0] - {0} == map[] && map[0 := Some(v)] - {0} == map[];
    assert Next(c, t, x) == t.(db := [map[]]);
    InsertsOne(c, Next(c, t, x), v, w);
  }
}
