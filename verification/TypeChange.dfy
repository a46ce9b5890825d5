/**
 `alter_property_type`: the new column is filled beside the old one while the
 application keeps writing, then takes its place.
 */
module TypeChange {
  import opened Options
  import opened SchemaPhases

  // ---------------------------------------------------------------- rows and writes

  /** A JSON value, two of them being the same text exactly if the database calls them equal: `1.0` and `1.00` are. */
  type Json = string

  /**
   The two ways a value reaches the new column: the backfill casts its text, the
   dual-write trigger the text of its JSON form.  `form` is that JSON form, None
   for JSON null, which is also the form of a column that is NULL.
   */
  datatype Casts<!V, W> = Casts(cast: V -> Option<W>, form: V -> Option<Json>, write: V -> Option<W>)

  function FormOf<V, W>(c: Casts<V, W>, v: Option<V>): Option<Json>
  {
    if v.None? then None else c.form(v.value)
  }

  /** One row: the property in the old and in the new column.  A column that does not exist reads NULL. */
  datatype Row<V, W> = Row(col: Option<V>, shadow: Option<W>)

  type Rows<V, W> = map<RowId, Row<V, W>>

  datatype Write<V> = Insert(id: RowId, v: Option<V>) | Update(id: RowId, v: Option<V>) | Delete(id: RowId)

  /** The row after a write of `v`, the trigger attached or not; None where the trigger raises.  An update that leaves
      the JSON form alone leaves the new column alone, and a value of form null stores nothing there. */
  function Through<V, W>(c: Casts<V, W>, dual: bool, before: Option<Row<V, W>>, v: Option<V>): Option<Row<V, W>>
  {
    if !dual then Some(Row(v, None))
    else if before.Some? && FormOf(c, before.value.col) == FormOf(c, v) then Some(before.value.(col := v))
    else if FormOf(c, v).None? then Some(Row(v, None))
    else
      var w := c.write(v.value);
      if w.None? then None else Some(Row(v, w))
  }

  /** One statement of the application; None where it fails. */
  function Apply<V, W>(c: Casts<V, W>, dual: bool, rows: Rows<V, W>, write: Write<V>): Option<Rows<V, W>>
  {
    match write
    case Insert(id, v) =>
      if id in rows then None
      else
        var row := Through(c, dual, None, v);
        if row.None? then None else Some(rows[id := row.value])
    case Update(id, v) =>
      if id !in rows then Some(rows)
      else
        var row := Through(c, dual, Some(rows[id]), v);
        if row.None? then None else Some(rows[id := row.value])
    case Delete(id) => Some(rows - {id})
  }

  // ---------------------------------------------------------------- the backfill of one table

  function From(cursor: Option<RowId>): int
  {
    if cursor.Some? then cursor.value else I64_MIN
  }

  /** The rows a page is taken from. */
  function Todo<V, W>(rows: Rows<V, W>, from: int): set<RowId>
  {
    set id | id in rows && from < id && rows[id].col.Some?
  }

  function Limit(batch: int): nat
  {
    if batch < 1 then 1 else batch
  }

  function Page<V, W>(rows: Rows<V, W>, cursor: Option<RowId>, batch: int): seq<RowId>
  {
    FirstIds(Todo(rows, From(cursor)), Limit(batch))
  }

  function Refill<V, W>(c: Casts<V, W>, row: Row<V, W>): Row<V, W>
  {
    if row.col.Some? then row.(shadow := c.cast(row.col.value)) else row
  }

  /** `batch_update`: the page's rows get the cast of their old value, NULL where it does not cast. */
  function Backfill<V, W>(c: Casts<V, W>, rows: Rows<V, W>, page: seq<RowId>): Rows<V, W>
  {
    map id | id in rows :: if id in page then Refill(c, rows[id]) else rows[id]
  }

  function Advance(cursor: Option<RowId>, page: seq<RowId>): Option<RowId>
  {
    if page == [] then cursor else Some(page[|page| - 1])
  }

  predicate Violates<V, W>(row: Row<V, W>)
  {
    row.col.Some? && row.shadow.None?
  }

  function Bad<V, W>(rows: Rows<V, W>): set<RowId>
  {
    set id | id in rows && Violates(rows[id])
  }

  function Plain<V, W>(rows: Rows<V, W>): Rows<V, W>
  {
    map id | id in rows :: Row(rows[id].col, None)
  }

  /** DROP COLUMN old; RENAME shadow TO old. */
  function Swapped<V, W>(rows: Rows<V, W>): Rows<V, W>
  {
    map id | id in rows :: Row(None, rows[id].shadow)
  }

  // ---------------------------------------------------------------- the change

  datatype State<V, W> = State(phase: Phase, db: seq<Rows<V, W>>, cursor: seq<Option<RowId>>)

  datatype Op<V> = App(table: nat, write: Write<V>) | Do(call: Call, batch: int)

  /** Rows moved by a call of migrate. */
  function Moved<V, W>(db: seq<Rows<V, W>>, cursor: seq<Option<RowId>>, batch: int): nat
    requires |cursor| == |db|
  {
    if db == [] then 0 else |Page(db[0], cursor[0], batch)| + Moved(db[1..], cursor[1..], batch)
  }

  /** Rows that break the new rule. */
  function Violations<V, W>(db: seq<Rows<V, W>>): nat
  {
    if db == [] then 0 else |Bad(db[0])| + Violations(db[1..])
  }

  predicate Accepted<V, W>(c: Casts<V, W>, s: State<V, W>, op: Op<V>)
  {
    match op
    case App(t, write) => t < |s.db| && s.phase != Contracted && Apply(c, Open(s.phase), s.db[t], write).Some?
    case Do(call, _) => Allowed(s.phase, call)
  }

  /** One step; what is refused changes nothing. */
  function Next<V, W>(c: Casts<V, W>, s: State<V, W>, op: Op<V>): State<V, W>
    requires |s.cursor| == |s.db|
    ensures |Next(c, s, op).cursor| == |Next(c, s, op).db| == |s.db|
  {
    if !Accepted(c, s, op) then s
    else match op
      case App(t, write) => s.(db := s.db[t := Apply(c, Open(s.phase), s.db[t], write).value])
      case Do(Expand, _) => s.(phase := Expanded)
      case Do(Migrate, batch) =>
        State(Migrating,
          seq(|s.db|, i requires 0 <= i < |s.db| => Backfill(c, s.db[i], Page(s.db[i], s.cursor[i], batch))),
          seq(|s.db|, i requires 0 <= i < |s.db| => Advance(s.cursor[i], Page(s.db[i], s.cursor[i], batch))))
      case Do(Validate, _) => if Violations(s.db) == 0 then s.(phase := Validated) else s
      case Do(Contract, _) => s.(phase := Contracted, db := seq(|s.db|, i requires 0 <= i < |s.db| => Swapped(s.db[i])))
      case Do(Abort, _) => s.(phase := Aborted, db := seq(|s.db|, i requires 0 <= i < |s.db| => Plain(s.db[i])))
  }

  function After<V, W>(c: Casts<V, W>, s: State<V, W>, ops: seq<Op<V>>): State<V, W>
    requires |s.cursor| == |s.db|
    ensures |After(c, s, ops).cursor| == |After(c, s, ops).db| == |s.db|
    decreases |ops|
  {
    if ops == [] then s else After(c, Next(c, s, ops[0]), ops[1..])
  }

  // ---------------------------------------------------------------- the invariant

  /** `w` is what one of the two casts makes of `v`. */
  ghost predicate Came<V, W>(c: Casts<V, W>, v: V, w: W)
  {
    c.cast(v) == Some(w) || (c.form(v).Some? && c.write(v) == Some(w))
  }

  /** A value with the JSON form of the column, this one or an earlier one. */
  ghost predicate Alike<V, W>(c: Casts<V, W>, u: V, col: Option<V>)
  {
    c.form(u) == FormOf(c, col)
  }

  /** `w` is what one of the casts makes of a value with the column's form. */
  ghost predicate Origin<V(!new), W>(c: Casts<V, W>, col: Option<V>, w: W)
  {
    exists u :: Alike(c, u, col) && Came(c, u, w)
  }

  /** Some value with the column's form does not cast. */
  ghost predicate Uncast<V(!new), W>(c: Casts<V, W>, col: Option<V>)
  {
    exists u :: Alike(c, u, col) && c.cast(u).None?
  }

  /** A value the trigger accepts and stores nothing for. */
  predicate Blank<V, W>(c: Casts<V, W>, v: V)
  {
    c.form(v).None?
  }

  ghost predicate RowOk<V(!new), W>(c: Casts<V, W>, row: Row<V, W>, dual: bool)
  {
    row.shadow.Some? ==> dual && Origin(c, row.col, row.shadow.value)
  }

  /** A row the backfill has no more business with. */
  ghost predicate Settled<V(!new), W>(c: Casts<V, W>, row: Row<V, W>)
  {
    Violates(row) ==> Uncast(c, row.col) || Blank(c, row.col.value)
  }

  /** A row that breaks the rule, though its table was found clean, was written since. */
  ghost predicate Checked<V, W>(c: Casts<V, W>, row: Row<V, W>)
  {
    Violates(row) ==> Blank(c, row.col.value)
  }

  ghost predicate TableOk<V(!new), W>(c: Casts<V, W>, phase: Phase, rows: Rows<V, W>, cursor: Option<RowId>)
  {
    forall id :: id in rows ==>
      && RowOk(c, rows[id], Open(phase))
      && (Open(phase) && id <= From(cursor) ==> Settled(c, rows[id]))
      && (phase == Validated ==> Checked(c, rows[id]))
  }

  ghost predicate Inv<V(!new), W>(c: Casts<V, W>, s: State<V, W>)
  {
    && |s.cursor| == |s.db|
    && (s.phase == Planned ==> forall i :: 0 <= i < |s.db| ==> s.cursor[i] == None)
    && (s.phase != Contracted ==> forall i :: 0 <= i < |s.db| ==> TableOk(c, s.phase, s.db[i], s.cursor[i]))
  }

  /** A freshly planned change over the tables `db`. */
  ghost predicate Fresh<V, W>(s: State<V, W>)
  {
    && s.phase == Planned && |s.cursor| == |s.db|
    && (forall i :: 0 <= i < |s.db| ==> s.cursor[i] == None && forall id :: id in s.db[i] ==> s.db[i][id].shadow == None)
  }

  lemma FreshInv<V(!new), W>(c: Casts<V, W>, s: State<V, W>)
    requires Fresh(s)
    ensures Inv(c, s)
  {
  }

  /** What holds of a row for its form goes on to hold when only the value changes. */
  lemma SameForm<V(!new), W>(c: Casts<V, W>, a: Option<V>, b: Option<V>, w: W)
    requires FormOf(c, a) == FormOf(c, b)
    ensures Origin(c, a, w) ==> Origin(c, b, w)
    ensures Uncast(c, a) ==> Uncast(c, b)
  {
    if Origin(c, a, w) {
      var u :| Alike(c, u, a) && Came(c, u, w);
      assert Alike(c, u, b);
    }
    if Uncast(c, a) {
      var u :| Alike(c, u, a) && c.cast(u).None?;
      assert Alike(c, u, b);
    }
  }

  lemma ThroughKeeps<V(!new), W>(c: Casts<V, W>, dual: bool, before: Option<Row<V, W>>, v: Option<V>)
    requires before.Some? ==> RowOk(c, before.value, dual)
    requires Through(c, dual, before, v).Some?
    ensures var row := Through(c, dual, before, v).value;
      && row.col == v && RowOk(c, row, dual)
      && (dual && (before.Some? ==> Settled(c, before.value)) ==> Settled(c, row))
      && (dual && (before.Some? ==> Checked(c, before.value)) ==> Checked(c, row))
  {
    var row := Through(c, dual, before, v).value;
    if dual && before.Some? && FormOf(c, before.value.col) == FormOf(c, v) {
      if before.value.shadow.Some? {
        SameForm(c, before.value.col, v, before.value.shadow.value);
      } else if Uncast(c, before.value.col) {
        var u :| Alike(c, u, before.value.col) && c.cast(u).None?;
        assert Alike(c, u, v);
      }
    } else if row.shadow.Some? {
      assert Alike(c, v.value, v) && Came(c, v.value, row.shadow.value);
    }
  }

  lemma WriteKeeps<V(!new), W>(c: Casts<V, W>, phase: Phase, rows: Rows<V, W>, cursor: Option<RowId>, write: Write<V>)
    requires TableOk(c, phase, rows, cursor) && Apply(c, Open(phase), rows, write).Some?
    ensures TableOk(c, phase, Apply(c, Open(phase), rows, write).value, cursor)
  {
    if write.Insert? {
      ThroughKeeps(c, Open(phase), None, write.v);
    } else if write.Update? && write.id in rows {
      ThroughKeeps(c, Open(phase), Some(rows[write.id]), write.v);
    }
  }

  lemma RefillKeeps<V(!new), W>(c: Casts<V, W>, row: Row<V, W>)
    requires row.col.Some?
    ensures RowOk(c, Refill(c, row), true) && Settled(c, Refill(c, row))
  {
    assert Alike(c, row.col.value, row.col);
    var w := c.cast(row.col.value);
    assert w.Some? ==> Came(c, row.col.value, w.value);
  }

  lemma PageBehind<V, W>(rows: Rows<V, W>, cursor: Option<RowId>, batch: int, id: RowId)
    requires id in rows && id <= From(Advance(cursor, Page(rows, cursor, batch))) && rows[id].col.Some?
    ensures id in Page(rows, cursor, batch) || id <= From(cursor)
  {
    var page := Page(rows, cursor, batch);
    if id > From(cursor) && page != [] {
      assert id in Todo(rows, From(cursor));
      assert page[|page| - 1] in page;
    }
  }

  lemma MigrateKeeps<V(!new), W>(c: Casts<V, W>, phase: Phase, rows: Rows<V, W>, cursor: Option<RowId>, batch: int)
    requires TableOk(c, phase, rows, cursor) && (phase == Expanded || phase == Migrating)
    ensures var page := Page(rows, cursor, batch); TableOk(c, Migrating, Backfill(c, rows, page), Advance(cursor, page))
  {
    var page := Page(rows, cursor, batch);
    var rows', cursor' := Backfill(c, rows, page), Advance(cursor, page);
    forall id | id in rows'
      ensures RowOk(c, rows'[id], true) && (id <= From(cursor') ==> Settled(c, rows'[id]))
    {
      if rows[id].col.Some? {
        RefillKeeps(c, rows[id]);
        if id <= From(cursor') {
          PageBehind(rows, cursor, batch, id);
        }
      }
    }
  }

  lemma {:induction false} NoViolations<V, W>(db: seq<Rows<V, W>>)
    ensures Violations(db) == 0 <==> forall i :: 0 <= i < |db| ==> Bad(db[i]) == {}
  {
    if db != [] {
      NoViolations(db[1..]);
      assert forall i :: 0 <= i < |db[1..]| ==> db[1..][i] == db[i + 1];
      assert |Bad(db[0])| == 0 <==> Bad(db[0]) == {};
    }
  }

  lemma CleanIsChecked<V(!new), W>(c: Casts<V, W>, phase: Phase, rows: Rows<V, W>, cursor: Option<RowId>)
    requires TableOk(c, phase, rows, cursor) && Open(phase) && Bad(rows) == {}
    ensures TableOk(c, Validated, rows, cursor)
  {
    forall id | id in rows ensures !Violates(rows[id]) {
      assert id !in Bad(rows);
    }
  }

  lemma StepKeeps<V(!new), W>(c: Casts<V, W>, s: State<V, W>, op: Op<V>)
    requires Inv(c, s)
    ensures Inv(c, Next(c, s, op))
  {
    if Accepted(c, s, op) {
      var s' := Next(c, s, op);
      match op
      case App(t, write) => WriteKeeps(c, s.phase, s.db[t], s.cursor[t], write);
      case Do(Migrate, batch) =>
        forall i | 0 <= i < |s.db| ensures TableOk(c, s'.phase, s'.db[i], s'.cursor[i]) {
          MigrateKeeps(c, s.phase, s.db[i], s.cursor[i], batch);
        }
      case Do(Validate, _) =>
        NoViolations(s.db);
        if Violations(s.db) == 0 {
          forall i | 0 <= i < |s.db| ensures TableOk(c, s'.phase, s'.db[i], s'.cursor[i]) {
            CleanIsChecked(c, s.phase, s.db[i], s.cursor[i]);
          }
        }
      case Do(Expand, _) =>
      case Do(Contract, _) =>
      case Do(Abort, _) =>
    }
  }

  lemma {:induction false} RunKeeps<V(!new), W>(c: Casts<V, W>, s: State<V, W>, ops: seq<Op<V>>)
    requires Inv(c, s)
    ensures Inv(c, After(c, s, ops))
    decreases |ops|
  {
    if ops != [] {
      StepKeeps(c, s, ops[0]);
      RunKeeps(c, Next(c, s, ops[0]), ops[1..]);
    }
  }

  /** A call of migrate that moves nothing has nothing left to move. */
  lemma {:induction false} NothingMoved<V, W>(db: seq<Rows<V, W>>, cursor: seq<Option<RowId>>, batch: int, i: nat)
    requires |cursor| == |db| && i < |db| && Moved(db, cursor, batch) == 0
    ensures Todo(db[i], From(cursor[i])) == {} && Page(db[i], cursor[i], batch) == []
  {
    if i > 0 {
      NothingMoved(db[1..], cursor[1..], batch, i - 1);
    }
  }
}
