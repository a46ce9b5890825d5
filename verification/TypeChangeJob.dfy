/**
 The calls of a type change over its record and its tables, and all of them in
 one transaction.

 Each call is a loop over the tables that the schema change concerns.  A method
 is tied to one step of the change; what is proved of the runs of those steps
 then holds of the calls.  The one-transaction form runs the steps to their end:
 the backfill ends because each page leaves fewer rows ahead of the cursors, and
 since nobody else writes meanwhile, it leaves every row with the cast of its
 own value.
 */
module TypeChangeJob {
  import opened Options
  import opened SchemaPhases
  import opened TypeChange

  lemma {:induction false} MovedSnoc<V, W>(db: seq<Rows<V, W>>, cursor: seq<Option<RowId>>, batch: int, i: nat)
    requires |cursor| == |db| && i < |db|
    ensures Moved(db[..i + 1], cursor[..i + 1], batch) == Moved(db[..i], cursor[..i], batch) + |Page(db[i], cursor[i], batch)|
  {
    var d, k := db[..i + 1], cursor[..i + 1];
    if i == 0 {
      assert d[1..] == [] && k[1..] == [];
    } else {
      MovedSnoc(db[1..], cursor[1..], batch, i - 1);
      assert d[1..] == db[1..][..i] && k[1..] == cursor[1..][..i];
      assert db[..i][1..] == db[1..][..i - 1] && cursor[..i][1..] == cursor[1..][..i - 1];
    }
  }

  lemma {:induction false} ViolationsSnoc<V, W>(db: seq<Rows<V, W>>, i: nat)
    requires i < |db|
    ensures Violations(db[..i + 1]) == Violations(db[..i]) + |Bad(db[i])|
  {
    if i == 0 {
      assert db[..1][1..] == [];
    } else {
      ViolationsSnoc(db[1..], i - 1);
      assert db[..i + 1][1..] == db[1..][..i] && db[..i][1..] == db[1..][..i - 1];
    }
  }

  // ---------------------------------------------------------------- without concurrent writes

  /** What the backfill leaves to do. */
  ghost function Remaining<V, W>(db: seq<Rows<V, W>>, cursor: seq<Option<RowId>>): nat
    requires |cursor| == |db|
  {
    if db == [] then 0 else |Todo(db[0], From(cursor[0]))| + Remaining(db[1..], cursor[1..])
  }

  lemma Smaller(a: set<RowId>, b: set<RowId>)
    requires a <= b
    ensures |a| <= |b| && (a != b ==> |a| < |b|)
  {
    assert b == a + (b - a);
    assert |b| == |a| + |b - a|;
    assert a != b ==> b - a != {};
  }

  lemma TodoShrinks<V, W>(c: Casts<V, W>, rows: Rows<V, W>, cursor: Option<RowId>, batch: int)
    ensures var page := Page(rows, cursor, batch);
            var left := Todo(Backfill(c, rows, page), From(Advance(cursor, page)));
      |left| <= |Todo(rows, From(cursor))| && (page != [] ==> |left| < |Todo(rows, From(cursor))|)
  {
    var page := Page(rows, cursor, batch);
    var before, left := Todo(rows, From(cursor)), Todo(Backfill(c, rows, page), From(Advance(cursor, page)));
    if page != [] {
      var last := page[|page| - 1];
      assert last in page && last in before && last !in left;
    }
    Smaller(left, before);
  }

  ghost predicate Migrated<V, W>(c: Casts<V, W>, db: seq<Rows<V, W>>, cursor: seq<Option<RowId>>, batch: int,
                                 db': seq<Rows<V, W>>, cursor': seq<Option<RowId>>)
    requires |cursor| == |db|
  {
    && |db'| == |cursor'| == |db|
    && forall i :: 0 <= i < |db| ==>
      db'[i] == Backfill(c, db[i], Page(db[i], cursor[i], batch)) && cursor'[i] == Advance(cursor[i], Page(db[i], cursor[i], batch))
  }

  lemma {:induction false} RemainingShrinks<V, W>(c: Casts<V, W>, db: seq<Rows<V, W>>, cursor: seq<Option<RowId>>, batch: int,
                                                  db': seq<Rows<V, W>>, cursor': seq<Option<RowId>>)
    requires |cursor| == |db| && Migrated(c, db, cursor, batch, db', cursor')
    ensures Remaining(db', cursor') <= Remaining(db, cursor)
    ensures Moved(db, cursor, batch) > 0 ==> Remaining(db', cursor') < Remaining(db, cursor)
  {
    if db != [] {
      TodoShrinks(c, db[0], cursor[0], batch);
      RemainingShrinks(c, db[1..], cursor[1..], batch, db'[1..], cursor'[1..]);
    }
  }

  /** With nobody writing: rows up to the cursor hold their cast, the others nothing yet. */
  ghost predicate Filled<V, W>(c: Casts<V, W>, start: Rows<V, W>, rows: Rows<V, W>, cursor: Option<RowId>)
  {
    && rows.Keys == start.Keys
    && forall id :: id in rows ==>
      && rows[id].col == start[id].col
      && rows[id].shadow == if rows[id].col.Some? && id <= From(cursor) then c.cast(rows[id].col.value) else None
  }

  lemma MigrateFills<V, W>(c: Casts<V, W>, start: Rows<V, W>, rows: Rows<V, W>, cursor: Option<RowId>, batch: int)
    requires Filled(c, start, rows, cursor)
    ensures var page := Page(rows, cursor, batch); Filled(c, start, Backfill(c, rows, page), Advance(cursor, page))
  {
    var page := Page(rows, cursor, batch);
    var rows', cursor' := Backfill(c, rows, page), Advance(cursor, page);
    forall id | id in rows'
      ensures rows'[id].shadow == if rows'[id].col.Some? && id <= From(cursor') then c.cast(rows'[id].col.value) else None
    {
      if id in page {
        PageUpTo(rows, cursor, batch, id);
        FirstAreTodo(rows, cursor, batch, id);
      } else if rows[id].col.Some? && id <= From(cursor') {
        PageBehind(rows, cursor, batch, id);
      } else if rows[id].col.Some? {
        PageForward(rows, cursor, batch);
      }
    }
  }

  lemma FirstAreTodo<V, W>(rows: Rows<V, W>, cursor: Option<RowId>, batch: int, id: RowId)
    requires id in Page(rows, cursor, batch)
    ensures id in rows && rows[id].col.Some?
  {
    assert id in Todo(rows, From(cursor));
  }

  lemma PageForward<V, W>(rows: Rows<V, W>, cursor: Option<RowId>, batch: int)
    ensures From(cursor) <= From(Advance(cursor, Page(rows, cursor, batch)))
  {
    var page := Page(rows, cursor, batch);
    if page != [] {
      PageUpTo(rows, cursor, batch, page[|page| - 1]);
    }
  }

  lemma PageUpTo<V, W>(rows: Rows<V, W>, cursor: Option<RowId>, batch: int, id: RowId)
    requires id in Page(rows, cursor, batch)
    ensures From(cursor) < id <= From(Advance(cursor, Page(rows, cursor, batch)))
  {
    var page := Page(rows, cursor, batch);
    var k :| 0 <= k < |page| && page[k] == id;
    assert k < |page| - 1 ==> page[k] < page[|page| - 1];
    assert id in Todo(rows, From(cursor));
  }

  /** Every value present casts. */
  ghost predicate Castable<V, W>(c: Casts<V, W>, rows: Rows<V, W>)
  {
    forall id :: id in rows && rows[id].col.Some? ==> c.cast(rows[id].col.value).Some?
  }

  ghost predicate AllCastable<V, W>(c: Casts<V, W>, db: seq<Rows<V, W>>)
  {
    forall i :: 0 <= i < |db| ==> Castable(c, db[i])
  }

  /** The table with every value cast. */
  ghost function Cast<V, W>(c: Casts<V, W>, rows: Rows<V, W>): Rows<V, W>
  {
    map id | id in rows :: Row(None, if rows[id].col.Some? then c.cast(rows[id].col.value) else None)
  }

  lemma FilledEnd<V, W>(c: Casts<V, W>, start: Rows<V, W>, rows: Rows<V, W>, cursor: Option<RowId>)
    requires Filled(c, start, rows, cursor) && Todo(rows, From(cursor)) == {}
    ensures Bad(rows) == {} <==> Castable(c, start)
    ensures Swapped(rows) == Cast(c, start)
  {
    forall id | id in rows ensures rows[id].shadow == if rows[id].col.Some? then c.cast(rows[id].col.value) else None {
      assert id !in Todo(rows, From(cursor));
    }
    if Bad(rows) == {} {
      forall id | id in start && start[id].col.Some? ensures c.cast(start[id].col.value).Some? {
        assert id !in Bad(rows);
      }
    }
  }

  ghost predicate AllFilled<V, W>(c: Casts<V, W>, start: seq<Rows<V, W>>, db: seq<Rows<V, W>>, cursor: seq<Option<RowId>>)
  {
    |start| == |db| == |cursor| && forall i :: 0 <= i < |db| ==> Filled(c, start[i], db[i], cursor[i])
  }

  lemma MigrateFillsAll<V, W>(c: Casts<V, W>, start: seq<Rows<V, W>>, db: seq<Rows<V, W>>, cursor: seq<Option<RowId>>, batch: int,
                              db': seq<Rows<V, W>>, cursor': seq<Option<RowId>>)
    requires AllFilled(c, start, db, cursor) && Migrated(c, db, cursor, batch, db', cursor')
    ensures AllFilled(c, start, db', cursor')
    ensures Moved(db, cursor, batch) == 0 ==> forall i :: 0 <= i < |db'| ==> Todo(db'[i], From(cursor'[i])) == {}
  {
    forall i | 0 <= i < |db| ensures Filled(c, start[i], db'[i], cursor'[i]) {
      MigrateFills(c, start[i], db[i], cursor[i], batch);
    }
    if Moved(db, cursor, batch) == 0 {
      forall i | 0 <= i < |db| ensures Todo(db'[i], From(cursor'[i])) == {} {
        NothingMoved(db, cursor, batch, i);
        TodoShrinks(c, db[i], cursor[i], batch);
      }
    }
  }

  lemma EndOfBackfill<V, W>(c: Casts<V, W>, start: seq<Rows<V, W>>, db: seq<Rows<V, W>>, cursor: seq<Option<RowId>>)
    requires AllFilled(c, start, db, cursor) && forall i :: 0 <= i < |db| ==> Todo(db[i], From(cursor[i])) == {}
    ensures Violations(db) == 0 <==> AllCastable(c, start)
    ensures forall i :: 0 <= i < |db| ==> Swapped(db[i]) == Cast(c, start[i])
  {
    NoViolations(db);
    forall i | 0 <= i < |db| ensures (Bad(db[i]) == {} <==> Castable(c, start[i])) && Swapped(db[i]) == Cast(c, start[i]) {
      FilledEnd(c, start[i], db[i], cursor[i]);
    }
  }

  // ---------------------------------------------------------------- the calls

  /** The first `i` tables have had their page. */
  ghost predicate MigratedTo<V, W>(c: Casts<V, W>, db: seq<Rows<V, W>>, cursor: seq<Option<RowId>>, batch: int,
                                   db': seq<Rows<V, W>>, cursor': seq<Option<RowId>>, i: nat)
    requires |cursor| == |db| && i <= |db|
  {
    && |db'| == |cursor'| == |db|
    && Migrated(c, db[..i], cursor[..i], batch, db'[..i], cursor'[..i])
    && db'[i..] == db[i..] && cursor'[i..] == cursor[i..]
  }

  lemma MigrateOne<V, W>(c: Casts<V, W>, db: seq<Rows<V, W>>, cursor: seq<Option<RowId>>, batch: int,
                         db': seq<Rows<V, W>>, cursor': seq<Option<RowId>>, i: nat)
    requires |cursor| == |db| && i < |db| && MigratedTo(c, db, cursor, batch, db', cursor', i)
    ensures db'[i] == db[i] && cursor'[i] == cursor[i]
    ensures var page := Page(db[i], cursor[i], batch);
      MigratedTo(c, db, cursor, batch, db'[i := Backfill(c, db[i], page)], cursor'[i := Advance(cursor[i], page)], i + 1)
  {
    assert db'[i] == db'[i..][0] == db[i] && cursor'[i] == cursor'[i..][0] == cursor[i];
    var page := Page(db[i], cursor[i], batch);
    var d, k := db'[i := Backfill(c, db[i], page)], cursor'[i := Advance(cursor[i], page)];
    assert d[i + 1..] == db'[i..][1..] == db[i + 1..] && k[i + 1..] == cursor'[i..][1..] == cursor[i + 1..];
    forall j | 0 <= j < i + 1
      ensures d[j] == Backfill(c, db[j], Page(db[j], cursor[j], batch)) && k[j] == Advance(cursor[j], Page(db[j], cursor[j], batch))
    {
      if j < i {
        assert db'[..i][j] == db'[j] && cursor'[..i][j] == cursor'[j] && db[..i][j] == db[j] && cursor[..i][j] == cursor[j];
      }
    }
  }

  lemma MigratedIsNext<V, W>(c: Casts<V, W>, s: State<V, W>, batch: int, db': seq<Rows<V, W>>, cursor': seq<Option<RowId>>)
    requires |s.cursor| == |s.db| && Allowed(s.phase, Migrate)
    requires Migrated(c, s.db, s.cursor, batch, db', cursor')
    ensures State(Migrating, db', cursor') == Next(c, s, Do(Migrate, batch))
  {
  }

  lemma NextIsMigrated<V, W>(c: Casts<V, W>, s: State<V, W>, batch: int)
    requires |s.cursor| == |s.db| && Allowed(s.phase, Migrate)
    ensures var t := Next(c, s, Do(Migrate, batch)); t.phase == Migrating && Migrated(c, s.db, s.cursor, batch, t.db, t.cursor)
  {
  }

  /** The change's record, and the tables of the type and its subtypes. */
  class Job<V, W> {
    const casts: Casts<V, W>
    var phase: Phase
    var db: seq<Rows<V, W>>
    var cursor: seq<Option<RowId>>

    function View(): State<V, W>
      reads this
    {
      State(phase, db, cursor)
    }

    ghost predicate Valid()
      reads this
    {
      |cursor| == |db|
    }

    constructor Plan(casts: Casts<V, W>, tables: seq<Rows<V, W>>)
      requires forall i :: 0 <= i < |tables| ==> forall id :: id in tables[i] ==> tables[i][id].shadow == None
      ensures this.casts == casts && db == tables && Valid() && Fresh(View())
    {
      this.casts, phase, db := casts, Planned, tables;
      cursor := seq(|tables|, _ => None);
    }

    /** A statement of the application. */
    method Write(t: nat, write: Write<V>) returns (ok: bool)
      requires Valid()
      modifies this`db
      ensures Valid() && View() == Next(casts, old(View()), App(t, write))
      ensures ok == Accepted(casts, old(View()), App(t, write))
    {
      if t >= |db| || phase == Contracted {
        return false;
      }
      var rows := Apply(casts, Open(phase), db[t], write);
      ok := rows.Some?;
      if ok {
        db := db[t := rows.value];
      }
    }

    method Expand() returns (ok: bool)
      requires Valid()
      modifies this`phase
      ensures Valid() && View() == Next(casts, old(View()), Do(Call.Expand, 0)) && ok == (old(phase) == Planned)
    {
      ok := Allowed(phase, Call.Expand);
      if ok {
        phase := Expanded;
      }
    }

    /** One page of each table.  None where the phase does not allow it. */
    method Migrate(batch: int) returns (moved: Option<nat>)
      requires Valid()
      modifies this
      ensures Valid() && View() == Next(casts, old(View()), Do(Call.Migrate, batch))
      ensures moved == if Allowed(old(phase), Call.Migrate) then Some(Moved(old(db), old(cursor), batch)) else None
    {
      if !Allowed(phase, Call.Migrate) {
        return None;
      }
      ghost var db0, cursor0 := db, cursor;
      var n, i := 0, 0;
      while i < |db|
        invariant 0 <= i <= |db| == |db0| && phase == old(phase)
        invariant MigratedTo(casts, db0, cursor0, batch, db, cursor, i)
        invariant n == Moved(db0[..i], cursor0[..i], batch)
      {
        MovedSnoc(db0, cursor0, batch, i);
        MigrateOne(casts, db0, cursor0, batch, db, cursor, i);
        var page := Page(db[i], cursor[i], batch);
        db := db[i := Backfill(casts, db[i], page)];
        n := n + |page|;
        cursor := cursor[i := Advance(cursor[i], page)];
        i := i + 1;
      }
      assert db0[..|db0|] == db0 && cursor0[..|db0|] == cursor0;
      assert db[..|db0|] == db && cursor[..|db0|] == cursor;
      MigratedIsNext(casts, State(phase, db0, cursor0), batch, db, cursor);
      phase := Migrating;
      moved := Some(n);
    }

    /** Counts the violations; none of them moves the change to validated. */
    method Validate() returns (violations: Option<nat>)
      requires Valid()
      modifies this`phase
      ensures Valid() && View() == Next(casts, old(View()), Do(Call.Validate, 0))
      ensures violations == if Allowed(old(phase), Call.Validate) then Some(Violations(old(db))) else None
    {
      if !Allowed(phase, Call.Validate) {
        return None;
      }
      var n, i := 0, 0;
      while i < |db|
        invariant 0 <= i <= |db| && phase == old(phase)
        invariant n == Violations(db[..i])
      {
        ViolationsSnoc(db, i);
        n := n + |Bad(db[i])|;
        i := i + 1;
      }
      assert db[..|db|] == db;
      assert n == Violations(db);
      if n == 0 {
        phase := Validated;
      }
      violations := Some(n);
    }

    method Contract() returns (ok: bool)
      requires Valid()
      modifies this
      ensures Valid() && View() == Next(casts, old(View()), Do(Call.Contract, 0)) && ok == (old(phase) == Validated)
    {
      ok := Allowed(phase, Call.Contract);
      if ok {
        var i := 0;
        while i < |db|
          invariant 0 <= i <= |db| == |old(db)| && cursor == old(cursor) && phase == old(phase)
          invariant forall j :: 0 <= j < |db| ==> db[j] == if j < i then Swapped(old(db)[j]) else old(db)[j]
        {
          db := db[i := Swapped(db[i])];
          i := i + 1;
        }
        phase := Contracted;
      }
    }

    method Abort() returns (ok: bool)
      requires Valid() && (phase == Planned ==> Fresh(View()))
      modifies this
      ensures Valid() && View() == Next(casts, old(View()), Do(Call.Abort, 0)) && ok == Allowed(old(phase), Call.Abort)
    {
      ok := Allowed(phase, Call.Abort);
      if ok {
        if phase != Planned {
          var i := 0;
          while i < |db|
            invariant 0 <= i <= |db| == |old(db)| && cursor == old(cursor) && phase == old(phase)
            invariant forall j :: 0 <= j < |db| ==> db[j] == if j < i then Plain(old(db)[j]) else old(db)[j]
          {
            db := db[i := Plain(db[i])];
            i := i + 1;
          }
        } else {
          assert forall j :: 0 <= j < |db| ==> db[j] == Plain(db[j]);
        }
        phase := Aborted;
      }
    }

    /** All phases in one transaction: it succeeds exactly if every value casts, and otherwise changes nothing. */
    method ApplyAll() returns (ok: bool)
      requires Valid() && Fresh(View())
      modifies this
      ensures Valid() && ok == AllCastable(casts, old(db))
      ensures ok ==> phase == Contracted && |db| == |old(db)| && forall i :: 0 <= i < |db| ==> db[i] == Cast(casts, old(db)[i])
      ensures !ok ==> View() == old(View())
    {
      var saved := View();
      var _ := Expand();
      BackfillAll();
      EndOfBackfill(casts, old(db), db, cursor);
      var violations := Validate();
      if phase != Validated {
        phase, db, cursor := saved.phase, saved.db, saved.cursor;
        return false;
      }
      ok := Contract();
    }

    /** Migrates until a call moves nothing. */
    method BackfillAll()
      requires Valid() && phase == Expanded && AllFilled(casts, db, db, cursor)
      modifies this
      ensures Valid() && (phase == Expanded || phase == Migrating) && AllFilled(casts, old(db), db, cursor)
      ensures forall i :: 0 <= i < |db| ==> Todo(db[i], From(cursor[i])) == {}
    {
      var done := false;
      while !done
        invariant Valid() && (phase == Expanded || phase == Migrating) && AllFilled(casts, old(db), db, cursor)
        invariant done ==> forall i :: 0 <= i < |db| ==> Todo(db[i], From(cursor[i])) == {}
        decreases !done, Remaining(db, cursor)
      {
        ghost var db0, cursor0 := db, cursor;
        NextIsMigrated(casts, View(), 100_000);
        var moved := Migrate(100_000);
        RemainingShrinks(casts, db0, cursor0, 100_000, db, cursor);
        MigrateFillsAll(casts, old(db), db0, cursor0, 100_000, db, cursor);
        done := moved == Some(0);
      }
    }
  }
}
