/** `add_unique`: nothing guards the column between validation and contract, and contract guards each table by itself. */
module UniqueChange {
  import opened Options
  import opened SchemaPhases

  type Column = map<RowId, Option<int>>

  datatype State = State(phase: Phase, db: seq<Column>)

  datatype Op = Insert(table: nat, id: RowId, v: Option<int>) | Update(table: nat, id: RowId, v: Option<int>) | Delete(table: nat, id: RowId) | Do(call: Call)

  ghost predicate Same(db: seq<Column>, i: nat, a: RowId, j: nat, b: RowId)
    requires i < |db| && j < |db|
  {
    a in db[i] && b in db[j] && db[i][a].Some? && db[i][a] == db[j][b]
  }

  /** What validation checks: no value twice in the tables of the type and its subtypes together. */
  ghost predicate Unique(db: seq<Column>)
  {
    forall i: nat, a, j: nat, b :: i < |db| && j < |db| && Same(db, i, a, j, b) ==> i == j && a == b
  }

  /** What the index of one table enforces. */
  ghost predicate TableUnique(t: Column)
  {
    forall a, b :: a in t && b in t && t[a].Some? && t[a] == t[b] ==> a == b
  }

  ghost predicate Indexable(db: seq<Column>)
  {
    forall i :: 0 <= i < |db| ==> TableUnique(db[i])
  }

  /** A row written; after contract the index of its table may refuse it. */
  ghost function Put(s: State, t: nat, id: RowId, v: Option<int>): (s': State)
    requires t < |s.db|
    ensures |s'.db| == |s.db|
  {
    var rows: Column := s.db[t][id := v];
    if s.phase == Contracted && !TableUnique(rows) then s else s.(db := s.db[t := rows])
  }

  /** One step; what fails changes nothing. */
  ghost function Next(s: State, op: Op): (s': State)
    ensures |s'.db| == |s.db|
  {
    match op
    case Insert(t, id, v) =>
      if t >= |s.db| || id in s.db[t] then s else Put(s, t, id, v)
    case Update(t, id, v) =>
      if t >= |s.db| || id !in s.db[t] then s else Put(s, t, id, v)
    case Delete(t, id) => if t < |s.db| then s.(db := s.db[t := s.db[t] - {id}]) else s
    case Do(call) =>
      if !Allowed(s.phase, call) then s
      else match call
        case Expand => s.(phase := Expanded)
        case Migrate => s.(phase := Migrating)
        case Validate => if Unique(s.db) then s.(phase := Validated) else s
        case Contract => if Indexable(s.db) then s.(phase := Contracted) else s
        case Abort => s.(phase := Aborted)
  }

  ghost function After(s: State, ops: seq<Op>): (s': State)
    ensures |s'.db| == |s.db|
    decreases |ops|
  {
    if ops == [] then s else After(Next(s, ops[0]), ops[1..])
  }

  lemma StepKeeps(s: State, op: Op)
    requires s.phase == Contracted ==> Indexable(s.db)
    ensures var s' := Next(s, op); s'.phase == Contracted ==> Indexable(s'.db)
  {
  }

  /** What contract does give: every table by itself stays free of duplicates. */
  lemma {:induction false} TablesStayUnique(s: State, ops: seq<Op>)
    requires s.phase == Contracted ==> Indexable(s.db)
    ensures var t := After(s, ops); t.phase == Contracted ==> Indexable(t.db)
    decreases |ops|
  {
    if ops != [] {
      StepKeeps(s, ops[0]);
      TablesStayUnique(Next(s, ops[0]), ops[1..]);
    }
  }

  lemma {:induction false} OneMore(s: State, ops: seq<Op>, op: Op)
    ensures After(s, ops + [op]) == Next(After(s, ops), op)
    decreases |ops|
  {
    if ops == [] {
      assert ops + [op] == [op] && [op][1..] == [];
    } else {
      assert (ops + [op])[0] == ops[0] && (ops + [op])[1..] == ops[1..] + [op];
      OneMore(Next(s, ops[0]), ops[1..], op);
    }
  }

  /** Short of contract an abort ends the change, whatever came before, and leaves every row as it stands. */
  lemma AbortEnds(s: State, ops: seq<Op>)
    requires var end := After(s, ops).phase; end == Planned || end == Expanded || end == Migrating || end == Validated
    ensures After(s, ops + [Do(Abort)]) == State(Aborted, After(s, ops).db)
  {
    OneMore(s, ops, Do(Abort));
  }

  /** Where each call leads from each phase: validated by no value twice among all the tables, contracted by none twice
      within one. */
  lemma CallsMovePhase(s: State, call: Call)
    ensures var t, p := Next(s, Do(call)), s.phase;
      match call
      case Expand => t == if p == Planned then s.(phase := Expanded) else s
      case Migrate => t == if p == Expanded || p == Migrating then s.(phase := Migrating) else s
      case Validate =>
        var apart := forall i: nat, a, j: nat, b ::
          i < |s.db| && j < |s.db| && Same(s.db, i, a, j, b) ==> i == j && a == b;
        t == if (p == Expanded || p == Migrating || p == Validated) && apart then s.(phase := Validated) else s
      case Contract =>
        var apart := forall i: nat, a, b :: i < |s.db| && Same(s.db, i, a, i, b) ==> a == b;
        t == if p == Validated && apart then s.(phase := Contracted) else s
      case Abort => t == if p == Contracted || p == Aborted then s else s.(phase := Aborted)
  {
    if forall i: nat, a, b :: i < |s.db| && Same(s.db, i, a, i, b) ==> a == b {
      assert Indexable(s.db) by {
        forall i, a, b | 0 <= i < |s.db| && a in s.db[i] && b in s.db[i] && s.db[i][a].Some? && s.db[i][a] == s.db[i][b]
          ensures a == b
        {
          assert Same(s.db, i, a, i, b);
        }
      }
    }
  }

  /** A run over `n` tables that ends contracted ends with no value twice. */
  ghost predicate ContractMeansUnique(n: nat)
  {
    forall s: State, ops: seq<Op> :: |s.db| == n && s.phase == Planned && After(s, ops).phase == Contracted ==> Unique(After(s, ops).db)
  }

  function Seven(id: RowId): Column
  {
    map[id := Some(7)]
  }

  /** Between validation and contract another row with the same value can come in. */
  function SpoilingRun(): seq<Op>
  {
    [Do(Expand), Do(Validate), Insert(1, 1, Some(7)), Do(Validate), Do(Contract)]
  }

  function FirstOnly(n: nat): State
    requires n > 0
  {
    State(Planned, seq(n, i => if i == 0 then Seven(0) else map[]))
  }

  /** The type has one table, or uniqueness over the whole type is not what contract gives. */
  lemma UniqueExactly(n: nat)
    ensures ContractMeansUnique(n) <==> n <= 1
  {
    if n <= 1 {
      forall s: State, ops: seq<Op> | |s.db| == n && s.phase == Planned && After(s, ops).phase == Contracted
        ensures Unique(After(s, ops).db)
      {
        TablesStayUnique(s, ops);
      }
    } else {
      Spoiled(n);
    }
  }

  lemma One(s: State, ops: seq<Op>)
    requires ops != []
    ensures After(s, ops) == After(Next(s, ops[0]), ops[1..])
    ensures |ops| == 1 ==> After(s, ops) == Next(s, ops[0])
  {
  }

  /** The second validation finds the duplicate and leaves the change validated; contract then goes through. */
  lemma Spoiled(n: nat)
    requires n > 1
    ensures var run := SpoilingRun();
      && After(FirstOnly(n), run[..2]).phase == Validated && Unique(After(FirstOnly(n), run[..2]).db)
      && After(FirstOnly(n), run[..4]).phase == Validated && !Unique(After(FirstOnly(n), run[..4]).db)
      && After(FirstOnly(n), run).phase == Contracted && !Unique(After(FirstOnly(n), run).db)
    ensures !ContractMeansUnique(n)
  {
    var s0, run := FirstOnly(n), SpoilingRun();
    var s1 := Next(s0, run[0]);
    assert Unique(s1.db);
    var s2 := Next(s1, run[1]);
    var s3 := Next(s2, run[2]);
    assert s3.db[0] == Seven(0) && s3.db[1] == Seven(1);
    assert Same(s3.db, 0, 0, 1, 1);
    var s4 := Next(s3, run[3]);
    assert Indexable(s4.db) by {
      assert forall i :: 2 <= i < n ==> s4.db[i] == map[];
    }
    var s5 := Next(s4, run[4]);
    One(s4, [run[4]]);
    One(s3, [run[3]]);
    One(s3, [run[3], run[4]]);
    One(s2, [run[2], run[3]]);
    One(s2, [run[2], run[3], run[4]]);
    One(s1, [run[1]]);
    One(s1, [run[1], run[2], run[3]]);
    One(s1, [run[1], run[2], run[3], run[4]]);
    assert run[..2] == [run[0], run[1]] && run[..4] == [run[0], run[1], run[2], run[3]];
    One(s0, [run[0], run[1]]);
    One(s0, [run[0], run[1], run[2], run[3]]);
    One(s0, run);
    assert run[1..] == [run[1], run[2], run[3], run[4]];
  }
}
