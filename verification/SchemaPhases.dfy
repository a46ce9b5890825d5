/** The phases of an online schema change, shared by every kind of change. */
module SchemaPhases {
  datatype Phase = Planned | Expanded | Migrating | Validated | Contracted | Aborted

  datatype Call = Expand | Migrate | Validate | Contract | Abort

  /** `require_phase` of each call. */
  predicate Allowed(phase: Phase, call: Call)
  {
    match call
    case Expand => phase == Planned
    case Migrate => phase == Expanded || phase == Migrating
    case Validate => phase == Expanded || phase == Migrating || phase == Validated
    case Contract => phase == Validated
    case Abort => phase != Contracted && phase != Aborted
  }

  /** Between expand and contract or abort: the new structure stands beside the old one. */
  predicate Open(phase: Phase)
  {
    phase == Expanded || phase == Migrating || phase == Validated
  }

  /** Identifiers of nodes and edges: the sign bit is never set. */
  type RowId = id: int | 0 <= id < 0x8000_0000_0000_0000

  const I64_MIN: int := -0x8000_0000_0000_0000

  // ---------------------------------------------------------------- pages in id order

  ghost predicate Rising(s: seq<RowId>)
  {
    forall i, j :: 0 <= i < j < |s| ==> s[i] < s[j]
  }

  ghost predicate IsLeast(m: RowId, ids: set<RowId>)
  {
    m in ids && forall x :: x in ids ==> m <= x
  }

  lemma {:induction false} LeastExists(ids: set<RowId>)
    requires ids != {}
    ensures exists m :: IsLeast(m, ids)
  {
    var m :| m in ids;
    var others := ids - {m};
    if others == {} {
      assert ids == {m};
      assert IsLeast(m, ids);
    } else {
      LeastExists(others);
      var n :| IsLeast(n, others);
      assert forall x :: x in ids ==> x == m || x in others;
      assert IsLeast(if n < m then n else m, ids);
    }
  }

  function Least(ids: set<RowId>): (m: RowId)
    requires ids != {}
    ensures m in ids && forall x :: x in ids ==> m <= x
  {
    LeastExists(ids);
    assert exists m :: m in ids && forall x :: x in ids ==> m <= x by {
      var m :| IsLeast(m, ids);
    }
    var m :| m in ids && forall x :: x in ids ==> m <= x;
    m
  }

  /** `ORDER BY id LIMIT n` over the ids that qualify. */
  function FirstIds(ids: set<RowId>, n: nat): (page: seq<RowId>)
    ensures Rising(page)
    ensures forall x :: x in page ==> x in ids
    ensures forall x, y :: x in ids && x !in page && y in page ==> y < x
    ensures n > 0 && page == [] ==> ids == {}
    ensures n >= |ids| ==> forall x :: x in ids ==> x in page
    ensures |page| == if n < |ids| then n else |ids|
    decreases n
  {
    if n == 0 || ids == {} then []
    else
      var m := Least(ids);
      var others := FirstIds(ids - {m}, n - 1);
      assert forall x :: x in [m] + others <==> x == m || x in others;
      assert forall x :: x in ids <==> x == m || x in ids - {m};
      assert forall i :: 0 <= i < |others| ==> others[i] in others;
      [m] + others
  }
}
