/** The edit-script engine: the cost table filled row by row, the walk back through it,
    and the overload that first replaces strings by small numbers. */
module EditDistance {
  import opened Wrappers

  datatype EditType = Match | Add | Remove | Replace

  /** How many elements of the left (right) sequence an edit consumes. */
  function LeftStep(e: EditType): nat { if e == Add then 0 else 1 }
  function RightStep(e: EditType): nat { if e == Remove then 0 else 1 }

  /** How many elements a script consumes on either side. */
  function UsedLeft(edits: seq<EditType>): nat
  {
    if edits == [] then 0 else UsedLeft(Front(edits)) + LeftStep(Last(edits))
  }

  function UsedRight(edits: seq<EditType>): nat
  {
    if edits == [] then 0 else UsedRight(Front(edits)) + RightStep(Last(edits))
  }

  /** Every edit stays inside both sequences, matches only equal elements and replaces only different
      ones. */
  ghost predicate ValidPath<T>(edits: seq<EditType>, left: seq<T>, right: seq<T>)
  {
    edits == [] ||
    (&& ValidPath(Front(edits), left, right)
     && FitsAt(Last(edits), left, right, UsedLeft(Front(edits)), UsedRight(Front(edits))))
  }

  ghost predicate FitsAt<T>(e: EditType, left: seq<T>, right: seq<T>, l: nat, r: nat)
  {
    && l + LeftStep(e) <= |left|
    && r + RightStep(e) <= |right|
    && (e == Match ==> left[l] == right[r])
    && (e == Replace ==> left[l] != right[r])
  }

  /** A valid path that consumes all of `left` and all of `right`. */
  ghost predicate ValidScript<T>(edits: seq<EditType>, left: seq<T>, right: seq<T>)
  {
    ValidPath(edits, left, right) && UsedLeft(edits) == |left| && UsedRight(edits) == |right|
  }

  lemma {:induction false} PathSnoc<T>(edits: seq<EditType>, e: EditType, left: seq<T>, right: seq<T>)
    ensures UsedLeft(edits + [e]) == UsedLeft(edits) + LeftStep(e)
    ensures UsedRight(edits + [e]) == UsedRight(edits) + RightStep(e)
    ensures ValidPath(edits + [e], left, right) <==>
            ValidPath(edits, left, right) && FitsAt(e, left, right, UsedLeft(edits), UsedRight(edits))
    ensures ScriptCost(edits + [e]) == ScriptCost(edits) + EditCost(e)
  {
    FrontLast(edits, e);
  }

  // ----- replaying a script on the old sequence alone

  /** The elements of `right` that a script brings in, in order. */
  function Inserted<T>(edits: seq<EditType>, right: seq<T>): seq<T>
  {
    if edits == [] then []
    else
      var r := UsedRight(Front(edits));
      Inserted(Front(edits), right)
      + (if (Last(edits) == Add || Last(edits) == Replace) && r < |right| then [right[r]] else [])
  }

  function Brings(edits: seq<EditType>): nat
  {
    if edits == [] then 0
    else Brings(Front(edits)) + (if Last(edits) == Add || Last(edits) == Replace then 1 else 0)
  }

  /** Replays a script on `left`, taking new elements from `brought`; fails when either runs out. */
  function Replay<T>(edits: seq<EditType>, left: seq<T>, brought: seq<T>): Option<seq<T>>
  {
    if edits == [] then Some([])
    else
      var done, e, l, b := Replay(Front(edits), left, brought), Last(edits), UsedLeft(Front(edits)), Brings(Front(edits));
      if done.None? || l + LeftStep(e) > |left| || Brings(edits) > |brought| then None
      else
        match e
        case Match => Some(done.value + [left[l]])
        case Remove => done
        case _ => Some(done.value + [brought[b]])
  }

  lemma {:induction false} ReplayPath<T>(edits: seq<EditType>, left: seq<T>, right: seq<T>, brought: seq<T>)
    requires ValidPath(edits, left, right)
    requires Inserted(edits, right) <= brought
    ensures UsedRight(edits) <= |right| && |Inserted(edits, right)| == Brings(edits)
    ensures Replay(edits, left, brought) == Some(right[..UsedRight(edits)])
  {
    if edits != [] {
      var front, r := Front(edits), UsedRight(Front(edits));
      assert Inserted(front, right) <= Inserted(edits, right);
      ReplayPath(front, left, right, brought);
      if Last(edits) != EditType.Remove {
        assert right[..r + 1] == right[..r] + [right[r]];
      }
    }
  }

  /** A valid script turns `left` into `right`. */
  lemma {:induction false} ScriptRebuildsRight<T>(edits: seq<EditType>, left: seq<T>, right: seq<T>)
    requires ValidScript(edits, left, right)
    ensures Replay(edits, left, Inserted(edits, right)) == Some(right)
  {
    ReplayPath(edits, left, right, Inserted(edits, right));
    assert right[..|right|] == right;
  }

  // ----- the table, as a function of the two prefixes

  const REPLACE_COST := 1.00001

  function EditCost(e: EditType): real
  {
    match e case Match => 0.0 case Add => 1.0 case Remove => 1.0 case Replace => REPLACE_COST
  }

  function ScriptCost(edits: seq<EditType>): real
  {
    if edits == [] then 0.0 else ScriptCost(Front(edits)) + EditCost(Last(edits))
  }

  /** The three-way comparison: a strict minimum wins, every tie goes to Replace. */
  function Choose(add: real, remove: real, replace: real): EditType
  {
    if add < remove && add < replace then Add
    else if remove < add && remove < replace then Remove
    else Replace
  }

  /** What the two tables hold at one place. */
  datatype Cell = Cell(cost: real, move: EditType)

  /** The cell computed from its three neighbours, when both indices are positive. */
  function NextCell(same: bool, add: real, remove: real, replace: real): Cell
  {
    if same then Cell(replace, Match)
    else
      match Choose(add, remove, replace)
      case Add => Cell(add + 1.0, Add)
      case Remove => Cell(remove + 1.0, EditType.Remove)
      case _ => Cell(replace + REPLACE_COST, Replace)
  }

  function CellAt<T(==)>(left: seq<T>, right: seq<T>, i: nat, j: nat): Cell
    requires i <= |left| && j <= |right|
    decreases i + j
  {
    if j == 0 then Cell(i as real, EditType.Remove)
    else if i == 0 then Cell(j as real, Add)
    else NextCell(left[i - 1] == right[j - 1], CellAt(left, right, i, j - 1).cost,
                  CellAt(left, right, i - 1, j).cost, CellAt(left, right, i - 1, j - 1).cost)
  }

  function MoveAt<T(==)>(left: seq<T>, right: seq<T>, i: nat, j: nat): EditType
    requires i <= |left| && j <= |right|
  {
    CellAt(left, right, i, j).move
  }

  function CostAt<T(==)>(left: seq<T>, right: seq<T>, i: nat, j: nat): real
    requires i <= |left| && j <= |right|
  {
    CellAt(left, right, i, j).cost
  }

  /** The script found by walking back from cell (i, j) to the origin. */
  function Trace<T(==)>(left: seq<T>, right: seq<T>, i: nat, j: nat): seq<EditType>
    requires i <= |left| && j <= |right|
    decreases i + j
  {
    if i == 0 && j == 0 then []
    else
      var m := MoveAt(left, right, i, j);
      Trace(left, right, i - LeftStep(m), j - RightStep(m)) + [m]
  }

  /** The move of a cell fits there, and the cell's cost is the move's on top of where it leads back to. */
  lemma {:induction false} MoveFitsAndPays<T>(left: seq<T>, right: seq<T>, i: nat, j: nat)
    requires i <= |left| && j <= |right| && (i != 0 || j != 0)
    ensures var m := MoveAt(left, right, i, j);
            && LeftStep(m) <= i && RightStep(m) <= j && LeftStep(m) + RightStep(m) > 0
            && FitsAt(m, left, right, i - LeftStep(m), j - RightStep(m))
            && CostAt(left, right, i, j) == CostAt(left, right, i - LeftStep(m), j - RightStep(m)) + EditCost(m)
  {
  }

  lemma {:induction false} TraceUnfolds<T>(left: seq<T>, right: seq<T>, i: nat, j: nat)
    requires i <= |left| && j <= |right|
    ensures i == 0 && j == 0 ==> Trace(left, right, i, j) == [] && CostAt(left, right, i, j) == 0.0
    ensures i != 0 || j != 0 ==>
              var m := MoveAt(left, right, i, j);
              && LeftStep(m) <= i && RightStep(m) <= j
              && Trace(left, right, i, j) == Trace(left, right, i - LeftStep(m), j - RightStep(m)) + [m]
  {
  }

  lemma {:induction false} NoEdits<T>(left: seq<T>, right: seq<T>)
    ensures ValidPath([], left, right) && UsedLeft([]) == UsedRight([]) == 0 && ScriptCost([]) == 0.0
  {
  }

  lemma {:induction false} TraceIsValidAndPriced<T>(left: seq<T>, right: seq<T>, i: nat, j: nat)
    requires i <= |left| && j <= |right|
    ensures ValidPath(Trace(left, right, i, j), left, right)
    ensures UsedLeft(Trace(left, right, i, j)) == i && UsedRight(Trace(left, right, i, j)) == j
    ensures ScriptCost(Trace(left, right, i, j)) == CostAt(left, right, i, j)
    decreases i + j
  {
    hide CellAt, Trace, ValidPath, ScriptCost, UsedLeft, UsedRight, FitsAt;
    TraceUnfolds(left, right, i, j);
    NoEdits(left, right);
    if i != 0 || j != 0 {
      MoveFitsAndPays(left, right, i, j);
      var m := MoveAt(left, right, i, j);
      TraceIsValidAndPriced(left, right, i - LeftStep(m), j - RightStep(m));
      PathSnoc(Trace(left, right, i - LeftStep(m), j - RightStep(m)), m, left, right);
    }
  }

  lemma {:induction false} CostBounds<T>(left: seq<T>, right: seq<T>, i: nat, j: nat)
    requires i <= |left| && j <= |right|
    ensures 0.0 <= CostAt(left, right, i, j) <= REPLACE_COST * (if i < j then j else i) as real
    ensures CostAt(left, right, i, j) == 0.0 <==> left[..i] == right[..j]
    decreases i + j
  {
    hide CellAt;
    CellUnfolds(left, right, i, j);
    if i != 0 && j != 0 {
      CostBounds(left, right, i - 1, j - 1);
      CostBounds(left, right, i, j - 1);
      CostBounds(left, right, i - 1, j);
      assert left[..i] == left[..i - 1] + [left[i - 1]];
      assert right[..j] == right[..j - 1] + [right[j - 1]];
      if left[..i] == right[..j] {
        assert left[..i][i - 1] == right[..j][j - 1];
        assert left[..i - 1] == left[..i][..i - 1] == right[..j][..j - 1] == right[..j - 1];
      }
    }
  }

  // ----- when the table is optimal

  /** A script for the first i and j elements. */
  ghost predicate Reaches<T>(s: seq<EditType>, left: seq<T>, right: seq<T>, i: nat, j: nat)
  {
    ValidPath(s, left, right) && UsedLeft(s) == i && UsedRight(s) == j
  }

  /** Cell (i, j) holds the least cost of any script for its two prefixes. */
  ghost predicate CellOptimal<T>(left: seq<T>, right: seq<T>, i: nat, j: nat)
    requires i <= |left| && j <= |right|
  {
    forall s :: Reaches(s, left, right, i, j) ==> CostAt(left, right, i, j) <= ScriptCost(s)
  }

  /** The two elements differ and adding or removing would be cheaper than replacing, but neither alone has the least
      cost behind it: the comparison that loses optimality. */
  predicate TieCell<T(==)>(left: seq<T>, right: seq<T>, i: nat, j: nat)
    requires i < |left| && j < |right|
  {
    var add, remove, replace := CostAt(left, right, i + 1, j), CostAt(left, right, i, j + 1), CostAt(left, right, i, j);
    && left[i] != right[j]
    && (add < replace + 0.00001 || remove < replace + 0.00001)
    && (add == remove || (replace <= add && replace <= remove))
  }

  /** Where the elements differ and one of the three neighbours has the least cost alone, the move leads back to it;
      otherwise the elements are replaced. Equal elements are always matched. */
  lemma {:induction false} MoveIsCheapest<T>(left: seq<T>, right: seq<T>, i: nat, j: nat)
    requires i < |left| && j < |right|
    ensures var add, remove, replace := CostAt(left, right, i + 1, j), CostAt(left, right, i, j + 1), CostAt(left, right, i, j);
            var move := MoveAt(left, right, i + 1, j + 1);
            && (move == Match <==> left[i] == right[j])
            && (move == Add <==> left[i] != right[j] && add < remove && add < replace)
            && (move == EditType.Remove <==> left[i] != right[j] && remove < add && remove < replace)
    ensures TieCell(left, right, i, j) ==> MoveAt(left, right, i + 1, j + 1) == Replace
  {
    hide CellAt;
    CellUnfolds(left, right, i + 1, j + 1);
  }

  /** A tie cell needs neighbours that tie: adding and removing have the same cost behind them, or both at least that
      of replacing. Everywhere else the table takes the cheapest way. */
  lemma {:induction false} CheapestUnlessTie<T>(left: seq<T>, right: seq<T>, i: nat, j: nat)
    requires i < |left| && j < |right| && left[i] != right[j]
    ensures var add, remove, replace := CostAt(left, right, i + 1, j), CostAt(left, right, i, j + 1), CostAt(left, right, i, j);
            var cost := CostAt(left, right, i + 1, j + 1);
            && (cost == add + 1.0 || cost == remove + 1.0 || cost == replace + 1.00001)
            && (TieCell(left, right, i, j) <==> !(cost <= add + 1.0 && cost <= remove + 1.0 && cost <= replace + 1.00001))
  {
    hide CellAt;
    CellUnfolds(left, right, i + 1, j + 1);
  }

  ghost predicate NoTie<T>(left: seq<T>, right: seq<T>)
  {
    forall i, j :: 0 <= i < |left| && 0 <= j < |right| ==> !TieCell(left, right, i, j)
  }

  /** Without ties neighbouring cells differ by at most one. */
  lemma {:induction false} NeighboursClose<T>(left: seq<T>, right: seq<T>, i: nat, j: nat)
    requires i <= |left| && j <= |right| && NoTie(left, right)
    ensures i < |left| ==> Close(CostAt(left, right, i + 1, j), CostAt(left, right, i, j))
    ensures j < |right| ==> Close(CostAt(left, right, i, j + 1), CostAt(left, right, i, j))
    decreases i + j
  {
    hide CellAt, NextCell, NoTie, TieCell;
    CellUnfolds(left, right, i, j);
    if i < |left| {
      CellUnfolds(left, right, i + 1, j);
      if j > 0 {
        NeighboursClose(left, right, i, j - 1);
        CornerClose(left, right, i, j - 1);
      }
    }
    if j < |right| {
      CellUnfolds(left, right, i, j + 1);
      if i > 0 {
        NeighboursClose(left, right, i - 1, j);
        CornerClose(left, right, i - 1, j);
      }
    }
  }

  predicate Close(a: real, b: real) { a <= b + 1.0 && b <= a + 1.0 }

  lemma {:induction false} NextIsClose(same: bool, add: real, remove: real, replace: real)
    requires Close(add, replace) && Close(remove, replace)
    requires NextCell(same, add, remove, replace).move == Replace ==> add >= replace + REPLACE_COST - 1.0 && remove >= replace + REPLACE_COST - 1.0
    ensures Close(NextCell(same, add, remove, replace).cost, add) && Close(NextCell(same, add, remove, replace).cost, remove)
  {
  }

  /** If a cell is close to its neighbours, so is the one across the corner. */
  lemma {:induction false} CornerClose<T>(left: seq<T>, right: seq<T>, i: nat, j: nat)
    requires i < |left| && j < |right| && NoTie(left, right)
    requires Close(CostAt(left, right, i + 1, j), CostAt(left, right, i, j)) && Close(CostAt(left, right, i, j + 1), CostAt(left, right, i, j))
    ensures Close(CostAt(left, right, i + 1, j + 1), CostAt(left, right, i + 1, j))
    ensures Close(CostAt(left, right, i + 1, j + 1), CostAt(left, right, i, j + 1))
  {
    hide CellAt, NextCell;
    CellUnfolds(left, right, i + 1, j + 1);
    assert !TieCell(left, right, i, j);
    MoveIsCheapest(left, right, i, j);
    NextIsClose(left[i] == right[j], CostAt(left, right, i + 1, j), CostAt(left, right, i, j + 1), CostAt(left, right, i, j));
  }

  lemma {:induction false} CellUnfolds<T>(left: seq<T>, right: seq<T>, i: nat, j: nat)
    requires i <= |left| && j <= |right|
    ensures j == 0 ==> CellAt(left, right, i, j) == Cell(i as real, EditType.Remove)
    ensures j > 0 && i == 0 ==> CellAt(left, right, i, j) == Cell(j as real, Add)
    ensures i > 0 && j > 0 ==>
              CellAt(left, right, i, j) == NextCell(left[i - 1] == right[j - 1], CostAt(left, right, i, j - 1),
                                                    CostAt(left, right, i - 1, j), CostAt(left, right, i - 1, j - 1))
  {
  }

  lemma {:induction false} NoTieMakesCellOptimal<T>(left: seq<T>, right: seq<T>, i: nat, j: nat, s: seq<EditType>)
    requires i <= |left| && j <= |right| && NoTie(left, right)
    requires Reaches(s, left, right, i, j)
    ensures CostAt(left, right, i, j) <= ScriptCost(s)
    decreases |s|
  {
    if s != [] {
      var e := Last(s);
      var a, b := i - LeftStep(e), j - RightStep(e);
      NoTieMakesCellOptimal(left, right, a, b, Front(s));
      NeighboursClose(left, right, a, b);
      if e == Replace { assert !TieCell(left, right, a, b); }
    }
  }

  /** The whole table holds least costs exactly when no cell is a tie cell. */
  lemma {:induction false} OptimalIffNoTie<T>(left: seq<T>, right: seq<T>)
    ensures (forall i, j :: 0 <= i <= |left| && 0 <= j <= |right| ==> CellOptimal(left, right, i, j))
            <==> NoTie(left, right)
  {
    if NoTie(left, right) {
      forall i, j, s | 0 <= i <= |left| && 0 <= j <= |right| && Reaches(s, left, right, i, j)
        ensures CostAt(left, right, i, j) <= ScriptCost(s)
      {
        NoTieMakesCellOptimal(left, right, i, j, s);
      }
    } else {
      var i, j :| 0 <= i < |left| && 0 <= j < |right| && TieCell(left, right, i, j);
      TieCellNotOptimal(left, right, i, j);
    }
  }

  lemma {:induction false} TieCellNotOptimal<T>(left: seq<T>, right: seq<T>, i: nat, j: nat)
    requires i < |left| && j < |right| && TieCell(left, right, i, j)
    ensures !CellOptimal(left, right, i + 1, j + 1)
  {
    hide CellAt, Trace, ValidPath, UsedLeft, UsedRight, ScriptCost;
    MoveIsCheapest(left, right, i, j);
    CellUnfolds(left, right, i + 1, j + 1);
    var e := if CostAt(left, right, i + 1, j) < CostAt(left, right, i, j) + REPLACE_COST - 1.0 then Add else EditType.Remove;
    var a, b := i + 1 - LeftStep(e), j + 1 - RightStep(e);
    TraceIsValidAndPriced(left, right, a, b);
    var t := Trace(left, right, a, b);
    PathSnoc(t, e, left, right);
    assert Reaches(t + [e], left, right, i + 1, j + 1);
  }

  /** The documented optimality fails: three replacements where an addition and a removal do. */
  lemma {:induction false} NotAlwaysOptimal()
    ensures var left, right, best := [0, 1, 0], [1, 0, 1], [Add, Match, Match, EditType.Remove];
            && ValidScript(best, left, right)
            && Trace(left, right, 3, 3) == [Replace, Replace, Replace]
            && ScriptCost(best) < ScriptCost(Trace(left, right, 3, 3))
  {
    hide CellAt, Trace, ValidPath, ScriptCost, UsedLeft, UsedRight;
    var left, right := [0, 1, 0], [1, 0, 1];
    ThreeReplacements(left, right);
    NoEdits(left, right);
    PathSnoc([], Add, left, right);
    assert [] + [Add] == [Add];
    PathSnoc([Add], Match, left, right);
    assert [Add] + [Match] == [Add, Match];
    PathSnoc([Add, Match], Match, left, right);
    assert [Add, Match] + [Match] == [Add, Match, Match];
    PathSnoc([Add, Match, Match], EditType.Remove, left, right);
    assert [Add, Match, Match] + [EditType.Remove] == [Add, Match, Match, EditType.Remove];
  }

  lemma {:induction false} ThreeReplacements<T>(left: seq<T>, right: seq<T>)
    requires |left| == 3 && |right| == 3 && left[0] != left[1]
    requires left[0] == left[2] == right[1] && right[0] == right[2] == left[1]
    ensures Trace(left, right, 3, 3) == [Replace, Replace, Replace]
    ensures ScriptCost(Trace(left, right, 3, 3)) == 3.0 * REPLACE_COST
  {
    assert MoveAt(left, right, 1, 1) == Replace && CostAt(left, right, 1, 1) == REPLACE_COST;
    assert CostAt(left, right, 2, 1) == 1.0;
    assert CostAt(left, right, 1, 2) == 1.0;
    assert MoveAt(left, right, 2, 2) == Replace && CostAt(left, right, 2, 2) == 2.0 * REPLACE_COST;
    assert CostAt(left, right, 3, 2) == 1.0;
    assert CostAt(left, right, 2, 3) == 1.0;
    assert MoveAt(left, right, 3, 3) == Replace && CostAt(left, right, 3, 3) == 3.0 * REPLACE_COST;
    assert Trace(left, right, 1, 1) == [Replace];
    assert Trace(left, right, 2, 2) == [Replace, Replace];
    TraceIsValidAndPriced(left, right, 3, 3);
  }

  /** Without tie cells no script is cheaper than the one returned. */
  lemma {:induction false} NoTieMakesScriptOptimal<T>(left: seq<T>, right: seq<T>, s: seq<EditType>)
    requires NoTie(left, right) && ValidScript(s, left, right)
    ensures ScriptCost(Trace(left, right, |left|, |right|)) <= ScriptCost(s)
  {
    NoTieMakesCellOptimal(left, right, |left|, |right|, s);
    TraceIsValidAndPriced(left, right, |left|, |right|);
  }

  lemma {:induction false} GrowthCosts(s: seq<EditType>)
    ensures UsedRight(s) as real - UsedLeft(s) as real <= ScriptCost(s)
  {
    if s != [] { GrowthCosts(Front(s)); }
  }

  /** The walk back from cell (i, j) comes through cell (a, b). */
  predicate Passes<T(==)>(left: seq<T>, right: seq<T>, i: nat, j: nat, a: nat, b: nat)
    requires i <= |left| && j <= |right|
    decreases i + j
  {
    (i == a && j == b)
    || ((i != 0 || j != 0)
        && var m := MoveAt(left, right, i, j); Passes(left, right, i - LeftStep(m), j - RightStep(m), a, b))
  }

  lemma {:induction false} CheaperGoesOn<T>(left: seq<T>, right: seq<T>, i: nat, j: nat)
    requires i <= |left| && j <= |right| && (i != 0 || j != 0)
    requires var m := MoveAt(left, right, i, j);
             LeftStep(m) <= i && RightStep(m) <= j && !CellOptimal(left, right, i - LeftStep(m), j - RightStep(m))
    ensures !CellOptimal(left, right, i, j)
  {
    hide MoveAt, CellAt, ValidPath, UsedLeft, UsedRight, ScriptCost;
    MoveFitsAndPays(left, right, i, j);
    var m := MoveAt(left, right, i, j);
    var a, b := i - LeftStep(m), j - RightStep(m);
    var s :| Reaches(s, left, right, a, b) && ScriptCost(s) < CostAt(left, right, a, b);
    PathSnoc(s, m, left, right);
    assert Reaches(s + [m], left, right, i, j);
  }

  /** A tie cell on the walk back makes the script found a dearer one than need be. */
  lemma {:induction false} TieOnTraceNotOptimal<T>(left: seq<T>, right: seq<T>, i: nat, j: nat, a: nat, b: nat)
    requires i <= |left| && j <= |right| && a < |left| && b < |right|
    requires TieCell(left, right, a, b) && Passes(left, right, i, j, a + 1, b + 1)
    ensures exists s :: Reaches(s, left, right, i, j) && ScriptCost(s) < ScriptCost(Trace(left, right, i, j))
    decreases i + j
  {
    TieOnWalkNotOptimal(left, right, i, j, a, b);
    TraceIsValidAndPriced(left, right, i, j);
  }

  lemma {:induction false} TieOnWalkNotOptimal<T>(left: seq<T>, right: seq<T>, i: nat, j: nat, a: nat, b: nat)
    requires i <= |left| && j <= |right| && a < |left| && b < |right|
    requires TieCell(left, right, a, b) && Passes(left, right, i, j, a + 1, b + 1)
    ensures !CellOptimal(left, right, i, j)
    decreases i + j
  {
    hide CellAt, CellOptimal, TieCell;
    if i == a + 1 && j == b + 1 {
      TieCellNotOptimal(left, right, a, b);
    } else {
      MoveFitsAndPays(left, right, i, j);
      var m := MoveAt(left, right, i, j);
      TieOnWalkNotOptimal(left, right, i - LeftStep(m), j - RightStep(m), a, b);
      CheaperGoesOn(left, right, i, j);
    }
  }

  /** A tie cell off the walk back can do harm: from 0,1,0 to 1,0,0,2 the walk back comes through none, and yet another
      script is cheaper. */
  lemma {:induction false} TieOffTheTraceCanHarm()
    ensures var left, right, best := [0, 1, 0], [1, 0, 0, 2], [EditType.Remove, Match, Match, Add, Add];
            && (forall a: nat, b: nat :: a < 3 && b < 4 && Passes(left, right, 3, 4, a + 1, b + 1) ==> !TieCell(left, right, a, b))
            && ValidScript(best, left, right)
            && ScriptCost(best) < ScriptCost(Trace(left, right, 3, 4))
  {
    hide CellAt, Trace, ValidPath, ScriptCost, UsedLeft, UsedRight;
    var left, right := [0, 1, 0], [1, 0, 0, 2];
    HarmedTable(left, right);
    HarmedWalk(left, right);
    NoEdits(left, right);
    PathSnoc([], EditType.Remove, left, right);
    assert [] + [EditType.Remove] == [EditType.Remove];
    PathSnoc([EditType.Remove], Match, left, right);
    assert [EditType.Remove] + [Match] == [EditType.Remove, Match];
    PathSnoc([EditType.Remove, Match], Match, left, right);
    assert [EditType.Remove, Match] + [Match] == [EditType.Remove, Match, Match];
    PathSnoc([EditType.Remove, Match, Match], Add, left, right);
    assert [EditType.Remove, Match, Match] + [Add] == [EditType.Remove, Match, Match, Add];
    PathSnoc([EditType.Remove, Match, Match, Add], Add, left, right);
    assert [EditType.Remove, Match, Match, Add] + [Add] == [EditType.Remove, Match, Match, Add, Add];
    TraceIsValidAndPriced(left, right, 3, 4);
  }

  lemma {:induction false} HarmedTable(left: seq<int>, right: seq<int>)
    requires left == [0, 1, 0] && right == [1, 0, 0, 2]
    ensures CellAt(left, right, 0, 1) == Cell(1.0, Add)
    ensures CellAt(left, right, 1, 2) == Cell(1.0, Match)
    ensures CellAt(left, right, 1, 3).cost == 2.0 && CellAt(left, right, 2, 2).cost == 2.0 * REPLACE_COST
    ensures CellAt(left, right, 2, 3) == Cell(1.0 + REPLACE_COST, Replace)
    ensures CellAt(left, right, 2, 4).cost == 2.0 + REPLACE_COST && CellAt(left, right, 3, 3).cost == 2.0 * REPLACE_COST
    ensures CellAt(left, right, 3, 4) == Cell(1.0 + 2.0 * REPLACE_COST, Replace)
  {
    hide CellAt;
    CellUnfolds(left, right, 0, 1);
    CellUnfolds(left, right, 0, 2);
    CellUnfolds(left, right, 0, 3);
    CellUnfolds(left, right, 0, 4);
    CellUnfolds(left, right, 1, 0);
    CellUnfolds(left, right, 0, 0);
    CellUnfolds(left, right, 1, 1);
    CellUnfolds(left, right, 1, 2);
    CellUnfolds(left, right, 1, 3);
    CellUnfolds(left, right, 1, 4);
    CellUnfolds(left, right, 2, 1);
    CellUnfolds(left, right, 2, 2);
    CellUnfolds(left, right, 2, 3);
    CellUnfolds(left, right, 2, 4);
    CellUnfolds(left, right, 3, 3);
    CellUnfolds(left, right, 3, 4);
  }

  lemma {:induction false} HarmedWalk(left: seq<int>, right: seq<int>)
    requires left == [0, 1, 0] && right == [1, 0, 0, 2]
    ensures forall a: nat, b: nat :: a < 3 && b < 4 && Passes(left, right, 3, 4, a + 1, b + 1) ==> !TieCell(left, right, a, b)
  {
    hide CellAt;
    HarmedTable(left, right);
    forall a: nat, b: nat | a < 3 && b < 4 && Passes(left, right, 3, 4, a + 1, b + 1) ensures !TieCell(left, right, a, b) {
      assert Passes(left, right, 2, 3, a + 1, b + 1) || (a == 2 && b == 3);
      assert Passes(left, right, 1, 2, a + 1, b + 1) || (a == 1 && b == 2) || (a == 2 && b == 3);
      assert Passes(left, right, 0, 1, a + 1, b + 1) ==> false;
    }
  }

  /** A tie cell off the trace need not do harm: from 0,1 to 1,0,1 there is one, and the script
      returned is still a cheapest one. */
  lemma {:induction false} TieOffTheTrace(s: seq<EditType>)
    requires ValidScript(s, [0, 1], [1, 0, 1])
    ensures !NoTie([0, 1], [1, 0, 1])
    ensures ScriptCost(Trace([0, 1], [1, 0, 1], 2, 3)) <= ScriptCost(s)
  {
    var left, right := [0, 1], [1, 0, 1];
    assert CostAt(left, right, 1, 1) == REPLACE_COST;
    assert CostAt(left, right, 2, 1) == 1.0;
    assert CostAt(left, right, 1, 2) == 1.0;
    assert TieCell(left, right, 1, 1);
    assert CostAt(left, right, 2, 3) == 1.0;
    TraceIsValidAndPriced(left, right, 2, 3);
    GrowthCosts(s);
  }

  // ----- the methods

  /** Fills both tables and walks back from the last cell. */
  method CalculateOptimalEdits(left: seq<nat>, right: seq<nat>) returns (path: seq<EditType>)
    ensures path == Trace(left, right, |left|, |right|)
    ensures ValidScript(path, left, right)
    ensures ScriptCost(path) == CostAt(left, right, |left|, |right|)
  {
    var costs := new real[|left| + 1, |right| + 1];
    var bestMove := new EditType[|left| + 1, |right| + 1]((_, _) => Match);
    FillTables(left, right, costs, bestMove);

    hide CellAt, ValidPath, UsedLeft, UsedRight, ScriptCost;
    var bestPath: seq<EditType> := [];
    var l, r := |left|, |right|;
    while l > 0 || r > 0
      invariant 0 <= l <= |left| && 0 <= r <= |right|
      invariant Trace(left, right, l, r) + Reversed(bestPath) == Trace(left, right, |left|, |right|)
      decreases l + r
    {
      var move := bestMove[l, r];
      assert move == MoveAt(left, right, l, r);
      assert Reversed(bestPath + [move]) == [move] + Reversed(bestPath) by {
        assert (bestPath + [move])[..|bestPath|] == bestPath;
      }
      bestPath := bestPath + [move];
      l := l - (if move != Add then 1 else 0);
      r := r - (if move != Remove then 1 else 0);
    }
    path := Reversed(bestPath);
    TraceIsValidAndPriced(left, right, |left|, |right|);
  }

  /** Every cell of both tables gets filled with what the recursive definitions give. */
  method FillTables(left: seq<nat>, right: seq<nat>, costs: array2<real>, bestMove: array2<EditType>)
    requires costs.Length0 == bestMove.Length0 == |left| + 1
    requires costs.Length1 == bestMove.Length1 == |right| + 1
    modifies costs, bestMove
    ensures forall i, j :: 0 <= i <= |left| && 0 <= j <= |right| ==>
              costs[i, j] == CostAt(left, right, i, j) && bestMove[i, j] == MoveAt(left, right, i, j)
  {
    for l := 0 to |left| + 1
      invariant forall i :: 0 <= i < l ==> costs[i, 0] == i as real && bestMove[i, 0] == Remove
    {
      costs[l, 0] := l as real;
      bestMove[l, 0] := Remove;
    }
    for r := 1 to |right| + 1
      invariant forall i :: 0 <= i <= |left| ==> costs[i, 0] == i as real && bestMove[i, 0] == Remove
      invariant forall j :: 1 <= j < r ==> costs[0, j] == j as real && bestMove[0, j] == Add
    {
      costs[0, r] := r as real;
      bestMove[0, r] := Add;
    }
    for l := 0 to |left|
      invariant forall i :: 0 <= i <= |left| ==> costs[i, 0] == i as real && bestMove[i, 0] == Remove
      invariant forall i, j :: 0 <= i <= l && 0 <= j <= |right| ==>
                  costs[i, j] == CostAt(left, right, i, j) && bestMove[i, j] == MoveAt(left, right, i, j)
    {
      FillRow(left, right, costs, bestMove, l);
    }
  }

  /** The inner loop: row l + 1 from row l. */
  method FillRow(left: seq<nat>, right: seq<nat>, costs: array2<real>, bestMove: array2<EditType>, l: nat)
    requires costs.Length0 == bestMove.Length0 == |left| + 1
    requires costs.Length1 == bestMove.Length1 == |right| + 1
    requires l < |left|
    requires costs[l + 1, 0] == (l + 1) as real && bestMove[l + 1, 0] == Remove
    requires forall j :: 0 <= j <= |right| ==> costs[l, j] == CostAt(left, right, l, j)
    modifies costs, bestMove
    ensures forall i, j :: 0 <= i <= |left| && 0 <= j <= |right| && (i != l + 1 || j == 0) ==>
              costs[i, j] == old(costs[i, j]) && bestMove[i, j] == old(bestMove[i, j])
    ensures forall i, j :: i == l + 1 && 0 <= j <= |right| ==>
              costs[i, j] == CostAt(left, right, i, j) && bestMove[i, j] == MoveAt(left, right, i, j)
  {
    for r := 0 to |right|
      invariant forall i, j :: 0 <= i <= |left| && 0 <= j <= |right| && (i != l + 1 || j == 0) ==>
                  costs[i, j] == old(costs[i, j]) && bestMove[i, j] == old(bestMove[i, j])
      invariant forall i, j :: i == l + 1 && 0 <= j <= r ==>
                  costs[i, j] == CostAt(left, right, i, j) && bestMove[i, j] == MoveAt(left, right, i, j)
    {
      if left[l] == right[r] {
        costs[l + 1, r + 1] := costs[l, r];
        bestMove[l + 1, r + 1] := Match;
        continue;
      }
      var add := costs[l + 1, r];
      var remove := costs[l, r + 1];
      var replace := costs[l, r];
      if add < remove && add < replace {
        costs[l + 1, r + 1] := add + 1.0;
        bestMove[l + 1, r + 1] := Add;
      } else if remove < add && remove < replace {
        costs[l + 1, r + 1] := remove + 1.0;
        bestMove[l + 1, r + 1] := Remove;
      } else {
        costs[l + 1, r + 1] := replace + 1.00001;
        bestMove[l + 1, r + 1] := Replace;
      }
    }
  }

  // ----- strings are replaced by numbers first

  class InternalStrings {
    var ids: map<string, nat>

    /** Numbers are handed out in order and never to two strings. */
    ghost predicate Valid()
      reads this
    {
      && (forall s :: s in ids ==> ids[s] < |ids|)
      && (forall s, t :: s in ids && t in ids && ids[s] == ids[t] ==> s == t)
    }

    constructor ()
      ensures Valid() && ids == map[]
    {
      ids := map[];
    }

    method GetId(str: string) returns (id: nat)
      requires Valid()
      modifies this
      ensures Valid()
      ensures ids == old(ids)[str := id]
      ensures forall s :: s in old(ids) ==> s in ids && ids[s] == old(ids)[s]
    {
      if str in ids { return ids[str]; }
      id := |ids|;
      ids := ids[str := id];
    }
  }

  /** `ids` numbers the first `n` strings through the table. */
  ghost predicate Numbered(strs: seq<string>, n: nat, ids: seq<nat>, table: map<string, nat>)
  {
    n == |ids| <= |strs| && forall i :: 0 <= i < n ==> strs[i] in table && ids[i] == table[strs[i]]
  }

  /** Elements of the two pairs of sequences are equal at the same places. */
  ghost predicate SameEquality<T, U>(left: seq<T>, right: seq<T>, left': seq<U>, right': seq<U>)
  {
    && |left| == |left'| && |right| == |right'|
    && forall a, b :: 0 <= a < |left| && 0 <= b < |right| ==> (left[a] == right[b] <==> left'[a] == right'[b])
  }

  /** The table depends only on which elements are equal. */
  lemma {:induction false} CellDependsOnEquality<T, U>(left: seq<T>, right: seq<T>, left': seq<U>, right': seq<U>, i: nat, j: nat)
    requires SameEquality(left, right, left', right') && i <= |left| && j <= |right|
    ensures CellAt(left, right, i, j) == CellAt(left', right', i, j)
    decreases i + j
  {
    if i > 0 && j > 0 {
      CellDependsOnEquality(left, right, left', right', i - 1, j);
      CellDependsOnEquality(left, right, left', right', i, j - 1);
      CellDependsOnEquality(left, right, left', right', i - 1, j - 1);
      assert left[i - 1] == right[j - 1] <==> left'[i - 1] == right'[j - 1];
    }
  }

  /** So does the script. */
  lemma {:induction false} TraceDependsOnEquality<T, U>(left: seq<T>, right: seq<T>, left': seq<U>, right': seq<U>, i: nat, j: nat)
    requires SameEquality(left, right, left', right') && i <= |left| && j <= |right| && i <= |left'| && j <= |right'|
    ensures Trace(left, right, i, j) == Trace(left', right', i, j)
    decreases i + j
  {
    hide CellAt, Trace, SameEquality;
    TraceUnfolds(left, right, i, j);
    TraceUnfolds(left', right', i, j);
    if i > 0 || j > 0 {
      MoveFitsAndPays(left, right, i, j);
      CellDependsOnEquality(left, right, left', right', i, j);
      var m := MoveAt(left, right, i, j);
      TraceDependsOnEquality(left, right, left', right', i - LeftStep(m), j - RightStep(m));
    }
  }

  /** Both sequences are numbered through one table. */
  method Intern(left: seq<string>, right: seq<string>) returns (leftIds: seq<nat>, rightIds: seq<nat>)
    ensures SameEquality(left, right, leftIds, rightIds)
  {
    var internTable := new InternalStrings();
    leftIds := NumberAll(left, internTable);
    ghost var before := internTable.ids;
    rightIds := NumberAll(right, internTable);
    StillNumbered(left, leftIds, before, internTable.ids);
    SameNumbers(left, right, leftIds, rightIds, internTable);
  }

  method NumberAll(strs: seq<string>, internTable: InternalStrings) returns (ids: seq<nat>)
    requires internTable.Valid()
    modifies internTable
    ensures internTable.Valid() && Extends(internTable.ids, old(internTable.ids))
    ensures Numbered(strs, |strs|, ids, internTable.ids)
  {
    ids := [];
    for i := 0 to |strs|
      invariant internTable.Valid() && Extends(internTable.ids, old(internTable.ids))
      invariant Numbered(strs, i, ids, internTable.ids)
    {
      var id := internTable.GetId(strs[i]);
      ids := ids + [id];
    }
  }

  /** The table knows what it knew before. */
  ghost predicate Extends(table: map<string, nat>, before: map<string, nat>)
  {
    forall s :: s in before ==> s in table && table[s] == before[s]
  }

  lemma {:induction false} StillNumbered(strs: seq<string>, ids: seq<nat>, before: map<string, nat>, table: map<string, nat>)
    requires Numbered(strs, |strs|, ids, before) && Extends(table, before)
    ensures Numbered(strs, |strs|, ids, table)
  {
  }

  lemma {:induction false} SameNumbers(left: seq<string>, right: seq<string>, leftIds: seq<nat>, rightIds: seq<nat>, internTable: InternalStrings)
    requires internTable.Valid()
    requires Numbered(left, |left|, leftIds, internTable.ids) && Numbered(right, |right|, rightIds, internTable.ids)
    ensures SameEquality(left, right, leftIds, rightIds)
  {
  }

  method CalculateOptimalEditsOfStrings(left: seq<string>, right: seq<string>) returns (path: seq<EditType>)
    ensures path == Trace(left, right, |left|, |right|)
    ensures ValidScript(path, left, right)
  {
    hide CellAt, Trace, ValidPath, UsedLeft, UsedRight, SameEquality;
    var leftIds, rightIds := Intern(left, right);
    SameLengths(left, right, leftIds, rightIds);
    path := CalculateOptimalEdits(leftIds, rightIds);
    TraceDependsOnEquality(left, right, leftIds, rightIds, |left|, |right|);
    TraceIsValidAndPriced(left, right, |left|, |right|);
  }

  lemma {:induction false} SameLengths<T, U>(left: seq<T>, right: seq<T>, left': seq<U>, right': seq<U>)
    requires SameEquality(left, right, left', right')
    ensures |left| == |left'| && |right| == |right'|
  {
  }
}
