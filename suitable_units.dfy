/**
 * The attack-target filter (`SuitableForAttackUnitsFinderImpl.getSuitableUnits`):
 * in each row only the living units at the row's edge facing the attacker
 * can be attacked, the least y when the left army is the target and the
 * greatest y otherwise; every living unit on that edge is returned.
 */
module SuitableForAttackUnitsFinder {
  import opened Wrappers
  import opened Units
  import opened Sequences

  /** The least (left army targeted) or greatest y among the living units of `row`. */
  function LivingEdge(row: seq<Unit>, isLeftArmyTarget: bool): Option<int>
  {
    if row == [] then None
    else
      var rest := LivingEdge(row[..|row| - 1], isLeftArmyTarget);
      var u := row[|row| - 1];
      if !u.alive then rest
      else if rest.None? then Some(u.y)
      else if isLeftArmyTarget then Some(if u.y < rest.value then u.y else rest.value)
      else Some(if u.y > rest.value then u.y else rest.value)
  }

  /**
   * The edge is absent exactly when no unit of the row is alive; otherwise
   * it is the y of a living unit and no living unit lies beyond it.
   */
  lemma {:induction false} LivingEdgeIsExtreme(row: seq<Unit>, isLeftArmyTarget: bool)
    ensures LivingEdge(row, isLeftArmyTarget).None? <==> forall i :: 0 <= i < |row| ==> !row[i].alive
    ensures LivingEdge(row, isLeftArmyTarget).Some? ==>
              exists i :: 0 <= i < |row| && row[i].alive && row[i].y == LivingEdge(row, isLeftArmyTarget).value
    ensures LivingEdge(row, isLeftArmyTarget).Some? ==> forall i :: 0 <= i < |row| && row[i].alive ==>
              if isLeftArmyTarget then LivingEdge(row, isLeftArmyTarget).value <= row[i].y
              else LivingEdge(row, isLeftArmyTarget).value >= row[i].y
    decreases |row|
  {
    if row != [] {
      var n := |row| - 1;
      LivingEdgeIsExtreme(row[..n], isLeftArmyTarget);
      assert forall i :: 0 <= i < n ==> row[..n][i] == row[i];
      var rest := LivingEdge(row[..n], isLeftArmyTarget);
      if rest.Some? {
        var w :| 0 <= w < n && row[..n][w].alive && row[..n][w].y == rest.value;
        assert row[w].alive && row[w].y == rest.value;
      }
    }
  }

  /** The value the source's accumulator holds for a given edge: the edge, or the sentinel it starts from. */
  function EdgeOrSentinel(edge: Option<int>, isLeftArmyTarget: bool): int
  {
    if edge.Some? then edge.value else if isLeftArmyTarget then Int32Max else Int32Min
  }

  /** The living units of `row` standing at `y`, in row order. */
  function LivingAt(row: seq<Unit>, y: int): seq<Unit>
  {
    if row == [] then []
    else LivingAt(row[..|row| - 1], y) + (if row[|row| - 1].alive && row[|row| - 1].y == y then [row[|row| - 1]] else [])
  }

  /**
   * What one row contributes: nothing for a null or empty row, a row
   * without living units, or an edge that equals one of the two int
   * sentinels; otherwise the living units on the edge.
   */
  function RowTargets(row: Option<seq<Unit>>, isLeftArmyTarget: bool): seq<Unit>
  {
    if row.None? || row.value == [] then []
    else match LivingEdge(row.value, isLeftArmyTarget)
      case None => []
      case Some(e) => if e == Int32Max || e == Int32Min then [] else LivingAt(row.value, e)
  }

  /** The targets of all rows, row by row. */
  function SuitableUnits(unitsByRow: seq<Option<seq<Unit>>>, isLeftArmyTarget: bool): seq<Unit>
  {
    if unitsByRow == [] then []
    else SuitableUnits(unitsByRow[..|unitsByRow| - 1], isLeftArmyTarget) + RowTargets(unitsByRow[|unitsByRow| - 1], isLeftArmyTarget)
  }

  method GetSuitableUnits(unitsByRow: seq<Option<seq<Unit>>>, isLeftArmyTarget: bool) returns (result: seq<Unit>)
    ensures result == SuitableUnits(unitsByRow, isLeftArmyTarget)
  {
    result := [];
    var r := 0;
    while r < |unitsByRow|
      invariant 0 <= r <= |unitsByRow|
      invariant result == SuitableUnits(unitsByRow[..r], isLeftArmyTarget)
    {
      assert unitsByRow[..r + 1][..r] == unitsByRow[..r];
      var row := unitsByRow[r];
      if row.Some? && row.value != [] {
        var targets := RowEdgeUnits(row.value, isLeftArmyTarget);
        result := result + targets;
      }
      r := r + 1;
    }
    assert unitsByRow[..|unitsByRow|] == unitsByRow;
  }

  /** The two passes over one non-empty row: find the edge y, then collect the living units on it. */
  method RowEdgeUnits(units: seq<Unit>, isLeftArmyTarget: bool) returns (targets: seq<Unit>)
    requires units != []
    ensures targets == RowTargets(Some(units), isLeftArmyTarget)
  {
    // First pass: the edge y among the living units.
    var edgeY: int := if isLeftArmyTarget then Int32Max else Int32Min;
    var j := 0;
    while j < |units|
      invariant 0 <= j <= |units|
      invariant edgeY == EdgeOrSentinel(LivingEdge(units[..j], isLeftArmyTarget), isLeftArmyTarget)
    {
      assert units[..j + 1][..j] == units[..j];
      var unit := units[j];
      if unit.alive {
        var unitY := unit.y;
        if isLeftArmyTarget {
          if unitY < edgeY {
            edgeY := unitY;
          }
        } else {
          if unitY > edgeY {
            edgeY := unitY;
          }
        }
      }
      j := j + 1;
    }
    assert units[..|units|] == units;
    // Second pass: every living unit on the edge, unless the edge is a sentinel value.
    targets := [];
    if edgeY != Int32Max && edgeY != Int32Min {
      var m := 0;
      while m < |units|
        invariant 0 <= m <= |units|
        invariant targets == LivingAt(units[..m], edgeY)
      {
        assert units[..m + 1][..m] == units[..m];
        var unit := units[m];
        if unit.alive && unit.y == edgeY {
          targets := targets + [unit];
        }
        m := m + 1;
      }
      assert units[..|units|] == units;
    }
  }

  // ---------------------------------------------------------------------
  // What the filter returns
  // ---------------------------------------------------------------------

  /** `u` can be attacked in `row`: alive, on the row's edge, and the edge is not a sentinel value. */
  ghost predicate OnEdge(row: Option<seq<Unit>>, isLeftArmyTarget: bool, u: Unit)
  {
    row.Some? && u in row.value && u.alive && u.y != Int32Max && u.y != Int32Min &&
    forall v :: v in row.value && v.alive ==> if isLeftArmyTarget then u.y <= v.y else u.y >= v.y
  }

  lemma {:induction false} LivingAtMembers(row: seq<Unit>, y: int, u: Unit)
    ensures u in LivingAt(row, y) <==> u in row && u.alive && u.y == y
    decreases |row|
  {
    if row != [] {
      LivingAtMembers(row[..|row| - 1], y, u);
      assert row == row[..|row| - 1] + [row[|row| - 1]];
    }
  }

  /** A unit is among a row's targets exactly when it is on that row's edge. */
  lemma RowTargetsMembers(row: Option<seq<Unit>>, isLeftArmyTarget: bool, u: Unit)
    ensures u in RowTargets(row, isLeftArmyTarget) <==> OnEdge(row, isLeftArmyTarget, u)
  {
    if row.Some? && row.value != [] {
      var units := row.value;
      var edge := LivingEdge(units, isLeftArmyTarget);
      LivingEdgeIsExtreme(units, isLeftArmyTarget);
      if edge.Some? {
        LivingAtMembers(units, edge.value, u);
        if OnEdge(row, isLeftArmyTarget, u) {
          var i :| 0 <= i < |units| && units[i] == u;
          var w :| 0 <= w < |units| && units[w].alive && units[w].y == edge.value;
          assert units[w] in units;
        }
      }
    }
  }

  /**
   * The filter's result holds exactly the units that are on the edge of
   * some row: each returned unit is alive and at its row's least (left army
   * targeted) or greatest y, and every living unit at that y is returned.
   */
  lemma {:induction false} SuitableUnitsMembers(unitsByRow: seq<Option<seq<Unit>>>, isLeftArmyTarget: bool, u: Unit)
    ensures u in SuitableUnits(unitsByRow, isLeftArmyTarget) <==>
              exists r :: 0 <= r < |unitsByRow| && OnEdge(unitsByRow[r], isLeftArmyTarget, u)
    decreases |unitsByRow|
  {
    if unitsByRow != [] {
      var n := |unitsByRow| - 1;
      var init := unitsByRow[..n];
      SuitableUnitsMembers(init, isLeftArmyTarget, u);
      RowTargetsMembers(unitsByRow[n], isLeftArmyTarget, u);
      if exists r :: 0 <= r < |unitsByRow| && OnEdge(unitsByRow[r], isLeftArmyTarget, u) {
        var r :| 0 <= r < |unitsByRow| && OnEdge(unitsByRow[r], isLeftArmyTarget, u);
        if r < n {
          assert init[r] == unitsByRow[r];
        }
      }
      if exists r :: 0 <= r < |init| && OnEdge(init[r], isLeftArmyTarget, u) {
        var r :| 0 <= r < |init| && OnEdge(init[r], isLeftArmyTarget, u);
        assert init[r] == unitsByRow[r];
      }
    }
  }

  lemma {:induction false} LivingAtSubsequence(row: seq<Unit>, y: int)
    ensures IsSubsequence(LivingAt(row, y), row)
    decreases |row|
  {
    if row != [] {
      var n := |row| - 1;
      LivingAtSubsequence(row[..n], y);
      SubsequenceAppend(LivingAt(row[..n], y), row[..n], row[n], row[n].alive && row[n].y == y);
      assert row[..n] + [row[n]] == row;
    }
  }

  /** Within a row the targets keep the row's order. */
  lemma RowTargetsInRowOrder(row: seq<Unit>, isLeftArmyTarget: bool)
    ensures IsSubsequence(RowTargets(Some(row), isLeftArmyTarget), row)
  {
    var edge := LivingEdge(row, isLeftArmyTarget);
    if row != [] && edge.Some? {
      LivingAtSubsequence(row, edge.value);
    }
  }
}
