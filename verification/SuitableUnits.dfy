/**
 * Front-line selection: for each row of the defending army, the one unit that
 * an attacker may target, namely the alive unit nearest to the attacking side.
 */
module SuitableUnits {
  import opened Wrappers
  import opened Units

  /** One row of units sharing a y coordinate; `None` is a null entry. */
  type Row = seq<Option<Unit>>

  predicate AliveAt(row: Row, i: nat)
    requires i < |row|
  {
    row[i].Some? && row[i].value.Alive()
  }

  /** Some entry among the first `n` of the row is an alive unit. */
  ghost predicate HasAliveUpTo(row: Row, n: nat)
    requires n <= |row|
  {
    exists j :: 0 <= j < n && AliveAt(row, j)
  }

  /**
   * Entry `i` is the front unit of the first `n` entries of the row: it is
   * alive, no alive entry lies further towards the attacker (largest x when
   * the left army is attacked, smallest x otherwise), and no earlier alive
   * entry has the same x.
   */
  ghost predicate IsFrontUpTo(row: Row, n: nat, isLeftArmyTarget: bool, i: int)
    requires n <= |row|
  {
    && 0 <= i < n
    && AliveAt(row, i)
    && (forall j :: 0 <= j < n && AliveAt(row, j) ==>
          if isLeftArmyTarget then row[j].value.x <= row[i].value.x
          else row[j].value.x >= row[i].value.x)
    && (forall j :: 0 <= j < i && AliveAt(row, j) ==> row[j].value.x != row[i].value.x)
  }

  ghost predicate IsFront(row: Row, isLeftArmyTarget: bool, i: int) {
    IsFrontUpTo(row, |row|, isLeftArmyTarget, i)
  }

  /** A row with an alive unit has a front unit. */
  lemma {:induction false} FrontExists(row: Row, n: nat, isLeftArmyTarget: bool)
    requires n <= |row| && HasAliveUpTo(row, n)
    ensures exists i :: IsFrontUpTo(row, n, isLeftArmyTarget, i)
  {
    if HasAliveUpTo(row, n - 1) {
      FrontExists(row, n - 1, isLeftArmyTarget);
      var p :| IsFrontUpTo(row, n - 1, isLeftArmyTarget, p);
      var xp := row[p].value.x;
      if AliveAt(row, n - 1)
         && (if isLeftArmyTarget then row[n - 1].value.x > xp else row[n - 1].value.x < xp) {
        assert IsFrontUpTo(row, n, isLeftArmyTarget, n - 1);
      } else {
        assert IsFrontUpTo(row, n, isLeftArmyTarget, p);
      }
    } else {
      assert IsFrontUpTo(row, n, isLeftArmyTarget, n - 1);
    }
  }

  /** The front unit of a row is unique. */
  lemma FrontUnique(row: Row, isLeftArmyTarget: bool, i: int, k: int)
    requires IsFront(row, isLeftArmyTarget, i) && IsFront(row, isLeftArmyTarget, k)
    ensures i == k
  {
  }

  /** The unit a row contributes to the result, if any: null rows and rows
      without an alive unit contribute nothing. */
  ghost function FrontOf(row: Option<Row>, isLeftArmyTarget: bool): Option<Unit> {
    if row.Some? && HasAliveUpTo(row.value, |row.value|) then
      FrontExists(row.value, |row.value|, isLeftArmyTarget);
      var k :| IsFrontUpTo(row.value, |row.value|, isLeftArmyTarget, k);
      Some(row.value[k].value)
    else
      None
  }

  /** The front units of all rows, in row order. */
  ghost function Fronts(rows: seq<Option<Row>>, isLeftArmyTarget: bool): seq<Unit> {
    if rows == [] then []
    else
      Fronts(rows[..|rows| - 1], isLeftArmyTarget)
      + match FrontOf(rows[|rows| - 1], isLeftArmyTarget)
        case Some(u) => [u]
        case None => []
  }

  /** The number of rows that hold an alive unit. */
  ghost function LiveRows(rows: seq<Option<Row>>): nat {
    if rows == [] then 0
    else
      var row := rows[|rows| - 1];
      LiveRows(rows[..|rows| - 1])
      + if row.Some? && HasAliveUpTo(row.value, |row.value|) then 1 else 0
  }

  /**
   * Every selected unit is alive and belongs to one of the rows; exactly the
   * rows with an alive unit contribute one unit each.
   */
  lemma {:induction false} FrontsAreLiveRowMembers(rows: seq<Option<Row>>, isLeftArmyTarget: bool)
    ensures |Fronts(rows, isLeftArmyTarget)| == LiveRows(rows) <= |rows|
    ensures forall u :: u in Fronts(rows, isLeftArmyTarget) ==>
              u.Alive() && exists r :: 0 <= r < |rows| && rows[r].Some? && Some(u) in rows[r].value
  {
    if rows != [] {
      var init := rows[..|rows| - 1];
      FrontsAreLiveRowMembers(init, isLeftArmyTarget);
      var last := rows[|rows| - 1];
      forall u | u in Fronts(rows, isLeftArmyTarget)
        ensures u.Alive() && exists r :: 0 <= r < |rows| && rows[r].Some? && Some(u) in rows[r].value
      {
        if u in Fronts(init, isLeftArmyTarget) {
          var r :| 0 <= r < |init| && init[r].Some? && Some(u) in init[r].value;
          assert rows[r] == init[r];
        } else {
          assert FrontOf(last, isLeftArmyTarget) == Some(u);
          var k :| IsFront(last.value, isLeftArmyTarget, k) && last.value[k] == Some(u);
          assert rows[|rows| - 1] == last;
        }
      }
    }
  }

  /**
   * The Java `getSuitableUnits`: scans each row once, keeping the best x seen
   * so far; a strictly better x replaces it, so on ties the first unit stays.
   */
  method GetSuitableUnits(unitsByRow: seq<Option<Row>>, isLeftArmyTarget: bool)
    returns (result: seq<Unit>)
    ensures result == Fronts(unitsByRow, isLeftArmyTarget)
  {
    result := [];
    for r := 0 to |unitsByRow|
      invariant result == Fronts(unitsByRow[..r], isLeftArmyTarget)
    {
      assert unitsByRow[..r + 1][..r] == unitsByRow[..r];
      var row := unitsByRow[r];
      if row.None? || row.value == [] {
        continue;
      }
      var frontUnit: Option<Unit> := None;
      var frontX := 0;
      ghost var front: nat := 0;
      for k := 0 to |row.value|
        invariant frontUnit.None? <==> !HasAliveUpTo(row.value, k)
        invariant frontUnit.Some? ==>
          IsFrontUpTo(row.value, k, isLeftArmyTarget, front)
          && frontUnit == row.value[front] && frontX == frontUnit.value.x
      {
        var unit := row.value[k];
        if unit.None? || !unit.value.Alive() {
          assert !AliveAt(row.value, k);
          continue;
        }
        assert AliveAt(row.value, k);
        var x := unit.value.x;
        if isLeftArmyTarget {
          if frontUnit.None? || x > frontX {
            frontX, frontUnit, front := x, unit, k;
          }
        } else {
          if frontUnit.None? || x < frontX {
            frontX, frontUnit, front := x, unit, k;
          }
        }
      }
      if frontUnit.Some? {
        ghost var k: int :| IsFront(row.value, isLeftArmyTarget, k) && FrontOf(row, isLeftArmyTarget) == Some(row.value[k].value);
        FrontUnique(row.value, isLeftArmyTarget, front, k);
        result := result + [frontUnit.value];
      }
    }
    assert unitsByRow[..|unitsByRow|] == unitsByRow;
  }
}
