/**
 * The computer army's preset generator (`GeneratePresetImpl.generate`):
 * sort the unit templates by efficiency, then add one unit at a time of the
 * first template that is under the per-type cap and still affordable,
 * placing the units row by row on a 3-column strip of the field and naming
 * them "<type> <n>".
 */
module GeneratePreset {
  import opened Wrappers
  import opened Units
  import opened StableSort

  const MaxUnitsPerType: nat := 11
  const ArmyWidth: nat := 3
  const FieldHeight: nat := 21

  /** At most this many units fit on the 3 x 21 placement strip. */
  const MaxArmySize: nat := ArmyWidth * FieldHeight

  /**
   * The comparator's efficiency key: attack per point of cost, then health
   * per point of cost, as exact ratios. Templates without a positive cost
   * are outside the model (the source divides by the cost).
   */
  function EfficiencyKey(u: Unit): Key
  {
    if u.cost > 0 then Key(u.baseAttack as real / u.cost as real, u.health as real / u.cost as real)
    else Key(0.0, 0.0)
  }

  /** The copy of the template list, stably sorted by decreasing efficiency. */
  function SortByEfficiency(templates: seq<Unit>): seq<Unit>
  {
    SortDescending(templates, EfficiencyKey)
  }

  /** Sum of the costs of `units`. */
  function TotalCost(units: seq<Unit>): int
  {
    if units == [] then 0 else TotalCost(units[..|units| - 1]) + units[|units| - 1].cost
  }

  /** Number of units of type `t` in `units`. */
  function CountOfType(units: seq<Unit>, t: string): nat
  {
    if units == [] then 0
    else CountOfType(units[..|units| - 1], t) + (if units[|units| - 1].unitType == t then 1 else 0)
  }

  /** The two checks a template must pass to be added to `army`: type cap and budget. */
  predicate Eligible(template: Unit, army: seq<Unit>, maxPoints: int)
  {
    CountOfType(army, template.unitType) < MaxUnitsPerType && TotalCost(army) + template.cost <= maxPoints
  }

  /** Index of the first template at or after `from` that may be added to `army`. */
  function FirstEligible(sorted: seq<Unit>, army: seq<Unit>, maxPoints: int, from: nat): (r: Option<nat>)
    requires from <= |sorted|
    ensures r.Some? ==> from <= r.value < |sorted| && Eligible(sorted[r.value], army, maxPoints)
    ensures r.Some? ==> forall j :: from <= j < r.value ==> !Eligible(sorted[j], army, maxPoints)
    ensures r.None? ==> forall j :: from <= j < |sorted| ==> !Eligible(sorted[j], army, maxPoints)
    decreases |sorted| - from
  {
    if from == |sorted| then None
    else if Eligible(sorted[from], army, maxPoints) then Some(from)
    else FirstEligible(sorted, army, maxPoints, from + 1)
  }

  /** The character of a decimal digit. */
  function DigitChar(d: nat): char
    requires d < 10
  {
    (48 + d) as char
  }

  /** The decimal representation of `n`, as Java's string concatenation writes an int. */
  function DecimalString(n: nat): (s: string)
    ensures |s| >= 1
    ensures forall i :: 0 <= i < |s| ==> '0' <= s[i] <= '9'
    ensures n >= 10 ==> |s| >= 2
  {
    if n < 10 then [DigitChar(n)] else DecimalString(n / 10) + [DigitChar(n % 10)]
  }

  /** The name of the `ordinal`-th unit of type `t`: "<type> <ordinal>". */
  function UnitName(t: string, ordinal: nat): string
  {
    t + " " + DecimalString(ordinal)
  }

  /**
   * The unit created from `template` as the `index`-th unit of the army and
   * the `ordinal`-th of its type: a fresh object (identity `idBase + index`)
   * carrying the template's stats, placed row-major on the 3-column strip.
   */
  function Spawn(template: Unit, index: nat, ordinal: nat, idBase: int): Unit
    requires index < MaxArmySize
  {
    Unit(idBase + index, UnitName(template.unitType, ordinal), template.unitType,
         template.health, template.baseAttack, template.cost, template.attackType,
         template.attackBonuses, template.defenceBonuses,
         index % ArmyWidth, index / ArmyWidth, true)
  }

  /** `u` is the unit the greedy rule adds after `prefix`. */
  predicate IsGreedyPick(sorted: seq<Unit>, maxPoints: int, idBase: int, prefix: seq<Unit>, u: Unit)
  {
    |prefix| < MaxArmySize &&
    match FirstEligible(sorted, prefix, maxPoints, 0)
    case None => false
    case Some(k) => u == Spawn(sorted[k], |prefix|, CountOfType(prefix, sorted[k].unitType) + 1, idBase)
  }

  /** The `i`-th unit of `army` is the greedy pick given the units before it. */
  predicate PickedAt(sorted: seq<Unit>, maxPoints: int, idBase: int, army: seq<Unit>, i: nat)
    requires i < |army|
  {
    IsGreedyPick(sorted, maxPoints, idBase, army[..i], army[i])
  }

  /** Every unit of `army` is the greedy pick given the units before it. */
  predicate GreedyTrace(sorted: seq<Unit>, maxPoints: int, idBase: int, army: seq<Unit>)
  {
    forall i :: 0 <= i < |army| ==> PickedAt(sorted, maxPoints, idBase, army, i)
  }

  /** The loop's exit condition: budget used up, nothing addable, or the strip is full. */
  predicate Stopped(sorted: seq<Unit>, maxPoints: int, army: seq<Unit>)
  {
    TotalCost(army) >= maxPoints || FirstEligible(sorted, army, maxPoints, 0).None? || |army| == MaxArmySize
  }

  /** The strip placement: the i-th unit stands at column i % 3 of row i / 3, inside the field. */
  predicate RowMajor(army: seq<Unit>)
  {
    forall i :: 0 <= i < |army| ==> army[i].x == i % ArmyWidth && army[i].y == i / ArmyWidth < FieldHeight
  }

  /** The per-type counter map agrees with the units added so far (a missing key means 0). */
  ghost predicate CountsAgree(counts: map<string, nat>, army: seq<Unit>)
  {
    forall t :: CountOfType(army, t) == (if t in counts then counts[t] else 0)
  }

  /** The first eligible template is the one the scan stopped at. */
  lemma FirstEligibleIs(sorted: seq<Unit>, army: seq<Unit>, maxPoints: int, k: nat)
    requires k < |sorted| && Eligible(sorted[k], army, maxPoints)
    requires forall j :: 0 <= j < k ==> !Eligible(sorted[j], army, maxPoints)
    ensures FirstEligible(sorted, army, maxPoints, 0) == Some(k)
  {
  }

  lemma RowMajorExtend(army: seq<Unit>, u: Unit)
    requires RowMajor(army)
    requires |army| < MaxArmySize && u.x == |army| % ArmyWidth && u.y == |army| / ArmyWidth
    ensures RowMajor(army + [u])
  {
  }

  lemma CountsAfterAdd(counts: map<string, nat>, army: seq<Unit>, u: Unit)
    requires CountsAgree(counts, army)
    ensures CountsAgree(counts[u.unitType := CountOfType(army, u.unitType) + 1], army + [u])
  {
    CountOfTypeAppend(army, u);
  }

  /** Adding the greedy pick extends a greedy trace. */
  lemma GreedyTraceExtend(sorted: seq<Unit>, maxPoints: int, idBase: int, army: seq<Unit>, u: Unit)
    requires GreedyTrace(sorted, maxPoints, idBase, army)
    requires IsGreedyPick(sorted, maxPoints, idBase, army, u)
    ensures GreedyTrace(sorted, maxPoints, idBase, army + [u])
  {
    var a := army + [u];
    forall i | 0 <= i < |a| ensures PickedAt(sorted, maxPoints, idBase, a, i) {
      if i == |army| {
        assert a[..i] == army;
      } else {
        assert a[..i] == army[..i];
        assert PickedAt(sorted, maxPoints, idBase, army, i);
      }
    }
  }

  /** Appending a unit adds one to its type's count and its cost to the total. */
  lemma CountOfTypeAppend(army: seq<Unit>, u: Unit)
    ensures forall t :: CountOfType(army + [u], t) == CountOfType(army, t) + (if u.unitType == t then 1 else 0)
    ensures TotalCost(army + [u]) == TotalCost(army) + u.cost
  {
    assert (army + [u])[..|army|] == army;
  }

  /** The catalogue a possibly-null template list stands for. */
  function TemplatesOf(unitList: Option<seq<Unit>>): seq<Unit>
  {
    if unitList.Some? then unitList.value else []
  }

  /** Every template costs a positive number of points. */
  predicate PositiveCosts(templates: seq<Unit>)
  {
    forall t :: t in templates ==> t.cost > 0
  }

  /**
   * One pass of `generate`'s inner loop: scans the sorted templates and adds
   * one unit of the first that is under its type cap and affordable, unless
   * the strip is full; `added` tells whether a unit was added.
   */
  method AddNextUnit(sorted: seq<Unit>, maxPoints: int, idBase: int, armyUnits: seq<Unit>, currentPoints: int,
                     unitCountByType: map<string, nat>, unitIndex: nat)
      returns (armyUnits': seq<Unit>, currentPoints': int, unitCountByType': map<string, nat>, unitIndex': nat, added: bool)
    requires unitIndex == |armyUnits| <= MaxArmySize
    requires currentPoints == TotalCost(armyUnits)
    requires CountsAgree(unitCountByType, armyUnits)
    requires RowMajor(armyUnits)
    requires GreedyTrace(sorted, maxPoints, idBase, armyUnits)
    ensures !added ==> armyUnits' == armyUnits && currentPoints' == currentPoints && Stopped(sorted, maxPoints, armyUnits)
    ensures added ==> |armyUnits'| == |armyUnits| + 1 && armyUnits'[..|armyUnits|] == armyUnits
    ensures added ==> IsGreedyPick(sorted, maxPoints, idBase, armyUnits, armyUnits'[|armyUnits|])
    ensures added ==> currentPoints' <= maxPoints
    ensures unitIndex' == |armyUnits'| && currentPoints' == TotalCost(armyUnits')
    ensures CountsAgree(unitCountByType', armyUnits')
    ensures RowMajor(armyUnits')
    ensures GreedyTrace(sorted, maxPoints, idBase, armyUnits')
  {
    armyUnits', currentPoints', unitCountByType', unitIndex', added := armyUnits, currentPoints, unitCountByType, unitIndex, false;
    var k := 0;
    while k < |sorted|
      invariant 0 <= k <= |sorted|
      invariant forall j :: 0 <= j < k ==> !Eligible(sorted[j], armyUnits, maxPoints)
    {
      var template := sorted[k];
      var unitType := template.unitType;
      var count := if unitType in unitCountByType then unitCountByType[unitType] else 0;
      if count >= MaxUnitsPerType {
        k := k + 1;
        continue;
      }
      if currentPoints + template.cost > maxPoints {
        k := k + 1;
        continue;
      }
      var xCoord := unitIndex % ArmyWidth;
      var yCoord := unitIndex / ArmyWidth;
      if yCoord >= FieldHeight {
        return;
      }
      var newUnit := Spawn(template, unitIndex, count + 1, idBase);
      assert Eligible(sorted[k], armyUnits, maxPoints);
      FirstEligibleIs(sorted, armyUnits, maxPoints, k);
      GreedyTraceExtend(sorted, maxPoints, idBase, armyUnits, newUnit);
      CountOfTypeAppend(armyUnits, newUnit);
      CountsAfterAdd(unitCountByType, armyUnits, newUnit);
      RowMajorExtend(armyUnits, newUnit);
      armyUnits' := armyUnits + [newUnit];
      currentPoints' := currentPoints + template.cost;
      unitCountByType' := unitCountByType[unitType := count + 1];
      unitIndex' := unitIndex + 1;
      added := true;
      return;
    }
  }

  /**
   * Builds the computer's army from `unitList` within `maxPoints`. Created
   * units get the identities `idBase`, `idBase + 1`, ... in order of creation.
   */
  method Generate(unitList: Option<seq<Unit>>, maxPoints: int, idBase: int) returns (army: Army)
    requires maxPoints > 0 ==> PositiveCosts(TemplatesOf(unitList))
    ensures unitList.None? || unitList.value == [] || maxPoints <= 0 ==> army == Army(Some([]), 0)
    ensures army.units.Some?
    ensures army.points == TotalCost(army.units.value)
    ensures army.units.value != [] ==> army.points <= maxPoints
    ensures |army.units.value| <= MaxArmySize
    ensures RowMajor(army.units.value)
    ensures GreedyTrace(SortByEfficiency(TemplatesOf(unitList)), maxPoints, idBase, army.units.value)
    ensures Stopped(SortByEfficiency(TemplatesOf(unitList)), maxPoints, army.units.value)
  {
    if unitList.None? || unitList.value == [] || maxPoints <= 0 {
      return Army(Some([]), 0);
    }
    var sorted := SortByEfficiency(unitList.value);
    var armyUnits: seq<Unit> := [];
    var currentPoints := 0;
    var unitCountByType: map<string, nat> := map[];
    var unitIndex := 0;
    var added := true;
    while added && currentPoints < maxPoints
      invariant unitIndex == |armyUnits| <= MaxArmySize
      invariant currentPoints == TotalCost(armyUnits)
      invariant armyUnits != [] ==> currentPoints <= maxPoints
      invariant CountsAgree(unitCountByType, armyUnits)
      invariant RowMajor(armyUnits)
      invariant GreedyTrace(sorted, maxPoints, idBase, armyUnits)
      invariant !added ==> Stopped(sorted, maxPoints, armyUnits)
      decreases MaxArmySize - |armyUnits|, if added then 1 else 0
    {
      armyUnits, currentPoints, unitCountByType, unitIndex, added :=
        AddNextUnit(sorted, maxPoints, idBase, armyUnits, currentPoints, unitCountByType, unitIndex);
    }
    army := Army(Some(armyUnits), currentPoints);
  }

  // ---------------------------------------------------------------------
  // What the greedy trace guarantees
  // ---------------------------------------------------------------------

  /** A prefix of a greedy trace is a greedy trace. */
  lemma GreedyTracePrefix(sorted: seq<Unit>, maxPoints: int, idBase: int, army: seq<Unit>, n: nat)
    requires GreedyTrace(sorted, maxPoints, idBase, army) && n <= |army|
    ensures GreedyTrace(sorted, maxPoints, idBase, army[..n])
  {
    var p := army[..n];
    forall i | 0 <= i < |p| ensures PickedAt(sorted, maxPoints, idBase, p, i) {
      assert PickedAt(sorted, maxPoints, idBase, army, i);
      assert p[..i] == army[..i];
    }
  }

  /** The unit added at position `i` has the type of a template that was eligible before it. */
  lemma PickedTemplate(sorted: seq<Unit>, maxPoints: int, idBase: int, army: seq<Unit>, i: nat)
      returns (k: nat)
    requires GreedyTrace(sorted, maxPoints, idBase, army) && i < |army|
    ensures i < MaxArmySize && k < |sorted| && FirstEligible(sorted, army[..i], maxPoints, 0) == Some(k)
    ensures Eligible(sorted[k], army[..i], maxPoints)
    ensures army[i] == Spawn(sorted[k], i, CountOfType(army[..i], sorted[k].unitType) + 1, idBase)
  {
    assert PickedAt(sorted, maxPoints, idBase, army, i);
    k := FirstEligible(sorted, army[..i], maxPoints, 0).value;
  }

  /** No unit type ever has more than 11 units in a greedy army. */
  lemma {:induction false} GreedyTypeCap(sorted: seq<Unit>, maxPoints: int, idBase: int, army: seq<Unit>, t: string)
    requires GreedyTrace(sorted, maxPoints, idBase, army)
    ensures CountOfType(army, t) <= MaxUnitsPerType
    decreases |army|
  {
    if army != [] {
      var n := |army| - 1;
      GreedyTracePrefix(sorted, maxPoints, idBase, army, n);
      GreedyTypeCap(sorted, maxPoints, idBase, army[..n], t);
      var k := PickedTemplate(sorted, maxPoints, idBase, army, n);
    }
  }

  /** A non-empty greedy army costs at most the budget. */
  lemma GreedyWithinBudget(sorted: seq<Unit>, maxPoints: int, idBase: int, army: seq<Unit>)
    requires GreedyTrace(sorted, maxPoints, idBase, army) && army != []
    ensures TotalCost(army) <= maxPoints
  {
    var n := |army| - 1;
    var k := PickedTemplate(sorted, maxPoints, idBase, army, n);
    assert army[..n] + [army[n]] == army;
    CountOfTypeAppend(army[..n], army[n]);
  }

  /** Java's `int` addition: the exact sum wrapped into the 32-bit range. */
  function AddInt32(a: int, b: int): (r: int)
    ensures Int32Min <= r <= Int32Max
    ensures (r - (a + b)) % 0x1_0000_0000 == 0
  {
    (a + b - Int32Min) % 0x1_0000_0000 + Int32Min
  }

  /** The budget check as the source writes it, `currentPoints + cost > maxPoints` on 32-bit ints. */
  predicate OverBudgetAsWritten(currentPoints: int, cost: int, maxPoints: int)
  {
    AddInt32(currentPoints, cost) > maxPoints
  }

  /**
   * With 1 point spent of a budget of 10, a template costing `Int32Max`
   * passes the check as written: the sum wraps to `Int32Min`. The model's
   * budget check (`Eligible`) uses the exact sum and rejects it.
   */
  lemma BudgetCheckOverflows()
    ensures !OverBudgetAsWritten(1, Int32Max, 10)
    ensures 1 + Int32Max > 10
    ensures AddInt32(1, Int32Max) == Int32Min
  {
  }

  /** Counting over a longer prefix never gives less. */
  lemma {:induction false} CountOfTypeMonotone(army: seq<Unit>, a: nat, b: nat, t: string)
    requires a <= b <= |army|
    ensures CountOfType(army[..a], t) <= CountOfType(army[..b], t)
    decreases b - a
  {
    if a < b {
      CountOfTypeMonotone(army, a, b - 1, t);
      assert army[..b][..b - 1] == army[..b - 1];
    }
  }

  /** Decimal representations of distinct numbers differ. */
  lemma {:induction false} DecimalStringInjective(n: nat, m: nat)
    requires DecimalString(n) == DecimalString(m)
    ensures n == m
    decreases n
  {
    var s := DecimalString(n);
    if n >= 10 && m >= 10 {
      assert s[..|s| - 1] == DecimalString(n / 10) == DecimalString(m / 10);
      DecimalStringInjective(n / 10, m / 10);
      assert s[|s| - 1] == DigitChar(n % 10) == DigitChar(m % 10);
    }
  }

  /** Position of the last space in `s`, or -1 when there is none. */
  function LastSpace(s: string): int
  {
    if s == [] then -1
    else if s[|s| - 1] == ' ' then |s| - 1
    else LastSpace(s[..|s| - 1])
  }

  /** In "<type> <digits>" the last space is the separator. */
  lemma {:induction false} LastSpaceOfName(t: string, d: string)
    requires forall i :: 0 <= i < |d| ==> '0' <= d[i] <= '9'
    ensures LastSpace(t + " " + d) == |t|
    decreases |d|
  {
    var s := t + " " + d;
    if d != [] {
      var d' := d[..|d| - 1];
      assert s[..|s| - 1] == t + " " + d';
      LastSpaceOfName(t, d');
    }
  }

  /** A unit name determines its type and its ordinal. */
  lemma UnitNameInjective(t1: string, n1: nat, t2: string, n2: nat)
    requires UnitName(t1, n1) == UnitName(t2, n2)
    ensures t1 == t2 && n1 == n2
  {
    var s := UnitName(t1, n1);
    var d1, d2 := DecimalString(n1), DecimalString(n2);
    LastSpaceOfName(t1, d1);
    LastSpaceOfName(t2, d2);
    assert t1 == s[..|t1|] == t2;
    assert d1 == s[|t1| + 1..] == d2;
    DecimalStringInjective(n1, n2);
  }

  /** Within each type the units are numbered 1, 2, ... so no two units share a name. */
  lemma GreedyNamesDistinct(sorted: seq<Unit>, maxPoints: int, idBase: int, army: seq<Unit>, i: nat, j: nat)
    requires GreedyTrace(sorted, maxPoints, idBase, army)
    requires i < j < |army|
    ensures army[i].name != army[j].name
  {
    var ki := PickedTemplate(sorted, maxPoints, idBase, army, i);
    var kj := PickedTemplate(sorted, maxPoints, idBase, army, j);
    if army[i].name == army[j].name {
      var t := army[i].unitType;
      UnitNameInjective(t, CountOfType(army[..i], t) + 1, army[j].unitType, CountOfType(army[..j], army[j].unitType) + 1);
      CountOfTypeMonotone(army, i + 1, j, t);
      assert army[..i + 1] == army[..i] + [army[i]];
      CountOfTypeAppend(army[..i], army[i]);
    }
  }

  /** The greedy rule and the stopping rule leave no choice: at most one army satisfies both. */
  lemma GreedyDeterministic(sorted: seq<Unit>, maxPoints: int, idBase: int, a: seq<Unit>, b: seq<Unit>)
    requires PositiveCosts(sorted)
    requires GreedyTrace(sorted, maxPoints, idBase, a) && Stopped(sorted, maxPoints, a)
    requires GreedyTrace(sorted, maxPoints, idBase, b) && Stopped(sorted, maxPoints, b)
    ensures a == b
  {
    if |a| <= |b| {
      GreedyCommonPrefix(sorted, maxPoints, idBase, a, b, |a|);
      assert a == a[..|a|];
      if |a| < |b| {
        NoPickAfterStop(sorted, maxPoints, idBase, b, |a|);
      }
    } else {
      GreedyCommonPrefix(sorted, maxPoints, idBase, b, a, |b|);
      assert b == b[..|b|];
      NoPickAfterStop(sorted, maxPoints, idBase, a, |b|);
    }
  }

  lemma {:induction false} GreedyCommonPrefix(sorted: seq<Unit>, maxPoints: int, idBase: int, a: seq<Unit>, b: seq<Unit>, n: nat)
    requires GreedyTrace(sorted, maxPoints, idBase, a) && GreedyTrace(sorted, maxPoints, idBase, b)
    requires n <= |a| && n <= |b|
    ensures a[..n] == b[..n]
  {
    if n > 0 {
      GreedyCommonPrefix(sorted, maxPoints, idBase, a, b, n - 1);
      var ka := PickedTemplate(sorted, maxPoints, idBase, a, n - 1);
      var kb := PickedTemplate(sorted, maxPoints, idBase, b, n - 1);
      assert a[..n] == a[..n - 1] + [a[n - 1]];
      assert b[..n] == b[..n - 1] + [b[n - 1]];
    }
  }

  /** A stopped army has no greedy continuation. */
  lemma NoPickAfterStop(sorted: seq<Unit>, maxPoints: int, idBase: int, b: seq<Unit>, n: nat)
    requires PositiveCosts(sorted)
    requires GreedyTrace(sorted, maxPoints, idBase, b) && n < |b|
    ensures !Stopped(sorted, maxPoints, b[..n])
  {
    var k := PickedTemplate(sorted, maxPoints, idBase, b, n);
    assert sorted[k] in sorted;
    assert PickedAt(sorted, maxPoints, idBase, b, n);
  }

  /** A unit carries over the template's type, stats, attack type and bonus tables. */
  predicate CopiesTemplate(u: Unit, template: Unit)
  {
    u.unitType == template.unitType && u.health == template.health &&
    u.baseAttack == template.baseAttack && u.cost == template.cost &&
    u.attackType == template.attackType &&
    u.attackBonuses == template.attackBonuses && u.defenceBonuses == template.defenceBonuses
  }

  /** Every unit of a greedy army is a copy of one of the templates, alive and named after its type. */
  lemma GreedyUnitsCopyTemplates(templates: seq<Unit>, maxPoints: int, idBase: int, army: seq<Unit>, i: nat)
    requires GreedyTrace(SortByEfficiency(templates), maxPoints, idBase, army) && i < |army|
    ensures exists t :: t in templates && CopiesTemplate(army[i], t)
    ensures army[i].alive && army[i].id == idBase + i
    ensures army[i].name == UnitName(army[i].unitType, CountOfType(army[..i], army[i].unitType) + 1)
  {
    var sorted := SortByEfficiency(templates);
    var k := PickedTemplate(sorted, maxPoints, idBase, army, i);
    assert sorted[k] in multiset(sorted);
    assert CopiesTemplate(army[i], sorted[k]);
  }

  /** Attack per point of cost, as the comparator's first criterion computes it. */
  function AttackPerCost(u: Unit): real
    requires u.cost > 0
  {
    u.baseAttack as real / u.cost as real
  }

  /** Health per point of cost, the comparator's tie-breaker. */
  function HealthPerCost(u: Unit): real
    requires u.cost > 0
  {
    u.health as real / u.cost as real
  }

  /**
   * The sorted catalogue is a permutation of the input, in non-increasing
   * attack/cost order, ties broken by non-increasing health/cost.
   */
  lemma SortedByEfficiency(templates: seq<Unit>)
    requires PositiveCosts(templates)
    ensures multiset(SortByEfficiency(templates)) == multiset(templates)
    ensures PositiveCosts(SortByEfficiency(templates))
    ensures forall i, j :: 0 <= i < j < |SortByEfficiency(templates)| ==>
              var a, b := SortByEfficiency(templates)[i], SortByEfficiency(templates)[j];
              AttackPerCost(a) > AttackPerCost(b) ||
              (AttackPerCost(a) == AttackPerCost(b) && HealthPerCost(a) >= HealthPerCost(b))
  {
    var sorted := SortByEfficiency(templates);
    SortIsNonIncreasing(templates, EfficiencyKey);
    forall u | u in sorted ensures u.cost > 0 {
      assert u in multiset(sorted);
    }
    forall i, j | 0 <= i < j < |sorted|
      ensures AttackPerCost(sorted[i]) > AttackPerCost(sorted[j]) ||
              (AttackPerCost(sorted[i]) == AttackPerCost(sorted[j]) && HealthPerCost(sorted[i]) >= HealthPerCost(sorted[j]))
    {
      assert sorted[i] in sorted && sorted[j] in sorted;
      assert !Outranks(EfficiencyKey(sorted[j]), EfficiencyKey(sorted[i]));
    }
  }

  /** Templates with equal efficiency keep their input order in the sorted catalogue. */
  lemma SortByEfficiencyIsStable(templates: seq<Unit>, k: Key)
    ensures WithKey(SortByEfficiency(templates), EfficiencyKey, k) == WithKey(templates, EfficiencyKey, k)
  {
    SortKeepsTies(templates, EfficiencyKey, k);
  }
}
