# Battle-heroes army programs, modelled in Dafny

This project models the four "programs" that a battle game calls to play
the computer's side:

- **Preset generator** (`GeneratePresetImpl.generate`). It builds the
  computer's army from a catalogue of unit templates and a point budget.
  The templates are sorted by attack per cost, with ties broken by health
  per cost. The generator then adds one unit at a time, always of the first
  template that is under the per-type cap of 11 and still affordable. Units
  are placed row by row on a 3 x 21 strip and named "<type> <n>".
- **Target path finder** (`UnitTargetPathFinderImpl.getTargetPath`). It runs
  a breadth-first search with 8-neighbour moves on the 27 x 21 field, from
  the attacker's cell to the target's cell. The cells of the other living
  units are obstacles. The path is rebuilt from the parent pointers.
- **Attack-target filter** (`SuitableForAttackUnitsFinderImpl.getSuitableUnits`).
  In each row it keeps the living units at the row's least y when the left
  army is the target, and at the greatest y otherwise.
- **Battle simulator** (`SimulateBattleImpl.simulate`, `hasAliveUnits`).
  Rounds are played while both armies have a living unit. Each round
  queues the living units, the player's first and then the computer's, and
  stable-sorts the queue by descending base attack. Every queued unit then
  gets a turn: a unit that died earlier in the round is skipped, the round
  stops once an army is wiped out, and each attack is reported to the log
  sink when one is set.

The modules are:

- `Wrappers`: `Option`.
- `Units`: the `Unit` and `Army` records.
- `Sequences`: subsequences.
- `StableSort`: `List.sort` with a descending comparator, as a stable
  insertion sort.
- `GeneratePreset`.
- `UnitTargetPathFinder`.
- `SuitableForAttackUnitsFinder`.
- `SimulateBattle`.

Each imperative routine is a method with loops. Each method is proved
against a function or predicate that specifies it, and lemmas state what
the source promises about that specification.

## Model

| member | source | states |
|---|---|---|
| GeneratePreset.Generate | src/main/java/programs/GeneratePresetImpl.java:30-122 | A null or empty catalogue, or a budget <= 0, gives no units and 0 points. Otherwise the points are the sum of the unit costs and at most the budget, there are at most 63 units, and unit i stands at (i % 3, i / 3) with y < 21. Every unit is the greedy pick given the units before it, and the army ends in the loop's stopping state: budget reached, nothing eligible, or the strip full. |
| GeneratePreset.AddNextUnit | src/main/java/programs/GeneratePresetImpl.java:64-111 | One pass of the inner loop. When it adds a unit, that unit is the spawn of the first template under its cap and within budget, and the points stay within budget. When it adds nothing, the army is in the stopping state. Counts, total cost, placement and the greedy trace are preserved either way. |
| GeneratePreset.FirstEligible | src/main/java/programs/GeneratePresetImpl.java:64-76 | The index found is of a template that passes both checks, and every earlier template fails one of them. No index means that no template passes. |
| GeneratePreset.FirstEligibleIs | src/main/java/programs/GeneratePresetImpl.java:64-76 | The template where the scan stops is the first eligible one. |
| GeneratePreset.PickedTemplate | src/main/java/programs/GeneratePresetImpl.java:64-101 | Unit i of a greedy army is the spawn of the first template that was eligible for the units before it. |
| GeneratePreset.GreedyTraceExtend | src/main/java/programs/GeneratePresetImpl.java:103-110 | Appending the greedy pick keeps every unit a greedy pick. |
| GeneratePreset.GreedyTracePrefix | src/main/java/programs/GeneratePresetImpl.java:61-112 | Every prefix of a greedy army is a greedy army. |
| GeneratePreset.GreedyTypeCap | src/main/java/programs/GeneratePresetImpl.java:66-71 | No unit type has more than 11 units in a greedy army. |
| GeneratePreset.GreedyWithinBudget | src/main/java/programs/GeneratePresetImpl.java:74-76 | A non-empty greedy army costs at most the budget. |
| GeneratePreset.CountOfTypeAppend | src/main/java/programs/GeneratePresetImpl.java:103-105 | Adding a unit adds one to its type's count and its cost to the total. |
| GeneratePreset.CountsAfterAdd | src/main/java/programs/GeneratePresetImpl.java:105 | The per-type counter map, updated as `put(type, count + 1)`, still agrees with the units. |
| GeneratePreset.CountOfTypeMonotone | src/main/java/programs/GeneratePresetImpl.java:66 | A type's count over a longer prefix is never smaller. |
| GeneratePreset.RowMajorExtend | src/main/java/programs/GeneratePresetImpl.java:79-85 | The unit placed at (index % 3, index / 3) keeps the row-major placement. |
| GeneratePreset.DecimalString | src/main/java/programs/GeneratePresetImpl.java:88 | The decimal text of a number is non-empty and all digits, with at least two digits from 10 on. |
| GeneratePreset.DecimalStringInjective | src/main/java/programs/GeneratePresetImpl.java:88 | Different numbers have different decimal texts. |
| GeneratePreset.LastSpaceOfName | src/main/java/programs/GeneratePresetImpl.java:88 | In "<type> <digits>" the last space is the separator. |
| GeneratePreset.UnitNameInjective | src/main/java/programs/GeneratePresetImpl.java:88 | A unit name determines its type and its number. |
| GeneratePreset.GreedyNamesDistinct | src/main/java/programs/GeneratePresetImpl.java:88-105 | No two units of a greedy army share a name. |
| GeneratePreset.GreedyUnitsCopyTemplates | src/main/java/programs/GeneratePresetImpl.java:88-101 | Every unit copies a catalogue template's type, stats, attack type and bonus tables. It is alive, has identity idBase + i, and is named "<type> <n>", where n is one more than the units of its type before it. |
| GeneratePreset.GreedyCommonPrefix | src/main/java/programs/GeneratePresetImpl.java:61-112 | Two greedy armies over the same catalogue and budget agree on their common length. |
| GeneratePreset.NoPickAfterStop | src/main/java/programs/GeneratePresetImpl.java:61 | A greedy army that has a further unit was not in the stopping state before that unit. |
| GeneratePreset.GreedyDeterministic | src/main/java/programs/GeneratePresetImpl.java:61-112 | At most one army is both greedy and stopped, so `Generate`'s postcondition determines its result. |
| GeneratePreset.SortedByEfficiency | src/main/java/programs/GeneratePresetImpl.java:40-50 | The sorted catalogue is a permutation of the input. It is in non-increasing attack/cost order, with ties in non-increasing health/cost order. |
| GeneratePreset.SortByEfficiencyIsStable | src/main/java/programs/GeneratePresetImpl.java:40-50 | Templates with equal efficiency keep their input order. |
| GeneratePreset.AddInt32 | src/main/java/programs/GeneratePresetImpl.java:74 | Java `int` addition lies in the 32-bit range and equals the exact sum modulo 2^32. |
| StableSort.Insert | src/main/java/programs/SimulateBattleImpl.java:50 | Inserting adds exactly the one element: the multiset grows by it and the length by one. |
| StableSort.SortDescending | src/main/java/programs/SimulateBattleImpl.java:50 | The sort is a permutation of its input. |
| StableSort.InsertNonIncreasing | src/main/java/programs/SimulateBattleImpl.java:50 | Inserting into a non-increasing sequence keeps it non-increasing. |
| StableSort.SortIsNonIncreasing | src/main/java/programs/SimulateBattleImpl.java:50 | The result is in non-increasing key order. |
| StableSort.InsertKeepsTies | src/main/java/programs/SimulateBattleImpl.java:50 | Among the elements with any one key, the inserted element comes first and the others keep their order. |
| StableSort.SortKeepsTies | src/main/java/programs/SimulateBattleImpl.java:50 | The sort is stable: for each key, the elements with that key keep their input order. |
| UnitTargetPathFinder.GetTargetPath | src/main/java/programs/UnitTargetPathFinderImpl.java:27-95 | A null attacker or target gives []. A shared cell gives exactly that cell. Otherwise a non-empty result starts at the attacker and ends at the target, takes only 8-neighbour moves through open in-field cells, repeats no cell, and is no longer than any such path. The result is [] exactly when no such path exists. |
| UnitTargetPathFinder.BuildObstacles | src/main/java/programs/UnitTargetPathFinderImpl.java:44-52 | The obstacles are exactly the cells of the living units of the list, other than the attacker and the target. |
| UnitTargetPathFinder.ExpandNeighbours | src/main/java/programs/UnitTargetPathFinderImpl.java:73-90 | Trying the 8 moves from a cell completes its expansion. Every open neighbour is now in the parent map. Existing entries are unchanged, and each new entry is an open cell adjacent to the expanded cell with that cell as its parent. The new cells are appended to both the queue and the discovery order. |
| UnitTargetPathFinder.TryMove | src/main/java/programs/UnitTargetPathFinderImpl.java:74-89 | One direction. An off-field, blocked or already discovered neighbour leaves the parent map and the queue unchanged. Otherwise exactly that neighbour is added: it gets the expanded cell as its parent and is appended to the queue. Either way the search invariant holds with one more move tried. |
| UnitTargetPathFinder.ChildAdded | src/main/java/programs/UnitTargetPathFinderImpl.java:88 | Recording an open adjacent undiscovered cell as a child keeps earlier entries and adds only such children. |
| UnitTargetPathFinder.ReconstructPath | src/main/java/programs/UnitTargetPathFinderImpl.java:100-113 | Following the parent pointers back from the target gives a path from the start to it, of length dist + 1, with no repeated cell. |
| UnitTargetPathFinder.FoundIsShortest | src/main/java/programs/UnitTargetPathFinderImpl.java:62-69 | When the target comes off the queue, no path to it is shorter than its search distance + 1. |
| UnitTargetPathFinder.NotFoundIsUnreachable | src/main/java/programs/UnitTargetPathFinderImpl.java:62-94 | When the queue runs empty without reaching the target, no path to the target exists. |
| UnitTargetPathFinder.ShortWalksAreDiscovered | src/main/java/programs/UnitTargetPathFinderImpl.java:55-91 | While the cells before the queue head are expanded, every walk shorter than the head's distance ends at a discovered cell that is no further away than the walk's length. |
| UnitTargetPathFinder.WalksAreDiscovered | src/main/java/programs/UnitTargetPathFinderImpl.java:55-91 | Once every discovered cell is expanded, every walk from the start ends at a discovered cell. |
| UnitTargetPathFinder.StepIsAdjacent | src/main/java/programs/UnitTargetPathFinderImpl.java:20-24 | Each of the 8 directions leads to a cell that touches the start cell and is not the start cell itself. |
| UnitTargetPathFinder.AdjacentIsStep | src/main/java/programs/UnitTargetPathFinderImpl.java:20-24 | Every touching cell is reached by one of the 8 directions. |
| UnitTargetPathFinder.SkipMove | src/main/java/programs/UnitTargetPathFinderImpl.java:78-86 | A move that leaves the field, hits an obstacle or reaches a discovered cell changes nothing and completes that move. |
| UnitTargetPathFinder.Discover | src/main/java/programs/UnitTargetPathFinderImpl.java:88-89 | Recording the parent of a new open neighbour and queueing it keeps every search invariant. |
| UnitTargetPathFinder.TreeGrows | src/main/java/programs/UnitTargetPathFinderImpl.java:88 | Adding a child one step further than its parent keeps the parent map a tree of moves rooted at the start. |
| UnitTargetPathFinder.DiscoveredGrows | src/main/java/programs/UnitTargetPathFinderImpl.java:88-89 | Appending the new cell keeps the discovery order repetition-free, in step with the parent map and sorted by distance. |
| UnitTargetPathFinder.ExpandedStays | src/main/java/programs/UnitTargetPathFinderImpl.java:73-90 | Moves already tried stay handled when the maps grow. |
| UnitTargetPathFinder.ExpandedNext | src/main/java/programs/UnitTargetPathFinderImpl.java:73-90 | A move whose target is off-field, blocked or discovered counts as handled. |
| UnitTargetPathFinder.ClosedStays | src/main/java/programs/UnitTargetPathFinderImpl.java:73-90 | Cells already expanded stay expanded when the maps grow. |
| UnitTargetPathFinder.ExpansionStarts | src/main/java/programs/UnitTargetPathFinderImpl.java:63 | Polling the queue head starts its expansion with every search invariant in place. |
| UnitTargetPathFinder.ExpansionDone | src/main/java/programs/UnitTargetPathFinderImpl.java:72-91 | After all 8 moves from a cell other than the target, the search invariant holds with the queue head one further. |
| UnitTargetPathFinder.QueueGrows | src/main/java/programs/UnitTargetPathFinderImpl.java:89 | Appending to the queue appends to the undiscovered tail of the discovery order. |
| UnitTargetPathFinder.DistinctBound | src/main/java/programs/UnitTargetPathFinderImpl.java:62 | A repetition-free sequence drawn from a set is no longer than the set. |
| UnitTargetPathFinder.DiscoveredBound | src/main/java/programs/UnitTargetPathFinderImpl.java:62 | At most the field's cells plus the start are ever discovered, so the search loop ends. |
| UnitTargetPathFinder.PrependParent | src/main/java/programs/UnitTargetPathFinderImpl.java:104-108 | Prepending a cell's parent keeps the chain of parent pointers. |
| UnitTargetPathFinder.ChainIsPath | src/main/java/programs/UnitTargetPathFinderImpl.java:100-112 | A parent chain from the start is a repetition-free path of length dist + 1. |
| SuitableForAttackUnitsFinder.GetSuitableUnits | src/main/java/programs/SuitableForAttackUnitsFinderImpl.java:24-67 | The result is the rows' targets concatenated in row order. A null or empty row contributes nothing. |
| SuitableForAttackUnitsFinder.RowEdgeUnits | src/main/java/programs/SuitableForAttackUnitsFinderImpl.java:32-63 | Both passes over a row. The first finds the least or greatest y among the living units, starting from the int sentinel. The second collects every living unit at that y, in row order, unless the edge equals a sentinel. |
| SuitableForAttackUnitsFinder.LivingEdgeIsExtreme | src/main/java/programs/SuitableForAttackUnitsFinderImpl.java:33-53 | The edge is missing exactly when no unit of the row is alive. Otherwise it is the y of a living unit, and no living unit lies beyond it. |
| SuitableForAttackUnitsFinder.LivingAtMembers | src/main/java/programs/SuitableForAttackUnitsFinderImpl.java:58-62 | The collected units are exactly the row's living units at the given y. |
| SuitableForAttackUnitsFinder.RowTargetsMembers | src/main/java/programs/SuitableForAttackUnitsFinderImpl.java:28-63 | A unit is among a row's targets exactly when it is in the row, alive, not at a sentinel y, and at the row's least y (left army targeted) or greatest y (otherwise). |
| SuitableForAttackUnitsFinder.SuitableUnitsMembers | src/main/java/programs/SuitableForAttackUnitsFinderImpl.java:27-64 | A unit is returned exactly when it is on the edge of some row. |
| SuitableForAttackUnitsFinder.LivingAtSubsequence | src/main/java/programs/SuitableForAttackUnitsFinderImpl.java:58-61 | The collected units keep the row's order. |
| SuitableForAttackUnitsFinder.RowTargetsInRowOrder | src/main/java/programs/SuitableForAttackUnitsFinderImpl.java:58-61 | A row's targets are a subsequence of the row. |
| SimulateBattle.HasAliveUnits | src/main/java/programs/SimulateBattleImpl.java:78-89 | False for a null army or unit list; otherwise true exactly when some unit is alive. |
| SimulateBattle.FindUnit | src/main/java/programs/SimulateBattleImpl.java:55 | The unit found has the identity looked up and is one of the units. Nothing is found exactly when no unit has that identity. |
| SimulateBattle.FindUnitFirst | src/main/java/programs/SimulateBattleImpl.java:55 | The unit found is the first one with the identity looked up: no earlier unit has that identity. |
| SimulateBattle.BuildTurnQueue | src/main/java/programs/SimulateBattleImpl.java:35-50 | The queue is the player's living units then the computer's, stable-sorted by descending base attack. |
| SimulateBattle.AliveUnitsExact | src/main/java/programs/SimulateBattleImpl.java:37-47 | Gathering keeps exactly the living units, in storage order. |
| SimulateBattle.TurnQueueContents | src/main/java/programs/SimulateBattleImpl.java:35-50 | The queue is a permutation of the gathered units. A unit is queued exactly when it is alive at round start in either army. |
| SimulateBattle.TurnQueueSorted | src/main/java/programs/SimulateBattleImpl.java:50 | The queue is in non-increasing base-attack order. |
| SimulateBattle.TurnQueueStable | src/main/java/programs/SimulateBattleImpl.java:50 | Units with equal base attack keep the order in which they were gathered. |
| SimulateBattle.WithKeyIsWithBaseAttack | src/main/java/programs/SimulateBattleImpl.java:50 | Filtering by the sort key is filtering by base attack. |
| SimulateBattle.BattleSimulator.constructor | src/main/java/programs/SimulateBattleImpl.java:24 | A new simulator has no log sink. |
| SimulateBattle.BattleSimulator.SetPrintBattleLog | src/main/java/programs/SimulateBattleImpl.java:26-28 | Sets the log sink. |
| SimulateBattle.BattleLog.PrintBattleLog | src/main/java/programs/SimulateBattleImpl.java:69 | The sink receives one (attacker, target) report per call. |
| SimulateBattle.BattleSimulator.PlayRound | src/main/java/programs/SimulateBattleImpl.java:53-71 | The turns of the queue played in order give the field and reports of the round's specification. The sink, when set, receives exactly those reports, appended. |
| SimulateBattle.BattleSimulator.FightRound | src/main/java/programs/SimulateBattleImpl.java:33-71 | While both armies stand, the new field and the round's reports are exactly those of playing one round's turn queue from the current field. That round moves its reports from the rest of the battle to the reports so far, uses up one round, and its reports are appended to the sink. |
| SimulateBattle.BattleSimulator.Simulate | src/main/java/programs/SimulateBattleImpl.java:31-73 | The final field and the `finished` flag are those of the battle's specification. The sink, when set, receives exactly the battle's reports. `finished` holds exactly when some army has no living unit at the end. |
| SimulateBattle.SkipTurn | src/main/java/programs/SimulateBattleImpl.java:55-57 | A unit that is dead at its turn neither changes the field nor is reported. |
| SimulateBattle.TakeTurn | src/main/java/programs/SimulateBattleImpl.java:59-70 | A living unit attacks while both armies stand, and its attack is reported as (unit, target). |
| SimulateBattle.OneMoreTurn | src/main/java/programs/SimulateBattleImpl.java:53 | The turns up to the i-th are those before it followed by its own. |
| SimulateBattle.RoundEndsWhenWiped | src/main/java/programs/SimulateBattleImpl.java:60-62 | Once an army is wiped out, the rest of the round changes nothing and reports nothing. |
| SimulateBattle.ReportsAreAttacks | src/main/java/programs/SimulateBattleImpl.java:53-70 | Every report is the attack of a queued unit. That unit was alive at its turn while both armies stood, and the report carries the target its attack returned. |
| SimulateBattle.ReportsInQueueOrder | src/main/java/programs/SimulateBattleImpl.java:53-70 | The reporting units form a subsequence of the queue, so there is at most one report per queued unit and reports come in queue order. |
| SimulateBattle.ActedAtExtends | src/main/java/programs/SimulateBattleImpl.java:53 | A turn's attack stays an attack when more turns are queued after it. |
| SimulateBattle.AttackOfExtends | src/main/java/programs/SimulateBattleImpl.java:53 | A report of a queued unit's attack stays one when the queue is longer. |
| SimulateBattle.LastTurnActed | src/main/java/programs/SimulateBattleImpl.java:55-70 | The last turn, when it reports, was an attack by a living unit while both armies stood. |
| SimulateBattle.AttackersLength | src/main/java/programs/SimulateBattleImpl.java:69 | Each report names exactly one attacker. |
| SimulateBattle.NextRound | src/main/java/programs/SimulateBattleImpl.java:33-71 | While both armies stand and rounds remain, the battle is one round followed by the rest. |
| SimulateBattle.FightStops | src/main/java/programs/SimulateBattleImpl.java:33 | With an army wiped out or no rounds left, the battle is over: no reports, field unchanged, finished exactly when an army is wiped out. |
| SimulateBattle.FightFinished | src/main/java/programs/SimulateBattleImpl.java:33 | The battle reports itself finished exactly when it ends with an army that has no living unit. |

## Left out

- The `Unit`, `Army`, `Edge`, `PrintBattleLog` and unit-program classes come from libraries outside this model. `Unit` and `Army` are records with the fields the programs read or copy. Java object identity is an `id` field. `Edge` is a cell record. The log sink is a class that keeps its reports.
- A unit program's `attack()` is foreign code. It is a function parameter that maps the two armies and the attacker to the changed armies and the unit it hit. Damage rules are not modelled. Because the parameter is a deterministic function of the two armies and the attacker, state the unit program keeps between calls, and any randomness it uses, are not represented: two attacks from the same field by the same unit always give the same result.
- A unit's `isAlive()` later in a battle is the `alive` flag of the unit with the same identity in the current armies. The log records the queued unit as it was when the round's queue was built.
- `InterruptedException` from `simulate` is not modelled.
- A null element makes the Java code throw `NullPointerException`. That covers a null template in the catalogue, a null unit in the unit list, a row or an army, and a null `unitsByRow`. The model's sequence and record types cannot hold null, so these exception paths are not modelled. Null armies, null unit lists, null rows and null attacker or target units are modelled as `Option`.
- SimulateBattle.BattleSimulator.Simulate: takes a bound `maxRounds` on the number of rounds. The Java loop has no bound and is not guaranteed to end, because `attack()` need not kill anything. When the bound cuts the battle short, `finished` is false.
- UnitTargetPathFinder.GetTargetPath: states that the path returned is a shortest one, but not which one when several exist. The Java search breaks ties by the order in which it tries the 8 directions (`ExpandNeighbours` does not state the order of the cells it adds), and this model does not pin down that choice.
- GeneratePreset.Generate: requires every template's cost to be positive when the budget is positive (with a budget <= 0 the Java method returns before sorting, and so does the model). The Java comparator divides doubles by the cost, and with a zero cost it compares infinities or NaN, which this model does not order.
- The comparator's `double` ratios are exact rationals here. Templates whose ratios differ by less than `double` rounding may be ordered differently.
- The 32-bit wrap-around of `currentPoints + cost` in the budget check is described under Findings. The model adds exactly.
- `List.sort` and `Collections.reverse` run in place in Java. Here the sort is a function on sequences, and the path is built by prepending instead of appending and then reversing, which gives the same list.
- The "x,y" string keys of the obstacle set and parent map are cells (`Edge`) here. Two cells have the same key exactly when they are equal.
- `simulate` inlines its per-round code, and the path finder and the preset generator nest their inner loops. Here the round is `FightRound` and `PlayRound`, and the inner loops are `ExpandNeighbours` (one direction per `TryMove`), `AddNextUnit` and `RowEdgeUnits`. They run the same statements in the same order.
- Units created by the preset generator are alive and get identities `idBase`, `idBase + 1`, … in order of creation. This stands for the fresh objects that Java's `new Unit(...)` creates.
- `build.gradle.kts` is build configuration and is not part of this model.

## Findings

| source | as written | input that shows it | evidently intended | confidence | as-written member | corrected member |
|---|---|---|---|---|---|---|
| src/main/java/programs/GeneratePresetImpl.java:74 | `currentPoints + template.getCost() > maxPoints` on 32-bit ints wraps when the sum passes 2^31 - 1. The check then lets an over-budget template through, and `currentPoints` turns negative. | 1 point already spent, `maxPoints` 10, a template costing 2147483647: the sum wraps to -2147483648, which is not above 10. | A template is added only when the points spent plus its cost stay within `maxPoints`. | not executed; the wrap follows from Java `int` semantics, and only catalogues with costs near 2^31 reach it | GeneratePreset.BudgetCheckOverflows | GeneratePreset.GreedyWithinBudget |
