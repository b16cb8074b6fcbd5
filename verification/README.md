# heroes battle engine core, in Dafny

This project models the four algorithms at the centre of the heroes
turn-based battle engine. They share a 27 x 21 grid and one unit record
(name, type, health, base attack, cost, bonuses, x/y; alive while health is
positive).

- **GeneratePreset**: the computer army generator (`generate`). It ranks the
  unit templates by attack per point, with ties broken by health per point.
  It then sweeps the ranking again and again. Each sweep adds one copy of
  every template whose type is under the cap of 11 units per type and whose
  cost still fits the budget. It stops after a sweep that adds nothing. The
  specification functions `Offer` (one template's turn), `SweepOf` (one
  sweep) and `Build` (sweeps repeated until one adds nothing) say which
  army results. The loops are proved to compute exactly `Build` of the
  ranked templates from the empty army. They also keep an invariant: points
  equal to the units' total cost and within the budget, the per-type
  counter map agreeing with the units and the cap, and every unit a
  numbered copy `type_k` of a template. A termination measure is proved as
  well. The comparator is an integer function, proved equal to the
  comparison of the two exact ratios. The library sort is an insertion sort,
  proved to rank the templates, to permute them and to be stable.
- **SuitableUnits**: the front-line selector (`getSuitableUnits`). For each
  row it picks the alive unit with the largest x, or the smallest x when the
  right army is attacked. The comparison is strict, so the first such unit
  wins. The nested loops are proved equal to a per-row specification
  function (`Fronts`), and lemmas about that function give existence,
  uniqueness, membership, aliveness and the count of one unit per live row.
- **TargetPathFinder**: the path finder (`getTargetPath`). It runs
  breadth-first search with the eight king moves. The obstacles, visited
  marks and predecessor coordinates are in `array2`s, as in the source, and
  the queue is a sequence. Ghost maps of levels and predecessors carry the
  BFS invariant. The result is empty exactly when there is no route. A
  non-empty result runs from the attacker's cell to the target's, moves one
  king step at a time over free in-bounds cells (the target's cell may be
  entered), and is no longer than any such route.
- **SimulateBattle**: the battle loop (`simulate`, `hasAliveUnits`,
  `getAliveUnits`). All units live in one roster, and an army is a list of
  roster indices. The roster index stands for the unit object's identity. A
  class `Battlefield` holds the roster and the battle log, which its methods
  update in place. Each round collects the alive units of the player's army
  and then of the computer's. It sorts them stably by base attack, strongest
  first, and lets each act. A unit is skipped when it is dead, or when the
  army it fights has no alive unit. Otherwise it makes one attack and logs
  one line. The attack routine is a function parameter that may only lower
  health. The loop is proved to follow the specification function `Battle`
  round by round.

Some loop bodies that the source writes inline are separate methods here:

- `Sweep` and `OfferTemplate` in `generate`;
- `MarkObstacles`, `Search`, `Expand`, `TryMove`, `Visit` and `TracePath` in
  `getTargetPath`;
- `PlayRound`, `TakeTurn`, `NextRound` and `BothAlive` in `simulate`.

Each method's doc comment names the Java loop or branch it stands for, and
the table below gives its lines. Put together, they follow the source's
control flow.

Three behaviours of the code are easy to miss, and the model keeps them:

- For a negative budget the generator returns an empty army with 0 points,
  so "points never exceed the budget" holds only for a non-empty army.
- The path finder leaves the attacker and the target themselves off the
  obstacle grid, compared by identity, not by cell. An obstacle that another
  unit puts on either of those two cells changes nothing: the start cell is
  marked visited before the search and never entered again, and the
  target's cell may always be entered.
- A row that is not empty but has no alive unit contributes nothing.

## Model

| member | source | states |
|---|---|---|
| Grid.InBounds | heroes_student_task/src/programs/UnitTargetPathFinderImpl.java:133-135 | `isValid`: a cell passes exactly when it is one of the 27 by 21 grid cells |
| Grid.Step | heroes_student_task/src/programs/UnitTargetPathFinderImpl.java:91-92 | the neighbour reached by one of the eight direction offsets is at Chebyshev distance exactly one |
| Grid.AdjacentIsStep | heroes_student_task/src/programs/UnitTargetPathFinderImpl.java:26-30 | every cell at Chebyshev distance one is reached by one of the eight directions, so the table lists every neighbour |
| GeneratePreset.Efficiency | heroes_student_task/src/programs/GeneratePresetImpl.java:41-42 | attack per point: the exact ratio that, multiplied by the cost, gives back the base attack (the order of two such ratios is `RatioOrder`) |
| GeneratePreset.HealthEfficiency | heroes_student_task/src/programs/GeneratePresetImpl.java:46-47 | health per point: the exact ratio that, multiplied by the cost, gives back the health |
| GeneratePreset.RatioOrder | heroes_student_task/src/programs/GeneratePresetImpl.java:41-47 | for positive costs, comparing two ratios (less, equal) is comparing the cross products |
| GeneratePreset.Compare | heroes_student_task/src/programs/GeneratePresetImpl.java:40-49 | the comparator is negative exactly when the first template has the higher attack per point, or an equal one and the higher health per point; zero exactly when both ratios tie |
| GeneratePreset.CompareIsTotalPreorder | heroes_student_task/src/programs/GeneratePresetImpl.java:40-49 | the comparator is antisymmetric in sign and transitive, as the sort's contract demands |
| GeneratePreset.Insert | heroes_student_task/src/programs/GeneratePresetImpl.java:39-49 | inserting a template into the sorted list adds exactly that template |
| GeneratePreset.InsertKeepsRanked | heroes_student_task/src/programs/GeneratePresetImpl.java:39-49 | inserting a template into a ranked list keeps it ranked |
| GeneratePreset.SortByEfficiency | heroes_student_task/src/programs/GeneratePresetImpl.java:39-49 | the sorted copy holds the same templates, each as often as in the input |
| GeneratePreset.SortByEfficiencyRanks | heroes_student_task/src/programs/GeneratePresetImpl.java:39-49 | the sorted templates have non-increasing attack per point, ties in non-increasing health per point, and are a permutation of the input |
| GeneratePreset.LevelWith | heroes_student_task/src/programs/GeneratePresetImpl.java:39-49 | the templates of a list that tie with a given one on both ratios, in list order |
| GeneratePreset.LevelWithFilters | heroes_student_task/src/programs/GeneratePresetImpl.java:39-49 | a template is in that list exactly when it is in the input and the comparator ties it with the given one |
| GeneratePreset.LevelWithAppend | heroes_student_task/src/programs/GeneratePresetImpl.java:39-49 | the tied templates of a concatenation are those of the first part followed by those of the second |
| GeneratePreset.NoneLevelBehind | heroes_student_task/src/programs/GeneratePresetImpl.java:39-49 | a ranked list whose head ranks strictly after a template holds nothing that ties with it |
| GeneratePreset.InsertIsStable | heroes_student_task/src/programs/GeneratePresetImpl.java:39-49 | inserting into a ranked list places the new template after every template it ties with |
| GeneratePreset.RankedTail | heroes_student_task/src/programs/GeneratePresetImpl.java:39-49 | dropping the head of a list ranked by efficiency leaves it ranked, with positive costs |
| GeneratePreset.InsertBeforeHead | heroes_student_task/src/programs/GeneratePresetImpl.java:39-49 | the step of stability where the inserted template goes in front of the head |
| GeneratePreset.InsertPastHead | heroes_student_task/src/programs/GeneratePresetImpl.java:39-49 | the step of stability where the inserted template goes past the head |
| GeneratePreset.SortByEfficiencyIsStable | heroes_student_task/src/programs/GeneratePresetImpl.java:39-49 | the sort is stable: templates that tie on both ratios keep the order of the input list |
| GeneratePreset.Decimal | heroes_student_task/src/programs/GeneratePresetImpl.java:67 | the decimal rendering of the ordinal has at least one digit, and at least two exactly from 10 on |
| GeneratePreset.DecimalInjective | heroes_student_task/src/programs/GeneratePresetImpl.java:67 | distinct ordinals render differently |
| GeneratePreset.UnitName | heroes_student_task/src/programs/GeneratePresetImpl.java:67 | `unitType + "_" + count`: the type, an underscore, then the ordinal in decimal (different ordinals give different names: `UnitNamesDistinct`) |
| GeneratePreset.UnitNamesDistinct | heroes_student_task/src/programs/GeneratePresetImpl.java:67 | the names `type_k` of two different ordinals of one type differ |
| GeneratePreset.Instantiate | heroes_student_task/src/programs/GeneratePresetImpl.java:66-77 | a new unit has the template's type, health, attack, cost, attack type and bonuses; its name is `UnitName(type, ordinal)`, its identity the given position and its coordinates (0, 0) |
| GeneratePreset.MadeFromAt | heroes_student_task/src/programs/GeneratePresetImpl.java:66-79 | every unit of a generated army is a copy of a template (type, stats, bonuses, at (0, 0)) named by how many units of its type precede it |
| GeneratePreset.CountGrows | heroes_student_task/src/programs/GeneratePresetImpl.java:79-80 | a later unit of a type sees strictly more units of that type before it, so per-type ordinals strictly increase |
| GeneratePreset.NamesDistinctWithinType | heroes_student_task/src/programs/GeneratePresetImpl.java:66-80 | two units of the same type in a generated army have different names |
| GeneratePreset.SlackDrops | heroes_student_task/src/programs/GeneratePresetImpl.java:56-85 | raising the counter of a type that is under the cap never raises the room left under the cap, and lowers it when a template of that type is swept |
| GeneratePreset.Get | heroes_student_task/src/programs/GeneratePresetImpl.java:61 | `getOrDefault`: a type's counter, 0 when the type has none yet |
| GeneratePreset.HasRoom | heroes_student_task/src/programs/GeneratePresetImpl.java:61-64 | the test of the `for` body: the type's counter is under 11 and the template's cost fits what is left of the budget |
| GeneratePreset.Offer | heroes_student_task/src/programs/GeneratePresetImpl.java:60-83 | one template's turn: with room, the army gains the copy named by the type's counter, the counter rises by one and the points by the cost; otherwise nothing changes |
| GeneratePreset.SweepOf | heroes_student_task/src/programs/GeneratePresetImpl.java:59-84 | a sweep keeps the army so far as a prefix and adds at most one unit per template after it; a sweep that adds nothing leaves the state unchanged |
| GeneratePreset.SweepOfSlack | heroes_student_task/src/programs/GeneratePresetImpl.java:56-85 | a sweep never raises the room left under the cap, and lowers it when it adds a unit |
| GeneratePreset.IdleSweep | heroes_student_task/src/programs/GeneratePresetImpl.java:57-84 | a sweep adds nothing exactly when no template has room under the cap and the budget |
| GeneratePreset.Build | heroes_student_task/src/programs/GeneratePresetImpl.java:56-85 | sweeps repeated until one adds nothing end in a state that a further sweep leaves unchanged, and the starting army stays a prefix of the result |
| GeneratePreset.BuildStep | heroes_student_task/src/programs/GeneratePresetImpl.java:56-85 | the repetition stops at a state a sweep leaves as it is, and otherwise goes on from the swept state |
| GeneratePreset.SameMembers | heroes_student_task/src/programs/GeneratePresetImpl.java:39 | the sorted copy holds exactly the templates of the input list |
| GeneratePreset.AddKeepsBuilding | heroes_student_task/src/programs/GeneratePresetImpl.java:64-82 | adding one copy of a template under the cap that fits the budget keeps points equal to total cost and within the budget, the counters equal to the per-type counts and at most 11, and every unit a numbered copy |
| GeneratePreset.OfferKeepsBuilding | heroes_student_task/src/programs/GeneratePresetImpl.java:64-82 | offering any template keeps the builder's invariant, and an offer that adds a unit lowers the room left under the cap |
| GeneratePreset.AddKeepsMadeFrom | heroes_student_task/src/programs/GeneratePresetImpl.java:66-79 | appending the next numbered copy of a template keeps every unit a numbered copy |
| GeneratePreset.AddKeepsCounts | heroes_student_task/src/programs/GeneratePresetImpl.java:79-80 | appending a copy of a template under the cap and raising its type's counter keeps every counter equal to its type's count and at most 11 |
| GeneratePreset.AddKeepsTotal | heroes_student_task/src/programs/GeneratePresetImpl.java:79-81 | appending a unit adds its cost to the army's total |
| GeneratePreset.OfferTemplate | heroes_student_task/src/programs/GeneratePresetImpl.java:60-83 | the `for` body computes exactly `Offer` of the old state; it reports an addition exactly when the template had room; the builder's invariant is kept, and an addition lowers the room left under the cap |
| GeneratePreset.Sweep | heroes_student_task/src/programs/GeneratePresetImpl.java:58-84 | one pass of the `for` computes exactly `SweepOf` of the ranked templates; `canAdd` exactly when it added a unit; the builder's invariant is kept; when it adds something the room under the cap strictly drops; when it adds nothing the state is unchanged and no template has room |
| GeneratePreset.Generate | heroes_student_task/src/programs/GeneratePresetImpl.java:31-92 | the army and its points are exactly those of `Build` over the templates ranked by `SortByEfficiency`, from the empty army; its points are its units' total cost and within the budget (or the army is empty); at most 11 units per type; every unit a numbered copy of a template; every template's type is full or it costs more than what is left; when no template fits, the army is empty with 0 points |
| SuitableUnits.FrontExists | heroes_student_task/src/programs/SuitableForAttackUnitsFinderImpl.java:39-62 | a row with an alive unit has a front unit: alive, with the largest x (smallest when `isLeftArmyTarget` is false), and first among the units with that x |
| SuitableUnits.FrontUnique | heroes_student_task/src/programs/SuitableForAttackUnitsFinderImpl.java:46-61 | the front unit of a row is unique, so strict comparison determines the tie-break |
| SuitableUnits.FrontsAreLiveRowMembers | heroes_student_task/src/programs/SuitableForAttackUnitsFinderImpl.java:30-66 | the result has exactly one unit per row that holds an alive unit (so at most one per row), and every returned unit is alive and a member of one of the rows |
| SuitableUnits.GetSuitableUnits | heroes_student_task/src/programs/SuitableForAttackUnitsFinderImpl.java:26-70 | the result is the front unit of every row, in row order, skipping null rows, empty rows and rows without an alive unit |
| TargetPathFinder.Blocks | heroes_student_task/src/programs/UnitTargetPathFinderImpl.java:55-58 | a list entry is an obstacle when it is not null, alive, neither the attacker nor the target (by identity), and on the grid |
| TargetPathFinder.Blocked | heroes_student_task/src/programs/UnitTargetPathFinderImpl.java:53-62 | the obstacle cells are the cells of the entries that block, all of them on the grid |
| TargetPathFinder.ExpandedGrows | heroes_student_task/src/programs/UnitTargetPathFinderImpl.java:95-100 | reaching a new cell keeps every expanded cell's neighbours reached |
| TargetPathFinder.LinkKeepsLinks | heroes_student_task/src/programs/UnitTargetPathFinderImpl.java:97-99 | recording the dequeued cell as predecessor of a new open neighbour keeps every reached cell linked to the start one level deeper than its predecessor |
| TargetPathFinder.AppendKeepsLevels | heroes_student_task/src/programs/UnitTargetPathFinderImpl.java:100 | enqueueing a cell one level below the cell being expanded keeps levels non-decreasing along the queue |
| TargetPathFinder.EnqueueKeepsBfs | heroes_student_task/src/programs/UnitTargetPathFinderImpl.java:95-100 | enqueueing an unvisited open neighbour keeps the breadth-first search invariant |
| TargetPathFinder.TriedAfterEnqueue | heroes_student_task/src/programs/UnitTargetPathFinderImpl.java:90-100 | after enqueueing the k-th neighbour, the first k + 1 moves lead to reached cells at most one level deeper |
| TargetPathFinder.TriedAfterSkip | heroes_student_task/src/programs/UnitTargetPathFinderImpl.java:90-96 | passing over a neighbour that is closed or already reached keeps the first k + 1 moves accounted for |
| TargetPathFinder.QueueSnoc | heroes_student_task/src/programs/UnitTargetPathFinderImpl.java:100 | appending to the queue appends to the enqueue order, so the queue stays its undequeued tail |
| TargetPathFinder.StartExpanding | heroes_student_task/src/programs/UnitTargetPathFinderImpl.java:79-90 | a dequeued cell that is not the target starts its expansion with the search invariant in place |
| TargetPathFinder.EnqueueKeepsExpanding | heroes_student_task/src/programs/UnitTargetPathFinderImpl.java:95-100 | enqueueing the k-th neighbour keeps the state of an expansion in progress |
| TargetPathFinder.SkipKeepsExpanding | heroes_student_task/src/programs/UnitTargetPathFinderImpl.java:95-96 | passing over the k-th neighbour keeps the state of an expansion in progress |
| TargetPathFinder.FinishExpansion | heroes_student_task/src/programs/UnitTargetPathFinderImpl.java:90-102 | once all eight moves are tried, the dequeued cell counts as expanded |
| TargetPathFinder.WithinLastLevel | heroes_student_task/src/programs/UnitTargetPathFinderImpl.java:78-103 | no reached cell lies deeper than the last one enqueued |
| TargetPathFinder.KeysInGrid | heroes_student_task/src/programs/UnitTargetPathFinderImpl.java:95-100 | only grid cells are ever reached |
| TargetPathFinder.FewerUnvisited | heroes_student_task/src/programs/UnitTargetPathFinderImpl.java:70-100 | reaching a new cell shrinks the set of unreached grid cells, which bounds the search |
| TargetPathFinder.WalkIsCovered | heroes_student_task/src/programs/UnitTargetPathFinderImpl.java:78-103 | along any walk from the start, the j-th cell has been reached at level at most j, within the expanded levels |
| TargetPathFinder.GoalLevelIsShortest | heroes_student_task/src/programs/UnitTargetPathFinderImpl.java:84-86 | when the target is dequeued, every route to it has at least its level plus one cells |
| TargetPathFinder.ExhaustedMeansNoRoute | heroes_student_task/src/programs/UnitTargetPathFinderImpl.java:78-108 | when the queue runs dry without the target, no route exists |
| TargetPathFinder.PathToIsWalk | heroes_student_task/src/programs/UnitTargetPathFinderImpl.java:110-122 | following predecessors from a reached cell gives a walk of king moves over open cells from the start, one cell longer than the cell's level |
| TargetPathFinder.Reversed | heroes_student_task/src/programs/UnitTargetPathFinderImpl.java:125 | reversal keeps the length |
| TargetPathFinder.ReversedSnoc | heroes_student_task/src/programs/UnitTargetPathFinderImpl.java:116-125 | reversing a list with one more cell at the end puts that cell first |
| TargetPathFinder.MarkObstacles | heroes_student_task/src/programs/UnitTargetPathFinderImpl.java:53-62 | the obstacle grid marks exactly the in-bounds cells of alive units other than the attacker and the target |
| TargetPathFinder.StartSearch | heroes_student_task/src/programs/UnitTargetPathFinderImpl.java:73-74 | the queue holding only the start cell at level 0 satisfies the search invariant |
| TargetPathFinder.Search | heroes_student_task/src/programs/UnitTargetPathFinderImpl.java:64-108 | the search ends in a state satisfying the BFS invariant, with the predecessor arrays recording it; `found` exactly when the target was dequeued, otherwise the queue ran dry |
| TargetPathFinder.Expand | heroes_student_task/src/programs/UnitTargetPathFinderImpl.java:90-102 | trying the eight moves keeps the invariant with one more cell expanded and keeps the arrays in step; either fewer grid cells are left unreached, or the enqueue order, the reached cells and the queue are unchanged |
| TargetPathFinder.TryMove | heroes_student_task/src/programs/UnitTargetPathFinderImpl.java:91-101 | move k enqueues its neighbour exactly when it is open (in bounds, and free or the target) and not yet reached: the order gains that cell, its level is one more than the current cell's and its predecessor is the current cell; otherwise nothing changes. Moves 0..k then all lead to reached cells at most one level deeper, and the arrays stay in step |
| TargetPathFinder.Visit | heroes_student_task/src/programs/UnitTargetPathFinderImpl.java:97-99 | marking a cell visited and storing its predecessor keeps the visited and predecessor arrays equal to the ghost search state |
| TargetPathFinder.TracePath | heroes_student_task/src/programs/UnitTargetPathFinderImpl.java:110-125 | walking the predecessor arrays back from the target and reversing yields the predecessor chain from the start to the target |
| TargetPathFinder.NoRouteOffGrid | heroes_student_task/src/programs/UnitTargetPathFinderImpl.java:48-50 | with either end point off the grid there is no route, so the empty result is the right one |
| TargetPathFinder.GetTargetPath | heroes_student_task/src/programs/UnitTargetPathFinderImpl.java:41-128 | a non-empty result starts at the attacker's cell, ends at the target's, moves by king steps over in-bounds free cells (the target's cell allowed); the result is non-empty whenever a route exists, and then no route is shorter |
| SimulateBattle.AliveOf | heroes_student_task/src/programs/SimulateBattleImpl.java:93-101 | the alive list is no longer than the army and names roster units |
| SimulateBattle.AliveOfMembers | heroes_student_task/src/programs/SimulateBattleImpl.java:93-101 | a unit is in the alive list exactly when it is in the army and alive |
| SimulateBattle.AliveOfAppend | heroes_student_task/src/programs/SimulateBattleImpl.java:40-42 | collecting the alive units of two lists one after the other gives the player's alive units followed by the computer's |
| SimulateBattle.AliveOfEmpty | heroes_student_task/src/programs/SimulateBattleImpl.java:78-101 | the alive list is non-empty exactly when the army has an alive unit |
| SimulateBattle.WithAttack | heroes_student_task/src/programs/SimulateBattleImpl.java:45 | the units of one base attack, in list order, never more than the list holds |
| SimulateBattle.WithAttackFilters | heroes_student_task/src/programs/SimulateBattleImpl.java:45 | a unit is in that list exactly when it is in the input and has that base attack |
| SimulateBattle.InsertByAttack | heroes_student_task/src/programs/SimulateBattleImpl.java:45 | inserting into the sorted list makes it one longer |
| SimulateBattle.SortByAttack | heroes_student_task/src/programs/SimulateBattleImpl.java:45 | sorting keeps the length and names roster units |
| SimulateBattle.InsertByAttackPermutes | heroes_student_task/src/programs/SimulateBattleImpl.java:45 | inserting adds exactly the inserted unit |
| SimulateBattle.SortByAttackPermutes | heroes_student_task/src/programs/SimulateBattleImpl.java:45 | the sorted list is a permutation of the input |
| SimulateBattle.InsertKeepsAtMost | heroes_student_task/src/programs/SimulateBattleImpl.java:45 | inserting a unit no stronger than a bound keeps every unit within the bound |
| SimulateBattle.InsertKeepsDescending | heroes_student_task/src/programs/SimulateBattleImpl.java:45 | inserting into a list of non-increasing base attack keeps it non-increasing |
| SimulateBattle.DescendingCons | heroes_student_task/src/programs/SimulateBattleImpl.java:45 | a list of non-increasing base attack stays so behind a head at least as strong as all of it |
| SimulateBattle.SortByAttackDescends | heroes_student_task/src/programs/SimulateBattleImpl.java:45 | the sorted list has non-increasing base attack |
| SimulateBattle.WithAttackAppend | heroes_student_task/src/programs/SimulateBattleImpl.java:45 | the units of one base attack in a concatenation are those of the first part followed by those of the second |
| SimulateBattle.NoneStrongerThanHead | heroes_student_task/src/programs/SimulateBattleImpl.java:45 | a descending list has no unit stronger than its head |
| SimulateBattle.WithAttackCons | heroes_student_task/src/programs/SimulateBattleImpl.java:45 | the units of one base attack in a list with a new head are that head (when it has that attack) followed by those of the tail |
| SimulateBattle.InsertIsStable | heroes_student_task/src/programs/SimulateBattleImpl.java:45 | inserting into a descending list places the new unit after every unit of equal base attack |
| SimulateBattle.InsertPastHead | heroes_student_task/src/programs/SimulateBattleImpl.java:45 | the step of stability where the inserted unit passes the head |
| SimulateBattle.SortByAttackIsStable | heroes_student_task/src/programs/SimulateBattleImpl.java:45 | sorting is stable: the units of any one base attack keep their collected order |
| SimulateBattle.Enemy | heroes_student_task/src/programs/SimulateBattleImpl.java:56-57 | the army a unit fights: the computer's when the unit is in the player's army, the player's otherwise |
| SimulateBattle.Turn | heroes_student_task/src/programs/SimulateBattleImpl.java:48-67 | a turn keeps the roster size |
| SimulateBattle.TurnRules | heroes_student_task/src/programs/SimulateBattleImpl.java:50-67 | a turn only lowers health; it logs a line exactly when the unit is alive and its enemy army has an alive unit, and that line is the unit with the target the attack returned; otherwise nothing changes |
| SimulateBattle.Turns | heroes_student_task/src/programs/SimulateBattleImpl.java:48-68 | a sequence of turns keeps the roster size |
| SimulateBattle.RoundUnits | heroes_student_task/src/programs/SimulateBattleImpl.java:40-45 | the round's actors name roster units |
| SimulateBattle.Round | heroes_student_task/src/programs/SimulateBattleImpl.java:39-68 | a round keeps the roster size |
| SimulateBattle.Battle | heroes_student_task/src/programs/SimulateBattleImpl.java:38-69 | the battle keeps the roster size |
| SimulateBattle.Play | heroes_student_task/src/programs/SimulateBattleImpl.java:48-69 | the rest of a round and of the battle keeps the roster size |
| SimulateBattle.PlayIsTurns | heroes_student_task/src/programs/SimulateBattleImpl.java:48-69 | playing out a list of actors is taking their turns in order and then going on with the battle |
| SimulateBattle.BattleStep | heroes_student_task/src/programs/SimulateBattleImpl.java:38-68 | while both armies have an alive unit, the battle is one round followed by the rest of the battle |
| SimulateBattle.BattleStops | heroes_student_task/src/programs/SimulateBattleImpl.java:38 | once an army has no alive unit (or no rounds remain) the battle changes nothing |
| SimulateBattle.RoundUnitsOrder | heroes_student_task/src/programs/SimulateBattleImpl.java:40-45 | the round's actors are a permutation of the player's alive units followed by the computer's, in non-increasing base attack, with equal-attack units in collected order |
| SimulateBattle.RoundUnitsEnlisted | heroes_student_task/src/programs/SimulateBattleImpl.java:40-45 | every actor of a round belongs to one of the two armies and is alive when the round begins |
| SimulateBattle.TurnsWeaken | heroes_student_task/src/programs/SimulateBattleImpl.java:48-68 | turns only lower health, keep the earlier log as a prefix and log at most one line per actor |
| SimulateBattle.DeadStaysDead | heroes_student_task/src/programs/SimulateBattleImpl.java:50-52 | a unit dead before an attack stays dead |
| SimulateBattle.WipedOutStaysWipedOut | heroes_student_task/src/programs/SimulateBattleImpl.java:59-61 | an army with no alive unit stays without one |
| SimulateBattle.LoggedActorsWereAlive | heroes_student_task/src/programs/SimulateBattleImpl.java:48-67 | every line logged during the turns names one of the actors, and that actor was alive before the turns began (that a unit dead at its own turn is skipped is `TurnRules`) |
| SimulateBattle.NoTurnAfterWipeOut | heroes_student_task/src/programs/SimulateBattleImpl.java:56-61 | once either army is wiped out, the turns of any units of the two armies change nothing |
| SimulateBattle.TurnsStep | heroes_student_task/src/programs/SimulateBattleImpl.java:48 | one more actor means one more turn |
| SimulateBattle.TurnsAppend | heroes_student_task/src/programs/SimulateBattleImpl.java:48-68 | the turns of two lists of actors are the turns of the first followed by those of the second |
| SimulateBattle.RestSkipped | heroes_student_task/src/programs/SimulateBattleImpl.java:56-61 | when an army is wiped out mid-round, the rest of the round's actors are all skipped |
| SimulateBattle.Battlefield.constructor | heroes_student_task/src/programs/SimulateBattleImpl.java:36 | the battlefield starts from the given roster and the two armies as lists of roster indices, with an empty log |
| SimulateBattle.Battlefield.HasAliveUnits | heroes_student_task/src/programs/SimulateBattleImpl.java:78-85 | true exactly when some unit of the army is alive |
| SimulateBattle.Battlefield.GetAliveUnits | heroes_student_task/src/programs/SimulateBattleImpl.java:93-101 | exactly the alive units of the army, in army order |
| SimulateBattle.Battlefield.PlayRound | heroes_student_task/src/programs/SimulateBattleImpl.java:39-68 | one pass of the outer loop moves the roster and log to `Round` of the old state |
| SimulateBattle.Battlefield.TakeTurn | heroes_student_task/src/programs/SimulateBattleImpl.java:50-67 | one unit's turn moves the roster and log to `Turn` of the old state: skipped when the unit is dead or its enemy army has no alive unit, otherwise one attack and one log line |
| SimulateBattle.Battlefield.NextRound | heroes_student_task/src/programs/SimulateBattleImpl.java:38-68 | a pass of the loop while both armies have an alive unit leaves the same battle outcome one round closer |
| SimulateBattle.Battlefield.BothAlive | heroes_student_task/src/programs/SimulateBattleImpl.java:38 | the loop condition holds exactly when both armies have an alive unit |
| SimulateBattle.Battlefield.Simulate | heroes_student_task/src/programs/SimulateBattleImpl.java:36-70 | the final roster and log are `Battle` of the initial state; `finished` exactly when an army has no alive unit |

## Left out

- SimulateBattle.Battlefield.Simulate: the loop is bounded by `maxRounds`. Whether the battle ends depends on the attack routine, so termination within the bound is reported (`finished`), not proved.
- SimulateBattle.Battlefield.PlayRound: `unit.getProgram().attack()` is a parameter. It maps the roster and the acting unit to a target and a new roster, and it may only lower health. Target choice and damage are not modelled.
- `PrintBattleLog.printBattleLog` is an output sink. It is modelled as appending (actor, target) to the `log` field.
- The `InterruptedException` that `simulate` may propagate is not modelled. Neither is any other cancellation.
- Java object identity (`!=` between units, `List.contains`) is an explicit `id` in the path finder and a roster index in the battle. Java `null` is `Option`'s `None`.
- GeneratePreset.Compare: it compares exact ratios by integer cross-multiplication, not Java doubles. Two ratios that differ only below double precision would tie in the source but not here.
- GeneratePreset.Generate: it requires every template cost to be positive, because the ranking is modelled by cross-multiplying by the costs. A zero cost makes the source divide by zero into Infinity or NaN. A negative cost gives well-defined ratios in Java, but cross-multiplying by it would flip the order. Neither ranking is modelled. The sweeps and their termination measure do not depend on the sign of the costs; only the ranking does.
- GeneratePreset.Generate: `currentPoints + cost` is unbounded here. The source adds in 32-bit `int`, so its test `currentPoints + cost <= maxPoints` wraps whenever the points spent plus a template's cost exceed 2^31-1, whatever the budget. For example, a cost near 2^31 on top of 50 points spent wraps negative, passes the test, and the unit is added over budget. The model does not reproduce that wrap-around; it never exceeds the budget.
- GeneratePreset.Instantiate: a new unit's `id` is its position in the new army. These ids are unique within one army only, so a unit list that joins two generated armies would show the path finder different units with the same `id`, where Java tells the objects apart.
- SuitableUnits.GetSuitableUnits: it starts from "no unit yet" instead of the sentinel `Integer.MIN_VALUE` / `Integer.MAX_VALUE`. The two differ only for a unit whose x equals the sentinel, which cannot stand on the 27 x 21 grid.
- TargetPathFinder.Search: termination follows from the set of unreached grid cells shrinking. The bound of 27 x 21 loop iterations is not stated as a number.
- TargetPathFinder.Expand: its contract does not say that the cells enqueued before the expansion stay a prefix of the enqueue order. Each `TryMove` states its exact change (one cell appended, or none). A prefix clause over the whole expansion makes the proof of `Search` too costly for the solver.
- TargetPathFinder.GetTargetPath: which of several shortest paths is returned is not specified. It depends on the order in which the eight directions are tried.
- The library containers are modelled by their meaning:
  - `HashMap` by `map`;
  - the `LinkedList` queue by `seq`;
  - `Collections.reverse` by `Reversed`;
  - `List.sort` by a stable insertion sort.
- The `Army`, `Edge` and `Unit` classes of the game library are not part of this model. They are stood for by the `Army`, `Coord` and `Unit` datatypes, with only the fields used.
