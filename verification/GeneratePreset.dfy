/**
 * The computer army generator: a greedy heuristic that ranks unit templates by
 * attack per point (then health per point) and repeatedly sweeps the ranking,
 * adding one unit of every type that is under the per-type cap and still fits
 * the point budget, until a sweep adds nothing.
 */
module GeneratePreset {
  import opened Units

  const MaxUnitsPerType: int := 11

  /** The generated army: its units and the points they cost. */
  datatype Army = Army(units: seq<Unit>, points: int)

  /** Templates are ranked by ratios over their cost, so every cost is positive. */
  predicate PositiveCosts(templates: seq<Unit>) {
    forall t :: t in templates ==> t.cost > 0
  }

  // ---------------------------------------------------------------------------
  // The efficiency comparator

  /** Attack per point, as an exact ratio: the real that, times the cost,
      gives back the attack. */
  function Efficiency(u: Unit): (r: real)
    requires u.cost > 0
    ensures r * u.cost as real == u.baseAttack as real
  {
    u.baseAttack as real / u.cost as real
  }

  /** Health per point, as an exact ratio: the real that, times the cost,
      gives back the health. */
  function HealthEfficiency(u: Unit): (r: real)
    requires u.cost > 0
    ensures r * u.cost as real == u.health as real
  {
    u.health as real / u.cost as real
  }

  function Sign(n: int): int {
    if n < 0 then -1 else if n > 0 then 1 else 0
  }

  /** For positive denominators, comparing two ratios is comparing the cross products. */
  lemma RatioOrder(a1: int, c1: int, a2: int, c2: int)
    requires c1 > 0 && c2 > 0
    ensures (a1 as real / c1 as real < a2 as real / c2 as real) <==> a1 * c2 < a2 * c1
    ensures (a1 as real / c1 as real == a2 as real / c2 as real) <==> a1 * c2 == a2 * c1
  {
    var r1 := a1 as real / c1 as real;
    var r2 := a2 as real / c2 as real;
    assert r1 * c1 as real == a1 as real;
    assert r2 * c2 as real == a2 as real;
    assert (a1 * c2) as real == r1 * (c1 as real * c2 as real);
    assert (a2 * c1) as real == r2 * (c1 as real * c2 as real);
  }

  /**
   * The sort comparator, on integers: negative when `u1` ranks first, that is
   * when it has the higher attack per point, or the same attack per point and
   * the higher health per point; zero when both ratios tie.
   */
  function Compare(u1: Unit, u2: Unit): (r: int)
    requires u1.cost > 0 && u2.cost > 0
    ensures r < 0 <==> Efficiency(u1) > Efficiency(u2)
                       || (Efficiency(u1) == Efficiency(u2) && HealthEfficiency(u1) > HealthEfficiency(u2))
    ensures r == 0 <==> Efficiency(u1) == Efficiency(u2) && HealthEfficiency(u1) == HealthEfficiency(u2)
  {
    RatioOrder(u1.baseAttack, u1.cost, u2.baseAttack, u2.cost);
    RatioOrder(u1.health, u1.cost, u2.health, u2.cost);
    var byAttack := Sign(u2.baseAttack * u1.cost - u1.baseAttack * u2.cost);
    if byAttack != 0 then byAttack
    else Sign(u2.health * u1.cost - u1.health * u2.cost)
  }

  /** The comparator is a total preorder, as a sort requires. */
  lemma CompareIsTotalPreorder(u1: Unit, u2: Unit, u3: Unit)
    requires u1.cost > 0 && u2.cost > 0 && u3.cost > 0
    ensures Sign(Compare(u1, u2)) == -Sign(Compare(u2, u1))
    ensures Compare(u1, u2) <= 0 && Compare(u2, u3) <= 0 ==> Compare(u1, u3) <= 0
    ensures Compare(u1, u2) < 0 && Compare(u2, u3) <= 0 ==> Compare(u1, u3) < 0
    ensures Compare(u1, u2) <= 0 && Compare(u2, u3) < 0 ==> Compare(u1, u3) < 0
  {
  }

  // ---------------------------------------------------------------------------
  // Sorting the templates (the library's stable List.sort)

  /** Ranked: no template is ranked strictly ahead of an earlier one. */
  ghost predicate Ranked(s: seq<Unit>)
    requires PositiveCosts(s)
  {
    forall i, j :: 0 <= i < j < |s| ==> Compare(s[i], s[j]) <= 0
  }

  /** Inserts `t` after every element that ranks no lower than it. */
  function Insert(s: seq<Unit>, t: Unit): (r: seq<Unit>)
    requires PositiveCosts(s) && t.cost > 0
    ensures multiset(r) == multiset(s) + multiset{t}
    ensures PositiveCosts(r)
  {
    if s == [] then [t]
    else if Compare(t, s[0]) < 0 then [t] + s
    else
      assert s == [s[0]] + s[1..];
      [s[0]] + Insert(s[1..], t)
  }

  lemma {:induction false} InsertKeepsRanked(s: seq<Unit>, t: Unit)
    requires PositiveCosts(s) && t.cost > 0 && Ranked(s)
    ensures Ranked(Insert(s, t))
  {
    if s != [] {
      var r := Insert(s, t);
      if Compare(t, s[0]) < 0 {
        forall j | 0 < j < |r| ensures Compare(r[0], r[j]) <= 0 {
          CompareIsTotalPreorder(t, s[0], s[j - 1]);
        }
      } else {
        InsertKeepsRanked(s[1..], t);
        CompareIsTotalPreorder(s[0], t, t);
        forall j | 0 < j < |r| ensures Compare(r[0], r[j]) <= 0 {
          assert r[j] in multiset(Insert(s[1..], t));
          assert r[j] == t || r[j] in s[1..];
        }
      }
    }
  }

  /** Insertion sort by efficiency (see `SortByEfficiencyIsStable` for ties). */
  function SortByEfficiency(templates: seq<Unit>): (r: seq<Unit>)
    requires PositiveCosts(templates)
    ensures multiset(r) == multiset(templates)
    ensures PositiveCosts(r)
  {
    if templates == [] then []
    else
      var n := |templates| - 1;
      assert templates == templates[..n] + [templates[n]];
      Insert(SortByEfficiency(templates[..n]), templates[n])
  }

  /** The templates are visited in non-increasing attack per point, ties in
      non-increasing health per point, and each exactly as often as given. */
  lemma {:induction false} SortByEfficiencyRanks(templates: seq<Unit>)
    requires PositiveCosts(templates)
    ensures Ranked(SortByEfficiency(templates))
    ensures multiset(SortByEfficiency(templates)) == multiset(templates)
    ensures forall i, j :: 0 <= i < j < |SortByEfficiency(templates)| ==>
              var s := SortByEfficiency(templates);
              Efficiency(s[i]) > Efficiency(s[j])
              || (Efficiency(s[i]) == Efficiency(s[j]) && HealthEfficiency(s[i]) >= HealthEfficiency(s[j]))
  {
    if templates != [] {
      var n := |templates| - 1;
      assert templates == templates[..n] + [templates[n]];
      SortByEfficiencyRanks(templates[..n]);
      InsertKeepsRanked(SortByEfficiency(templates[..n]), templates[n]);
    }
    var s := SortByEfficiency(templates);
    forall i, j | 0 <= i < j < |s|
      ensures Efficiency(s[i]) > Efficiency(s[j])
              || (Efficiency(s[i]) == Efficiency(s[j]) && HealthEfficiency(s[i]) >= HealthEfficiency(s[j]))
    {
      assert Compare(s[i], s[j]) <= 0;
    }
  }

  /** The templates of `s` that rank level with `u` (both ratios equal), in
      their order in `s`. */
  function LevelWith(s: seq<Unit>, u: Unit): seq<Unit>
    requires PositiveCosts(s) && u.cost > 0
  {
    if s == [] then []
    else (if Compare(s[0], u) == 0 then [s[0]] else []) + LevelWith(s[1..], u)
  }

  /** `LevelWith` keeps exactly the templates that rank level with `u`. */
  lemma {:induction false} LevelWithFilters(s: seq<Unit>, u: Unit, t: Unit)
    requires PositiveCosts(s) && u.cost > 0
    ensures t in LevelWith(s, u) <==> t in s && Compare(t, u) == 0
  {
    if s != [] {
      LevelWithFilters(s[1..], u, t);
      assert s == [s[0]] + s[1..];
    }
  }

  lemma {:induction false} LevelWithAppend(a: seq<Unit>, b: seq<Unit>, u: Unit)
    requires PositiveCosts(a) && PositiveCosts(b) && u.cost > 0
    ensures PositiveCosts(a + b)
    ensures LevelWith(a + b, u) == LevelWith(a, u) + LevelWith(b, u)
  {
    if a == [] {
      assert a + b == b;
    } else {
      var head := if Compare(a[0], u) == 0 then [a[0]] else [];
      assert (a + b)[0] == a[0] && (a + b)[1..] == a[1..] + b;
      LevelWithAppend(a[1..], b, u);
      assert head + (LevelWith(a[1..], u) + LevelWith(b, u))
             == (head + LevelWith(a[1..], u)) + LevelWith(b, u);
    }
  }

  /** Behind a template that ranks strictly after `u`, a ranked list holds
      nothing level with `u`. */
  lemma {:induction false} NoneLevelBehind(s: seq<Unit>, u: Unit)
    requires PositiveCosts(s) && u.cost > 0 && Ranked(s)
    requires s != [] && Compare(u, s[0]) < 0
    ensures LevelWith(s, u) == []
  {
    CompareIsTotalPreorder(s[0], u, u);
    if |s| > 1 {
      CompareIsTotalPreorder(u, s[0], s[1]);
      NoneLevelBehind(s[1..], u);
    }
  }

  lemma {:induction false} InsertIsStable(s: seq<Unit>, t: Unit, u: Unit)
    requires PositiveCosts(s) && t.cost > 0 && u.cost > 0 && Ranked(s)
    ensures LevelWith(Insert(s, t), u) == LevelWith(s, u) + (if Compare(t, u) == 0 then [t] else [])
  {
    if s == [] {
      assert [t][1..] == [];
    } else if Compare(t, s[0]) < 0 {
      InsertBeforeHead(s, t, u);
    } else {
      RankedTail(s);
      InsertIsStable(s[1..], t, u);
      InsertPastHead(s, t, u);
    }
  }

  lemma RankedTail(s: seq<Unit>)
    requires PositiveCosts(s) && Ranked(s) && s != []
    ensures PositiveCosts(s[1..]) && Ranked(s[1..])
  {
    forall i, j | 0 <= i < j < |s| - 1 ensures Compare(s[1..][i], s[1..][j]) <= 0 {
      assert s[1..][i] == s[i + 1] && s[1..][j] == s[j + 1];
    }
  }

  /** The step of `InsertIsStable` where `t` goes in front of the head of `s`. */
  lemma InsertBeforeHead(s: seq<Unit>, t: Unit, u: Unit)
    requires PositiveCosts(s) && t.cost > 0 && u.cost > 0 && Ranked(s)
    requires s != [] && Compare(t, s[0]) < 0
    ensures LevelWith(Insert(s, t), u) == LevelWith(s, u) + (if Compare(t, u) == 0 then [t] else [])
  {
    assert Insert(s, t) == [t] + s;
    assert ([t] + s)[0] == t && ([t] + s)[1..] == s;
    if Compare(t, u) == 0 {
      CompareIsTotalPreorder(u, t, s[0]);
      CompareIsTotalPreorder(t, u, u);
      NoneLevelBehind(s, u);
    }
  }

  /** The step of `InsertIsStable` where `t` goes past the head of `s`. */
  lemma InsertPastHead(s: seq<Unit>, t: Unit, u: Unit)
    requires PositiveCosts(s) && t.cost > 0 && u.cost > 0
    requires s != [] && Compare(t, s[0]) >= 0
    requires LevelWith(Insert(s[1..], t), u) == LevelWith(s[1..], u) + (if Compare(t, u) == 0 then [t] else [])
    ensures LevelWith(Insert(s, t), u) == LevelWith(s, u) + (if Compare(t, u) == 0 then [t] else [])
  {
    var head := if Compare(s[0], u) == 0 then [s[0]] else [];
    var tail := if Compare(t, u) == 0 then [t] else [];
    var rest := Insert(s[1..], t);
    assert Insert(s, t) == [s[0]] + rest;
    var level := LevelWith(s[1..], u);
    assert ([s[0]] + rest)[0] == s[0] && ([s[0]] + rest)[1..] == rest;
    AppendAssoc(head, level, tail);
  }

  /** Stated apart from `InsertPastHead`, so that it is proved without the
      comparator's facts in scope. */
  lemma AppendAssoc(a: seq<Unit>, b: seq<Unit>, c: seq<Unit>)
    ensures a + (b + c) == (a + b) + c
  {
  }

  /** The sort is stable: the templates that rank level with any one template
      keep the order in which they were given. */
  lemma {:induction false} SortByEfficiencyIsStable(templates: seq<Unit>, u: Unit)
    requires PositiveCosts(templates) && u.cost > 0
    ensures LevelWith(SortByEfficiency(templates), u) == LevelWith(templates, u)
  {
    if templates != [] {
      var n := |templates| - 1;
      var init, last := templates[..n], templates[n];
      assert templates == init + [last];
      assert SortByEfficiency(templates) == Insert(SortByEfficiency(init), last);
      SortByEfficiencyIsStable(init, u);
      SortByEfficiencyRanks(init);
      InsertIsStable(SortByEfficiency(init), last, u);
      LevelWithAppend(init, [last], u);
      assert [last][1..] == [];
      assert LevelWith([last], u) == if Compare(last, u) == 0 then [last] else [];
    }
  }

  // ---------------------------------------------------------------------------
  // Unit instantiation

  function DigitChar(d: nat): char
    requires d < 10
  {
    "0123456789"[d]
  }

  /** Java's decimal rendering of a non-negative int. */
  function Decimal(n: nat): (s: string)
    ensures |s| >= 1 && (n >= 10 <==> |s| >= 2)
  {
    if n < 10 then [DigitChar(n)] else Decimal(n / 10) + [DigitChar(n % 10)]
  }

  /** Distinct numbers are rendered differently. */
  lemma {:induction false} DecimalInjective(a: nat, b: nat)
    requires Decimal(a) == Decimal(b)
    ensures a == b
  {
    if a >= 10 && b >= 10 {
      var sa, sb := Decimal(a), Decimal(b);
      assert sa[..|sa| - 1] == Decimal(a / 10);
      assert sb[..|sb| - 1] == Decimal(b / 10);
      DecimalInjective(a / 10, b / 10);
      assert DigitChar(a % 10) == sa[|sa| - 1] == DigitChar(b % 10);
    } else if a < 10 && b < 10 {
      assert DigitChar(a) == Decimal(a)[0];
    }
  }

  /** The name the generator gives the `ordinal`-th unit of a type: the type,
      an underscore, then the ordinal in decimal. */
  function UnitName(unitType: string, ordinal: nat): string {
    unitType + "_" + Decimal(ordinal)
  }

  /** Within one type, distinct ordinals give distinct names. */
  lemma UnitNamesDistinct(unitType: string, k1: nat, k2: nat)
    requires k1 != k2
    ensures UnitName(unitType, k1) != UnitName(unitType, k2)
  {
    if UnitName(unitType, k1) == UnitName(unitType, k2) {
      var p := |unitType + "_"|;
      assert Decimal(k1) == UnitName(unitType, k1)[p..];
      assert Decimal(k2) == UnitName(unitType, k2)[p..];
      DecimalInjective(k1, k2);
    }
  }

  /**
   * A new unit made from a template: the template's type and combat stats,
   * the name `type_ordinal`, coordinates (0, 0) until placement. The object
   * identity of the new unit is its position `id` in the new army.
   */
  function Instantiate(template: Unit, ordinal: nat, id: nat): (u: Unit)
    ensures u.(id := template.id, name := template.name, x := template.x, y := template.y) == template
    ensures u.id == id && u.name == UnitName(template.unitType, ordinal) && u.x == 0 && u.y == 0
  {
    Unit(id, UnitName(template.unitType, ordinal), template.unitType, template.health,
         template.baseAttack, template.cost, template.attackType,
         template.attackBonuses, template.defenceBonuses, 0, 0)
  }

  // ---------------------------------------------------------------------------
  // Army totals

  /** The number of units of the given type. */
  function CountOfType(units: seq<Unit>, unitType: string): nat {
    if units == [] then 0
    else
      CountOfType(units[..|units| - 1], unitType)
      + if units[|units| - 1].unitType == unitType then 1 else 0
  }

  /** The points the units cost together. */
  function TotalCost(units: seq<Unit>): int {
    if units == [] then 0 else TotalCost(units[..|units| - 1]) + units[|units| - 1].cost
  }

  /** `u` is a copy of one of the templates, numbered by how many units of its
      type precede it in `before`, and placed right after them. */
  ghost predicate IsCopy(u: Unit, before: seq<Unit>, templates: seq<Unit>) {
    exists t :: t in templates && u == Instantiate(t, CountOfType(before, t.unitType), |before|)
  }

  /** Every unit of the army is such a numbered copy of what precedes it. */
  ghost predicate MadeFrom(units: seq<Unit>, templates: seq<Unit>) {
    units == [] ||
    (MadeFrom(units[..|units| - 1], templates) && IsCopy(units[|units| - 1], units[..|units| - 1], templates))
  }

  lemma {:induction false} MadeFromAt(units: seq<Unit>, templates: seq<Unit>, k: nat)
    requires MadeFrom(units, templates) && k < |units|
    ensures IsCopy(units[k], units[..k], templates)
  {
    var n := |units| - 1;
    if k < n {
      MadeFromAt(units[..n], templates, k);
      assert units[..n][..k] == units[..k];
    }
  }

  /** Two units of the same type in a generated army have different names. */
  lemma NamesDistinctWithinType(units: seq<Unit>, templates: seq<Unit>, i: nat, j: nat)
    requires MadeFrom(units, templates)
    requires i < j < |units| && units[i].unitType == units[j].unitType
    ensures units[i].name != units[j].name
  {
    var ty := units[i].unitType;
    MadeFromAt(units, templates, i);
    MadeFromAt(units, templates, j);
    var ti :| ti in templates && units[i] == Instantiate(ti, CountOfType(units[..i], ti.unitType), |units[..i]|);
    var tj :| tj in templates && units[j] == Instantiate(tj, CountOfType(units[..j], tj.unitType), |units[..j]|);
    CountGrows(units, ty, i, j);
    UnitNamesDistinct(ty, CountOfType(units[..i], ty), CountOfType(units[..j], ty));
  }

  /** A longer prefix that takes in one more unit of a type counts more of it. */
  lemma {:induction false} CountGrows(units: seq<Unit>, ty: string, i: nat, j: nat)
    requires i < j <= |units| && units[i].unitType == ty
    ensures CountOfType(units[..i], ty) < CountOfType(units[..j], ty)
  {
    assert units[..j][..j - 1] == units[..j - 1];
    if j - 1 == i {
      assert units[..j][j - 1] == units[i];
    } else {
      CountGrows(units, ty, i, j - 1);
      assert CountOfType(units[..j - 1], ty) <= CountOfType(units[..j], ty);
    }
  }

  // ---------------------------------------------------------------------------
  // The greedy sweep

  function Get(counts: map<string, nat>, unitType: string): nat {
    if unitType in counts then counts[unitType] else 0
  }

  /** Room left under the per-type cap, summed over the template list; every
      addition lowers it, which bounds the number of sweeps. */
  function Slack(templates: seq<Unit>, counts: map<string, nat>): nat {
    if templates == [] then 0
    else
      var c := Get(counts, templates[0].unitType);
      (if c < MaxUnitsPerType then MaxUnitsPerType - c else 0) + Slack(templates[1..], counts)
  }

  lemma {:induction false} SlackDrops(templates: seq<Unit>, counts: map<string, nat>, ty: string)
    requires Get(counts, ty) < MaxUnitsPerType
    ensures Slack(templates, counts[ty := Get(counts, ty) + 1]) <= Slack(templates, counts)
    ensures (exists t :: t in templates && t.unitType == ty)
            ==> Slack(templates, counts[ty := Get(counts, ty) + 1]) < Slack(templates, counts)
  {
    if templates != [] {
      SlackDrops(templates[1..], counts, ty);
      if exists t :: t in templates && t.unitType == ty {
        var t :| t in templates && t.unitType == ty;
        if t != templates[0] {
          assert t in templates[1..];
        }
      }
    }
  }

  /** The `if` inside `generate`'s `for` over the templates: template `t` is
      under the per-type cap and still fits the budget. */
  predicate HasRoom(t: Unit, counts: map<string, nat>, points: int, maxPoints: int) {
    Get(counts, t.unitType) < MaxUnitsPerType && points + t.cost <= maxPoints
  }

  /** The generator's working state: the army so far, the per-type counters
      and the points spent. */
  datatype Draft = Draft(units: seq<Unit>, counts: map<string, nat>, points: int)

  /** One template's turn in a sweep: with room, it gets one more copy, named
      by its type's counter, and the counter and the points go up; otherwise
      the draft is left as it is. */
  function Offer(d: Draft, t: Unit, maxPoints: int): Draft {
    if HasRoom(t, d.counts, d.points, maxPoints) then
      var count := Get(d.counts, t.unitType);
      Draft(d.units + [Instantiate(t, count, |d.units|)], d.counts[t.unitType := count + 1], d.points + t.cost)
    else d
  }

  /**
   * A sweep of the templates `ts`, in order, over the draft `d`. It adds at
   * most one unit per template and never removes one; when it adds nothing,
   * the draft is unchanged.
   */
  function SweepOf(ts: seq<Unit>, d: Draft, maxPoints: int): (r: Draft)
    ensures d.units <= r.units && |r.units| <= |d.units| + |ts|
    ensures |r.units| == |d.units| ==> r == d
  {
    if ts == [] then d else Offer(SweepOf(ts[..|ts| - 1], d, maxPoints), ts[|ts| - 1], maxPoints)
  }

  /** A sweep never raises the room left under the cap, and lowers it when it
      adds a unit. */
  lemma {:induction false} SweepOfSlack(ts: seq<Unit>, ranked: seq<Unit>, d: Draft, maxPoints: int)
    requires forall t :: t in ts ==> t in ranked
    ensures Slack(ranked, SweepOf(ts, d, maxPoints).counts) <= Slack(ranked, d.counts)
    ensures |SweepOf(ts, d, maxPoints).units| > |d.units|
            ==> Slack(ranked, SweepOf(ts, d, maxPoints).counts) < Slack(ranked, d.counts)
  {
    if ts != [] {
      var init, t := ts[..|ts| - 1], ts[|ts| - 1];
      assert forall x :: x in init ==> x in ts;
      SweepOfSlack(init, ranked, d, maxPoints);
      var m := SweepOf(init, d, maxPoints);
      if HasRoom(t, m.counts, m.points, maxPoints) {
        SlackDrops(ranked, m.counts, t.unitType);
      }
    }
  }

  /** A sweep adds nothing exactly when no template has room in the draft. */
  lemma {:induction false} IdleSweep(ts: seq<Unit>, d: Draft, maxPoints: int)
    ensures |SweepOf(ts, d, maxPoints).units| == |d.units|
            <==> forall j :: 0 <= j < |ts| ==> !HasRoom(ts[j], d.counts, d.points, maxPoints)
  {
    if ts != [] {
      var init, t := ts[..|ts| - 1], ts[|ts| - 1];
      IdleSweep(init, d, maxPoints);
      if |SweepOf(ts, d, maxPoints).units| == |d.units| {
        assert SweepOf(init, d, maxPoints) == d;
      }
      assert forall j :: 0 <= j < |init| ==> init[j] == ts[j];
    }
  }

  /**
   * Sweeps of the ranked templates, repeated from `d` until one adds nothing.
   * The result is a draft that a further sweep leaves unchanged.
   */
  ghost function Build(ranked: seq<Unit>, d: Draft, maxPoints: int): (r: Draft)
    ensures SweepOf(ranked, r, maxPoints) == r
    ensures d.units <= r.units
    decreases Slack(ranked, d.counts)
  {
    var next := SweepOf(ranked, d, maxPoints);
    if |next.units| == |d.units| then d
    else
      SweepOfSlack(ranked, ranked, d, maxPoints);
      Build(ranked, next, maxPoints)
  }

  /** `Build` takes one sweep at a time: it stops at a draft that a sweep
      leaves as it is, and otherwise goes on from the swept draft. */
  lemma BuildStep(ranked: seq<Unit>, d: Draft, maxPoints: int)
    ensures |SweepOf(ranked, d, maxPoints).units| == |d.units| ==> Build(ranked, d, maxPoints) == d
    ensures |SweepOf(ranked, d, maxPoints).units| > |d.units|
            ==> Build(ranked, d, maxPoints) == Build(ranked, SweepOf(ranked, d, maxPoints), maxPoints)
  {
  }

  /** A template that can no longer be added: its type is full, or it costs
      more than the budget has left. */
  predicate Exhausted(t: Unit, units: seq<Unit>, points: int, maxPoints: int) {
    CountOfType(units, t.unitType) >= MaxUnitsPerType || points + t.cost > maxPoints
  }

  /**
   * What the generator keeps true of the army it is building: the points are
   * the units' total cost and within the budget (or the army is empty), the
   * counter map agrees with the units and respects the cap, every unit is a
   * numbered copy of a template, and no unit is added when nothing fits.
   */
  ghost predicate Building(units: seq<Unit>, counts: map<string, nat>, points: int,
                           unitList: seq<Unit>, maxPoints: int)
  {
    && points == TotalCost(units)
    && (units == [] || points <= maxPoints)
    && (forall ty :: CountOfType(units, ty) == Get(counts, ty) <= MaxUnitsPerType)
    && MadeFrom(units, unitList)
    && ((forall t :: t in unitList ==> t.cost > maxPoints) ==> units == [])
  }

  /**
   * The Java `generate`. The result costs no more than the budget (or is
   * empty), holds at most 11 units of each type, each a copy of a template
   * with its ordinal name, and no template could still be added.
   */
  method Generate(unitList: seq<Unit>, maxPoints: int) returns (army: Army)
    requires PositiveCosts(unitList)
    ensures army.points == TotalCost(army.units)
    ensures army.units == [] || army.points <= maxPoints
    ensures forall ty :: CountOfType(army.units, ty) <= MaxUnitsPerType
    ensures MadeFrom(army.units, unitList)
    ensures forall t :: t in unitList ==> Exhausted(t, army.units, army.points, maxPoints)
    ensures (forall t :: t in unitList ==> t.cost > maxPoints) ==> army.units == [] && army.points == 0
    ensures var d := Build(SortByEfficiency(unitList), Draft([], map[], 0), maxPoints);
            army == Army(d.units, d.points)
  {
    var armyUnits: seq<Unit> := [];
    var currentPoints := 0;
    var sortedUnits := SortByEfficiency(unitList);
    var unitCounts: map<string, nat> := map[];
    var canAdd := true;
    while canAdd
      invariant Building(armyUnits, unitCounts, currentPoints, unitList, maxPoints)
      invariant !canAdd ==> forall t :: t in unitList ==> Exhausted(t, armyUnits, currentPoints, maxPoints)
      invariant Build(sortedUnits, Draft(armyUnits, unitCounts, currentPoints), maxPoints)
                == Build(sortedUnits, Draft([], map[], 0), maxPoints)
      invariant !canAdd ==> Draft(armyUnits, unitCounts, currentPoints)
                            == Build(sortedUnits, Draft([], map[], 0), maxPoints)
      decreases Slack(sortedUnits, unitCounts) + if canAdd then 1 else 0
    {
      ghost var draft := Draft(armyUnits, unitCounts, currentPoints);
      armyUnits, unitCounts, currentPoints, canAdd :=
        Sweep(sortedUnits, unitList, maxPoints, armyUnits, unitCounts, currentPoints);
      BuildStep(sortedUnits, draft, maxPoints);
      if !canAdd {
        forall t | t in unitList ensures Exhausted(t, armyUnits, currentPoints, maxPoints) {
          SameMembers(sortedUnits, unitList, t);
          var j :| 0 <= j < |sortedUnits| && sortedUnits[j] == t;
          assert CountOfType(armyUnits, t.unitType) == Get(unitCounts, t.unitType);
        }
      }
    }
    army := Army(armyUnits, currentPoints);
  }

  /**
   * One pass of the `for` over the ranked templates inside `generate`'s
   * `while (canAdd)`: each template whose type is under the cap and whose
   * cost still fits is instantiated once. `canAdd` reports whether anything
   * was added; if nothing was, every template is exhausted.
   */
  method Sweep(sortedUnits: seq<Unit>, unitList: seq<Unit>, maxPoints: int,
               units0: seq<Unit>, counts0: map<string, nat>, points0: int)
    returns (armyUnits: seq<Unit>, unitCounts: map<string, nat>, currentPoints: int, canAdd: bool)
    requires multiset(sortedUnits) == multiset(unitList)
    requires Building(units0, counts0, points0, unitList, maxPoints)
    ensures Building(armyUnits, unitCounts, currentPoints, unitList, maxPoints)
    ensures canAdd ==> Slack(sortedUnits, unitCounts) < Slack(sortedUnits, counts0)
    ensures !canAdd ==> armyUnits == units0 && unitCounts == counts0 && currentPoints == points0
    ensures !canAdd ==> forall j :: 0 <= j < |sortedUnits| ==>
              !HasRoom(sortedUnits[j], unitCounts, currentPoints, maxPoints)
    ensures Draft(armyUnits, unitCounts, currentPoints)
            == SweepOf(sortedUnits, Draft(units0, counts0, points0), maxPoints)
    ensures canAdd <==> |armyUnits| > |units0|
  {
    armyUnits, unitCounts, currentPoints, canAdd := units0, counts0, points0, false;
    for i := 0 to |sortedUnits|
      invariant Building(armyUnits, unitCounts, currentPoints, unitList, maxPoints)
      invariant Draft(armyUnits, unitCounts, currentPoints)
                == SweepOf(sortedUnits[..i], Draft(units0, counts0, points0), maxPoints)
      invariant canAdd <==> |armyUnits| > |units0|
    {
      var template := sortedUnits[i];
      assert sortedUnits[..i + 1][..i] == sortedUnits[..i];
      var added;
      armyUnits, unitCounts, currentPoints, added :=
        OfferTemplate(template, sortedUnits, unitList, maxPoints, armyUnits, unitCounts, currentPoints);
      canAdd := canAdd || added;
    }
    assert sortedUnits[..|sortedUnits|] == sortedUnits;
    SweepOfSlack(sortedUnits, sortedUnits, Draft(units0, counts0, points0), maxPoints);
    IdleSweep(sortedUnits, Draft(units0, counts0, points0), maxPoints);
  }

  /**
   * The body of the `for` over the ranked templates in `generate`: a template
   * whose type is under the cap and whose cost still fits gets one more copy,
   * named by its type's counter, and the counter and the points go up;
   * `added` reports whether it did. The builder's invariant is kept, and an
   * addition lowers the room left under the cap.
   */
  method OfferTemplate(template: Unit, ghost sortedUnits: seq<Unit>, ghost unitList: seq<Unit>, maxPoints: int,
                       units0: seq<Unit>, counts0: map<string, nat>, points0: int)
    returns (armyUnits: seq<Unit>, unitCounts: map<string, nat>, currentPoints: int, added: bool)
    requires multiset(sortedUnits) == multiset(unitList) && template in sortedUnits
    requires Building(units0, counts0, points0, unitList, maxPoints)
    ensures Draft(armyUnits, unitCounts, currentPoints) == Offer(Draft(units0, counts0, points0), template, maxPoints)
    ensures added <==> HasRoom(template, counts0, points0, maxPoints)
    ensures Building(armyUnits, unitCounts, currentPoints, unitList, maxPoints)
    ensures added ==> Slack(sortedUnits, unitCounts) < Slack(sortedUnits, counts0)
  {
    ghost var offered := Offer(Draft(units0, counts0, points0), template, maxPoints);
    OfferKeepsBuilding(Draft(units0, counts0, points0), template, sortedUnits, unitList, maxPoints);
    armyUnits, unitCounts, currentPoints, added := units0, counts0, points0, false;
    var unitType := template.unitType;
    var count := Get(counts0, unitType);
    if count < MaxUnitsPerType && points0 + template.cost <= maxPoints {
      var newUnit := Instantiate(template, count, |units0|);
      armyUnits := units0 + [newUnit];
      unitCounts := counts0[unitType := count + 1];
      currentPoints := points0 + template.cost;
      added := true;
    }
    assert Draft(armyUnits, unitCounts, currentPoints) == offered;
  }

  /** Offering a template keeps the builder's invariant, and an offer that
      adds a unit lowers the room left under the cap. */
  lemma OfferKeepsBuilding(d: Draft, t: Unit, sortedUnits: seq<Unit>, unitList: seq<Unit>, maxPoints: int)
    requires multiset(sortedUnits) == multiset(unitList) && t in sortedUnits
    requires Building(d.units, d.counts, d.points, unitList, maxPoints)
    ensures var r := Offer(d, t, maxPoints);
            Building(r.units, r.counts, r.points, unitList, maxPoints)
    ensures HasRoom(t, d.counts, d.points, maxPoints)
            ==> Slack(sortedUnits, Offer(d, t, maxPoints).counts) < Slack(sortedUnits, d.counts)
  {
    if HasRoom(t, d.counts, d.points, maxPoints) {
      SameMembers(sortedUnits, unitList, t);
      SlackDrops(sortedUnits, d.counts, t.unitType);
      AddKeepsBuilding(d.units, d.counts, d.points, unitList, maxPoints, t);
    }
  }

  /** A reordering has the same members. */
  lemma SameMembers(a: seq<Unit>, b: seq<Unit>, t: Unit)
    requires multiset(a) == multiset(b)
    ensures t in a <==> t in b
  {
    assert t in a <==> t in multiset(a);
  }

  /** One addition (the new unit, the raised counter, the raised points)
      keeps the builder's invariant. */
  lemma AddKeepsBuilding(units: seq<Unit>, counts: map<string, nat>, points: int,
                         unitList: seq<Unit>, maxPoints: int, t: Unit)
    requires Building(units, counts, points, unitList, maxPoints) && t in unitList
    requires Get(counts, t.unitType) < MaxUnitsPerType && points + t.cost <= maxPoints
    ensures Building(units + [Instantiate(t, Get(counts, t.unitType), |units|)],
                     counts[t.unitType := Get(counts, t.unitType) + 1], points + t.cost,
                     unitList, maxPoints)
  {
    var count := Get(counts, t.unitType);
    var u := Instantiate(t, count, |units|);
    var units', counts' := units + [u], counts[t.unitType := count + 1];
    AddKeepsMadeFrom(units, unitList, t, count);
    AddKeepsCounts(units, counts, t, count, |units|);
    AddKeepsTotal(units, u);
    assert forall ty :: CountOfType(units', ty) == Get(counts', ty) <= MaxUnitsPerType;
    assert units' != [] && MadeFrom(units', unitList);
  }

  /** Appending a unit adds its cost to the total. */
  lemma AddKeepsTotal(units: seq<Unit>, u: Unit)
    ensures TotalCost(units + [u]) == TotalCost(units) + u.cost
  {
    assert (units + [u])[..|units|] == units;
  }

  /** Appending a copy of a template whose type is under the cap, and raising
      that type's counter, keeps the counters equal to the per-type counts and
      within the cap. */
  lemma AddKeepsCounts(units: seq<Unit>, counts: map<string, nat>, t: Unit, count: nat, id: nat)
    requires forall ty :: CountOfType(units, ty) == Get(counts, ty) <= MaxUnitsPerType
    requires count == Get(counts, t.unitType) < MaxUnitsPerType
    ensures forall ty :: CountOfType(units + [Instantiate(t, count, id)], ty)
                         == Get(counts[t.unitType := count + 1], ty) <= MaxUnitsPerType
  {
    var units' := units + [Instantiate(t, count, id)];
    assert units'[..|units'| - 1] == units;
  }

  /** Appending the next copy of a template keeps every unit a numbered copy. */
  lemma {:induction false} AddKeepsMadeFrom(units: seq<Unit>, templates: seq<Unit>, t: Unit, count: nat)
    requires MadeFrom(units, templates) && t in templates
    requires count == CountOfType(units, t.unitType)
    ensures MadeFrom(units + [Instantiate(t, count, |units|)], templates)
  {
    var units' := units + [Instantiate(t, count, |units|)];
    assert units'[..|units'| - 1] == units;
  }
}
