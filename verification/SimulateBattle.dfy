/**
 * The round-based battle loop. All units of both armies live in one roster
 * and are referred to by their index in it (the index stands for the unit
 * object's identity); an army is the list of its units' indices. Each round
 * the alive units of the player's army, then of the computer's, are sorted
 * by base attack, strongest first, and act in that order.
 */
module SimulateBattle {
  import opened Wrappers
  import opened Units

  /** Every index in `xs` names a unit of a roster of `n` units. */
  predicate Indexes(n: nat, xs: seq<nat>) {
    forall j :: 0 <= j < |xs| ==> xs[j] < n
  }

  // ---------------------------------------------------------------------------
  // hasAliveUnits and getAliveUnits, as values

  /** Some unit of `army` is alive. */
  ghost predicate HasAlive(units: seq<Unit>, army: seq<nat>)
    requires Indexes(|units|, army)
  {
    exists j :: 0 <= j < |army| && units[army[j]].Alive()
  }

  /** The alive units of `army`, in army order. */
  function AliveOf(units: seq<Unit>, army: seq<nat>): (r: seq<nat>)
    requires Indexes(|units|, army)
    ensures |r| <= |army| && Indexes(|units|, r)
  {
    if army == [] then []
    else
      var last := army[|army| - 1];
      AliveOf(units, army[..|army| - 1]) + (if units[last].Alive() then [last] else [])
  }

  /** Exactly the alive members of the army are kept. */
  lemma {:induction false} AliveOfMembers(units: seq<Unit>, army: seq<nat>, i: nat)
    requires Indexes(|units|, army)
    ensures i in AliveOf(units, army) <==> i in army && units[i].Alive()
  {
    if army != [] {
      var init := army[..|army| - 1];
      AliveOfMembers(units, init, i);
      assert army == init + [army[|army| - 1]];
    }
  }

  /** Keeping the alive units of two lists one after the other keeps the
      alive units of each, in order. */
  lemma {:induction false} AliveOfAppend(units: seq<Unit>, a: seq<nat>, b: seq<nat>)
    requires Indexes(|units|, a) && Indexes(|units|, b)
    ensures Indexes(|units|, a + b)
    ensures AliveOf(units, a + b) == AliveOf(units, a) + AliveOf(units, b)
    decreases |b|
  {
    if b != [] {
      var init := b[..|b| - 1];
      assert (a + b)[..|a + b| - 1] == a + init;
      AliveOfAppend(units, a, init);
    } else {
      assert a + b == a;
    }
  }

  /** An army has an alive unit exactly when its alive list is not empty. */
  lemma AliveOfEmpty(units: seq<Unit>, army: seq<nat>)
    requires Indexes(|units|, army)
    ensures AliveOf(units, army) != [] <==> HasAlive(units, army)
  {
    if AliveOf(units, army) != [] {
      var i := AliveOf(units, army)[0];
      AliveOfMembers(units, army, i);
    } else if HasAlive(units, army) {
      var j :| 0 <= j < |army| && units[army[j]].Alive();
      AliveOfMembers(units, army, army[j]);
    }
  }

  // ---------------------------------------------------------------------------
  // Sorting by base attack, strongest first, keeping the order of equals

  function AttackOf(units: seq<Unit>, i: nat): int
    requires i < |units|
  {
    units[i].baseAttack
  }

  /** Base attack does not increase along `s`. */
  ghost predicate Descending(units: seq<Unit>, s: seq<nat>)
    requires Indexes(|units|, s)
  {
    forall i, j :: 0 <= i < j < |s| ==> AttackOf(units, s[i]) >= AttackOf(units, s[j])
  }

  /** The units of `s` whose base attack is `k`, in order. */
  function WithAttack(units: seq<Unit>, s: seq<nat>, k: int): (r: seq<nat>)
    requires Indexes(|units|, s)
    ensures |r| <= |s|
  {
    if s == [] then []
    else (if AttackOf(units, s[0]) == k then [s[0]] else []) + WithAttack(units, s[1..], k)
  }

  /** `WithAttack` keeps exactly the units of `s` whose base attack is `k`. */
  lemma {:induction false} WithAttackFilters(units: seq<Unit>, s: seq<nat>, k: int, a: nat)
    requires Indexes(|units|, s)
    ensures a in WithAttack(units, s, k) <==> a in s && AttackOf(units, a) == k
  {
    if s != [] {
      WithAttackFilters(units, s[1..], k, a);
      assert s == [s[0]] + s[1..];
    }
  }

  /** Places `x` after every unit of `s` at least as strong. */
  function InsertByAttack(units: seq<Unit>, s: seq<nat>, x: nat): (r: seq<nat>)
    requires Indexes(|units|, s) && x < |units|
    ensures |r| == |s| + 1 && Indexes(|units|, r)
  {
    if s == [] then [x]
    else if AttackOf(units, s[0]) >= AttackOf(units, x) then [s[0]] + InsertByAttack(units, s[1..], x)
    else [x] + s
  }

  /**
   * `roundUnits.sort(Comparator.comparingInt(Unit::getBaseAttack).reversed())`
   * (`List.sort` is stable): each unit in turn is inserted after the units
   * before it that are at least as strong.
   */
  function SortByAttack(units: seq<Unit>, xs: seq<nat>): (r: seq<nat>)
    requires Indexes(|units|, xs)
    ensures |r| == |xs| && Indexes(|units|, r)
  {
    if xs == [] then []
    else InsertByAttack(units, SortByAttack(units, xs[..|xs| - 1]), xs[|xs| - 1])
  }

  lemma {:induction false} InsertByAttackPermutes(units: seq<Unit>, s: seq<nat>, x: nat)
    requires Indexes(|units|, s) && x < |units|
    ensures multiset(InsertByAttack(units, s, x)) == multiset(s) + multiset{x}
  {
    if s != [] && AttackOf(units, s[0]) >= AttackOf(units, x) {
      InsertByAttackPermutes(units, s[1..], x);
      assert s == [s[0]] + s[1..];
    }
  }

  /** Sorting only reorders: the result is a permutation of the input. */
  lemma {:induction false} SortByAttackPermutes(units: seq<Unit>, xs: seq<nat>)
    requires Indexes(|units|, xs)
    ensures multiset(SortByAttack(units, xs)) == multiset(xs)
  {
    if xs != [] {
      var init := xs[..|xs| - 1];
      SortByAttackPermutes(units, init);
      InsertByAttackPermutes(units, SortByAttack(units, init), xs[|xs| - 1]);
      assert xs == init + [xs[|xs| - 1]];
    }
  }

  /** No unit of `s` has base attack above `b`. */
  ghost predicate AtMost(units: seq<Unit>, s: seq<nat>, b: int)
    requires Indexes(|units|, s)
  {
    forall j :: 0 <= j < |s| ==> AttackOf(units, s[j]) <= b
  }

  lemma {:induction false} InsertKeepsAtMost(units: seq<Unit>, s: seq<nat>, x: nat, b: int)
    requires Indexes(|units|, s) && x < |units| && AtMost(units, s, b) && AttackOf(units, x) <= b
    ensures AtMost(units, InsertByAttack(units, s, x), b)
  {
    if s != [] && AttackOf(units, s[0]) >= AttackOf(units, x) {
      InsertKeepsAtMost(units, s[1..], x, b);
    }
  }

  lemma {:induction false} InsertKeepsDescending(units: seq<Unit>, s: seq<nat>, x: nat)
    requires Indexes(|units|, s) && x < |units| && Descending(units, s)
    ensures Descending(units, InsertByAttack(units, s, x))
  {
    if s != [] && AttackOf(units, s[0]) >= AttackOf(units, x) {
      InsertKeepsDescending(units, s[1..], x);
      InsertKeepsAtMost(units, s[1..], x, AttackOf(units, s[0]));
      DescendingCons(units, s[0], InsertByAttack(units, s[1..], x));
    } else if s != [] {
      DescendingCons(units, x, s);
    }
  }

  /** A descending list stays descending behind a head at least as strong as
      all of it. */
  lemma DescendingCons(units: seq<Unit>, h: nat, t: seq<nat>)
    requires h < |units| && Indexes(|units|, t) && Descending(units, t)
    requires AtMost(units, t, AttackOf(units, h))
    ensures Indexes(|units|, [h] + t) && Descending(units, [h] + t)
  {
    var r := [h] + t;
    forall i, j | 0 <= i < j < |r| ensures AttackOf(units, r[i]) >= AttackOf(units, r[j]) {
      assert r[j] == t[j - 1];
      if i > 0 {
        assert r[i] == t[i - 1];
      }
    }
  }

  /** The sorted list runs from the strongest unit to the weakest. */
  lemma {:induction false} SortByAttackDescends(units: seq<Unit>, xs: seq<nat>)
    requires Indexes(|units|, xs)
    ensures Descending(units, SortByAttack(units, xs))
  {
    if xs != [] {
      SortByAttackDescends(units, xs[..|xs| - 1]);
      InsertKeepsDescending(units, SortByAttack(units, xs[..|xs| - 1]), xs[|xs| - 1]);
    }
  }

  lemma {:induction false} WithAttackAppend(units: seq<Unit>, a: seq<nat>, b: seq<nat>, k: int)
    requires Indexes(|units|, a) && Indexes(|units|, b)
    ensures Indexes(|units|, a + b)
    ensures WithAttack(units, a + b, k) == WithAttack(units, a, k) + WithAttack(units, b, k)
  {
    if a == [] {
      assert a + b == b;
    } else {
      var head := if AttackOf(units, a[0]) == k then [a[0]] else [];
      assert (a + b)[0] == a[0] && (a + b)[1..] == a[1..] + b;
      WithAttackAppend(units, a[1..], b, k);
      calc {
        WithAttack(units, a + b, k);
        head + WithAttack(units, a[1..] + b, k);
        head + (WithAttack(units, a[1..], k) + WithAttack(units, b, k));
        (head + WithAttack(units, a[1..], k)) + WithAttack(units, b, k);
        WithAttack(units, a, k) + WithAttack(units, b, k);
      }
    }
  }

  /** No unit of a descending list beats its head. */
  lemma {:induction false} NoneStrongerThanHead(units: seq<Unit>, s: seq<nat>, k: int)
    requires Indexes(|units|, s) && Descending(units, s)
    requires s != [] && AttackOf(units, s[0]) < k
    ensures WithAttack(units, s, k) == []
  {
    if |s| > 1 {
      NoneStrongerThanHead(units, s[1..], k);
    }
  }

  lemma WithAttackCons(units: seq<Unit>, h: nat, t: seq<nat>, k: int)
    requires h < |units| && Indexes(|units|, t)
    ensures Indexes(|units|, [h] + t)
    ensures WithAttack(units, [h] + t, k) == (if AttackOf(units, h) == k then [h] else []) + WithAttack(units, t, k)
  {
    assert ([h] + t)[0] == h && ([h] + t)[1..] == t;
  }

  lemma {:induction false} InsertIsStable(units: seq<Unit>, s: seq<nat>, x: nat, k: int)
    requires Indexes(|units|, s) && x < |units| && Descending(units, s)
    ensures WithAttack(units, InsertByAttack(units, s, x), k)
            == WithAttack(units, s, k) + (if AttackOf(units, x) == k then [x] else [])
  {
    var tail := if AttackOf(units, x) == k then [x] else [];
    if s == [] {
      WithAttackCons(units, x, [], k);
    } else if AttackOf(units, s[0]) >= AttackOf(units, x) {
      InsertIsStable(units, s[1..], x, k);
      InsertPastHead(units, s, x, k);
    } else {
      WithAttackCons(units, x, s, k);
      if AttackOf(units, x) == k {
        NoneStrongerThanHead(units, s, k);
      } else {
        assert WithAttack(units, s, k) + tail == WithAttack(units, s, k);
      }
    }
  }

  /** The step of `InsertIsStable` where `x` goes past the head of `s`. */
  lemma InsertPastHead(units: seq<Unit>, s: seq<nat>, x: nat, k: int)
    requires Indexes(|units|, s) && x < |units| && s != [] && AttackOf(units, s[0]) >= AttackOf(units, x)
    requires WithAttack(units, InsertByAttack(units, s[1..], x), k)
             == WithAttack(units, s[1..], k) + (if AttackOf(units, x) == k then [x] else [])
    ensures WithAttack(units, InsertByAttack(units, s, x), k)
            == WithAttack(units, s, k) + (if AttackOf(units, x) == k then [x] else [])
  {
    var head := if AttackOf(units, s[0]) == k then [s[0]] else [];
    var tail := if AttackOf(units, x) == k then [x] else [];
    var rest := InsertByAttack(units, s[1..], x);
    assert InsertByAttack(units, s, x) == [s[0]] + rest;
    WithAttackCons(units, s[0], rest, k);
    assert WithAttack(units, s, k) == head + WithAttack(units, s[1..], k);
    calc {
      WithAttack(units, InsertByAttack(units, s, x), k);
      head + WithAttack(units, rest, k);
      head + (WithAttack(units, s[1..], k) + tail);
      (head + WithAttack(units, s[1..], k)) + tail;
      WithAttack(units, s, k) + tail;
    }
  }

  /** Sorting is stable: the units of any one base attack keep their order. */
  lemma {:induction false} SortByAttackIsStable(units: seq<Unit>, xs: seq<nat>, k: int)
    requires Indexes(|units|, xs)
    ensures WithAttack(units, SortByAttack(units, xs), k) == WithAttack(units, xs, k)
  {
    if xs != [] {
      var init, last := xs[..|xs| - 1], xs[|xs| - 1];
      SortByAttackIsStable(units, init, k);
      SortByAttackDescends(units, init);
      InsertIsStable(units, SortByAttack(units, init), last, k);
      WithAttackAppend(units, init, [last], k);
      assert xs == init + [last];
    }
  }

  // ---------------------------------------------------------------------------
  // One round, as values

  /** A log line: the acting unit and the target its attack returned (null
      when it found none). */
  datatype Action = Action(actor: nat, target: Option<nat>)

  /** What an attack returns: its target, and the roster after the damage. */
  datatype Strike = Strike(target: Option<nat>, units: seq<Unit>)

  /** The roster and the battle log. */
  datatype Field = Field(units: seq<Unit>, log: seq<Action>)

  type Attack = (seq<Unit>, nat) -> Strike

  /** `after` differs from `before` only in lowered health. */
  predicate Weakens(before: seq<Unit>, after: seq<Unit>) {
    && |after| == |before|
    && forall i :: 0 <= i < |before| ==>
         after[i] == before[i].(health := after[i].health) && after[i].health <= before[i].health
  }

  /** The attack routine may only lower the health of units. */
  ghost predicate OnlyWeakens(attack: Attack) {
    forall units: seq<Unit>, a: nat :: a < |units| ==> Weakens(units, attack(units, a).units)
  }

  /** The army the unit `a` fights: the computer's when `a` is in the player's army. */
  function Enemy(player: seq<nat>, computer: seq<nat>, a: nat): seq<nat> {
    if a in player then computer else player
  }

  /** The turn of unit `a`: skipped when it is dead or its enemy has no alive
      unit; otherwise one attack, then one log line. */
  ghost function Turn(attack: Attack, player: seq<nat>, computer: seq<nat>, f: Field, a: nat): (r: Field)
    requires OnlyWeakens(attack)
    requires a < |f.units| && Indexes(|f.units|, player) && Indexes(|f.units|, computer)
    ensures |r.units| == |f.units|
  {
    if !f.units[a].Alive() then f
    else if !HasAlive(f.units, Enemy(player, computer, a)) then f
    else
      var strike := attack(f.units, a);
      Field(strike.units, f.log + [Action(a, strike.target)])
  }

  /** A turn only lowers health; it logs exactly one line, for its unit and
      the target returned, when the unit is alive and its enemy has an alive
      unit, and otherwise changes nothing. */
  lemma TurnRules(attack: Attack, player: seq<nat>, computer: seq<nat>, f: Field, a: nat)
    requires OnlyWeakens(attack)
    requires a < |f.units| && Indexes(|f.units|, player) && Indexes(|f.units|, computer)
    ensures var r := Turn(attack, player, computer, f, a);
            && Weakens(f.units, r.units)
            && (|r.log| == |f.log| + 1 <==> f.units[a].Alive() && HasAlive(f.units, Enemy(player, computer, a)))
            && (|r.log| == |f.log| + 1 ==> r.log == f.log + [Action(a, attack(f.units, a).target)])
            && (|r.log| != |f.log| + 1 ==> r == f)
  {
    if f.units[a].Alive() && HasAlive(f.units, Enemy(player, computer, a)) {
      assert Weakens(f.units, attack(f.units, a).units);
    }
  }

  /** The turns of `actors`, in order. */
  ghost function Turns(attack: Attack, player: seq<nat>, computer: seq<nat>, f: Field, actors: seq<nat>): (r: Field)
    requires OnlyWeakens(attack)
    requires Indexes(|f.units|, actors) && Indexes(|f.units|, player) && Indexes(|f.units|, computer)
    ensures |r.units| == |f.units|
  {
    if actors == [] then f
    else
      var g := Turns(attack, player, computer, f, actors[..|actors| - 1]);
      Turn(attack, player, computer, g, actors[|actors| - 1])
  }

  /** The units acting this round: the alive units of the player's army and
      then of the computer's, sorted by base attack, strongest first. */
  function RoundUnits(units: seq<Unit>, player: seq<nat>, computer: seq<nat>): (r: seq<nat>)
    requires Indexes(|units|, player) && Indexes(|units|, computer)
    ensures Indexes(|units|, r)
  {
    AliveOfAppend(units, player, computer);
    SortByAttack(units, AliveOf(units, player) + AliveOf(units, computer))
  }

  ghost function Round(attack: Attack, player: seq<nat>, computer: seq<nat>, f: Field): (r: Field)
    requires OnlyWeakens(attack) && Indexes(|f.units|, player) && Indexes(|f.units|, computer)
    ensures |r.units| == |f.units|
  {
    Turns(attack, player, computer, f, RoundUnits(f.units, player, computer))
  }

  /**
   * The battle, turn by turn: while neither army's alive list is empty
   * (both have an alive unit, by `AliveOfEmpty`) and rounds remain, the
   * actors of a new round are collected and their turns are played; at most
   * `fuel` rounds.
   */
  ghost function Battle(attack: Attack, player: seq<nat>, computer: seq<nat>, f: Field, fuel: nat): (r: Field)
    requires OnlyWeakens(attack) && Indexes(|f.units|, player) && Indexes(|f.units|, computer)
    ensures |r.units| == |f.units|
    decreases fuel, 1, 0
  {
    if AliveOf(f.units, player) == [] || AliveOf(f.units, computer) == [] || fuel == 0 then f
    else Play(attack, player, computer, f, RoundUnits(f.units, player, computer), fuel)
  }

  /** The rest of the current round (the turns of `actors`), then the rest
      of the battle. */
  ghost function Play(attack: Attack, player: seq<nat>, computer: seq<nat>, f: Field, actors: seq<nat>,
                      fuel: nat): (r: Field)
    requires OnlyWeakens(attack)
    requires Indexes(|f.units|, actors) && Indexes(|f.units|, player) && Indexes(|f.units|, computer)
    requires fuel > 0
    ensures |r.units| == |f.units|
    decreases fuel, 0, |actors|
  {
    if actors == [] then Battle(attack, player, computer, f, fuel - 1)
    else Play(attack, player, computer, Turn(attack, player, computer, f, actors[0]), actors[1..], fuel)
  }

  /** Playing out a list of actors is taking their turns and going on with the battle. */
  lemma {:induction false} PlayIsTurns(attack: Attack, player: seq<nat>, computer: seq<nat>, f: Field,
                                       actors: seq<nat>, fuel: nat)
    requires OnlyWeakens(attack)
    requires Indexes(|f.units|, actors) && Indexes(|f.units|, player) && Indexes(|f.units|, computer)
    requires fuel > 0
    ensures Play(attack, player, computer, f, actors, fuel)
            == Battle(attack, player, computer, Turns(attack, player, computer, f, actors), fuel - 1)
    decreases |actors|
  {
    if actors != [] {
      var g := Turn(attack, player, computer, f, actors[0]);
      PlayIsTurns(attack, player, computer, g, actors[1..], fuel);
      assert [actors[0]][..0] == [];
      assert Turns(attack, player, computer, f, [actors[0]]) == g;
      TurnsAppend(attack, player, computer, f, [actors[0]], actors[1..]);
      assert [actors[0]] + actors[1..] == actors;
    }
  }

  /** While both armies have an alive unit and rounds remain, a round is played. */
  lemma BattleStep(attack: Attack, player: seq<nat>, computer: seq<nat>, f: Field, fuel: nat)
    requires OnlyWeakens(attack) && Indexes(|f.units|, player) && Indexes(|f.units|, computer)
    requires HasAlive(f.units, player) && HasAlive(f.units, computer) && fuel > 0
    ensures Battle(attack, player, computer, f, fuel)
            == Battle(attack, player, computer, Round(attack, player, computer, f), fuel - 1)
  {
    AliveOfEmpty(f.units, player);
    AliveOfEmpty(f.units, computer);
    PlayIsTurns(attack, player, computer, f, RoundUnits(f.units, player, computer), fuel);
  }

  /** Once an army is wiped out, or no rounds remain, the battle is over. */
  lemma BattleStops(attack: Attack, player: seq<nat>, computer: seq<nat>, f: Field, fuel: nat)
    requires OnlyWeakens(attack) && Indexes(|f.units|, player) && Indexes(|f.units|, computer)
    requires !HasAlive(f.units, player) || !HasAlive(f.units, computer) || fuel == 0
    ensures Battle(attack, player, computer, f, fuel) == f
  {
    AliveOfEmpty(f.units, player);
    AliveOfEmpty(f.units, computer);
  }

  // ---------------------------------------------------------------------------
  // What a round promises

  /** The actors of a round are the alive units of both armies, player's
      first, reordered by base attack, strongest first, with equals in their
      collected order. */
  lemma RoundUnitsOrder(units: seq<Unit>, player: seq<nat>, computer: seq<nat>, k: int)
    requires Indexes(|units|, player) && Indexes(|units|, computer)
    ensures Indexes(|units|, AliveOf(units, player) + AliveOf(units, computer))
    ensures multiset(RoundUnits(units, player, computer))
            == multiset(AliveOf(units, player) + AliveOf(units, computer))
    ensures Descending(units, RoundUnits(units, player, computer))
    ensures WithAttack(units, RoundUnits(units, player, computer), k)
            == WithAttack(units, AliveOf(units, player) + AliveOf(units, computer), k)
  {
    var collected := AliveOf(units, player) + AliveOf(units, computer);
    AliveOfAppend(units, player, computer);
    SortByAttackPermutes(units, collected);
    SortByAttackDescends(units, collected);
    SortByAttackIsStable(units, collected, k);
  }

  /** Turns keep the earlier log, add at most one line per actor, and only
      lower health: a dead unit stays dead. */
  lemma {:induction false} TurnsWeaken(attack: Attack, player: seq<nat>, computer: seq<nat>, f: Field, actors: seq<nat>)
    requires OnlyWeakens(attack)
    requires Indexes(|f.units|, actors) && Indexes(|f.units|, player) && Indexes(|f.units|, computer)
    ensures Weakens(f.units, Turns(attack, player, computer, f, actors).units)
    ensures |f.log| <= |Turns(attack, player, computer, f, actors).log| <= |f.log| + |actors|
    ensures Turns(attack, player, computer, f, actors).log[..|f.log|] == f.log
  {
    if actors != [] {
      var init := actors[..|actors| - 1];
      TurnsWeaken(attack, player, computer, f, init);
      var g := Turns(attack, player, computer, f, init);
      var r := Turns(attack, player, computer, f, actors);
      TurnRules(attack, player, computer, g, actors[|actors| - 1]);
      assert r.log[..|f.log|] == g.log[..|f.log|];
    }
  }

  /** A unit dead at its turn stays dead. */
  lemma DeadStaysDead(before: seq<Unit>, after: seq<Unit>, i: nat)
    requires Weakens(before, after) && i < |before| && !before[i].Alive()
    ensures !after[i].Alive()
  {
    assert after[i].health <= before[i].health;
  }

  /** An army with no alive unit stays without one. */
  lemma WipedOutStaysWipedOut(before: seq<Unit>, after: seq<Unit>, army: seq<nat>)
    requires Weakens(before, after) && Indexes(|before|, army) && !HasAlive(before, army)
    ensures !HasAlive(after, army)
  {
    forall j | 0 <= j < |army| ensures !after[army[j]].Alive() {
      DeadStaysDead(before, after, army[j]);
    }
  }

  /** Every line a round logs is the turn of one of its actors that was alive
      when the round began. */
  lemma {:induction false} LoggedActorsWereAlive(attack: Attack, player: seq<nat>, computer: seq<nat>,
                                                 f: Field, actors: seq<nat>, j: nat)
    requires OnlyWeakens(attack)
    requires Indexes(|f.units|, actors) && Indexes(|f.units|, player) && Indexes(|f.units|, computer)
    requires |f.log| <= j < |Turns(attack, player, computer, f, actors).log|
    ensures Turns(attack, player, computer, f, actors).log[j].actor in actors
    ensures f.units[Turns(attack, player, computer, f, actors).log[j].actor].Alive()
  {
    var init := actors[..|actors| - 1];
    var g := Turns(attack, player, computer, f, init);
    var a := actors[|actors| - 1];
    TurnsWeaken(attack, player, computer, f, init);
    TurnRules(attack, player, computer, g, a);
    if j < |g.log| {
      LoggedActorsWereAlive(attack, player, computer, f, init, j);
    } else {
      assert Turns(attack, player, computer, f, actors).log[j] == Action(a, attack(g.units, a).target);
      if !f.units[a].Alive() {
        DeadStaysDead(f.units, g.units, a);
      }
    }
  }

  /** Every actor belongs to one of the two armies. */
  predicate Enlisted(actors: seq<nat>, player: seq<nat>, computer: seq<nat>) {
    forall j :: 0 <= j < |actors| ==> actors[j] in player || actors[j] in computer
  }

  /** Once either army is wiped out, no unit of either army acts any more. */
  lemma {:induction false} NoTurnAfterWipeOut(attack: Attack, player: seq<nat>, computer: seq<nat>,
                                              f: Field, actors: seq<nat>)
    requires OnlyWeakens(attack)
    requires Indexes(|f.units|, actors) && Indexes(|f.units|, player) && Indexes(|f.units|, computer)
    requires Enlisted(actors, player, computer)
    requires !HasAlive(f.units, player) || !HasAlive(f.units, computer)
    ensures Turns(attack, player, computer, f, actors) == f
  {
    if actors != [] {
      var init := actors[..|actors| - 1];
      NoTurnAfterWipeOut(attack, player, computer, f, init);
      var a := actors[|actors| - 1];
      assert a in player || a in computer;
      if f.units[a].Alive() && a in player {
        var j :| 0 <= j < |player| && player[j] == a;
        assert HasAlive(f.units, player);
      } else if f.units[a].Alive() {
        var j :| 0 <= j < |computer| && computer[j] == a;
        assert HasAlive(f.units, computer);
      }
    }
  }

  /** One more actor: one more turn. */
  lemma TurnsStep(attack: Attack, player: seq<nat>, computer: seq<nat>, f: Field, actors: seq<nat>, i: nat)
    requires OnlyWeakens(attack)
    requires Indexes(|f.units|, actors) && Indexes(|f.units|, player) && Indexes(|f.units|, computer)
    requires i < |actors|
    ensures Indexes(|f.units|, actors[..i]) && Indexes(|f.units|, actors[..i + 1])
    ensures Turns(attack, player, computer, f, actors[..i + 1])
            == Turn(attack, player, computer, Turns(attack, player, computer, f, actors[..i]), actors[i])
  {
    assert actors[..i + 1][..i] == actors[..i];
  }

  /** Turns over two lists of actors are the turns of the first, then of the second. */
  lemma {:induction false} TurnsAppend(attack: Attack, player: seq<nat>, computer: seq<nat>,
                                       f: Field, a: seq<nat>, b: seq<nat>)
    requires OnlyWeakens(attack)
    requires Indexes(|f.units|, a) && Indexes(|f.units|, b)
    requires Indexes(|f.units|, player) && Indexes(|f.units|, computer)
    ensures Indexes(|f.units|, a + b)
    ensures Turns(attack, player, computer, f, a + b)
            == Turns(attack, player, computer, Turns(attack, player, computer, f, a), b)
    decreases |b|
  {
    if b == [] {
      assert a + b == a;
    } else {
      var init := b[..|b| - 1];
      assert (a + b)[..|a + b| - 1] == a + init;
      TurnsAppend(attack, player, computer, f, a, init);
    }
  }

  /** When an army is wiped out after the turns of `front`, the turns of
      `back` are all skipped. */
  lemma RestSkipped(attack: Attack, player: seq<nat>, computer: seq<nat>, f: Field, front: seq<nat>, back: seq<nat>)
    requires OnlyWeakens(attack) && Indexes(|f.units|, player) && Indexes(|f.units|, computer)
    requires Indexes(|f.units|, front) && Indexes(|f.units|, back) && Enlisted(back, player, computer)
    requires var g := Turns(attack, player, computer, f, front);
             !HasAlive(g.units, player) || !HasAlive(g.units, computer)
    ensures Indexes(|f.units|, front + back)
    ensures Turns(attack, player, computer, f, front + back) == Turns(attack, player, computer, f, front)
  {
    TurnsAppend(attack, player, computer, f, front, back);
    NoTurnAfterWipeOut(attack, player, computer, Turns(attack, player, computer, f, front), back);
  }

  /** The actors of a round are alive members of the two armies. */
  lemma RoundUnitsEnlisted(units: seq<Unit>, player: seq<nat>, computer: seq<nat>)
    requires Indexes(|units|, player) && Indexes(|units|, computer)
    ensures Enlisted(RoundUnits(units, player, computer), player, computer)
    ensures forall j :: 0 <= j < |RoundUnits(units, player, computer)| ==>
              units[RoundUnits(units, player, computer)[j]].Alive()
  {
    var collected := AliveOf(units, player) + AliveOf(units, computer);
    var actors := RoundUnits(units, player, computer);
    AliveOfAppend(units, player, computer);
    SortByAttackPermutes(units, collected);
    forall j | 0 <= j < |actors|
      ensures (actors[j] in player || actors[j] in computer) && units[actors[j]].Alive()
    {
      assert actors[j] in multiset(collected);
      AliveOfMembers(units, player, actors[j]);
      AliveOfMembers(units, computer, actors[j]);
    }
  }

  // ---------------------------------------------------------------------------
  // The battle, in place

  /** The units of both armies, their health changed in place by attacks, and
      the battle log. */
  class Battlefield {
    var units: seq<Unit>
    const player: seq<nat>
    const computer: seq<nat>
    var log: seq<Action>

    ghost predicate Valid()
      reads this
    {
      Indexes(|units|, player) && Indexes(|units|, computer)
    }

    constructor(units: seq<Unit>, player: seq<nat>, computer: seq<nat>)
      requires Indexes(|units|, player) && Indexes(|units|, computer)
      ensures Valid() && this.units == units && this.player == player && this.computer == computer
      ensures log == []
    {
      this.units, this.player, this.computer, this.log := units, player, computer, [];
    }

    /** `hasAliveUnits`: the `for` looking for an alive unit of the army. */
    method HasAliveUnits(army: seq<nat>) returns (b: bool)
      requires Indexes(|units|, army)
      ensures b <==> HasAlive(units, army)
    {
      for j := 0 to |army|
        invariant forall j' :: 0 <= j' < j ==> !units[army[j']].Alive()
      {
        if units[army[j]].Alive() {
          return true;
        }
      }
      return false;
    }

    /** `getAliveUnits`: the `for` collecting the army's alive units in order. */
    method GetAliveUnits(army: seq<nat>) returns (aliveUnits: seq<nat>)
      requires Indexes(|units|, army)
      ensures aliveUnits == AliveOf(units, army)
    {
      aliveUnits := [];
      for j := 0 to |army|
        invariant aliveUnits == AliveOf(units, army[..j])
      {
        assert army[..j + 1][..j] == army[..j];
        if units[army[j]].Alive() {
          aliveUnits := aliveUnits + [army[j]];
        }
      }
      assert army[..|army|] == army;
    }

    /** One pass of the `while` loop of `simulate`: a round. */
    method PlayRound(attack: Attack)
      requires Valid() && OnlyWeakens(attack)
      modifies this
      ensures Valid()
      ensures Field(units, log) == Round(attack, player, computer, old(Field(units, log)))
    {
      var roundUnits := GetAliveUnits(player);
      var computerUnits := GetAliveUnits(computer);
      AliveOfAppend(units, player, computer);
      roundUnits := roundUnits + computerUnits;
      roundUnits := SortByAttack(units, roundUnits);
      ghost var f0 := Field(units, log);
      for i := 0 to |roundUnits|
        invariant |units| == |f0.units| && Valid()
        invariant Field(units, log) == Turns(attack, player, computer, f0, roundUnits[..i])
      {
        TurnsStep(attack, player, computer, f0, roundUnits, i);
        TakeTurn(attack, roundUnits[i]);
      }
      assert roundUnits[..|roundUnits|] == roundUnits;
    }

    /** The body of the `for` over the round's units in `simulate`: the turn
        of `unit`, skipped when it is dead or its enemy army has no alive unit. */
    method TakeTurn(attack: Attack, unit: nat)
      requires Valid() && OnlyWeakens(attack) && unit < |units|
      modifies this
      ensures Valid()
      ensures Field(units, log) == Turn(attack, player, computer, old(Field(units, log)), unit)
    {
      if !units[unit].Alive() {
        return;
      }
      var isPlayerUnit := unit in player;
      var enemyArmy := if isPlayerUnit then computer else player;
      var enemyAlive := HasAliveUnits(enemyArmy);
      if !enemyAlive {
        return;
      }
      var strike := attack(units, unit);
      units := strike.units;
      log := log + [Action(unit, strike.target)];
    }

    /** A pass of the `while` loop of `simulate` while both armies have an alive unit:
        the round is played, and what is left of the battle is one round
        shorter. */
    method NextRound(attack: Attack, ghost fuel: nat, ghost start: Field, ghost maxRounds: nat)
      requires Valid() && OnlyWeakens(attack)
      requires Indexes(|start.units|, player) && Indexes(|start.units|, computer)
      requires HasAlive(units, player) && HasAlive(units, computer) && fuel > 0
      requires Battle(attack, player, computer, Field(units, log), fuel) == Battle(attack, player, computer, start, maxRounds)
      modifies this
      ensures Valid()
      ensures Battle(attack, player, computer, Field(units, log), fuel - 1) == Battle(attack, player, computer, start, maxRounds)
    {
      BattleStep(attack, player, computer, Field(units, log), fuel);
      PlayRound(attack);
    }

    /** Both armies have an alive unit (the condition of the `while` loop of `simulate`). */
    method BothAlive() returns (b: bool)
      requires Valid()
      ensures b <==> HasAlive(units, player) && HasAlive(units, computer)
    {
      b := HasAliveUnits(player);
      if b {
        b := HasAliveUnits(computer);
      }
    }

    /**
     * `simulate`, for at most `maxRounds` rounds: rounds are
     * played while both armies have an alive unit. `finished` tells whether
     * the battle ended within the bound.
     */
    method Simulate(attack: Attack, maxRounds: nat) returns (finished: bool)
      requires Valid() && OnlyWeakens(attack)
      modifies this
      ensures Valid()
      ensures Field(units, log) == Battle(attack, player, computer, old(Field(units, log)), maxRounds)
      ensures finished <==> !HasAlive(units, player) || !HasAlive(units, computer)
    {
      ghost var start := Field(units, log);
      var fuel := maxRounds;
      var going := BothAlive();
      while going && fuel > 0
        invariant Valid()
        invariant going <==> HasAlive(units, player) && HasAlive(units, computer)
        invariant Battle(attack, player, computer, Field(units, log), fuel)
                  == Battle(attack, player, computer, start, maxRounds)
        decreases fuel
      {
        NextRound(attack, fuel, start, maxRounds);
        fuel := fuel - 1;
        going := BothAlive();
      }
      BattleStops(attack, player, computer, Field(units, log), fuel);
      finished := !going;
    }
  }
}
