/**
 * The battle simulator (`SimulateBattleImpl`). Rounds are played while both
 * armies have a living unit. A round queues the living units, the player's
 * before the computer's, stable-sorts the queue by descending base attack,
 * and gives each queued unit a turn: a unit that has died meanwhile is
 * skipped, the round stops once an army is wiped out, and every attack is
 * reported to the log sink when one is set.
 *
 * A unit program's `attack()` is foreign code; here it is a parameter that
 * maps the current armies and the attacker to the changed armies and the
 * unit it hit.
 */
module SimulateBattle {
  import opened Wrappers
  import opened Units
  import opened StableSort
  import opened Sequences

  /** The two armies, as the unit programs see and change them. */
  datatype Battlefield = Battlefield(player: Option<Army>, computer: Option<Army>)

  /** What one `attack()` leaves behind: the changed armies and the unit it hit, if any. */
  datatype AttackResult = AttackResult(field: Battlefield, target: Option<Unit>)

  /** A unit program's attack, a step the simulator does not see into. */
  type AttackStep = (Battlefield, Unit) -> AttackResult

  /** One report to the log sink: who attacked, and whom. */
  datatype LogEntry = LogEntry(attacker: Unit, target: Option<Unit>)

  /** The field and the reports after some turns. */
  datatype Round = Round(field: Battlefield, log: seq<LogEntry>)

  /** The field and the reports after the battle; `finished` is false when the round bound cut it short. */
  datatype Outcome = Outcome(field: Battlefield, log: seq<LogEntry>, finished: bool)

  // ---------------------------------------------------------------------
  // Living units
  // ---------------------------------------------------------------------

  /** The units of an army; none for a missing army or unit list. */
  function UnitsOf(army: Option<Army>): seq<Unit>
  {
    if army.Some? && army.value.units.Some? then army.value.units.value else []
  }

  /** The army and its unit list exist, and some unit in it is alive. */
  predicate ArmyAlive(army: Option<Army>)
  {
    army.Some? && army.value.units.Some? &&
    exists i :: 0 <= i < |army.value.units.value| && army.value.units.value[i].alive
  }

  predicate BothArmiesAlive(bf: Battlefield)
  {
    ArmyAlive(bf.player) && ArmyAlive(bf.computer)
  }

  /** `hasAliveUnits`: scans the army for a living unit. */
  method HasAliveUnits(army: Option<Army>) returns (r: bool)
    ensures r <==> ArmyAlive(army)
  {
    if army.None? || army.value.units.None? {
      return false;
    }
    var units := army.value.units.value;
    for i := 0 to |units|
      invariant forall j :: 0 <= j < i ==> !units[j].alive
    {
      if units[i].alive {
        return true;
      }
    }
    return false;
  }

  /** The first unit of `units` with identity `id`. */
  function FindUnit(units: seq<Unit>, id: int): (r: Option<Unit>)
    ensures r.Some? ==> r.value in units && r.value.id == id
    ensures r.None? <==> forall i :: 0 <= i < |units| ==> units[i].id != id
  {
    if units == [] then None
    else if units[0].id == id then Some(units[0])
    else FindUnit(units[1..], id)
  }

  /** The unit found is the first with identity `id`: no earlier unit has it. */
  lemma {:induction false} FindUnitFirst(units: seq<Unit>, id: int)
    requires FindUnit(units, id).Some?
    ensures exists i :: 0 <= i < |units| && units[i] == FindUnit(units, id).value &&
                        forall j :: 0 <= j < i ==> units[j].id != id
  {
    if units[0].id != id {
      FindUnitFirst(units[1..], id);
      var i :| 0 <= i < |units[1..]| && units[1..][i] == FindUnit(units[1..], id).value &&
               forall j :: 0 <= j < i ==> units[1..][j].id != id;
      assert units[i + 1] == FindUnit(units, id).value;
    }
  }

  /** `unit.isAlive()` later in the battle: the current state of the unit with the same identity. */
  predicate IsAlive(bf: Battlefield, u: Unit)
  {
    var current := FindUnit(UnitsOf(bf.player) + UnitsOf(bf.computer), u.id);
    current.Some? && current.value.alive
  }

  // ---------------------------------------------------------------------
  // The turn queue
  // ---------------------------------------------------------------------

  /** The living units of `units`, in their order. */
  function AliveUnits(units: seq<Unit>): seq<Unit>
  {
    if units == [] then []
    else AliveUnits(units[..|units| - 1]) + (if units[|units| - 1].alive then [units[|units| - 1]] else [])
  }

  /** The queue as gathered: the player's living units, then the computer's. */
  function Gather(bf: Battlefield): seq<Unit>
  {
    AliveUnits(UnitsOf(bf.player)) + AliveUnits(UnitsOf(bf.computer))
  }

  /** Descending base attack, with nothing to break ties. */
  function TurnKey(u: Unit): Key
  {
    Key(u.baseAttack as real, 0.0)
  }

  /** The round's queue: the gathered units, stable-sorted by descending base attack. */
  function TurnQueue(bf: Battlefield): seq<Unit>
  {
    SortDescending(Gather(bf), TurnKey)
  }

  /** The units of `s` with base attack `a`, in their order in `s`. */
  function WithBaseAttack(s: seq<Unit>, a: int): seq<Unit>
  {
    if s == [] then []
    else if s[0].baseAttack == a then [s[0]] + WithBaseAttack(s[1..], a)
    else WithBaseAttack(s[1..], a)
  }

  /** Builds the queue of a round, as `simulate` does before its turns. */
  method BuildTurnQueue(bf: Battlefield) returns (turnQueue: seq<Unit>)
    ensures turnQueue == TurnQueue(bf)
  {
    var playerUnits, computerUnits := UnitsOf(bf.player), UnitsOf(bf.computer);
    turnQueue := [];
    for i := 0 to |playerUnits|
      invariant turnQueue == AliveUnits(playerUnits[..i])
    {
      assert playerUnits[..i + 1][..i] == playerUnits[..i];
      if playerUnits[i].alive {
        turnQueue := turnQueue + [playerUnits[i]];
      }
    }
    assert playerUnits[..|playerUnits|] == playerUnits;
    ghost var gathered := turnQueue;
    for i := 0 to |computerUnits|
      invariant turnQueue == gathered + AliveUnits(computerUnits[..i])
    {
      assert computerUnits[..i + 1][..i] == computerUnits[..i];
      if computerUnits[i].alive {
        turnQueue := turnQueue + [computerUnits[i]];
      }
    }
    assert computerUnits[..|computerUnits|] == computerUnits;
    turnQueue := SortDescending(turnQueue, TurnKey);
  }

  // ---------------------------------------------------------------------
  // Turns, rounds and the battle
  // ---------------------------------------------------------------------

  /** One queued unit's turn: nothing if it has died or an army is wiped out, else its attack, reported. */
  function Turn(bf: Battlefield, u: Unit, attack: AttackStep): Round
  {
    if !IsAlive(bf, u) || !BothArmiesAlive(bf) then Round(bf, [])
    else
      var r := attack(bf, u);
      Round(r.field, [LogEntry(u, r.target)])
  }

  /** The turns of `queue`, in order, from the field `bf`. */
  function PlayTurns(bf: Battlefield, queue: seq<Unit>, attack: AttackStep): Round
  {
    if queue == [] then Round(bf, [])
    else
      var r := PlayTurns(bf, queue[..|queue| - 1], attack);
      var t := Turn(r.field, queue[|queue| - 1], attack);
      Round(t.field, r.log + t.log)
  }

  /** The field just before the turn of `queue[i]`. */
  function Before(bf: Battlefield, queue: seq<Unit>, attack: AttackStep, i: nat): Battlefield
    requires i <= |queue|
  {
    PlayTurns(bf, queue[..i], attack).field
  }

  /** Rounds while both armies stand, at most `rounds` of them. */
  function Fight(bf: Battlefield, attack: AttackStep, rounds: nat): Outcome
    decreases rounds
  {
    if !BothArmiesAlive(bf) then Outcome(bf, [], true)
    else if rounds == 0 then Outcome(bf, [], false)
    else
      var r := PlayTurns(bf, TurnQueue(bf), attack);
      var rest := Fight(r.field, attack, rounds - 1);
      Outcome(rest.field, r.log + rest.log, rest.finished)
  }

  /** An outcome with `reports` in front of its log. */
  function Prefixed(reports: seq<LogEntry>, o: Outcome): Outcome
  {
    Outcome(o.field, reports + o.log, o.finished)
  }

  function Attackers(log: seq<LogEntry>): seq<Unit>
  {
    if log == [] then []
    else Attackers(log[..|log| - 1]) + [log[|log| - 1].attacker]
  }

  // ---------------------------------------------------------------------
  // The simulator and its log sink
  // ---------------------------------------------------------------------

  /** The log sink (`PrintBattleLog`): it keeps every report it receives. */
  class BattleLog {
    var entries: seq<LogEntry>

    constructor ()
      ensures entries == []
    {
      entries := [];
    }

    method PrintBattleLog(attacker: Unit, target: Option<Unit>)
      modifies this
      ensures entries == old(entries) + [LogEntry(attacker, target)]
    {
      entries := entries + [LogEntry(attacker, target)];
    }
  }

  class BattleSimulator {
    var printBattleLog: BattleLog?

    constructor ()
      ensures printBattleLog == null
    {
      printBattleLog := null;
    }

    method SetPrintBattleLog(printBattleLog: BattleLog?)
      modifies this
      ensures this.printBattleLog == printBattleLog
    {
      this.printBattleLog := printBattleLog;
    }

    /** The turns of one round, in queue order, each attack reported to the log sink when one is set. */
    method PlayRound(field: Battlefield, turnQueue: seq<Unit>, attack: AttackStep)
        returns (field': Battlefield, ghost roundLog: seq<LogEntry>)
      modifies printBattleLog
      ensures Round(field', roundLog) == PlayTurns(field, turnQueue, attack)
      ensures printBattleLog != null ==> printBattleLog.entries == old(printBattleLog.entries) + roundLog
    {
      field', roundLog := field, [];
      var i := 0;
      while i < |turnQueue|
        invariant i <= |turnQueue|
        invariant PlayTurns(field, turnQueue[..i], attack) == Round(field', roundLog)
        invariant printBattleLog != null ==> printBattleLog.entries == old(printBattleLog.entries) + roundLog
      {
        var unit, next := turnQueue[i], i + 1;
        if !IsAlive(field', unit) {
          SkipTurn(field, turnQueue, i, next, attack, field', roundLog);
          i := next;
          continue;
        }
        var standing := HasAliveUnits(field'.player);
        if standing {
          standing := HasAliveUnits(field'.computer);
        }
        if !standing {
          RoundEndsWhenWiped(field, turnQueue, i, attack);
          break;
        }
        TakeTurn(field, turnQueue, i, next, attack, field', roundLog);
        var result := attack(field', unit);
        field' := result.field;
        if printBattleLog != null {
          printBattleLog.PrintBattleLog(unit, result.target);
          AppendAssoc(old(printBattleLog.entries), roundLog, [LogEntry(unit, result.target)]);
        }
        roundLog := roundLog + [LogEntry(unit, result.target)];
        i := next;
      }
      assert turnQueue[..|turnQueue|] == turnQueue;
    }

    /** One round of `simulate`: the queue is built, then its turns are played. */
    method FightRound(field: Battlefield, attack: AttackStep, roundsLeft: nat, ghost log: seq<LogEntry>)
        returns (field': Battlefield, ghost roundLog: seq<LogEntry>, roundsLeft': nat)
      requires BothArmiesAlive(field) && roundsLeft > 0
      modifies printBattleLog
      ensures roundsLeft' == roundsLeft - 1
      ensures Round(field', roundLog) == PlayTurns(field, TurnQueue(field), attack)
      ensures Prefixed(log, Fight(field, attack, roundsLeft)) == Prefixed(log + roundLog, Fight(field', attack, roundsLeft'))
      ensures printBattleLog != null ==> printBattleLog.entries == old(printBattleLog.entries) + roundLog
    {
      var turnQueue := BuildTurnQueue(field);
      field', roundLog := PlayRound(field, turnQueue, attack);
      NextRound(field, attack, roundsLeft, log, roundLog, field');
      roundsLeft' := roundsLeft - 1;
      SameRounds(field', attack, roundsLeft - 1, roundsLeft');
    }

    /**
     * Plays the battle between the two armies, for at most `maxRounds`
     * rounds, reporting every attack to the log sink when one is set.
     */
    method Simulate(playerArmy: Option<Army>, computerArmy: Option<Army>, attack: AttackStep, maxRounds: nat)
        returns (field: Battlefield, finished: bool)
      modifies printBattleLog
      ensures var outcome := Fight(Battlefield(playerArmy, computerArmy), attack, maxRounds);
        field == outcome.field && finished == outcome.finished &&
        (printBattleLog != null ==> printBattleLog.entries == old(printBattleLog.entries) + outcome.log)
      ensures finished <==> !BothArmiesAlive(field)
    {
      field := Battlefield(playerArmy, computerArmy);
      ghost var log: seq<LogEntry> := [];
      ghost var whole := Fight(field, attack, maxRounds);
      var roundsLeft := maxRounds;
      var playerAlive := HasAliveUnits(field.player);
      var computerAlive := HasAliveUnits(field.computer);
      while playerAlive && computerAlive && roundsLeft > 0
        invariant playerAlive && computerAlive <==> BothArmiesAlive(field)
        invariant whole == Prefixed(log, Fight(field, attack, roundsLeft))
        invariant printBattleLog != null ==> printBattleLog.entries == old(printBattleLog.entries) + log
        decreases roundsLeft
      {
        ghost var roundLog;
        field, roundLog, roundsLeft := FightRound(field, attack, roundsLeft, log);
        AppendAssoc(old(if printBattleLog != null then printBattleLog.entries else []), log, roundLog);
        log := log + roundLog;
        playerAlive := HasAliveUnits(field.player);
        computerAlive := HasAliveUnits(field.computer);
      }
      finished := !(playerAlive && computerAlive);
      FightStops(field, attack, roundsLeft, log);
    }
  }

  // ---------------------------------------------------------------------
  // Properties
  // ---------------------------------------------------------------------

  /** The turns up to and including `queue[i]`. */
  lemma OneMoreTurn(bf: Battlefield, queue: seq<Unit>, i: nat, attack: AttackStep)
    requires i < |queue|
    ensures var r := PlayTurns(bf, queue[..i], attack);
      var t := Turn(r.field, queue[i], attack);
      PlayTurns(bf, queue[..i + 1], attack) == Round(t.field, r.log + t.log)
  {
    assert queue[..i + 1][..i] == queue[..i];
  }

  /**
   * Restates a round count computed two ways (`rounds - 1` as `Fight` unfolds it, and the
   * `roundsLeft` variable a caller holds), so that the solver need not equate them on its own.
   */
  lemma SameRounds(bf: Battlefield, attack: AttackStep, rounds: nat, roundsLeft: nat)
    requires rounds == roundsLeft
    ensures Fight(bf, attack, rounds) == Fight(bf, attack, roundsLeft)
  {
  }

  /**
   * A unit that has died before its turn is skipped.
   * The next index `next` (= i + 1) is passed in by the caller, already computed as a variable, so that the proof never has to equate two spellings of the same arithmetic term.
   */
  lemma SkipTurn(bf: Battlefield, queue: seq<Unit>, i: nat, next: nat, attack: AttackStep, field: Battlefield, log: seq<LogEntry>)
    requires i < |queue| && next == i + 1 && PlayTurns(bf, queue[..i], attack) == Round(field, log)
    requires !IsAlive(field, queue[i])
    ensures PlayTurns(bf, queue[..next], attack) == Round(field, log)
  {
    OneMoreTurn(bf, queue, i, attack);
    assert log + [] == log;
  }

  /**
   * A living unit, while both armies stand, attacks and is reported.
   * The next index `next` (= i + 1) is passed in by the caller, already computed as a variable, so that the proof never has to equate two spellings of the same arithmetic term.
   */
  lemma TakeTurn(bf: Battlefield, queue: seq<Unit>, i: nat, next: nat, attack: AttackStep, field: Battlefield, log: seq<LogEntry>)
    requires i < |queue| && next == i + 1 && PlayTurns(bf, queue[..i], attack) == Round(field, log)
    requires IsAlive(field, queue[i]) && BothArmiesAlive(field)
    ensures var result := attack(field, queue[i]);
      PlayTurns(bf, queue[..next], attack) == Round(result.field, log + [LogEntry(queue[i], result.target)])
  {
    OneMoreTurn(bf, queue, i, attack);
  }

  /** The battle is over when an army is wiped out or no rounds are left. */
  lemma FightStops(bf: Battlefield, attack: AttackStep, rounds: nat, log: seq<LogEntry>)
    requires !BothArmiesAlive(bf) || rounds == 0
    ensures Prefixed(log, Fight(bf, attack, rounds)) == Outcome(bf, log, !BothArmiesAlive(bf))
  {
    assert log + [] == log;
  }

  /** Playing one round moves its reports from the rest of the battle to the reports so far. */
  lemma NextRound(bf: Battlefield, attack: AttackStep, rounds: nat,
                  log: seq<LogEntry>, roundLog: seq<LogEntry>, next: Battlefield)
    requires BothArmiesAlive(bf) && rounds > 0
    requires Round(next, roundLog) == PlayTurns(bf, TurnQueue(bf), attack)
    ensures Prefixed(log, Fight(bf, attack, rounds)) == Prefixed(log + roundLog, Fight(next, attack, rounds - 1))
  {
    var rest := Fight(next, attack, rounds - 1);
    assert (log + roundLog) + rest.log == log + (roundLog + rest.log);
  }

  /** Once an army is wiped out, the rest of the round changes nothing and reports nothing. */
  lemma {:induction false} RoundEndsWhenWiped(bf: Battlefield, queue: seq<Unit>, i: nat, attack: AttackStep)
    requires i <= |queue| && !BothArmiesAlive(Before(bf, queue, attack, i))
    ensures PlayTurns(bf, queue, attack) == PlayTurns(bf, queue[..i], attack)
    decreases |queue| - i
  {
    if i < |queue| {
      var front := queue[..|queue| - 1];
      assert front[..i] == queue[..i];
      RoundEndsWhenWiped(bf, front, i, attack);
    } else {
      assert queue[..i] == queue;
    }
  }

  /** The battle reports itself finished exactly when it ended with an army wiped out. */
  lemma {:induction false} FightFinished(bf: Battlefield, attack: AttackStep, rounds: nat)
    ensures Fight(bf, attack, rounds).finished <==> !BothArmiesAlive(Fight(bf, attack, rounds).field)
    decreases rounds
  {
    if BothArmiesAlive(bf) && rounds > 0 {
      var next := PlayTurns(bf, TurnQueue(bf), attack).field;
      var rest: nat := rounds - 1;
      FightFinished(next, attack, rest);
      var r := PlayTurns(bf, TurnQueue(bf), attack);
      NextRound(bf, attack, rounds, [], r.log, next);
      SameRounds(next, attack, rounds - 1, rest);
    }
  }

  /** The turn of `queue[i]` was an attack, reported as `e`: the unit was alive and both armies stood. */
  predicate ActedAt(bf: Battlefield, queue: seq<Unit>, attack: AttackStep, i: nat, e: LogEntry)
    requires i < |queue|
  {
    var before := Before(bf, queue, attack, i);
    IsAlive(before, queue[i]) && BothArmiesAlive(before) && e == LogEntry(queue[i], attack(before, queue[i]).target)
  }

  /** Reports follow queue order, at most one per queued unit. */
  lemma {:induction false} ReportsInQueueOrder(bf: Battlefield, queue: seq<Unit>, attack: AttackStep)
    ensures var log := PlayTurns(bf, queue, attack).log;
      IsSubsequence(Attackers(log), queue) && |log| <= |queue|
  {
    if queue != [] {
      var front, last := queue[..|queue| - 1], queue[|queue| - 1];
      ReportsInQueueOrder(bf, front, attack);
      var r := PlayTurns(bf, front, attack);
      var t := Turn(r.field, last, attack);
      var log := r.log + t.log;
      assert Attackers(log) == Attackers(r.log) + (if t.log == [] then [] else [last]) by {
        if t.log != [] {
          assert log[..|log| - 1] == r.log;
        } else {
          assert log == r.log;
        }
      }
      SubsequenceAppend(Attackers(r.log), front, last, t.log != []);
      SplitLast(queue);
      SubsequenceMembers(Attackers(log), queue);
      AttackersLength(log);
    }
  }

  /** `e` reports the attack of some unit of `queue`. */
  predicate IsAttackOf(bf: Battlefield, queue: seq<Unit>, attack: AttackStep, e: LogEntry)
  {
    exists i :: 0 <= i < |queue| && ActedAt(bf, queue, attack, i, e)
  }

  /** A turn's attack stays an attack when more turns are queued after it. */
  lemma ActedAtExtends(bf: Battlefield, front: seq<Unit>, queue: seq<Unit>, attack: AttackStep, i: nat, e: LogEntry)
    requires |front| <= |queue| && queue[..|front|] == front && i < |front|
    requires ActedAt(bf, front, attack, i, e)
    ensures ActedAt(bf, queue, attack, i, e)
  {
    assert queue[..i] == front[..i];
  }

  /** A report that is an attack stays one when more turns are queued after it. */
  lemma AttackOfExtends(bf: Battlefield, front: seq<Unit>, queue: seq<Unit>, attack: AttackStep, e: LogEntry)
    requires |front| <= |queue| && queue[..|front|] == front
    requires IsAttackOf(bf, front, attack, e)
    ensures IsAttackOf(bf, queue, attack, e)
  {
    var i :| 0 <= i < |front| && ActedAt(bf, front, attack, i, e);
    ActedAtExtends(bf, front, queue, attack, i, e);
  }

  /** The last turn, when it reports, is an attack. */
  lemma LastTurnActed(bf: Battlefield, queue: seq<Unit>, attack: AttackStep)
    requires queue != []
    ensures var r := PlayTurns(bf, queue[..|queue| - 1], attack);
      var t := Turn(r.field, queue[|queue| - 1], attack);
      t.log != [] ==> IsAttackOf(bf, queue, attack, t.log[0])
  {
    var r := PlayTurns(bf, queue[..|queue| - 1], attack);
    var t := Turn(r.field, queue[|queue| - 1], attack);
    if t.log != [] {
      assert ActedAt(bf, queue, attack, |queue| - 1, t.log[0]);
    }
  }

  /** Every report is the attack of a queued unit that was alive at its turn while both armies stood, with the target its attack returned. */
  lemma {:induction false} ReportsAreAttacks(bf: Battlefield, queue: seq<Unit>, attack: AttackStep)
    ensures var log := PlayTurns(bf, queue, attack).log;
      forall k :: 0 <= k < |log| ==> IsAttackOf(bf, queue, attack, log[k])
  {
    if queue != [] {
      var front, last := queue[..|queue| - 1], queue[|queue| - 1];
      ReportsAreAttacks(bf, front, attack);
      LastTurnActed(bf, queue, attack);
      var r := PlayTurns(bf, front, attack);
      var t := Turn(r.field, last, attack);
      var log := PlayTurns(bf, queue, attack).log;
      assert log == r.log + t.log;
      forall k | 0 <= k < |log| ensures IsAttackOf(bf, queue, attack, log[k]) {
        if k < |r.log| {
          AttackOfExtends(bf, front, queue, attack, r.log[k]);
        }
      }
    }
  }

  lemma {:induction false} AttackersLength(log: seq<LogEntry>)
    ensures |Attackers(log)| == |log|
  {
    if log != [] {
      AttackersLength(log[..|log| - 1]);
    }
  }

  /** Gathering keeps exactly the living units, in their order. */
  lemma {:induction false} AliveUnitsExact(units: seq<Unit>)
    ensures IsSubsequence(AliveUnits(units), units)
    ensures forall u :: u in AliveUnits(units) <==> u in units && u.alive
  {
    if units != [] {
      var front, last := units[..|units| - 1], units[|units| - 1];
      AliveUnitsExact(front);
      SubsequenceAppend(AliveUnits(front), front, last, last.alive);
      SplitLast(units);
    }
  }

  /** The queue holds exactly the units alive at round start, of either army. */
  lemma TurnQueueContents(bf: Battlefield)
    ensures multiset(TurnQueue(bf)) == multiset(Gather(bf))
    ensures forall u :: u in TurnQueue(bf) <==> (u in UnitsOf(bf.player) || u in UnitsOf(bf.computer)) && u.alive
  {
    AliveUnitsExact(UnitsOf(bf.player));
    AliveUnitsExact(UnitsOf(bf.computer));
    assert forall u :: u in TurnQueue(bf) <==> u in multiset(TurnQueue(bf));
  }

  /** The queue is in non-increasing order of base attack. */
  lemma TurnQueueSorted(bf: Battlefield)
    ensures var q := TurnQueue(bf);
      forall i, j :: 0 <= i < j < |q| ==> q[i].baseAttack >= q[j].baseAttack
  {
    SortIsNonIncreasing(Gather(bf), TurnKey);
    var q := TurnQueue(bf);
    forall i, j | 0 <= i < j < |q| ensures q[i].baseAttack >= q[j].baseAttack {
      assert !Outranks(TurnKey(q[j]), TurnKey(q[i]));
    }
  }

  lemma {:induction false} WithKeyIsWithBaseAttack(s: seq<Unit>, a: int)
    ensures WithKey(s, TurnKey, Key(a as real, 0.0)) == WithBaseAttack(s, a)
  {
    if s != [] {
      WithKeyIsWithBaseAttack(s[1..], a);
    }
  }

  /** Units with equal base attack act in the order they were gathered. */
  lemma TurnQueueStable(bf: Battlefield, a: int)
    ensures WithBaseAttack(TurnQueue(bf), a) == WithBaseAttack(Gather(bf), a)
  {
    SortKeepsTies(Gather(bf), TurnKey, Key(a as real, 0.0));
    WithKeyIsWithBaseAttack(TurnQueue(bf), a);
    WithKeyIsWithBaseAttack(Gather(bf), a);
  }
}
