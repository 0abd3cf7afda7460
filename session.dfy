/**
 * The game master's session: the state the rules engine keeps between button presses, and
 * the operations that change it in place. Each operation is proved to produce the state the
 * value-level rules describe.
 */
module Session {
  import opened Wrappers
  import opened Elements
  import opened Entities
  import opened Skills
  import opened Combat
  import opened Resolver
  import opened Events
  import opened Rules

  /** The roster for `n` players, built one player at a time. */
  method BuildRoster(n: int) returns (ps: seq<Player>)
    ensures ps == Roster(n)
  {
    ps := [];
    var i := 1;
    while i <= n
      invariant 1 <= i && (n <= 0 ==> i == 1) && (n > 0 ==> i <= n + 1)
      invariant ps == Roster(i - 1)
    {
      ps := ps + [FreshPlayer(i)];
      i := i + 1;
    }
  }

  /** The refill effect: walk the slots in order, giving each empty one the queue's front. */
  method RefillBoard(f: Field) returns (r: Field)
    ensures r == AutoRefill(f)
  {
    if |f.queue| == 0 {
      return f;
    }
    r := f;
    var i := 0;
    while i < |r.slots|
      invariant i <= |r.slots| == |f.slots|
      invariant FillFrom(r, i) == FillFrom(f, 0)
    {
      if r.slots[i].monster.None? && |r.queue| > 0 {
        r := r.(slots := r.slots[i := Refilled(r.queue)], queue := r.queue[1..]);
      }
      i := i + 1;
    }
  }

  /** The turn-end pass over the slots, each monster's turn-end skill applied in order. */
  method RunTurnEnd(slots: seq<Slot>) returns (r: seq<Slot>)
    ensures r == EndOfTurn(slots)
  {
    r := slots;
    var i := 0;
    while i < |r|
      invariant i <= |r| == |slots|
      invariant forall j :: 0 <= j < i ==> r[j] == EndOfTurn(slots)[j]
      invariant forall j :: i <= j < |r| ==> r[j] == slots[j]
    {
      if r[i].monster.Some? {
        r := r[i := r[i].(monster := Some(ApplySkill(r[i].monster.value, OnTurnEnd)))];
      }
      i := i + 1;
    }
  }

  /**
   * The event draw with the draws `u1` (event) and `u2` (effect): an event and one of its
   * effects are chosen, the effect is applied and the event is kept with that effect only.
   */
  method DrawOutcome(turn: int, forced: Option<Forced>, u1: real, u2: real, w: World, current: GameEvent)
    returns (o: Outcome)
    ensures o == Occur(EventTable, turn, forced, u1, u2, w, current)
  {
    var name := if forced.Some? then forced.value.eventName else None;
    var chosen: Option<nat>;
    if turn == 1 {
      chosen := FirstIndex(Map(EventTable, NameOf), CalmName);
    } else if Truthy(name) {
      chosen := FirstIndex(Map(EventTable, NameOf), name.value);
    } else {
      var ws := Map(EventTable, EventWeight);
      chosen := Roulette(ws, Roll(ws, u1));
    }
    assert chosen == SelectEvent(EventTable, turn, forced, u1);
    if chosen.None? {
      return Outcome(w, current);
    }
    var ev := EventTable[chosen.value];
    var desc := if forced.Some? then forced.value.effectDescription else None;
    var pick := if Truthy(desc) then FirstIndex(Map(ev.effects, DescriptionOf), desc.value) else None;
    if pick.None? {
      var ws := Map(ev.effects, EffectWeight);
      pick := Roulette(ws, Roll(ws, u2));
    }
    assert pick == SelectEffect(ev, forced, u2);
    if pick.None? {
      return Outcome(w, current);
    }
    o := Outcome(ApplyEffect(ev.effects[pick.value].kind, w), ev.(effects := [ev.effects[pick.value]]));
  }

  class GameSession {
    var turn: int
    var phase: Phase
    var players: seq<Player>
    var slots: seq<Slot>
    var queue: seq<Monster>
    var monsterAmount: nat
    var flags: Flags
    var actions: seq<AttackAction>
    var forced: Option<Forced>
    var event: GameEvent
    var forcedMonsters: seq<Monster>

    /** The whole state, as a value. */
    function Snapshot(): Game
      reads this
    {
      Game(turn, phase, players, slots, queue, monsterAmount, flags, actions, forced, event, forcedMonsters)
    }

    predicate Valid()
      reads this
    {
      Ok(Snapshot())
    }

    constructor()
      ensures Valid() && Snapshot() == Initial
    {
      turn := 1;
      phase := Setup;
      players := [];
      slots := [EmptySlot, EmptySlot, EmptySlot];
      queue := [];
      monsterAmount := 0;
      flags := NeutralFlags;
      actions := [];
      forced := None;
      event := EventTable[0];
      forcedMonsters := [];
    }

    /** Replace the players by a fresh roster of `n`. */
    method GeneratePlayers(n: int)
      requires Valid()
      modifies this
      ensures Valid() && Snapshot() == old(Snapshot()).(players := Roster(n))
    {
      players := BuildRoster(n);
    }

    /** The first player moves to the end of the turn order. */
    method RotatePlayers()
      requires Valid()
      modifies this
      ensures Valid() && Snapshot() == old(Snapshot()).(players := Rotated(old(players)))
    {
      if |players| > 0 {
        players := players[1..] + [players[0]];
      }
    }

    /** The refill effect, run whenever the queue is replaced. */
    method Refill()
      requires |slots| == 3
      modifies this
      ensures Valid() && Snapshot() == WithBoard(old(Snapshot()), AutoRefill(old(Board(Snapshot()))))
    {
      var f := RefillBoard(Field(players, slots, queue));
      RefillFacts(Field(players, slots, queue));
      players, slots, queue := f.players, f.slots, f.queue;
    }

    method AddMonsterToQueue(m: Monster)
      requires Valid()
      modifies this
      ensures Valid() && Snapshot() == Enqueue(old(Snapshot()), m)
    {
      queue := queue + [m];
      monsterAmount := monsterAmount + 1;
      Refill();
    }

    method SetForcedMonsters(ms: seq<Monster>)
      requires Valid()
      modifies this
      ensures Valid() && Snapshot() == old(Snapshot()).(forcedMonsters := ms)
    {
      forcedMonsters := ms;
    }

    /** Add the next forced monster, or `random`, the monster the generator produced. */
    method AddMonster(random: Monster)
      requires Valid()
      modifies this
      ensures Valid() && Snapshot() == Summon(old(Snapshot()), random)
    {
      if |forcedMonsters| > 0 {
        var m := forcedMonsters[0];
        forcedMonsters := forcedMonsters[1..];
        AddMonsterToQueue(m);
      } else {
        AddMonsterToQueue(random);
      }
    }

    method AddAttackAction(a: AttackAction)
      requires Valid()
      modifies this
      ensures Valid() && Snapshot() == old(Snapshot()).(actions := old(actions) + [a])
    {
      actions := actions + [a];
    }

    method CancelLastAttackAction()
      requires Valid()
      modifies this
      ensures Valid() && Snapshot() == old(Snapshot()).(actions := DropLast(old(actions)))
    {
      if |actions| > 0 {
        actions := actions[..|actions| - 1];
      }
    }

    /** Set the one-shot override for the next event; either part may be absent. */
    method SetNextEvent(eventName: Option<string>, effectDescription: Option<string>)
      requires Valid()
      modifies this
      ensures Valid() && Snapshot() == old(Snapshot()).(forced := Some(Forced(eventName, effectDescription)))
    {
      forced := Some(Forced(eventName, effectDescription));
    }

    /**
     * The event trigger with the draws `u1` (event) and `u2` (effect): the override is
     * consumed, an event and an effect are chosen, the effect is applied and the event is
     * shown with that effect only.
     */
    method TriggerEvent(u1: real, u2: real)
      requires Valid()
      modifies this
      ensures Valid() && Snapshot() == StartEvent(old(Snapshot()), u1, u2)
    {
      ghost var g := Snapshot();
      var o := DrawOutcome(turn, forced, u1, u2, World(players, queue, flags), event);
      players, queue, flags, event, forced := o.world.players, o.world.queue, o.world.flags, o.event, None;
      StartEventFacts(g, u1, u2);
      assert Snapshot() == g.(players := o.world.players, queue := o.world.queue, flags := o.world.flags,
                              event := o.event, forced := None);
      Refill();
    }

    /** The battlefield the pending actions would leave, computed without changing anything. */
    method PreviewBattlefieldAfterActions() returns (preview: seq<Slot>)
      requires Valid()
      ensures preview == Resolve(Board(Snapshot()), actions, flags, Preview).slots
    {
      var f := ResolveActions(Field(players, slots, queue), actions, flags, Preview);
      preview := f.value.slots;
    }

    /**
     * Resolve the pending actions for real, then clear them. When the resolution throws,
     * `committed` is false and nothing has changed: the source's setters are never reached.
     */
    method ProcessAttackActions() returns (committed: bool)
      requires |slots| == 3
      modifies this
      ensures |slots| == 3
      ensures committed <==> !Aborts(old(Board(Snapshot())), old(actions), old(flags))
      ensures committed ==>
                Snapshot() == WithBoard(old(Snapshot()), Resolve(old(Board(Snapshot())), old(actions), old(flags), Commit)).(actions := [])
      ensures !committed ==> Snapshot() == old(Snapshot())
    {
      var f := ResolveActions(Field(players, slots, queue), actions, flags, Commit);
      if f.None? {
        return false;
      }
      players, slots, queue := f.value.players, f.value.slots, f.value.queue;
      actions := [];
      committed := true;
    }

    /**
     * The "next phase" button. The button is only enabled once there are players and, in
     * 行動, once every player has queued an action.
     */
    method NextPhase(u1: real, u2: real)
      requires Valid() && |players| > 0
      requires phase == Action ==> |actions| == |players|
      modifies this
      ensures Valid() && Snapshot() == Advance(old(Snapshot()), u1, u2)
    {
      match phase
      case Setup =>
        phase := Event;
        TriggerEvent(u1, u2);
      case Event =>
        phase := Prep;
      case Prep =>
        phase := Action;
      case Action =>
        CloseActions();
      case Settle =>
        CloseTurn();
        TriggerEvent(u1, u2);
    }

    /**
     * 行動 ends: the actions are resolved and cleared, the flags reset, the refill runs. A
     * resolution that throws ends the press at once, leaving everything as it was.
     */
    method CloseActions()
      requires Valid()
      modifies this
      ensures Valid() && Snapshot() == FinishActions(old(Snapshot()))
    {
      var committed := ProcessAttackActions();
      if !committed {
        return;
      }
      flags := NeutralFlags;
      phase := Settle;
      Refill();
    }

    /** 結算 ends: turn-end skills, the next turn, the rotated order, 事件, the refill. */
    method CloseTurn()
      requires Valid()
      modifies this
      ensures Valid() && Snapshot() == EndTurn(old(Snapshot()))
    {
      slots := RunTurnEnd(slots);
      turn := turn + 1;
      players := Rotated(players);
      phase := Event;
      Refill();
    }
  }
}
