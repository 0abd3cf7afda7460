/**
 * The game as a value: the phase cycle, the roster, the rotation of the turn order, the
 * automatic refill of empty slots from the queue, the turn-end skills, and one step of the
 * game master's "next phase" button. The session class is proved against these functions.
 */
module Rules {
  import opened Wrappers
  import opened Elements
  import opened Entities
  import opened Skills
  import opened Combat
  import opened Events
  import opened PreviewFacts

  /** The phases: 準備開始遊戲, 事件, 準備, 行動, 結算. */
  datatype Phase = Setup | Event | Prep | Action | Settle

  function NextPhaseOf(p: Phase): (q: Phase)
    ensures q != Setup && q != p
  {
    match p
    case Setup => Event
    case Event => Prep
    case Prep => Action
    case Action => Settle
    case Settle => Event
  }

  /** After the start, the phases run in a cycle of four that never returns to the start. */
  lemma PhaseCycle(p: Phase)
    ensures NextPhaseOf(NextPhaseOf(NextPhaseOf(NextPhaseOf(p)))) == (if p == Setup then Settle else p)
    ensures p != Setup ==> NextPhaseOf(NextPhaseOf(p)) != p
  {
  }

  // ---------------------------------------------------------------- roster

  /** A newly generated player: no attack, no gold, 3 mana stones, one wand and no spells. */
  function FreshPlayer(id: int): (p: Player)
    ensures p.id == id && p.attack == Attack(0, 0, 0)
    ensures p.loot.gold == 0 && p.loot.manaStone == 3
    ensures p.loot.cards.wand == 1 && forall c :: p.loot.cards.Count(c) == 0
  {
    Player(id, Attack(0, 0, 0), Loot(0, 3, Cards(1, 0, 0, 0)))
  }

  /** The players generated for `n`: ids 1 to `n`, none for `n <= 0`. */
  function Roster(n: int): (ps: seq<Player>)
    ensures |ps| == if n > 0 then n else 0
    ensures forall i :: 0 <= i < |ps| ==> ps[i] == FreshPlayer(i + 1)
  {
    if n <= 0 then [] else Roster(n - 1) + [FreshPlayer(n)]
  }

  /** Every id from 1 to `n` finds its player, at position id - 1. */
  lemma RosterIdsResolve(n: int, id: int)
    requires 1 <= id <= n
    ensures FindPlayer(Roster(n), id) == Some(id - 1)
  {
    var ps := Roster(n);
    assert ps[id - 1].id == id;
    assert forall k :: 0 <= k < id - 1 ==> ps[k].id == k + 1;
  }

  // ---------------------------------------------------------------- rotation

  /** The turn order after a round: the first player moves to the end. */
  function Rotated(ps: seq<Player>): (r: seq<Player>)
    ensures |r| == |ps|
  {
    if |ps| == 0 then ps else ps[1..] + [ps[0]]
  }

  /** Rotation is a permutation that moves the first player last and the others up one. */
  lemma RotatedIsPermutation(ps: seq<Player>)
    ensures multiset(Rotated(ps)) == multiset(ps)
    ensures |ps| > 0 ==> Rotated(ps)[|ps| - 1] == ps[0]
    ensures forall i :: 0 <= i < |ps| - 1 ==> Rotated(ps)[i] == ps[i + 1]
  {
    if |ps| > 0 {
      assert ps == [ps[0]] + ps[1..];
    }
  }

  function RotatedTimes(ps: seq<Player>, n: nat): seq<Player> {
    if n == 0 then ps else Rotated(RotatedTimes(ps, n - 1))
  }

  lemma {:induction false} RotatedTimesSplits(ps: seq<Player>, k: nat)
    requires k <= |ps|
    ensures RotatedTimes(ps, k) == ps[k..] + ps[..k]
  {
    if k > 0 {
      RotatedTimesSplits(ps, k - 1);
      var q := ps[k - 1..] + ps[..k - 1];
      assert q[1..] == ps[k..] + ps[..k - 1];
      assert q[0] == ps[k - 1];
      assert ps[..k - 1] + [ps[k - 1]] == ps[..k];
    }
  }

  /** After as many rounds as there are players, the turn order is back where it started. */
  lemma RotationReturns(ps: seq<Player>)
    ensures RotatedTimes(ps, |ps|) == ps
  {
    RotatedTimesSplits(ps, |ps|);
  }

  // ---------------------------------------------------------------- auto-refill

  /** No slot is empty while a monster waits in the queue. */
  predicate Settled(f: Field) {
    |f.queue| == 0 || forall i :: 0 <= i < |f.slots| ==> f.slots[i].monster.Some?
  }

  /** Empty slots from `i` on, in order, each take the front of the queue with a clean status. */
  function FillFrom(f: Field, i: nat): Field
    requires i <= |f.slots|
    decreases |f.slots| - i
  {
    if i == |f.slots| then f
    else if f.slots[i].monster.None? && |f.queue| > 0 then
      FillFrom(f.(slots := f.slots[i := Refilled(f.queue)], queue := f.queue[1..]), i + 1)
    else FillFrom(f, i + 1)
  }

  /** The source's refill effect: nothing when the queue is empty, else fill A, B, C in order. */
  function AutoRefill(f: Field): Field {
    if |f.queue| == 0 then f else FillFrom(f, 0)
  }

  /** The monsters on the field, as a multiset. */
  function Present(slots: seq<Slot>): multiset<Monster> {
    if |slots| == 0 then multiset{}
    else (if slots[0].monster.Some? then multiset{slots[0].monster.value} else multiset{}) + Present(slots[1..])
  }

  /** Every monster of the round: on the field or waiting. */
  function Pool(f: Field): multiset<Monster> {
    Present(f.slots) + multiset(f.queue)
  }

  lemma {:induction false} PresentAfterPlacing(slots: seq<Slot>, i: nat, s: Slot)
    requires i < |slots| && slots[i].monster.None? && s.monster.Some?
    ensures Present(slots[i := s]) == Present(slots) + multiset{s.monster.value}
  {
    if i > 0 {
      assert slots[i := s][1..] == slots[1..][i - 1 := s];
      PresentAfterPlacing(slots[1..], i - 1, s);
    }
  }

  /** Moving the queue's front into an empty slot keeps every monster of the round. */
  lemma PlacingKeepsPool(f: Field, i: nat)
    requires i < |f.slots| && f.slots[i].monster.None? && |f.queue| > 0
    ensures Pool(f.(slots := f.slots[i := Refilled(f.queue)], queue := f.queue[1..])) == Pool(f)
  {
    PresentAfterPlacing(f.slots, i, Refilled(f.queue));
    assert f.queue == [f.queue[0]] + f.queue[1..];
  }

  lemma {:induction false} FillFromFrame(f: Field, i: nat)
    requires i <= |f.slots|
    ensures var r := FillFrom(f, i);
            && r.players == f.players && |r.slots| == |f.slots|
            && (forall j :: 0 <= j < i ==> r.slots[j] == f.slots[j])
            && (forall j :: 0 <= j < |f.slots| && f.slots[j].monster.Some? ==> r.slots[j] == f.slots[j])
            && (forall j :: 0 <= j < |f.slots| ==> r.slots[j].monster.Some? || r.slots[j] == f.slots[j])
    decreases |f.slots| - i
  {
    if i < |f.slots| {
      if f.slots[i].monster.None? && |f.queue| > 0 {
        FillFromFrame(f.(slots := f.slots[i := Refilled(f.queue)], queue := f.queue[1..]), i + 1);
      } else {
        FillFromFrame(f, i + 1);
      }
    }
  }

  lemma {:induction false} FillFromQueue(f: Field, i: nat)
    requires i <= |f.slots|
    ensures var r := FillFrom(f, i);
            && |r.slots| == |f.slots|
            && |r.queue| <= |f.queue| && r.queue == f.queue[|f.queue| - |r.queue|..]
            && (|r.queue| == 0 || forall j :: i <= j < |f.slots| ==> r.slots[j].monster.Some?)
    decreases |f.slots| - i
  {
    if i < |f.slots| {
      if f.slots[i].monster.None? && |f.queue| > 0 {
        var g := f.(slots := f.slots[i := Refilled(f.queue)], queue := f.queue[1..]);
        FillFromQueue(g, i + 1);
        FillFromFrame(g, i + 1);
        var r := FillFrom(g, i + 1);
        assert g.queue[|g.queue| - |r.queue|..] == f.queue[|f.queue| - |r.queue|..];
      } else {
        FillFromQueue(f, i + 1);
        FillFromFrame(f, i + 1);
      }
    }
  }

  lemma {:induction false} FillFromPool(f: Field, i: nat)
    requires i <= |f.slots|
    ensures Pool(FillFrom(f, i)) == Pool(f)
    decreases |f.slots| - i
  {
    if i < |f.slots| {
      if f.slots[i].monster.None? && |f.queue| > 0 {
        PlacingKeepsPool(f, i);
        FillFromPool(f.(slots := f.slots[i := Refilled(f.queue)], queue := f.queue[1..]), i + 1);
      } else {
        FillFromPool(f, i + 1);
      }
    }
  }

  /**
   * The refill: occupied slots and the players are untouched, every other slot is filled or
   * left as it was, the queue loses only its front, no monster is lost or duplicated, and
   * afterwards no slot is empty while a monster waits.
   */
  lemma RefillFacts(f: Field)
    ensures var r := AutoRefill(f);
            && r.players == f.players && |r.slots| == |f.slots|
            && (forall j :: 0 <= j < |f.slots| && f.slots[j].monster.Some? ==> r.slots[j] == f.slots[j])
            && (forall j :: 0 <= j < |f.slots| ==> r.slots[j].monster.Some? || r.slots[j] == f.slots[j])
            && |r.queue| <= |f.queue| && r.queue == f.queue[|f.queue| - |r.queue|..]
            && Pool(r) == Pool(f)
            && Settled(r)
  {
    if |f.queue| > 0 {
      FillFromFrame(f, 0);
      FillFromQueue(f, 0);
      FillFromPool(f, 0);
    }
  }

  lemma {:induction false} FillFromSettledIdle(f: Field, i: nat)
    requires i <= |f.slots| && Settled(f)
    ensures FillFrom(f, i) == f
    decreases |f.slots| - i
  {
    if i < |f.slots| {
      FillFromSettledIdle(f, i + 1);
    }
  }

  /** On a settled field the refill changes nothing. */
  lemma RefillIdle(f: Field)
    requires Settled(f)
    ensures AutoRefill(f) == f
  {
    if |f.queue| > 0 {
      FillFromSettledIdle(f, 0);
    }
  }

  // ---------------------------------------------------------------- turn end

  /** The slots after every monster's turn-end skill (only healing has one). */
  function EndOfTurn(slots: seq<Slot>): (r: seq<Slot>)
    ensures |r| == |slots|
  {
    seq(|slots|, i requires 0 <= i < |slots| =>
      if slots[i].monster.None? then slots[i]
      else slots[i].(monster := Some(ApplySkill(slots[i].monster.value, OnTurnEnd))))
  }

  /**
   * At turn end only hit points change: a healing monster gets `min(HP + 2, maxHP)`, every
   * other monster, every empty slot and every poison or ice status stays as it was.
   */
  lemma TurnEndOnlyHeals(slots: seq<Slot>, i: nat)
    requires i < |slots|
    ensures var r := EndOfTurn(slots)[i];
            && r.poisonedBy == slots[i].poisonedBy && r.lastIcedBy == slots[i].lastIcedBy
            && r.monster.Some? == slots[i].monster.Some?
            && (slots[i].monster.Some? ==> r.monster.value == slots[i].monster.value.(hp := r.monster.value.hp))
            && (slots[i].monster.Some? && slots[i].monster.value.skill == Some(HealName) ==>
                  var m := slots[i].monster.value;
                  r.monster.value.hp == if m.hp + 2 < m.maxHP then m.hp + 2 else m.maxHP)
            && (slots[i].monster.Some? && slots[i].monster.value.skill != Some(HealName) ==> r == slots[i])
  {
    if slots[i].monster.Some? {
      var m := slots[i].monster.value;
      if m.skill == Some(HealName) {
        TurnEndHeals(m);
      }
    }
  }

  // ---------------------------------------------------------------- the game

  datatype Game = Game(
    turn: int,
    phase: Phase,
    players: seq<Player>,
    slots: seq<Slot>,
    queue: seq<Monster>,
    monsterAmount: nat,
    flags: Flags,
    actions: seq<AttackAction>,
    forced: Option<Forced>,
    event: GameEvent,
    forcedMonsters: seq<Monster>)

  function Board(g: Game): Field {
    Field(g.players, g.slots, g.queue)
  }

  function WithBoard(g: Game, f: Field): Game {
    g.(players := f.players, slots := f.slots, queue := f.queue)
  }

  /** The game as it starts: turn 1, no players, three empty slots, the calm event shown. */
  const Initial: Game := Game(1, Setup, [], [EmptySlot, EmptySlot, EmptySlot], [], 0, NeutralFlags,
                              [], None, EventTable[0], [])

  /** The invariant of the session: three slots, and none empty while the queue is not. */
  predicate Ok(g: Game) {
    |g.slots| == 3 && Settled(Board(g))
  }

  /**
   * The event trigger as the session runs it: the override is consumed, the effect is
   * applied, and the refill runs (the goblin raid fills the queue).
   */
  function StartEvent(g: Game, u1: real, u2: real): Game {
    var o := Occur(EventTable, g.turn, g.forced, u1, u2, World(g.players, g.queue, g.flags), g.event);
    var h := g.(players := o.world.players, queue := o.world.queue, flags := o.world.flags,
                event := o.event, forced := None);
    WithBoard(h, AutoRefill(Board(h)))
  }

  /** A monster joins the back of the queue and is counted; the refill runs. */
  function Enqueue(g: Game, m: Monster): Game {
    var h := g.(queue := g.queue + [m], monsterAmount := g.monsterAmount + 1);
    WithBoard(h, AutoRefill(Board(h)))
  }

  /** The added monster is counted, and the session invariant is kept. */
  lemma EnqueueFacts(g: Game, m: Monster)
    requires Ok(g)
    ensures var r := Enqueue(g, m);
            && Ok(r) && r.monsterAmount == g.monsterAmount + 1
            && r.players == g.players && r.turn == g.turn && r.phase == g.phase
            && r.forcedMonsters == g.forcedMonsters
  {
    RefillFacts(Board(g.(queue := g.queue + [m], monsterAmount := g.monsterAmount + 1)));
  }

  /** No monster is lost or duplicated: the field and queue hold the old ones and the new one. */
  lemma EnqueueKeepsMonsters(g: Game, m: Monster)
    ensures Pool(Board(Enqueue(g, m))) == Pool(Board(g)) + multiset{m}
  {
    var b := Field(g.players, g.slots, g.queue + [m]);
    RefillFacts(b);
    assert Board(Enqueue(g, m)) == AutoRefill(b);
    assert multiset(g.queue + [m]) == multiset(g.queue) + multiset{m};
  }

  /**
   * Adding a monster: the first of the game master's forced monsters if any is waiting,
   * otherwise the randomly generated one.
   */
  function Summon(g: Game, random: Monster): Game {
    if |g.forcedMonsters| > 0 then Enqueue(g.(forcedMonsters := g.forcedMonsters[1..]), g.forcedMonsters[0])
    else Enqueue(g, random)
  }

  /**
   * Forced monsters are used up front to back before any random one, each added monster is
   * counted, and no monster on the field or in the queue is lost.
   */
  lemma SummonFacts(g: Game, random: Monster)
    requires Ok(g)
    ensures var r := Summon(g, random);
            var m := if |g.forcedMonsters| > 0 then g.forcedMonsters[0] else random;
            && Ok(r) && r.monsterAmount == g.monsterAmount + 1
            && r.forcedMonsters == (if |g.forcedMonsters| > 0 then g.forcedMonsters[1..] else [])
            && Pool(Board(r)) == Pool(Board(g)) + multiset{m}
            && r.players == g.players && r.turn == g.turn && r.phase == g.phase
  {
    if |g.forcedMonsters| > 0 {
      EnqueueFacts(g.(forcedMonsters := g.forcedMonsters[1..]), g.forcedMonsters[0]);
      EnqueueKeepsMonsters(g.(forcedMonsters := g.forcedMonsters[1..]), g.forcedMonsters[0]);
    } else {
      EnqueueFacts(g, random);
      EnqueueKeepsMonsters(g, random);
    }
  }

  /** The action list without its last entry; an empty list stays empty. */
  function DropLast(actions: seq<AttackAction>): (r: seq<AttackAction>)
    ensures |actions| > 0 ==> |r| == |actions| - 1
  {
    if |actions| == 0 then actions else actions[..|actions| - 1]
  }

  /** Cancelling undoes the last addition, and cancelling with nothing queued does nothing. */
  lemma CancelUndoesAdd(actions: seq<AttackAction>, a: AttackAction)
    ensures DropLast(actions + [a]) == actions
    ensures DropLast([]) == []
  {
    assert (actions + [a])[..|actions|] == actions;
  }

  /**
   * The close of 行動: the pending actions are resolved for real and cleared, the refill runs,
   * the round's event flags are reset and the phase becomes 結算. When the resolution throws,
   * the press stops there: nothing is committed, the flags stay and the phase stays 行動.
   */
  function FinishActions(g: Game): Game
    requires |g.slots| == 3
  {
    if Aborts(Board(g), g.actions, g.flags) then g
    else
      var f := AutoRefill(Resolve(Board(g), g.actions, g.flags, Commit));
      WithBoard(g, f).(actions := [], flags := NeutralFlags, phase := Settle)
  }

  /**
   * The close of 結算 before the next event: the turn-end skills run, the turn advances, the
   * players rotate, the phase becomes 事件 and the refill runs.
   */
  function EndTurn(g: Game): Game {
    var h := g.(slots := EndOfTurn(g.slots), turn := g.turn + 1, players := Rotated(g.players), phase := Event);
    WithBoard(h, AutoRefill(Board(h)))
  }

  lemma EndTurnFacts(g: Game)
    requires Ok(g)
    ensures var r := EndTurn(g);
            && Ok(r) && r.turn == g.turn + 1 && r.phase == Event && r.players == Rotated(g.players)
            && r.actions == g.actions && r.monsterAmount == g.monsterAmount
            && r.forcedMonsters == g.forcedMonsters
  {
    var h := g.(slots := EndOfTurn(g.slots), turn := g.turn + 1, players := Rotated(g.players), phase := Event);
    RefillFacts(Board(h));
    assert forall j :: 0 <= j < 3 ==> EndOfTurn(g.slots)[j].monster.Some? == g.slots[j].monster.Some?;
  }

  /**
   * One press of "next phase" with the draws `u1`, `u2` for the event that may follow:
   * in 行動 the actions are resolved and the round's flags reset; in 結算 the turn-end skills
   * run, the turn advances and the players rotate; entering 事件 triggers the event.
   */
  function Advance(g: Game, u1: real, u2: real): Game
    requires |g.slots| == 3
  {
    match g.phase
    case Setup => StartEvent(g.(phase := Event), u1, u2)
    case Event => g.(phase := Prep)
    case Prep => g.(phase := Action)
    case Action => FinishActions(g)
    case Settle => StartEvent(EndTurn(g), u1, u2)
  }

  lemma StartEventFacts(g: Game, u1: real, u2: real)
    requires Ok(g)
    ensures var r := StartEvent(g, u1, u2);
            && Ok(r) && r.turn == g.turn && r.phase == g.phase && r.actions == g.actions
            && r.forced.None? && SameFighters(g.players, r.players)
            && r.monsterAmount == g.monsterAmount && r.forcedMonsters == g.forcedMonsters
  {
    var o := Occur(EventTable, g.turn, g.forced, u1, u2, World(g.players, g.queue, g.flags), g.event);
    var h := g.(players := o.world.players, queue := o.world.queue, flags := o.world.flags,
                event := o.event, forced := None);
    RefillFacts(Board(h));
    assert SameFighters(g.players, o.world.players) by {
      OccurKeepsFighters(g.turn, g.forced, u1, u2, World(g.players, g.queue, g.flags), g.event);
    }
  }

  lemma OccurKeepsFighters(turn: int, forced: Option<Forced>, u1: real, u2: real, w: World, current: GameEvent)
    ensures SameFighters(w.players, Occur(EventTable, turn, forced, u1, u2, w, current).world.players)
  {
  }

  /**
   * Every press keeps the session invariant. It moves the phase on by one, except a 行動 press
   * whose resolution throws, which leaves the whole game as it was.
   */
  lemma AdvanceKeepsOk(g: Game, u1: real, u2: real)
    requires Ok(g)
    ensures Ok(Advance(g, u1, u2))
    ensures g.phase == Action && Aborts(Board(g), g.actions, g.flags) ==> Advance(g, u1, u2) == g
    ensures !(g.phase == Action && Aborts(Board(g), g.actions, g.flags)) ==>
              Advance(g, u1, u2).phase == NextPhaseOf(g.phase)
  {
    match g.phase
    case Setup => StartEventFacts(g.(phase := Event), u1, u2);
    case Event =>
    case Prep =>
    case Action =>
      if !Aborts(Board(g), g.actions, g.flags) {
        RefillFacts(Resolve(Board(g), g.actions, g.flags, Commit));
      }
    case Settle =>
      EndTurnFacts(g);
      StartEventFacts(EndTurn(g), u1, u2);
  }

  /**
   * The turn counter moves only when 結算 ends; the actions are cleared and the event flags
   * reset when 行動 ends without throwing; 事件 and 準備 change nothing but the phase.
   */
  lemma AdvanceBookkeeping(g: Game, u1: real, u2: real)
    requires Ok(g)
    ensures var r := Advance(g, u1, u2);
            && r.turn == (if g.phase == Settle then g.turn + 1 else g.turn)
            && (g.phase == Action && !Aborts(Board(g), g.actions, g.flags) ==>
                  r.actions == [] && r.flags == NeutralFlags)
            && (g.phase == Event || g.phase == Prep ==> r == g.(phase := r.phase))
            && r.monsterAmount == g.monsterAmount && r.forcedMonsters == g.forcedMonsters
  {
    match g.phase
    case Setup => StartEventFacts(g.(phase := Event), u1, u2);
    case Event =>
    case Prep =>
    case Action =>
    case Settle =>
      EndTurnFacts(g);
      StartEventFacts(EndTurn(g), u1, u2);
  }

  /**
   * When 結算 ends, the players are the old ones in rotated order (an event may only add
   * mana stones), and a turn has passed.
   */
  lemma SettleRotatesPlayers(g: Game, u1: real, u2: real)
    requires Ok(g) && g.phase == Settle
    ensures SameFighters(Rotated(g.players), Advance(g, u1, u2).players)
  {
    EndTurnFacts(g);
    StartEventFacts(EndTurn(g), u1, u2);
  }

  /** The first press on turn 1 shows the calm event and changes nothing else but the phase. */
  lemma FirstPressIsCalm(g: Game, u1: real, u2: real)
    requires Ok(g) && g.phase == Setup && g.turn == 1 && 0.0 <= u2 < 1.0
    ensures Advance(g, u1, u2) == g.(phase := Event, event := EventTable[0], forced := None)
  {
    var w := World(g.players, g.queue, g.flags);
    FirstTurnIsCalm(g.forced, u1, u2, w, g.event);
    RefillIdle(Board(g));
  }

  /**
   * When 行動 ends, the field is what the committed resolution of the actions gives, after
   * the refill; when no wand uses a disabled element, that is the preview's field refilled.
   * When the committed resolution throws, the press commits nothing, whatever the preview showed.
   */
  lemma ActionCommitsThePreview(g: Game, u1: real, u2: real)
    requires Ok(g) && g.phase == Action
    requires NoDisabledWand(g.actions, g.flags)
    ensures Aborts(Board(g), g.actions, g.flags) ==> Advance(g, u1, u2) == g
    ensures var p := Resolve(Board(g), g.actions, g.flags, Preview);
            var r := Advance(g, u1, u2);
            !Aborts(Board(g), g.actions, g.flags) ==>
              r.phase == Settle && AutoRefill(Field(r.players, p.slots, p.queue)) == Board(r)
  {
    if !Aborts(Board(g), g.actions, g.flags) {
      var c := Resolve(Board(g), g.actions, g.flags, Commit);
      var p := Resolve(Board(g), g.actions, g.flags, Preview);
      PreviewForecastsCommit(Board(g), g.actions, g.flags);
      RefillFacts(c);
      assert Field(c.players, p.slots, p.queue) == c;
    }
  }
}
