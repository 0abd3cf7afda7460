/**
 * The value types of the engine: players, monsters, battlefield slots, attack actions
 * and the per-turn event flags.
 */
module Entities {
  import opened Wrappers
  import opened Elements

  /** The three single-use spell cards: 冰凍法術 (ice), 炸彈法術 (bomb), 毒藥法術 (poison). */
  datatype SpellCard = IceSpell | BombSpell | PoisonSpell

  /** A player's card counts: the wand (魔法棒) and the three spells. Counts may go negative. */
  datatype Cards = Cards(wand: int, ice: int, bomb: int, poison: int) {

    function Count(c: SpellCard): int {
      match c
      case IceSpell => ice
      case BombSpell => bomb
      case PoisonSpell => poison
    }

    /** The counts with `delta` added to the count of spell `c` only. */
    function Add(c: SpellCard, delta: int): (r: Cards)
      ensures r.Count(c) == Count(c) + delta
      ensures forall d :: d != c ==> r.Count(d) == Count(d)
      ensures r.wand == wand
    {
      match c
      case IceSpell => this.(ice := ice + delta)
      case BombSpell => this.(bomb := bomb + delta)
      case PoisonSpell => this.(poison := poison + delta)
    }
  }

  /** A player's attack power per attacking element. */
  datatype Attack = Attack(fire: int, water: int, wood: int) {
    function Of(e: PlayerElement): int {
      match e
      case Fire => fire
      case Water => water
      case Wood => wood
    }
  }

  datatype Loot = Loot(gold: int, manaStone: int, cards: Cards)

  /**
   * A player. `id` is the stable key by which actions, poison and freeze refer to the player;
   * the display name is not modelled.
   */
  datatype Player = Player(id: int, attack: Attack, loot: Loot)

  /** What a monster drops when killed: gold, mana stones and at most one spell card. */
  datatype Drop = Drop(gold: int, manaStone: int, card: Option<SpellCard>)

  /** A monster; `skill` is a key into the skill table (unknown keys do nothing). */
  datatype Monster = Monster(maxHP: int, hp: int, name: string, element: Element, drop: Drop,
                             skill: Option<string>)

  /**
   * One battlefield slot: at most one monster, the ids of the players poisoning it in the
   * order they cast (`None` for the source's `null`), and the player whose ice locks it.
   */
  datatype Slot = Slot(monster: Option<Monster>, poisonedBy: Option<seq<int>>, lastIcedBy: Option<int>)

  /** The slot status a refill or a fresh battlefield starts with. */
  const EmptySlot := Slot(None, None, None)

  /** The three fixed slot identities A, B and C. */
  datatype SlotId = A | B | C {
    function Index(): (i: nat)
      ensures i < 3
      ensures this.A? <==> i == 0
      ensures this.B? <==> i == 1
    {
      match this
      case A => 0
      case B => 1
      case C => 2
    }
  }

  /** The card an action plays: the wand with its element, or one of the spells. */
  datatype Card = Wand(element: PlayerElement) | Spell(spell: SpellCard)

  /** One submitted attack: the acting player's id, the target slot and the card. */
  datatype AttackAction = AttackAction(playerId: int, target: SlotId, card: Card)

  /** The per-turn modifiers set by events. */
  datatype Flags = Flags(doubleGold: bool, allAttackNeutral: bool, disableElement: Option<Element>)

  const NeutralFlags := Flags(false, false, None)

  /**
   * The source's `players.find((p) => p.id === id)`: the position of the first player with
   * that id, if any.
   */
  function FindPlayer(ps: seq<Player>, id: int): (r: Option<nat>)
    ensures r.Some? ==> r.value < |ps| && ps[r.value].id == id
    ensures r.Some? ==> forall k :: 0 <= k < r.value ==> ps[k].id != id
    ensures r.None? <==> forall k :: 0 <= k < |ps| ==> ps[k].id != id
  {
    if |ps| == 0 then None
    else if ps[0].id == id then Some(0)
    else match FindPlayer(ps[1..], id)
      case None => None
      case Some(k) => Some(k + 1)
  }

  /** Two rosters with the same players in the same order, up to their loot. */
  predicate SameFighters(ps: seq<Player>, qs: seq<Player>) {
    && |ps| == |qs|
    && forall k :: 0 <= k < |ps| ==> ps[k].id == qs[k].id && ps[k].attack == qs[k].attack
  }

  /** Finding a player only looks at ids, so loot changes never change who is found. */
  lemma {:induction false} FindPlayerIgnoresLoot(ps: seq<Player>, qs: seq<Player>, id: int)
    requires SameFighters(ps, qs)
    ensures FindPlayer(ps, id) == FindPlayer(qs, id)
  {
    if |ps| > 0 && ps[0].id != id {
      assert SameFighters(ps[1..], qs[1..]);
      FindPlayerIgnoresLoot(ps[1..], qs[1..], id);
    }
  }
}
