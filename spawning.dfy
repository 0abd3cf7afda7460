/**
 * The parts of random monster generation that follow fixed rules: the level band chosen by
 * how many monsters were spawned so far, the weighted element draw, and the loot coin flips.
 * The hit-point formula and the name tables are not modelled.
 */
module Spawning {
  import opened Wrappers
  import opened Elements
  import opened Entities

  /** The levels a new monster is drawn from, by the number of monsters spawned so far. */
  function LevelBand(amount: nat): (band: seq<int>)
    ensures |band| > 0
    ensures forall l :: l in band ==> 1 <= l <= 3
    ensures amount < 3 ==> band == [1]
    ensures amount >= 15 ==> band == [3]
  {
    if amount < 3 then [1]
    else if amount < 6 then [1, 1, 1, 2, 2]
    else if amount < 9 then [1, 2, 2, 2, 2]
    else if amount < 12 then [2, 2, 2, 3, 3]
    else if amount < 15 then [2, 3, 3, 3, 3]
    else [3]
  }

  /** The entry a draw `u` in [0, 1) selects from `s`: index `floor(u * |s|)`. */
  function Draw<T>(s: seq<T>, u: real): (x: T)
    requires |s| > 0 && 0.0 <= u < 1.0
    ensures x in s
  {
    var i := (u * |s| as real).Floor;
    assert 0 <= i < |s| by {
      assert u * |s| as real < |s| as real;
    }
    s[i]
  }

  /** The level of the next monster. */
  function Level(amount: nat, u: real): (level: int)
    requires 0.0 <= u < 1.0
    ensures 1 <= level <= 3
    ensures amount < 3 ==> level == 1
    ensures amount >= 15 ==> level == 3
    ensures 6 <= amount < 9 ==> level <= 2
    ensures 9 <= amount ==> level >= 2
  {
    Draw(LevelBand(amount), u)
  }

  /** The element draw: fire, water and wood twice as likely as no element. */
  const ElementPool: seq<Element> := [Fire, Fire, Water, Water, Wood, Wood, Plain]

  function DrawElement(u: real): (e: Element)
    requires 0.0 <= u < 1.0
    ensures e == Plain <==> (u * 7.0).Floor == 6
  {
    Draw(ElementPool, u)
  }

  /** A spell card is attached with chance 0.4, each of the three equally likely. */
  function DrawCard(chance: real, kind: real): (c: Option<SpellCard>)
    requires 0.0 <= kind < 1.0
    ensures c.Some? <==> chance < 0.4
  {
    if chance < 0.4 then Some(Draw([IceSpell, BombSpell, PoisonSpell], kind)) else None
  }

  /**
   * The loot of a new monster: the first coin gives a gold or a mana stone, a second coin
   * does the same from level 2 up, and a spell card is attached when one was drawn.
   */
  function SpawnDrop(level: int, firstGold: bool, secondGold: bool, card: Option<SpellCard>): (d: Drop)
    ensures d.gold >= 0 && d.manaStone >= 0
    ensures d.gold + d.manaStone == if level >= 2 then 2 else 1
    ensures d.card == card
  {
    var gold := (if firstGold then 1 else 0) + (if level >= 2 && secondGold then 1 else 0);
    var mana := (if firstGold then 0 else 1) + (if level >= 2 && !secondGold then 1 else 0);
    Drop(gold, mana, card)
  }
}
