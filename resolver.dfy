/**
 * The combat resolver as the source runs it: loops over the actions, over the slots for the
 * poison tick and the bomb, updating cloned players, slots and queue step by step. Each
 * method is proved to compute the corresponding function of module Combat.
 */
module Resolver {
  import opened Wrappers
  import opened Elements
  import opened Entities
  import opened Skills
  import opened Combat

  /**
   * The death of monster `m` in slot `i`: the killer (in commit mode) gets its loot, and the
   * slot takes the queue front (`shift() ?? null`) with poison and ice cleared.
   */
  method Slay(f: Field, i: nat, killer: nat, m: Monster, flags: Flags, mode: Mode) returns (r: Field)
    requires i < |f.slots| && killer < |f.players|
    ensures r == Kill(f, i, killer, m.drop, flags, mode)
  {
    var players := f.players;
    if mode == Commit {
      var gold := if flags.doubleGold then m.drop.gold * 2 else m.drop.gold;
      var p := players[killer];
      var cards := p.loot.cards;
      if m.drop.card.Some? {
        cards := cards.Add(m.drop.card.value, 1);
      }
      p := p.(loot := Loot(p.loot.gold + gold, p.loot.manaStone + m.drop.manaStone, cards));
      players := players[killer := p];
    }
    var queue := f.queue;
    var next: Option<Monster> := None;
    if |queue| > 0 {
      next := Some(queue[0]);
      queue := queue[1..];
    }
    r := Field(players, f.slots[i := Slot(next, None, None)], queue);
  }

  /**
   * The poison tick on slot `i`: the source's inner loop over the slot's poisoners skips
   * those who are no longer players and stops at the first one found, who deals 1 damage.
   */
  method TickOne(f: Field, i: nat, flags: Flags, mode: Mode) returns (r: Field)
    requires i < |f.slots|
    ensures r == TickSlot(f, i, flags, mode)
  {
    r := f;
    var slot := r.slots[i];
    if slot.monster.None? || slot.poisonedBy.None? || Locked(slot) {
      return;
    }
    var ids := slot.poisonedBy.value;
    var j := 0;
    while j < |ids|
      invariant j <= |ids|
      invariant r == f
      invariant forall l :: 0 <= l < j ==> FindPlayer(f.players, ids[l]).None?
    {
      var poisoner := FindPlayer(r.players, ids[j]);
      if poisoner.None? {
        j := j + 1;
        continue;
      }
      assert FirstPresent(ids, f.players) == j;
      assert Culprit(slot, f.players) == poisoner;
      var target := slot.monster.value;
      target := ApplySkill(target.(hp := target.hp - 1), OnHit);
      if target.hp <= 0 {
        r := Slay(r, i, poisoner.value, target, flags, mode);
      } else {
        r := r.(slots := r.slots[i := slot.(monster := Some(target))]);
      }
      return;
    }
  }

  /** The source's `resolvePoisonDamage`: the poison tick on slots A, B, C in order. */
  method ResolvePoisonDamage(f: Field, flags: Flags, mode: Mode) returns (r: Field)
    ensures r == PoisonTick(f, flags, mode)
  {
    r := f;
    var i := 0;
    while i < |r.slots|
      invariant i <= |r.slots| == |f.slots|
      invariant TickFrom(r, i, flags, mode) == TickFrom(f, 0, flags, mode)
    {
      r := TickOne(r, i, flags, mode);
      i := i + 1;
    }
  }

  /** The bomb on one occupied slot: 2 damage, the on-hit skill, then the death check. */
  method Blast(f: Field, j: nat, bomber: nat, flags: Flags, mode: Mode) returns (r: Field)
    requires j < |f.slots| && bomber < |f.players| && f.slots[j].monster.Some?
    ensures r == Hit(f, j, bomber, 2, flags, mode)
  {
    var s := f.slots[j];
    var m := ApplySkill(s.monster.value.(hp := s.monster.value.hp - 2), OnHit);
    if m.hp <= 0 {
      r := Slay(f, j, bomber, m, flags, mode);
    } else {
      r := f.(slots := f.slots[j := s.(monster := Some(m))]);
    }
  }

  /**
   * The bomb's loop over slots A, B, C: 2 damage to every occupied slot without an ice
   * lock, each kill credited to the bomber and refilled from the queue. In commit mode the
   * log of a lock whose id is not a roster position throws, and the loop returns `None`.
   */
  method Detonate(f: Field, bomber: nat, flags: Flags, mode: Mode) returns (r: Option<Field>)
    requires bomber < |f.players|
    ensures r.None? <==> mode == Commit && CrashesFrom(f, 0)
    ensures r.Some? ==> r.value == BombFrom(f, 0, bomber, flags, mode)
  {
    var g := f;
    var j := 0;
    while j < |g.slots|
      invariant j <= |g.slots| == |f.slots|
      invariant |g.players| == |f.players|
      invariant forall k :: j <= k < |g.slots| ==> g.slots[k] == f.slots[k]
      invariant mode == Commit ==> forall k :: 0 <= k < j ==> !Crashes(f.slots[k], |f.players|)
      invariant BombFrom(g, j, bomber, flags, mode) == BombFrom(f, 0, bomber, flags, mode)
    {
      var s := g.slots[j];
      if s.monster.Some? && Locked(s) {
        if mode == Commit && !(0 <= s.lastIcedBy.value < |g.players|) {
          assert Crashes(f.slots[j], |f.players|);
          return None;
        }
      } else if s.monster.Some? {
        g := Blast(g, j, bomber, flags, mode);
      }
      j := j + 1;
    }
    r := Some(g);
  }

  /** A wand hit on slot `idx`, unless commit mode finds its element disabled by an event. */
  method PlayWand(f: Field, idx: nat, pi: nat, e: PlayerElement, flags: Flags, mode: Mode) returns (r: Field)
    requires idx < |f.slots| && pi < |f.players| && f.slots[idx].monster.Some?
    ensures r == WandPlay(f, idx, pi, e, flags, mode)
  {
    r := f;
    if mode == Commit && flags.disableElement == Some(e) {
      return;
    }
    var slot := r.slots[idx];
    var target := slot.monster.value;
    var dmg := WandDamage(r.players[pi].attack.Of(e), e, target.element, flags.allAttackNeutral);
    target := ApplySkill(target.(hp := target.hp - dmg), OnHit);
    r := r.(slots := r.slots[idx := slot.(monster := Some(target))]);
    if target.hp <= 0 {
      r := Slay(r, idx, pi, target, flags, mode);
    }
  }

  /** An ice spell: lock the slot for the caster, 2 damage, one ice card consumed. */
  method PlayIce(f: Field, idx: nat, pi: nat, flags: Flags, mode: Mode) returns (r: Field)
    requires idx < |f.slots| && pi < |f.players| && f.slots[idx].monster.Some?
    ensures r == IcePlay(f, idx, pi, flags, mode)
  {
    r := f;
    var slot := r.slots[idx];
    var target := slot.monster.value;
    slot := slot.(lastIcedBy := Some(r.players[pi].id));
    target := ApplySkill(target.(hp := target.hp - 2), OnHit);
    r := Spend(r, pi, IceSpell, mode);
    r := r.(slots := r.slots[idx := slot.(monster := Some(target))]);
    if target.hp <= 0 {
      r := Slay(r, idx, pi, target, flags, mode);
    }
  }

  /** A poison spell: one poison card consumed, the caster added to the slot's poisoners. */
  method PlayPoison(f: Field, idx: nat, pi: nat, flags: Flags, mode: Mode) returns (r: Field)
    requires idx < |f.slots| && pi < |f.players| && f.slots[idx].monster.Some?
    ensures r == PoisonPlay(f, idx, pi, flags, mode)
  {
    r := f;
    var slot := r.slots[idx];
    var target := slot.monster.value;
    r := Spend(r, pi, PoisonSpell, mode);
    slot := slot.(poisonedBy := Some(AddPoisoner(slot.poisonedBy, r.players[pi].id)));
    r := r.(slots := r.slots[idx := slot]);
    if target.hp <= 0 {
      r := Slay(r, idx, pi, target, flags, mode);
    }
  }

  /**
   * A bomb: one bomb card consumed, the sweep over all slots, then the target's death
   * check; `None` when the committed sweep throws.
   */
  method PlayBomb(f: Field, idx: nat, pi: nat, flags: Flags, mode: Mode) returns (r: Option<Field>)
    requires idx < |f.slots| && pi < |f.players| && f.slots[idx].monster.Some?
    ensures r.None? <==> mode == Commit && CrashesFrom(f, 0)
    ensures r.Some? ==> r.value == BombPlay(f, idx, pi, flags, mode)
  {
    var slot := f.slots[idx];
    var target := slot.monster.value;
    var g := Spend(f, pi, BombSpell, mode);
    assert CrashesFrom(g, 0) == CrashesFrom(f, 0);
    r := Detonate(g, pi, flags, mode);
    if r.None? {
      return;
    }
    if !Locked(slot) {
      target := ApplySkill(target.(hp := target.hp - 2), OnHit);
    }
    if target.hp <= 0 {
      var h := Slay(r.value, idx, pi, target, flags, mode);
      r := Some(h);
    }
  }

  /**
   * One action after its poison tick: the freeze gate, then the card; `None` when a
   * committed bomb throws.
   */
  method ResolveAction(f: Field, a: AttackAction, flags: Flags, mode: Mode) returns (r: Option<Field>)
    requires Sound(f)
    ensures r.None? <==> mode == Commit && ActionCrashes(f, a)
    ensures r.Some? ==> r.value == ApplyAction(f, a, flags, mode)
  {
    var g := f;
    var idx := a.target.Index();
    var slot := g.slots[idx];
    var found := FindPlayer(g.players, a.playerId);
    if slot.monster.None? || found.None? {
      return Some(g);
    }
    var pi := found.value;
    if slot.lastIcedBy == Some(a.playerId) {
      slot := slot.(lastIcedBy := None);
      g := g.(slots := g.slots[idx := slot]);
    } else if Locked(slot) && a.card != Spell(BombSpell) {
      return Some(g);
    }
    assert g == f.(slots := f.slots[idx := Unlocked(f.slots[idx], a.playerId)]);
    match a.card {
      case Wand(e) =>
        g := PlayWand(g, idx, pi, e, flags, mode);
        r := Some(g);
      case Spell(IceSpell) =>
        g := PlayIce(g, idx, pi, flags, mode);
        r := Some(g);
      case Spell(PoisonSpell) =>
        g := PlayPoison(g, idx, pi, flags, mode);
        r := Some(g);
      case Spell(BombSpell) =>
        r := PlayBomb(g, idx, pi, flags, mode);
    }
  }

  /**
   * The source's `processAttackActions` loop (commit mode) and the loop of
   * `previewBattlefieldAfterActions` (preview mode): every action in submission order,
   * each preceded by a poison tick. A committed bomb that throws ends the loop with `None`.
   */
  method ResolveActions(f: Field, actions: seq<AttackAction>, flags: Flags, mode: Mode) returns (r: Option<Field>)
    requires Sound(f)
    ensures r.None? <==> mode == Commit && Aborts(f, actions, flags)
    ensures r.Some? ==> r.value == Resolve(f, actions, flags, mode)
  {
    var g := f;
    for i := 0 to |actions|
      invariant Sound(g)
      invariant Resolve(g, actions[i..], flags, mode) == Resolve(f, actions, flags, mode)
      invariant mode == Commit ==> (Aborts(g, actions[i..], flags) <==> Aborts(f, actions, flags))
    {
      assert actions[i..][1..] == actions[i + 1..];
      var ticked := ResolvePoisonDamage(g, flags, mode);
      var o := ResolveAction(ticked, actions[i], flags, mode);
      if o.None? {
        return None;
      }
      g := o.value;
    }
    r := Some(g);
  }
}
