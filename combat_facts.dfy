/**
 * Properties of one resolved action: the freeze gate and the disabled element, the effect
 * of each card, the bomb's sweep (and its double death check), and the poison tick.
 */
module CombatFacts {
  import opened Wrappers
  import opened Elements
  import opened Entities
  import opened Skills
  import opened Combat

  /** The field with the actor's own ice lock on the action's target lifted. */
  function Gated(f: Field, a: AttackAction): Field
    requires Sound(f)
  {
    f.(slots := f.slots[a.target.Index() := Unlocked(TargetSlot(f, a), a.playerId)])
  }

  /**
   * An action nullified by another player's ice lock changes nothing at all; a committed
   * wand of the element the event disabled changes nothing except lifting the actor's own
   * lock on the slot. In both cases every monster keeps its HP.
   */
  lemma BlockedActionHarmsNothing(f: Field, a: AttackAction, flags: Flags)
    requires Sound(f)
    requires Nullified(TargetSlot(f, a), a) || (a.card.Wand? && flags.disableElement == Some(a.card.element))
    ensures var r := ApplyAction(f, a, flags, Commit);
            && (r == f || r == Gated(f, a))
            && forall j :: 0 <= j < 3 ==> r.slots[j].monster == f.slots[j].monster
  {
  }

  /** The actor's own ice lock never blocks it: the lock is lifted and the action proceeds. */
  lemma OwnLockIsLifted(f: Field, a: AttackAction, flags: Flags, mode: Mode)
    requires Sound(f) && TargetSlot(f, a).lastIcedBy == Some(a.playerId)
    requires TargetSlot(f, a).monster.Some? && FindPlayer(f.players, a.playerId).Some?
    ensures !Nullified(TargetSlot(f, a), a)
    ensures ApplyAction(f, a, flags, mode) == ApplyAction(Gated(f, a), a, flags, mode)
    ensures TargetSlot(Gated(f, a), a).lastIcedBy.None?
  {
    var idx := a.target.Index();
    var g := Gated(f, a);
    assert Unlocked(g.slots[idx], a.playerId) == g.slots[idx];
    assert g.slots[idx := Unlocked(g.slots[idx], a.playerId)] == g.slots;
    assert !Nullified(g.slots[idx], a);
    assert FindPlayer(g.players, a.playerId) == FindPlayer(f.players, a.playerId);
  }

  /** The conditions under which an action reaches its card: target present, actor present, not nullified. */
  predicate Proceeds(f: Field, a: AttackAction)
    requires Sound(f)
  {
    TargetSlot(f, a).monster.Some? && FindPlayer(f.players, a.playerId).Some? && !Nullified(TargetSlot(f, a), a)
  }

  /** The damage a proceeding wand action deals to its target. */
  function WandDamageOf(f: Field, a: AttackAction, flags: Flags): int
    requires Sound(f) && Proceeds(f, a) && a.card.Wand?
  {
    var e := a.card.element;
    WandDamage(f.players[FindPlayer(f.players, a.playerId).value].attack.Of(e), e,
               TargetSlot(f, a).monster.value.element, flags.allAttackNeutral)
  }

  /**
   * A wand that is not disabled takes exactly its triangle damage from the target: a
   * survivor stays with its poison and loses only the actor's own lock; a kill credits the
   * actor and refills the slot.
   */
  lemma WandStrike(f: Field, a: AttackAction, flags: Flags, mode: Mode)
    requires Sound(f) && Proceeds(f, a) && a.card.Wand?
    requires !(mode == Commit && flags.disableElement == Some(a.card.element))
    ensures var idx := a.target.Index();
            var m := TargetSlot(f, a).monster.value;
            var dmg := WandDamageOf(f, a, flags);
            var r := ApplyAction(f, a, flags, mode);
            && (m.hp - dmg > 0 ==>
                  && r.players == f.players && r.queue == f.queue
                  && r.slots == Gated(f, a).slots[idx := Unlocked(TargetSlot(f, a), a.playerId).(monster := Some(Wounded(m, dmg)))])
            && (m.hp - dmg <= 0 ==>
                  r == Kill(f, idx, FindPlayer(f.players, a.playerId).value, m.drop, flags, mode))
  {
    var idx := a.target.Index();
    var pi := FindPlayer(f.players, a.playerId).value;
    var g := Gated(f, a);
    assert ApplyAction(f, a, flags, mode) == WandPlay(g, idx, pi, a.card.element, flags, mode);
    assert Kill(g, idx, pi, TargetSlot(f, a).monster.value.drop, flags, mode).slots
        == Kill(f, idx, pi, TargetSlot(f, a).monster.value.drop, flags, mode).slots;
  }

  /**
   * Ice locks the slot for the caster and deals 2 damage; it consumes one ice card in
   * commit mode, whatever the count was (it can go negative), and nothing in preview. A
   * survivor keeps its poison under the new lock; a kill credits the caster and refills the
   * slot, clearing the lock just set.
   */
  lemma IceStrike(f: Field, a: AttackAction, flags: Flags, mode: Mode)
    requires Sound(f) && Proceeds(f, a) && a.card == Spell(IceSpell)
    ensures var idx := a.target.Index();
            var pi := FindPlayer(f.players, a.playerId).value;
            var s := TargetSlot(f, a);
            var m := s.monster.value;
            var spent := Spend(f, pi, IceSpell, mode);
            var r := ApplyAction(f, a, flags, mode);
            && (mode == Commit ==> spent.players[pi].loot.cards.ice == f.players[pi].loot.cards.ice - 1)
            && (m.hp > 2 ==>
                  && r.queue == f.queue
                  && r.slots == f.slots[idx := s.(monster := Some(Wounded(m, 2)), lastIcedBy := Some(a.playerId))]
                  && r.players == spent.players)
            && (m.hp <= 2 ==> r == Kill(spent, idx, pi, m.drop, flags, mode))
  {
    var idx := a.target.Index();
    var pi := FindPlayer(f.players, a.playerId).value;
    var g := Gated(f, a);
    var m := TargetSlot(f, a).monster.value;
    assert ApplyAction(f, a, flags, mode) == IcePlay(g, idx, pi, flags, mode);
    var f2 := Spend(g.(slots := g.slots[idx := g.slots[idx].(lastIcedBy := Some(a.playerId))]), pi, IceSpell, mode);
    if m.hp <= 2 {
      assert f2.slots[idx := Refilled(f.queue)] == Spend(f, pi, IceSpell, mode).slots[idx := Refilled(f.queue)];
    }
  }

  /**
   * Poison deals no damage: the caster is added to the slot's poisoners (if absent) and one
   * poison card is consumed in commit mode. A living target keeps its HP; a target already
   * at HP 0 or below dies in the death check, credited to the caster, and the slot is
   * refilled.
   */
  lemma PoisonCast(f: Field, a: AttackAction, flags: Flags, mode: Mode)
    requires Sound(f) && Proceeds(f, a) && a.card == Spell(PoisonSpell)
    ensures var idx := a.target.Index();
            var pi := FindPlayer(f.players, a.playerId).value;
            var s := Unlocked(TargetSlot(f, a), a.playerId);
            var m := s.monster.value;
            var spent := Spend(f, pi, PoisonSpell, mode);
            var r := ApplyAction(f, a, flags, mode);
            && (mode == Commit ==> spent.players[pi].loot.cards.poison == f.players[pi].loot.cards.poison - 1)
            && (m.hp > 0 ==>
                  && r.queue == f.queue
                  && r.slots == f.slots[idx := s.(poisonedBy := Some(AddPoisoner(s.poisonedBy, a.playerId)))]
                  && r.slots[idx].monster == TargetSlot(f, a).monster
                  && r.players == spent.players)
            && (m.hp <= 0 ==> r == Kill(spent, idx, pi, m.drop, flags, mode))
  {
    var idx := a.target.Index();
    var pi := FindPlayer(f.players, a.playerId).value;
    var g := Gated(f, a);
    var s := g.slots[idx];
    assert ApplyAction(f, a, flags, mode) == PoisonPlay(g, idx, pi, flags, mode);
    var f2 := Spend(g.(slots := g.slots[idx := s.(poisonedBy := Some(AddPoisoner(s.poisonedBy, a.playerId)))]), pi, PoisonSpell, mode);
    if s.monster.value.hp <= 0 {
      assert f2.slots[idx := Refilled(f.queue)] == Spend(f, pi, PoisonSpell, mode).slots[idx := Refilled(f.queue)];
    }
  }

  /** Adding a poisoner twice is the same as adding it once. */
  lemma AddPoisonerIdempotent(list: Option<seq<int>>, id: int)
    ensures AddPoisoner(Some(AddPoisoner(list, id)), id) == AddPoisoner(list, id)
  {
  }

  /** A slot after the bomb's 2 damage, when it is occupied and not ice-locked. */
  function Blasted(s: Slot): (r: Slot)
    ensures r.poisonedBy == s.poisonedBy && r.lastIcedBy == s.lastIcedBy
    ensures s.monster.Some? && !Locked(s) ==> r.monster.Some? && r.monster.value.hp == s.monster.value.hp - 2
    ensures s.monster.None? || Locked(s) ==> r == s
  {
    if s.monster.Some? && !Locked(s) then s.(monster := Some(Wounded(s.monster.value, 2))) else s
  }

  /** Whether the bomb's 2 damage kills the monster in slot `s`: occupied, unlocked, HP at most 2. */
  predicate Dies(s: Slot) {
    s.monster.Some? && !Locked(s) && s.monster.value.hp <= 2
  }

  /** The number of slots in `ss` whose monster the bomb kills. */
  function Deaths(ss: seq<Slot>): (n: nat)
    ensures n <= |ss|
  {
    if |ss| == 0 then 0 else (if Dies(ss[0]) then 1 else 0) + Deaths(ss[1..])
  }

  /** The queue after `n` calls of `shift()`. */
  function After(q: seq<Monster>, n: nat): seq<Monster> {
    if n <= |q| then q[n..] else []
  }

  lemma AfterAfter(q: seq<Monster>, m: nat, n: nat)
    ensures After(After(q, m), n) == After(q, m + n)
  {
    if m + n <= |q| {
      assert q[m..][n..] == q[m + n..];
    }
  }

  /** Slot `s` after the bomb, `q` being the queue when the bomb reaches it. */
  function Swept(s: Slot, q: seq<Monster>): Slot {
    if Dies(s) then Refilled(q) else Blasted(s)
  }

  /** The bomber `p` credited, in order, with the drop of every monster the bomb kills in `ss`. */
  function Credits(p: Player, ss: seq<Slot>, doubleGold: bool): Player
    decreases |ss|
  {
    if |ss| == 0 then p
    else
      var p' := if Dies(ss[0]) then Credit(p, ss[0].monster.value.drop, doubleGold) else p;
      Credits(p', ss[1..], doubleGold)
  }

  /** The field the bomb's step on slot `j` leaves. */
  function SweepOne(f: Field, j: nat, k: nat, flags: Flags, mode: Mode): Field
    requires j < |f.slots| && k < |f.players|
  {
    var s := f.slots[j];
    if s.monster.None? || Locked(s) then f else Hit(f, j, k, 2, flags, mode)
  }

  /** The bomb's step on slot `j` sweeps that slot and shifts the queue once on a kill. */
  lemma SweepOneField(f: Field, j: nat, k: nat, flags: Flags, mode: Mode)
    requires j < |f.slots| && k < |f.players|
    ensures var g := SweepOne(f, j, k, flags, mode);
            && |g.slots| == |f.slots| && |g.players| == |f.players|
            && g.slots == f.slots[j := Swept(f.slots[j], f.queue)]
            && g.queue == After(f.queue, if Dies(f.slots[j]) then 1 else 0)
  {
    var s := f.slots[j];
    if s.monster.None? || Locked(s) {
      assert f.slots[j := Swept(s, f.queue)] == f.slots;
    }
  }

  /** The bomb's step on slot `j` pays the bomber alone, in commit mode, on a kill. */
  lemma SweepOnePays(f: Field, j: nat, k: nat, flags: Flags, mode: Mode)
    requires j < |f.slots| && k < |f.players|
    ensures var g := SweepOne(f, j, k, flags, mode);
            && |g.players| == |f.players|
            && (forall p :: 0 <= p < |f.players| && p != k ==> g.players[p] == f.players[p])
            && g.players[k] == if mode == Commit && Dies(f.slots[j])
                               then Credit(f.players[k], f.slots[j].monster.value.drop, flags.doubleGold)
                               else f.players[k]
  {
  }

  lemma DeathsStep(ss: seq<Slot>, j: nat, i: nat)
    requires j < i <= |ss|
    ensures Deaths(ss[j..i]) == (if Dies(ss[j]) then 1 else 0) + Deaths(ss[j + 1..i])
  {
    assert ss[j..i][1..] == ss[j + 1..i];
  }

  /** The queue the sweep from slot `j` leaves: one monster shifted out per kill. */
  lemma {:induction false} BombFromQueue(f: Field, j: nat, k: nat, flags: Flags, mode: Mode)
    requires j <= |f.slots| && k < |f.players|
    ensures BombFrom(f, j, k, flags, mode).queue == After(f.queue, Deaths(f.slots[j..]))
    decreases |f.slots| - j
  {
    if j == |f.slots| {
      assert f.slots[j..] == [];
    } else {
      var g := SweepOne(f, j, k, flags, mode);
      SweepOneField(f, j, k, flags, mode);
      BombFromQueue(g, j + 1, k, flags, mode);
      assert g.slots[j + 1..] == f.slots[j + 1..];
      DeathsStep(f.slots, j, |f.slots|);
      AfterAfter(f.queue, if Dies(f.slots[j]) then 1 else 0, Deaths(f.slots[j + 1..]));
    }
  }

  /** The players the sweep from slot `j` leaves: the bomber alone is credited, for every kill. */
  lemma {:induction false} BombFromPlayers(f: Field, j: nat, k: nat, flags: Flags, mode: Mode)
    requires j <= |f.slots| && k < |f.players|
    ensures var r := BombFrom(f, j, k, flags, mode);
            && (forall p :: 0 <= p < |f.players| && p != k ==> r.players[p] == f.players[p])
            && r.players[k] == if mode == Commit then Credits(f.players[k], f.slots[j..], flags.doubleGold) else f.players[k]
    decreases |f.slots| - j
  {
    if j == |f.slots| {
      assert f.slots[j..] == [];
    } else {
      var g := SweepOne(f, j, k, flags, mode);
      SweepOneField(f, j, k, flags, mode);
      SweepOnePays(f, j, k, flags, mode);
      BombFromPlayers(g, j + 1, k, flags, mode);
      assert g.slots[j + 1..] == f.slots[j + 1..];
      assert f.slots[j..][1..] == f.slots[j + 1..];
    }
  }

  /** Slot `i` after the sweep from slot `j`: as it was before `j`, `Swept` from `j` on. */
  lemma {:induction false} BombFromSlot(f: Field, j: nat, k: nat, i: nat, flags: Flags, mode: Mode)
    requires j <= |f.slots| && k < |f.players| && i < |f.slots|
    ensures BombFrom(f, j, k, flags, mode).slots[i]
         == if i < j then f.slots[i] else Swept(f.slots[i], After(f.queue, Deaths(f.slots[j..i])))
    decreases |f.slots| - j
  {
    if j < |f.slots| {
      var g := SweepOne(f, j, k, flags, mode);
      SweepOneField(f, j, k, flags, mode);
      BombFromSlot(g, j + 1, k, i, flags, mode);
      if i == j {
        assert f.slots[j..i] == [];
      } else if j < i {
        var d := if Dies(f.slots[j]) then 1 else 0;
        var rest := Deaths(f.slots[j + 1..i]);
        assert g.slots[j + 1..i] == f.slots[j + 1..i];
        DeathsStep(f.slots, j, i);
        AfterAfter(f.queue, d, rest);
        calc {
          BombFrom(f, j, k, flags, mode).slots[i];
          Swept(g.slots[i], After(g.queue, Deaths(g.slots[j + 1..i])));
          Swept(f.slots[i], After(After(f.queue, d), rest));
          Swept(f.slots[i], After(f.queue, Deaths(f.slots[j..i])));
        }
      }
    }
  }

  /**
   * The bomb's sweep from slot `j` on, kills included: each slot from `j` is `Swept` with the
   * queue as the kills before it left it, the queue loses one monster per kill, and in commit
   * mode the bomber, and no one else, is credited with every kill in slot order.
   */
  lemma BombFromSweeps(f: Field, j: nat, k: nat, flags: Flags, mode: Mode)
    requires j <= |f.slots| && k < |f.players|
    ensures var r := BombFrom(f, j, k, flags, mode);
            && |r.slots| == |f.slots| && |r.players| == |f.players|
            && r.queue == After(f.queue, Deaths(f.slots[j..]))
            && (forall i :: 0 <= i < j ==> r.slots[i] == f.slots[i])
            && (forall i :: j <= i < |f.slots| ==> r.slots[i] == Swept(f.slots[i], After(f.queue, Deaths(f.slots[j..i]))))
            && (forall p :: 0 <= p < |f.players| && p != k ==> r.players[p] == f.players[p])
            && r.players[k] == if mode == Commit then Credits(f.players[k], f.slots[j..], flags.doubleGold) else f.players[k]
  {
    BombFromQueue(f, j, k, flags, mode);
    BombFromPlayers(f, j, k, flags, mode);
    var r := BombFrom(f, j, k, flags, mode);
    forall i | 0 <= i < |f.slots|
      ensures r.slots[i] == if i < j then f.slots[i] else Swept(f.slots[i], After(f.queue, Deaths(f.slots[j..i])))
    {
      BombFromSlot(f, j, k, i, flags, mode);
    }
  }

  /** Whether the death check after the bomb fires on the target's monster `m` in slot `s`. */
  predicate Fires(s: Slot, m: Monster) {
    if Locked(s) then m.hp <= 0 else m.hp <= 2
  }

  lemma BombPlayQueue(g: Field, idx: nat, pi: nat, flags: Flags, mode: Mode)
    requires idx < |g.slots| && pi < |g.players| && g.slots[idx].monster.Some?
    ensures var n := Deaths(g.slots);
            BombPlay(g, idx, pi, flags, mode).queue
              == After(g.queue, if Fires(g.slots[idx], g.slots[idx].monster.value) then n + 1 else n)
  {
    var h := Spend(g, pi, BombSpell, mode);
    assert h.slots[0..] == g.slots;
    BombFromQueue(h, 0, pi, flags, mode);
    AfterAfter(g.queue, Deaths(g.slots), 1);
  }

  lemma BombPlaySlots(g: Field, idx: nat, pi: nat, flags: Flags, mode: Mode)
    requires idx < |g.slots| && pi < |g.players| && g.slots[idx].monster.Some?
    ensures var fires := Fires(g.slots[idx], g.slots[idx].monster.value);
            var r := BombPlay(g, idx, pi, flags, mode);
            && (forall i :: 0 <= i < |g.slots| && (i != idx || !fires) ==>
                  r.slots[i] == Swept(g.slots[i], After(g.queue, Deaths(g.slots[..i]))))
            && (fires ==> r.slots[idx] == Refilled(After(g.queue, Deaths(g.slots))))
  {
    var h := Spend(g, pi, BombSpell, mode);
    var fires := Fires(g.slots[idx], g.slots[idx].monster.value);
    var r := BombPlay(g, idx, pi, flags, mode);
    forall i | 0 <= i < |g.slots| && (i != idx || !fires)
      ensures r.slots[i] == Swept(g.slots[i], After(g.queue, Deaths(g.slots[..i])))
    {
      BombFromSlot(h, 0, pi, i, flags, mode);
      assert h.slots[0..i] == g.slots[..i];
    }
    if fires {
      assert h.slots[0..] == g.slots;
      BombFromQueue(h, 0, pi, flags, mode);
    }
  }

  lemma BombPlayPays(g: Field, idx: nat, pi: nat, flags: Flags, mode: Mode)
    requires idx < |g.slots| && pi < |g.players| && g.slots[idx].monster.Some?
    ensures var m := g.slots[idx].monster.value;
            var bomber := Credits(Spend(g, pi, BombSpell, Commit).players[pi], g.slots, flags.doubleGold);
            var r := BombPlay(g, idx, pi, flags, mode);
            && (forall p :: 0 <= p < |g.players| && p != pi ==> r.players[p] == g.players[p])
            && (mode == Commit ==> r.players[pi] == if Fires(g.slots[idx], m) then Credit(bomber, m.drop, flags.doubleGold) else bomber)
  {
    var h := Spend(g, pi, BombSpell, mode);
    assert h.slots[0..] == g.slots;
    BombFromPlayers(h, 0, pi, flags, mode);
  }

  /**
   * A bomb, kills included. Every slot (the actor's own lock on the target lifted first) is
   * `Swept`, each kill credited to the bomber and refilled from the queue in slot order, and
   * one bomb card is consumed in commit mode. Then the death check on the target's monster
   * fires when it is at HP 2 or below and unlocked, or at HP 0 or below and locked: it pays
   * the bomber that monster's drop once more and shifts one more queue monster into the slot.
   */
  lemma BombStrike(f: Field, a: AttackAction, flags: Flags, mode: Mode)
    requires Sound(f) && Proceeds(f, a) && a.card == Spell(BombSpell)
    ensures var idx := a.target.Index();
            var pi := FindPlayer(f.players, a.playerId).value;
            var g := Gated(f, a);
            var m := g.slots[idx].monster.value;
            var fires := Fires(g.slots[idx], m);
            var n := Deaths(g.slots);
            var bomber := Credits(Spend(g, pi, BombSpell, Commit).players[pi], g.slots, flags.doubleGold);
            var r := ApplyAction(f, a, flags, mode);
            && r.queue == After(f.queue, if fires then n + 1 else n)
            && (forall i :: 0 <= i < 3 && (i != idx || !fires) ==>
                  r.slots[i] == Swept(g.slots[i], After(f.queue, Deaths(g.slots[..i]))))
            && (fires ==> r.slots[idx] == Refilled(After(f.queue, n)))
            && (forall p :: 0 <= p < |f.players| && p != pi ==> r.players[p] == f.players[p])
            && (mode == Commit ==> r.players[pi] == if fires then Credit(bomber, m.drop, flags.doubleGold) else bomber)
  {
    var idx := a.target.Index();
    var pi := FindPlayer(f.players, a.playerId).value;
    var g := Gated(f, a);
    BombGoesAhead(f, a, flags, mode);
    BombPlayQueue(g, idx, pi, flags, mode);
    BombPlaySlots(g, idx, pi, flags, mode);
    BombPlayPays(g, idx, pi, flags, mode);
  }

  /** A bomb that proceeds is the bomb card played on the gated field. */
  lemma BombGoesAhead(f: Field, a: AttackAction, flags: Flags, mode: Mode)
    requires Sound(f) && Proceeds(f, a) && a.card == Spell(BombSpell)
    ensures ApplyAction(f, a, flags, mode)
         == BombPlay(Gated(f, a), a.target.Index(), FindPlayer(f.players, a.playerId).value, flags, mode)
  {
  }

  /** Only a bomb can make the committed resolution throw. */
  lemma {:induction false} OnlyBombsAbort(f: Field, actions: seq<AttackAction>, flags: Flags)
    requires Sound(f)
    requires forall k :: 0 <= k < |actions| ==> actions[k].card != Spell(BombSpell)
    ensures !Aborts(f, actions, flags)
    decreases |actions|
  {
    if |actions| > 0 {
      OnlyBombsAbort(Step(f, actions[0], flags, Commit), actions[1..], flags);
    }
  }

  lemma {:induction false} BombFromSkipsEmpty(f: Field, j: nat, k: nat, flags: Flags, mode: Mode)
    requires j <= |f.slots| && k < |f.players|
    requires forall i :: j <= i < |f.slots| ==> f.slots[i].monster.None?
    ensures BombFrom(f, j, k, flags, mode) == f
    decreases |f.slots| - j
  {
    if j < |f.slots| {
      BombFromSkipsEmpty(f, j + 1, k, flags, mode);
    }
  }

  lemma {:induction false} BombFromReaches(f: Field, j: nat, idx: nat, k: nat, flags: Flags, mode: Mode)
    requires j <= idx < |f.slots| && k < |f.players|
    requires forall i :: j <= i < idx ==> f.slots[i].monster.None?
    ensures BombFrom(f, j, k, flags, mode) == BombFrom(f, idx, k, flags, mode)
    decreases idx - j
  {
    if j < idx {
      BombFromReaches(f, j + 1, idx, k, flags, mode);
    }
  }

  /**
   * The source's bomb, when it kills the monster in its own target slot, runs the death
   * check on that monster twice: once in the bomb's loop and once in the generic check
   * after the card. The bomber is credited the loot twice, and two queue monsters are
   * shifted out, the first of which is overwritten by the second and lost.
   */
  lemma BombKillingItsTargetPaysTwice(f: Field, idx: nat, pi: nat, flags: Flags)
    requires idx < |f.slots| && pi < |f.players| && f.slots[idx].monster.Some?
    requires !Locked(f.slots[idx]) && f.slots[idx].monster.value.hp <= 2
    requires forall j :: 0 <= j < |f.slots| && j != idx ==> f.slots[j].monster.None?
    ensures var d := f.slots[idx].monster.value.drop;
            var r := BombPlay(f, idx, pi, flags, Commit);
            var once := if flags.doubleGold then 2 * d.gold else d.gold;
            && r.players[pi].loot.gold == f.players[pi].loot.gold + 2 * once
            && r.players[pi].loot.manaStone == f.players[pi].loot.manaStone + 2 * d.manaStone
            && r.queue == Shifted(Shifted(f.queue))
            && r.slots[idx] == Refilled(Shifted(f.queue))
  {
    var d := f.slots[idx].monster.value.drop;
    var f1 := Spend(f, pi, BombSpell, Commit);
    BombFromReaches(f1, 0, idx, pi, flags, Commit);
    var f2 := Hit(f1, idx, pi, 2, flags, Commit);
    assert f2 == Kill(f1, idx, pi, d, flags, Commit);
    BombFromSkipsEmpty(f2, idx + 1, pi, flags, Commit);
    assert BombFrom(f1, 0, pi, flags, Commit) == f2;
  }

  lemma {:induction false} TickFromPast(f: Field, j: nat, i: nat, flags: Flags, mode: Mode)
    requires i < j <= |f.slots|
    ensures TickFrom(f, j, flags, mode).slots[i] == f.slots[i]
    decreases |f.slots| - j
  {
    if j < |f.slots| {
      TickFromPast(TickSlot(f, j, flags, mode), j + 1, i, flags, mode);
    }
  }

  lemma {:induction false} QuietSlotUntouched(f: Field, j: nat, i: nat, flags: Flags, mode: Mode)
    requires j <= |f.slots| && i < |f.slots| && Culprit(f.slots[i], f.players).None?
    ensures TickFrom(f, j, flags, mode).slots[i] == f.slots[i]
    decreases |f.slots| - j
  {
    if j < |f.slots| {
      var g := TickSlot(f, j, flags, mode);
      CulpritIgnoresLoot(f.slots[i], f.players, g.players);
      QuietSlotUntouched(g, j + 1, i, flags, mode);
    }
  }

  /** A monster after one poison tick that it survives. */
  function Sickened(s: Slot): Slot
    requires s.monster.Some?
  {
    s.(monster := Some(Wounded(s.monster.value, 1)))
  }

  lemma TickFromWoundsHere(f: Field, i: nat, flags: Flags, mode: Mode)
    requires i < |f.slots| && Culprit(f.slots[i], f.players).Some?
    requires f.slots[i].monster.value.hp > 1
    ensures TickFrom(f, i, flags, mode).slots[i] == Sickened(f.slots[i])
  {
    var k := Culprit(f.slots[i], f.players).value;
    var g := TickSlot(f, i, flags, mode);
    assert g == Hit(f, i, k, 1, flags, mode);
    assert g.slots[i] == Sickened(f.slots[i]);
    TickFromPast(g, i + 1, i, flags, mode);
  }

  /** The field the ticks on slots `j` to `i - 1` leave: slot `i` and the fighters are as before. */
  lemma TicksBefore(f: Field, j: nat, i: nat, flags: Flags, mode: Mode) returns (g: Field)
    requires j <= i < |f.slots|
    ensures |g.slots| == |f.slots| && g.slots[i] == f.slots[i] && SameFighters(f.players, g.players)
    ensures TickFrom(g, i, flags, mode).slots[i] == TickFrom(f, j, flags, mode).slots[i]
  {
    var k := j;
    g := f;
    while k < i
      invariant k <= i && |g.slots| == |f.slots| && g.slots[i] == f.slots[i]
      invariant SameFighters(f.players, g.players)
      invariant TickFrom(g, k, flags, mode).slots[i] == TickFrom(f, j, flags, mode).slots[i]
    {
      g, k := TickSlot(g, k, flags, mode), k + 1;
    }
  }

  lemma TickedSlotLosesOne(f: Field, j: nat, i: nat, flags: Flags, mode: Mode)
    requires j <= i < |f.slots| && Culprit(f.slots[i], f.players).Some?
    requires f.slots[i].monster.value.hp > 1
    ensures TickFrom(f, j, flags, mode).slots[i] == Sickened(f.slots[i])
  {
    var g := TicksBefore(f, j, i, flags, mode);
    CulpritIgnoresLoot(f.slots[i], f.players, g.players);
    TickFromWoundsHere(g, i, flags, mode);
  }

  /**
   * The poison tick before an action, seen from one slot: a slot that is empty, unpoisoned,
   * ice-locked or whose poisoners have all left is unchanged; a slot that ticks and survives
   * loses exactly 1 HP and keeps its poisoners and lock, whatever happens in other slots.
   */
  lemma PoisonTickOnSlot(f: Field, i: nat, flags: Flags, mode: Mode)
    requires i < |f.slots|
    ensures Culprit(f.slots[i], f.players).None? ==> PoisonTick(f, flags, mode).slots[i] == f.slots[i]
    ensures Culprit(f.slots[i], f.players).Some? && f.slots[i].monster.value.hp > 1 ==>
              PoisonTick(f, flags, mode).slots[i] == Sickened(f.slots[i])
  {
    if Culprit(f.slots[i], f.players).None? {
      QuietSlotUntouched(f, 0, i, flags, mode);
    } else if f.slots[i].monster.value.hp > 1 {
      TickedSlotLosesOne(f, 0, i, flags, mode);
    }
  }

  /**
   * A tick that kills is credited to the culprit, the first listed poisoner still playing:
   * the culprit gets the loot and the slot is refilled from the queue.
   */
  lemma PoisonKillCredited(f: Field, i: nat, flags: Flags, mode: Mode)
    requires i < |f.slots| && Culprit(f.slots[i], f.players).Some?
    requires f.slots[i].monster.value.hp <= 1
    ensures TickSlot(f, i, flags, mode)
         == Kill(f, i, Culprit(f.slots[i], f.players).value, f.slots[i].monster.value.drop, flags, mode)
  {
  }
}
