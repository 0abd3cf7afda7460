/**
 * How the preview relates to the committed resolution: it never touches the players, and
 * it forecasts exactly the committed battlefield and queue unless a wand action uses the
 * element an event has disabled, which only the committed resolution checks.
 */
module PreviewFacts {
  import opened Wrappers
  import opened Elements
  import opened Entities
  import opened Skills
  import opened Combat

  /** A committed field `f` and a previewed field `g` that show the same battlefield. */
  predicate Agree(f: Field, g: Field) {
    f.slots == g.slots && f.queue == g.queue && SameFighters(f.players, g.players)
  }

  /** No action plays a wand whose element the event flags disable. */
  predicate NoDisabledWand(actions: seq<AttackAction>, flags: Flags) {
    forall k :: 0 <= k < |actions| ==>
      !(actions[k].card.Wand? && flags.disableElement == Some(actions[k].card.element))
  }

  lemma SameFightersTransitive(a: seq<Player>, b: seq<Player>, c: seq<Player>)
    requires SameFighters(a, b) && SameFighters(b, c)
    ensures SameFighters(a, c) && SameFighters(c, a)
  {
  }

  lemma HitAgrees(f: Field, g: Field, i: nat, k: nat, dmg: int, flags: Flags)
    requires Agree(f, g) && i < |f.slots| && k < |f.players| && f.slots[i].monster.Some?
    ensures Agree(Hit(f, i, k, dmg, flags, Commit), Hit(g, i, k, dmg, flags, Preview))
  {
    var r, r' := Hit(f, i, k, dmg, flags, Commit), Hit(g, i, k, dmg, flags, Preview);
    SameFightersTransitive(r.players, f.players, g.players);
    SameFightersTransitive(r.players, g.players, r'.players);
  }

  lemma TickSlotAgrees(f: Field, g: Field, i: nat, flags: Flags)
    requires Agree(f, g) && i < |f.slots|
    ensures Agree(TickSlot(f, i, flags, Commit), TickSlot(g, i, flags, Preview))
  {
    var s := f.slots[i];
    CulpritIgnoresLoot(s, f.players, g.players);
    var c := Culprit(s, f.players);
    if c.Some? {
      HitAgrees(f, g, i, c.value, 1, flags);
    }
  }

  lemma {:induction false} TickFromAgrees(f: Field, g: Field, i: nat, flags: Flags)
    requires Agree(f, g) && i <= |f.slots|
    ensures Agree(TickFrom(f, i, flags, Commit), TickFrom(g, i, flags, Preview))
    decreases |f.slots| - i
  {
    if i < |f.slots| {
      TickSlotAgrees(f, g, i, flags);
      TickFromAgrees(TickSlot(f, i, flags, Commit), TickSlot(g, i, flags, Preview), i + 1, flags);
    }
  }

  lemma {:induction false} BombFromAgrees(f: Field, g: Field, j: nat, k: nat, flags: Flags)
    requires Agree(f, g) && j <= |f.slots| && k < |f.players|
    ensures Agree(BombFrom(f, j, k, flags, Commit), BombFrom(g, j, k, flags, Preview))
    decreases |f.slots| - j
  {
    if j < |f.slots| {
      var s := f.slots[j];
      if s.monster.None? || Locked(s) {
        BombFromAgrees(f, g, j + 1, k, flags);
      } else {
        HitAgrees(f, g, j, k, 2, flags);
        BombFromAgrees(Hit(f, j, k, 2, flags, Commit), Hit(g, j, k, 2, flags, Preview), j + 1, k, flags);
      }
    }
  }

  lemma SpendAgrees(f: Field, g: Field, k: nat, c: SpellCard)
    requires Agree(f, g) && k < |f.players|
    ensures Agree(Spend(f, k, c, Commit), g)
  {
    SameFightersTransitive(Spend(f, k, c, Commit).players, f.players, g.players);
  }

  lemma KillAgrees(f: Field, g: Field, i: nat, k: nat, d: Drop, flags: Flags)
    requires Agree(f, g) && i < |f.slots| && k < |f.players|
    ensures Agree(Kill(f, i, k, d, flags, Commit), Kill(g, i, k, d, flags, Preview))
  {
    SameFightersTransitive(Kill(f, i, k, d, flags, Commit).players, f.players, g.players);
  }

  lemma WandPlayAgrees(f: Field, g: Field, idx: nat, pi: nat, e: PlayerElement, flags: Flags)
    requires Agree(f, g) && idx < |f.slots| && pi < |f.players| && f.slots[idx].monster.Some?
    requires flags.disableElement != Some(e)
    ensures Agree(WandPlay(f, idx, pi, e, flags, Commit), WandPlay(g, idx, pi, e, flags, Preview))
  {
    HitAgrees(f, g, idx, pi, WandDamage(f.players[pi].attack.Of(e), e, f.slots[idx].monster.value.element,
                                        flags.allAttackNeutral), flags);
  }

  lemma IcePlayAgrees(f: Field, g: Field, idx: nat, pi: nat, flags: Flags)
    requires Agree(f, g) && idx < |f.slots| && pi < |f.players| && f.slots[idx].monster.Some?
    ensures Agree(IcePlay(f, idx, pi, flags, Commit), IcePlay(g, idx, pi, flags, Preview))
  {
    var s := f.slots[idx].(lastIcedBy := Some(f.players[pi].id));
    var f2 := f.(slots := f.slots[idx := s]);
    var g2 := g.(slots := g.slots[idx := s]);
    SpendAgrees(f2, g2, pi, IceSpell);
    HitAgrees(Spend(f2, pi, IceSpell, Commit), g2, idx, pi, 2, flags);
  }

  lemma PoisonPlayAgrees(f: Field, g: Field, idx: nat, pi: nat, flags: Flags)
    requires Agree(f, g) && idx < |f.slots| && pi < |f.players| && f.slots[idx].monster.Some?
    ensures Agree(PoisonPlay(f, idx, pi, flags, Commit), PoisonPlay(g, idx, pi, flags, Preview))
  {
    var s := f.slots[idx];
    var s2 := s.(poisonedBy := Some(AddPoisoner(s.poisonedBy, f.players[pi].id)));
    var f2 := f.(slots := f.slots[idx := s2]);
    var g2 := g.(slots := g.slots[idx := s2]);
    SpendAgrees(f2, g2, pi, PoisonSpell);
    KillAgrees(Spend(f2, pi, PoisonSpell, Commit), g2, idx, pi, s.monster.value.drop, flags);
  }

  lemma BombPlayAgrees(f: Field, g: Field, idx: nat, pi: nat, flags: Flags)
    requires Agree(f, g) && idx < |f.slots| && pi < |f.players| && f.slots[idx].monster.Some?
    ensures Agree(BombPlay(f, idx, pi, flags, Commit), BombPlay(g, idx, pi, flags, Preview))
  {
    SpendAgrees(f, g, pi, BombSpell);
    var f2 := BombFrom(Spend(f, pi, BombSpell, Commit), 0, pi, flags, Commit);
    var g2 := BombFrom(g, 0, pi, flags, Preview);
    BombFromAgrees(Spend(f, pi, BombSpell, Commit), g, 0, pi, flags);
    KillAgrees(f2, g2, idx, pi, f.slots[idx].monster.value.drop, flags);
  }

  lemma ApplyActionAgrees(f: Field, g: Field, a: AttackAction, flags: Flags)
    requires Sound(f) && Agree(f, g)
    requires !(a.card.Wand? && flags.disableElement == Some(a.card.element))
    ensures Agree(ApplyAction(f, a, flags, Commit), ApplyAction(g, a, flags, Preview))
  {
    var idx := a.target.Index();
    var s := f.slots[idx];
    FindPlayerIgnoresLoot(f.players, g.players, a.playerId);
    var found := FindPlayer(f.players, a.playerId);
    if s.monster.Some? && found.Some? && !Nullified(s, a) {
      var pi := found.value;
      var f1 := f.(slots := f.slots[idx := Unlocked(s, a.playerId)]);
      var g1 := g.(slots := g.slots[idx := Unlocked(s, a.playerId)]);
      assert Agree(f1, g1);
      match a.card
      case Wand(e) => WandPlayAgrees(f1, g1, idx, pi, e, flags);
      case Spell(IceSpell) => IcePlayAgrees(f1, g1, idx, pi, flags);
      case Spell(PoisonSpell) => PoisonPlayAgrees(f1, g1, idx, pi, flags);
      case Spell(BombSpell) => BombPlayAgrees(f1, g1, idx, pi, flags);
    }
  }

  lemma {:induction false} ResolveAgrees(f: Field, g: Field, actions: seq<AttackAction>, flags: Flags)
    requires Sound(f) && Agree(f, g) && NoDisabledWand(actions, flags)
    ensures Agree(Resolve(f, actions, flags, Commit), Resolve(g, actions, flags, Preview))
    decreases |actions|
  {
    if |actions| > 0 {
      TickFromAgrees(f, g, 0, flags);
      ApplyActionAgrees(PoisonTick(f, flags, Commit), PoisonTick(g, flags, Preview), actions[0], flags);
      ResolveAgrees(Step(f, actions[0], flags, Commit), Step(g, actions[0], flags, Preview), actions[1..], flags);
    }
  }

  /**
   * The preview shows exactly the battlefield and queue the committed resolution will
   * produce, as long as no wand action uses an element disabled by the current event.
   */
  lemma PreviewForecastsCommit(f: Field, actions: seq<AttackAction>, flags: Flags)
    requires Sound(f) && NoDisabledWand(actions, flags)
    ensures Resolve(f, actions, flags, Preview).slots == Resolve(f, actions, flags, Commit).slots
    ensures Resolve(f, actions, flags, Preview).queue == Resolve(f, actions, flags, Commit).queue
  {
    ResolveAgrees(f, f, actions, flags);
  }

  /**
   * Without that condition the forecast can be wrong: with fire disabled, a player's fire
   * wand leaves a wood monster untouched when committed, while the preview shows it doubled
   * (3 fire attack, 6 damage).
   */
  lemma PreviewIgnoresDisabledElement()
    ensures var m := Monster(10, 10, "m", Wood, Drop(1, 1, None), None);
            var f := Field([Player(1, Attack(3, 0, 0), Loot(0, 3, Cards(1, 0, 0, 0)))],
                           [Slot(Some(m), None, None), EmptySlot, EmptySlot], []);
            var actions := [AttackAction(1, A, Wand(Fire))];
            var flags := NeutralFlags.(disableElement := Some(Fire));
            && Resolve(f, actions, flags, Commit).slots[0].monster == Some(m)
            && Resolve(f, actions, flags, Preview).slots[0].monster == Some(m.(hp := 4))
  {
    var m := Monster(10, 10, "m", Wood, Drop(1, 1, None), None);
    var f := Field([Player(1, Attack(3, 0, 0), Loot(0, 3, Cards(1, 0, 0, 0)))],
                   [Slot(Some(m), None, None), EmptySlot, EmptySlot], []);
    var a := AttackAction(1, A, Wand(Fire));
    var flags := NeutralFlags.(disableElement := Some(Fire));
    assert PoisonTick(f, flags, Commit) == f by {
      assert TickFrom(f, 0, flags, Commit) == TickFrom(f, 1, flags, Commit);
      assert TickFrom(f, 1, flags, Commit) == TickFrom(f, 2, flags, Commit);
      assert TickFrom(f, 2, flags, Commit) == TickFrom(f, 3, flags, Commit);
    }
    assert PoisonTick(f, flags, Preview) == f by {
      assert TickFrom(f, 0, flags, Preview) == TickFrom(f, 1, flags, Preview);
      assert TickFrom(f, 1, flags, Preview) == TickFrom(f, 2, flags, Preview);
      assert TickFrom(f, 2, flags, Preview) == TickFrom(f, 3, flags, Preview);
    }
    assert FindPlayer(f.players, 1) == Some(0);
    assert Resolve(f, [a], flags, Commit) == ApplyAction(f, a, flags, Commit);
    assert Resolve(f, [a], flags, Preview) == ApplyAction(f, a, flags, Preview);
  }

  /**
   * The committed bomb throws where the preview does not: players 1 and 2, a monster in
   * slot A locked by player 2, and player 1 bombing slot B. The log of A's lock reads
   * position 2 of a two-player roster, so the commit aborts, while the preview shows B's
   * monster blasted. The same lock held by player 1 reads position 1 and does not abort.
   */
  lemma HighestIdLockAbortsBomb()
    ensures var m := Monster(5, 5, "m", Fire, Drop(1, 0, None), None);
            var ps := [Player(1, Attack(1, 1, 1), Loot(0, 0, Cards(1, 0, 1, 0))),
                       Player(2, Attack(1, 1, 1), Loot(0, 0, Cards(1, 0, 1, 0)))];
            var a := AttackAction(1, B, Spell(BombSpell));
            && Aborts(Field(ps, [Slot(Some(m), None, Some(2)), Slot(Some(m), None, None), EmptySlot], []), [a], NeutralFlags)
            && !Aborts(Field(ps, [Slot(Some(m), None, Some(1)), Slot(Some(m), None, None), EmptySlot], []), [a], NeutralFlags)
            && Resolve(Field(ps, [Slot(Some(m), None, Some(2)), Slot(Some(m), None, None), EmptySlot], []), [a], NeutralFlags, Preview)
                 .slots[1].monster == Some(m.(hp := 3))
  {
    var m := Monster(5, 5, "m", Fire, Drop(1, 0, None), None);
    var ps := [Player(1, Attack(1, 1, 1), Loot(0, 0, Cards(1, 0, 1, 0))),
               Player(2, Attack(1, 1, 1), Loot(0, 0, Cards(1, 0, 1, 0)))];
    var a := AttackAction(1, B, Spell(BombSpell));
    var flags := NeutralFlags;
    var f := Field(ps, [Slot(Some(m), None, Some(2)), Slot(Some(m), None, None), EmptySlot], []);
    var h := Field(ps, [Slot(Some(m), None, Some(1)), Slot(Some(m), None, None), EmptySlot], []);
    assert FindPlayer(ps, 1) == Some(0);
    assert PoisonTick(f, flags, Commit) == f by {
      assert TickFrom(f, 0, flags, Commit) == TickFrom(f, 1, flags, Commit);
      assert TickFrom(f, 1, flags, Commit) == TickFrom(f, 2, flags, Commit);
      assert TickFrom(f, 2, flags, Commit) == TickFrom(f, 3, flags, Commit);
    }
    var gated := f.(slots := f.slots[1 := Unlocked(f.slots[1], 1)]);
    assert Crashes(gated.slots[0], |gated.players|);
    assert ActionCrashes(f, a);
    assert PoisonTick(h, flags, Commit) == h by {
      assert TickFrom(h, 0, flags, Commit) == TickFrom(h, 1, flags, Commit);
      assert TickFrom(h, 1, flags, Commit) == TickFrom(h, 2, flags, Commit);
      assert TickFrom(h, 2, flags, Commit) == TickFrom(h, 3, flags, Commit);
    }
    assert !ActionCrashes(h, a);
    assert PoisonTick(f, flags, Preview) == f by {
      assert TickFrom(f, 0, flags, Preview) == TickFrom(f, 1, flags, Preview);
      assert TickFrom(f, 1, flags, Preview) == TickFrom(f, 2, flags, Preview);
      assert TickFrom(f, 2, flags, Preview) == TickFrom(f, 3, flags, Preview);
    }
    var b := BombFrom(f, 0, 0, flags, Preview);
    assert b == BombFrom(f, 1, 0, flags, Preview);
    assert b.slots[1].monster == Some(m.(hp := 3)) by {
      var g := Hit(f, 1, 0, 2, flags, Preview);
      assert g.slots[1].monster == Some(m.(hp := 3));
      assert b == BombFrom(g, 2, 0, flags, Preview);
      assert BombFrom(g, 2, 0, flags, Preview) == BombFrom(g, 3, 0, flags, Preview);
    }
    assert f.slots[1 := Unlocked(f.slots[1], 1)] == f.slots;
    assert ApplyAction(f, a, flags, Preview) == BombPlay(f, 1, 0, flags, Preview);
    assert Resolve(f, [a], flags, Preview) == ApplyAction(f, a, flags, Preview);
  }
}
