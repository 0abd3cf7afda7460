/**
 * The combat resolver as a specification: one resolution core over a `Field` (the players,
 * the three slots and the queue), parametrised by a `Mode`. `Commit` is the resolution run
 * when the Action phase ends; `Preview` is the forecast shown while actions are pending,
 * which credits no loot, consumes no cards and ignores the disabled-element flag.
 */
module Combat {
  import opened Wrappers
  import opened Elements
  import opened Entities
  import opened Skills

  datatype Mode = Commit | Preview

  /** The state one resolution works on: the source's cloned players, slots and queue. */
  datatype Field = Field(players: seq<Player>, slots: seq<Slot>, queue: seq<Monster>)

  /** A battlefield with its three slots. */
  predicate Sound(f: Field) {
    |f.slots| == 3
  }

  /**
   * Whether a slot's ice lock is in force: the source tests `slot.lastIcedBy` for
   * truthiness, so a lock recorded for id 0 does not count.
   */
  predicate Locked(s: Slot) {
    s.lastIcedBy.Some? && s.lastIcedBy.value != 0
  }

  /** A killer's loot after a kill: gold (doubled under 掏金熱), mana stones and the dropped card. */
  function Credit(p: Player, d: Drop, doubleGold: bool): (r: Player)
    ensures r.id == p.id && r.attack == p.attack
    ensures r.loot.gold == p.loot.gold + if doubleGold then 2 * d.gold else d.gold
    ensures r.loot.manaStone == p.loot.manaStone + d.manaStone
    ensures r.loot.cards.wand == p.loot.cards.wand
    ensures forall c :: r.loot.cards.Count(c) == p.loot.cards.Count(c) + if d.card == Some(c) then 1 else 0
  {
    var gold := if doubleGold then d.gold * 2 else d.gold;
    var cards := if d.card.Some? then p.loot.cards.Add(d.card.value, 1) else p.loot.cards;
    p.(loot := Loot(p.loot.gold + gold, p.loot.manaStone + d.manaStone, cards))
  }

  /** The slot a kill leaves: the queue front, or nothing, with poison and ice cleared. */
  function Refilled(q: seq<Monster>): (s: Slot)
    ensures s.poisonedBy.None? && s.lastIcedBy.None?
    ensures s.monster.Some? <==> |q| > 0
    ensures |q| > 0 ==> s.monster.value == q[0]
  {
    Slot(if |q| > 0 then Some(q[0]) else None, None, None)
  }

  /** The queue after JavaScript's `shift()`: the front removed, if there is one. */
  function Shifted(q: seq<Monster>): (r: seq<Monster>)
    ensures |q| > 0 ==> r == q[1..]
    ensures |q| == 0 ==> r == []
  {
    if |q| > 0 then q[1..] else []
  }

  /**
   * The monster in slot `i`, dropping `d`, dies, killed by the player at position `killer`:
   * in commit mode the killer is credited, and the slot takes the queue front with its
   * status cleared.
   */
  function Kill(f: Field, i: nat, killer: nat, d: Drop, flags: Flags, mode: Mode): (r: Field)
    requires i < |f.slots| && killer < |f.players|
    ensures |r.slots| == |f.slots| && |r.players| == |f.players|
    ensures r.slots[i] == Refilled(f.queue)
    ensures forall j :: 0 <= j < |f.slots| && j != i ==> r.slots[j] == f.slots[j]
    ensures |f.queue| > 0 ==> r.queue == f.queue[1..]
    ensures |f.queue| == 0 ==> r.queue == []
    ensures forall k :: 0 <= k < |f.players| && k != killer ==> r.players[k] == f.players[k]
    ensures mode == Commit ==> r.players[killer] == Credit(f.players[killer], d, flags.doubleGold)
    ensures mode == Preview ==> r.players == f.players
    ensures SameFighters(f.players, r.players)
  {
    var ps := if mode == Commit then f.players[killer := Credit(f.players[killer], d, flags.doubleGold)]
              else f.players;
    Field(ps, f.slots[i := Refilled(f.queue)], Shifted(f.queue))
  }

  /** A monster after `dmg` damage and its on-hit skill. */
  function Wounded(m: Monster, dmg: int): (r: Monster)
    ensures r.hp == m.hp - dmg
    ensures r == m.(hp := r.hp, element := r.element)
  {
    ApplySkill(m.(hp := m.hp - dmg), OnHit)
  }

  /**
   * `dmg` damage to the monster in slot `i` (the acting player being `killer`), then the
   * monster's on-hit skill, then the death check.
   */
  function Hit(f: Field, i: nat, killer: nat, dmg: int, flags: Flags, mode: Mode): (r: Field)
    requires i < |f.slots| && killer < |f.players| && f.slots[i].monster.Some?
    ensures |r.slots| == |f.slots| && SameFighters(f.players, r.players)
    ensures forall j :: 0 <= j < |f.slots| && j != i ==> r.slots[j] == f.slots[j]
    ensures mode == Preview ==> r.players == f.players
  {
    var s := f.slots[i];
    var m := Wounded(s.monster.value, dmg);
    if m.hp <= 0 then Kill(f, i, killer, m.drop, flags, mode)
    else f.(slots := f.slots[i := s.(monster := Some(m))])
  }

  /**
   * The position in `ids` of the first poisoner who is still a player (the source's loop
   * that skips missing players and stops at the first one found), or `|ids|` if none is.
   */
  function FirstPresent(ids: seq<int>, ps: seq<Player>): (j: nat)
    ensures j <= |ids|
    ensures forall l :: 0 <= l < j ==> FindPlayer(ps, ids[l]).None?
    ensures j < |ids| ==> FindPlayer(ps, ids[j]).Some?
  {
    if |ids| == 0 then 0
    else if FindPlayer(ps, ids[0]).Some? then 0
    else 1 + FirstPresent(ids[1..], ps)
  }

  /** Whether slot `s` takes a poison tick: occupied, poisoned and not ice-locked. */
  predicate Ticks(s: Slot) {
    s.monster.Some? && s.poisonedBy.Some? && !Locked(s)
  }

  /**
   * The player a poison tick on slot `s` is attributed to: the first id in its poisoner
   * list that is still a player; none when the slot does not tick or no poisoner is left.
   */
  function Culprit(s: Slot, ps: seq<Player>): (r: Option<nat>)
    ensures r.Some? ==> Ticks(s) && r.value < |ps|
    ensures r.Some? ==> var j := FirstPresent(s.poisonedBy.value, ps);
                        j < |s.poisonedBy.value| && ps[r.value].id == s.poisonedBy.value[j]
    ensures r.None? <==> !Ticks(s) || forall j :: 0 <= j < |s.poisonedBy.value| ==>
                                                FindPlayer(ps, s.poisonedBy.value[j]).None?
  {
    if !Ticks(s) then None
    else
      var ids := s.poisonedBy.value;
      var j := FirstPresent(ids, ps);
      if j == |ids| then None else FindPlayer(ps, ids[j])
  }

  /** Loot changes never change whom a poison tick is attributed to. */
  lemma {:induction false} FirstPresentIgnoresLoot(ids: seq<int>, ps: seq<Player>, qs: seq<Player>)
    requires SameFighters(ps, qs)
    ensures FirstPresent(ids, ps) == FirstPresent(ids, qs)
  {
    if |ids| > 0 {
      FindPlayerIgnoresLoot(ps, qs, ids[0]);
      FirstPresentIgnoresLoot(ids[1..], ps, qs);
    }
  }

  lemma CulpritIgnoresLoot(s: Slot, ps: seq<Player>, qs: seq<Player>)
    requires SameFighters(ps, qs)
    ensures Culprit(s, ps) == Culprit(s, qs)
  {
    if Ticks(s) {
      var ids := s.poisonedBy.value;
      FirstPresentIgnoresLoot(ids, ps, qs);
      var j := FirstPresent(ids, ps);
      if j < |ids| {
        FindPlayerIgnoresLoot(ps, qs, ids[j]);
      }
    }
  }

  /** The poison tick on slot `i`: 1 damage attributed to the tick's culprit. */
  function TickSlot(f: Field, i: nat, flags: Flags, mode: Mode): (r: Field)
    requires i < |f.slots|
    ensures |r.slots| == |f.slots| && SameFighters(f.players, r.players)
    ensures forall j :: 0 <= j < |f.slots| && j != i ==> r.slots[j] == f.slots[j]
    ensures mode == Preview ==> r.players == f.players
  {
    match Culprit(f.slots[i], f.players)
    case None => f
    case Some(k) => Hit(f, i, k, 1, flags, mode)
  }

  /** The poison ticks on slots `i`, `i + 1`, ... in order. */
  function TickFrom(f: Field, i: nat, flags: Flags, mode: Mode): (r: Field)
    requires i <= |f.slots|
    ensures |r.slots| == |f.slots| && SameFighters(f.players, r.players)
    ensures mode == Preview ==> r.players == f.players
    decreases |f.slots| - i
  {
    if i == |f.slots| then f
    else TickFrom(TickSlot(f, i, flags, mode), i + 1, flags, mode)
  }

  /** The source's `resolvePoisonDamage`, run before every action. */
  function PoisonTick(f: Field, flags: Flags, mode: Mode): (r: Field)
    ensures |r.slots| == |f.slots| && SameFighters(f.players, r.players)
    ensures mode == Preview ==> r.players == f.players
  {
    TickFrom(f, 0, flags, mode)
  }

  /**
   * Whether the committed bomb throws on reaching slot `s`: its log of an ice lock reads
   * `players[lastIcedBy].name`, indexing a roster of `roster` players by the locking
   * player's id, and that fails when the id is not a position in the roster. Ids run from 1,
   * so a lock by the player with the highest id is one that fails.
   */
  predicate Crashes(s: Slot, roster: nat) {
    s.monster.Some? && Locked(s) && !(0 <= s.lastIcedBy.value < roster)
  }

  /**
   * Whether the committed bomb sweep from slot `j` on throws. The sweep only ever changes
   * the slot it stands on, so the slots still ahead of it are those of `f`.
   */
  predicate CrashesFrom(f: Field, j: nat) {
    exists k :: j <= k < |f.slots| && Crashes(f.slots[k], |f.players|)
  }

  /**
   * The bomb on slots `j`, `j + 1`, ...: 2 damage to each occupied slot without an ice lock.
   * This is the sweep as it runs to its end; a committed sweep does that exactly when
   * `CrashesFrom(f, j)` does not hold, and otherwise throws.
   */
  function BombFrom(f: Field, j: nat, bomber: nat, flags: Flags, mode: Mode): (r: Field)
    requires j <= |f.slots| && bomber < |f.players|
    ensures |r.slots| == |f.slots| && SameFighters(f.players, r.players)
    ensures mode == Preview ==> r.players == f.players
    decreases |f.slots| - j
  {
    if j == |f.slots| then f
    else
      var s := f.slots[j];
      var f' := if s.monster.None? || Locked(s) then f else Hit(f, j, bomber, 2, flags, mode);
      BombFrom(f', j + 1, bomber, flags, mode)
  }

  /** One spell card of kind `c` taken from the player at `k`, in commit mode, with no floor. */
  function Spend(f: Field, k: nat, c: SpellCard, mode: Mode): (r: Field)
    requires k < |f.players|
    ensures r.slots == f.slots && r.queue == f.queue && SameFighters(f.players, r.players)
    ensures mode == Preview ==> r == f
    ensures mode == Commit ==> r.players == f.players[k := r.players[k]]
    ensures mode == Commit ==> r.players[k].loot == f.players[k].loot.(cards := f.players[k].loot.cards.Add(c, -1))
  {
    if mode == Preview then f
    else
      var p := f.players[k];
      f.(players := f.players[k := p.(loot := p.loot.(cards := p.loot.cards.Add(c, -1)))])
  }

  /** The poisoner list after `id` casts poison: appended if absent, unchanged otherwise. */
  function AddPoisoner(list: Option<seq<int>>, id: int): (r: seq<int>)
    ensures id in r
    ensures list.Some? ==> |list.value| <= |r| && r[..|list.value|] == list.value
    ensures list.Some? && id in list.value ==> r == list.value
    ensures list.Some? && id !in list.value ==> r == list.value + [id]
    ensures list.None? ==> r == [id]
  {
    var ids := list.GetOr([]);
    if id in ids then ids else ids + [id]
  }

  /** The slot that action `a` targets. */
  function TargetSlot(f: Field, a: AttackAction): Slot
    requires Sound(f)
  {
    f.slots[a.target.Index()]
  }

  /**
   * Whether another player's ice lock nullifies action `a` on its target: the slot is locked
   * by someone else and the card is not the bomb.
   */
  predicate Nullified(s: Slot, a: AttackAction) {
    s.lastIcedBy != Some(a.playerId) && Locked(s) && a.card != Spell(BombSpell)
  }

  /** The target slot once the acting player's own ice lock, if any, is lifted. */
  function Unlocked(s: Slot, id: int): Slot {
    if s.lastIcedBy == Some(id) then s.(lastIcedBy := None) else s
  }

  /** A wand of element `e` played by the player at `pi` on slot `idx` (its lock already handled). */
  function WandPlay(f: Field, idx: nat, pi: nat, e: PlayerElement, flags: Flags, mode: Mode): (r: Field)
    requires idx < |f.slots| && pi < |f.players| && f.slots[idx].monster.Some?
    ensures |r.slots| == |f.slots| && SameFighters(f.players, r.players)
    ensures mode == Preview ==> r.players == f.players
  {
    if mode == Commit && flags.disableElement == Some(e) then f
    else
      var target := f.slots[idx].monster.value;
      var dmg := WandDamage(f.players[pi].attack.Of(e), e, target.element, flags.allAttackNeutral);
      Hit(f, idx, pi, dmg, flags, mode)
  }

  /** An ice spell: the slot becomes locked by the caster, then takes 2 damage. */
  function IcePlay(f: Field, idx: nat, pi: nat, flags: Flags, mode: Mode): (r: Field)
    requires idx < |f.slots| && pi < |f.players| && f.slots[idx].monster.Some?
    ensures |r.slots| == |f.slots| && SameFighters(f.players, r.players)
    ensures mode == Preview ==> r.players == f.players
  {
    var s := f.slots[idx];
    var f2 := Spend(f.(slots := f.slots[idx := s.(lastIcedBy := Some(f.players[pi].id))]), pi, IceSpell, mode);
    Hit(f2, idx, pi, 2, flags, mode)
  }

  /** A poison spell: the caster joins the slot's poisoners; no damage, only the death check. */
  function PoisonPlay(f: Field, idx: nat, pi: nat, flags: Flags, mode: Mode): (r: Field)
    requires idx < |f.slots| && pi < |f.players| && f.slots[idx].monster.Some?
    ensures |r.slots| == |f.slots| && SameFighters(f.players, r.players)
    ensures mode == Preview ==> r.players == f.players
  {
    var s := f.slots[idx];
    var s2 := s.(poisonedBy := Some(AddPoisoner(s.poisonedBy, f.players[pi].id)));
    var f2 := Spend(f.(slots := f.slots[idx := s2]), pi, PoisonSpell, mode);
    var target := s.monster.value;
    if target.hp <= 0 then Kill(f2, idx, pi, target.drop, flags, mode) else f2
  }

  /**
   * A bomb: 2 damage to every occupied slot without an ice lock, then the death check on
   * the monster that stood in the target slot `idx` when the action began. When the bomb
   * itself killed that monster, the check fires again: the loot is credited a second time
   * and a second queue monster is shifted into the slot over the first.
   */
  function BombPlay(f: Field, idx: nat, pi: nat, flags: Flags, mode: Mode): (r: Field)
    requires idx < |f.slots| && pi < |f.players| && f.slots[idx].monster.Some?
    ensures |r.slots| == |f.slots| && SameFighters(f.players, r.players)
    ensures mode == Preview ==> r.players == f.players
  {
    var s := f.slots[idx];
    var target := s.monster.value;
    var f2 := BombFrom(Spend(f, pi, BombSpell, mode), 0, pi, flags, mode);
    var after := if Locked(s) then target else Wounded(target, 2);
    if after.hp <= 0 then Kill(f2, idx, pi, target.drop, flags, mode) else f2
  }

  /**
   * One action after its poison tick. It is skipped when the target slot is empty or the
   * actor is no longer a player, and nullified by another player's ice lock unless it is a
   * bomb; the actor's own lock on the slot is lifted and the action goes ahead.
   */
  function ApplyAction(f: Field, a: AttackAction, flags: Flags, mode: Mode): (r: Field)
    requires Sound(f)
    ensures Sound(r) && SameFighters(f.players, r.players)
    ensures mode == Preview ==> r.players == f.players
  {
    var idx := a.target.Index();
    var s := f.slots[idx];
    var found := FindPlayer(f.players, a.playerId);
    if s.monster.None? || found.None? || Nullified(s, a) then f
    else
      var f1 := f.(slots := f.slots[idx := Unlocked(s, a.playerId)]);
      match a.card
      case Wand(e) => WandPlay(f1, idx, found.value, e, flags, mode)
      case Spell(IceSpell) => IcePlay(f1, idx, found.value, flags, mode)
      case Spell(PoisonSpell) => PoisonPlay(f1, idx, found.value, flags, mode)
      case Spell(BombSpell) => BombPlay(f1, idx, found.value, flags, mode)
  }

  /**
   * Whether action `a`, after its poison tick, throws when committed: a bomb that goes ahead
   * (target occupied, actor still a player; a bomb is never nullified) and whose sweep, once
   * the actor's own lock on the target is lifted, reaches a slot that `Crashes`.
   */
  predicate ActionCrashes(f: Field, a: AttackAction)
    requires Sound(f)
  {
    var idx := a.target.Index();
    var s := f.slots[idx];
    && a.card == Spell(BombSpell) && s.monster.Some? && FindPlayer(f.players, a.playerId).Some?
    && CrashesFrom(f.(slots := f.slots[idx := Unlocked(s, a.playerId)]), 0)
  }

  /** One action as resolved: the poison tick, then the action. */
  function Step(f: Field, a: AttackAction, flags: Flags, mode: Mode): (r: Field)
    requires Sound(f)
    ensures Sound(r) && SameFighters(f.players, r.players)
    ensures mode == Preview ==> r.players == f.players
  {
    ApplyAction(PoisonTick(f, flags, mode), a, flags, mode)
  }

  /**
   * All actions, strictly in submission order. In commit mode this is the resolution as it
   * runs to its end, which it does exactly when `Aborts` does not hold.
   */
  function Resolve(f: Field, actions: seq<AttackAction>, flags: Flags, mode: Mode): (r: Field)
    requires Sound(f)
    ensures Sound(r) && SameFighters(f.players, r.players)
    ensures mode == Preview ==> r.players == f.players
    decreases |actions|
  {
    if |actions| == 0 then f
    else Resolve(Step(f, actions[0], flags, mode), actions[1..], flags, mode)
  }

  /**
   * Whether the committed resolution of `actions` throws partway: some action, reached
   * after the ones before it and its own poison tick, `ActionCrashes`. The source then
   * commits nothing at all.
   */
  predicate Aborts(f: Field, actions: seq<AttackAction>, flags: Flags)
    requires Sound(f)
    decreases |actions|
  {
    && |actions| > 0
    && (|| ActionCrashes(PoisonTick(f, flags, Commit), actions[0])
        || Aborts(Step(f, actions[0], flags, Commit), actions[1..], flags))
  }
}
