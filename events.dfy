/**
 * Random events: the weighted event table, the roulette that draws from it, the one-shot
 * forced-event override, and the effect an event has on players, queue and flags.
 */
module Events {
  import opened Wrappers
  import opened Elements
  import opened Entities

  /** What an event effect does when it is applied. */
  datatype EffectKind =
    | Calm                        // nothing happens
    | Merchant                    // a merchant appears: nothing changes in the state
    | ManaBlessing                // every player gains one mana stone
    | AllNeutral                  // every wand attack is neutral this round
    | Disable(element: PlayerElement) // wands of this element do no damage this round
    | GoblinRaid                  // three goblins are put at the front of the queue
    | DoubleGold                  // kills pay double gold this round

  datatype EventEffect = EventEffect(description: string, weight: Option<int>, kind: EffectKind)

  datatype GameEvent = GameEvent(name: string, weight: Option<int>, effects: seq<EventEffect>)

  /** The one-shot override set by the game master: either part may be absent. */
  datatype Forced = Forced(eventName: Option<string>, effectDescription: Option<string>)

  /** The state an event effect can change. */
  datatype World = World(players: seq<Player>, queue: seq<Monster>, flags: Flags)

  /** What the event trigger leaves behind: the new state and the event on display. */
  datatype Outcome = Outcome(world: World, event: GameEvent)

  const CalmName := "無事件"

  /** A weight as the source reads it: a missing weight counts as 1. */
  function WeightOf(w: Option<int>): int {
    w.GetOr(1)
  }

  /** The event table, in the source's order. */
  const EventTable: seq<GameEvent> := [
    GameEvent(CalmName, Some(5), [EventEffect("本回合風平浪靜，什麼也沒發生。", None, Calm)]),
    GameEvent("旅行商人", Some(1), [EventEffect("出現旅行商人，玩家可以花費金幣購買法術卡。", None, Merchant)]),
    GameEvent("精靈的祝福", Some(1), [EventEffect("精靈降臨，所有玩家獲得 +1 魔能石。", None, ManaBlessing)]),
    GameEvent("元素紊亂", Some(3), [
      EventEffect("元素能量混亂，所有攻擊視為無屬性", Some(1), AllNeutral),
      EventEffect("元素能量混亂，火屬性傷害無效", Some(1), Disable(Fire)),
      EventEffect("元素能量混亂，水屬性傷害無效", Some(1), Disable(Water)),
      EventEffect("元素能量混亂，木屬性傷害無效", Some(1), Disable(Wood))]),
    GameEvent("哥布林襲擊", Some(1), [EventEffect("3隻哥布林衝入列隊，血量5，擊殺可得 2 金幣。", None, GoblinRaid)]),
    GameEvent("掏金熱", Some(1), [EventEffect("本回合擊殺怪物獲得雙倍金幣。", None, DoubleGold)])
  ]

  /** The goblins the raid puts at the front of the queue. */
  function Goblins(): (gs: seq<Monster>)
    ensures |gs| == 3
    ensures forall g :: g in gs ==> g.hp == 5 && g.maxHP == 5 && g.drop == Drop(2, 0, None) && g.skill.None?
    ensures gs[0].element == Fire && gs[1].element == Water && gs[2].element == Wood
  {
    [Monster(5, 5, "炙熱哥布林", Fire, Drop(2, 0, None), None),
     Monster(5, 5, "冰冷哥布林", Water, Drop(2, 0, None), None),
     Monster(5, 5, "狂野哥布林", Wood, Drop(2, 0, None), None)]
  }

  function Sum(ws: seq<int>): int {
    if |ws| == 0 then 0 else ws[0] + Sum(ws[1..])
  }

  /** `items.map(f)`: the image of every entry, in order. */
  function Map<T, U>(items: seq<T>, f: T -> U): (r: seq<U>)
    ensures |r| == |items| && forall i :: 0 <= i < |items| ==> r[i] == f(items[i])
  {
    seq(|items|, i requires 0 <= i < |items| => f(items[i]))
  }

  function EventWeight(e: GameEvent): int {
    WeightOf(e.weight)
  }

  function EffectWeight(x: EventEffect): int {
    WeightOf(x.weight)
  }

  function NameOf(e: GameEvent): string {
    e.name
  }

  function DescriptionOf(x: EventEffect): string {
    x.description
  }

  /** The source's `find` by key: the first position holding `x`. */
  function FirstIndex(s: seq<string>, x: string): (r: Option<nat>)
    ensures r.Some? ==> r.value < |s| && s[r.value] == x && forall j :: 0 <= j < r.value ==> s[j] != x
    ensures r.None? <==> x !in s
  {
    if |s| == 0 then None
    else if s[0] == x then Some(0)
    else match FirstIndex(s[1..], x)
      case None => None
      case Some(k) => Some(k + 1)
  }

  /** A string the source treats as set: present and not empty. */
  predicate Truthy(s: Option<string>) {
    s.Some? && s.value != ""
  }

  /**
   * The roulette: subtract each weight from `roll` in order and stop at the first entry
   * where `roll` is no longer positive.
   */
  function Pick(ws: seq<int>, roll: real): (r: Option<nat>)
    ensures r.Some? ==> r.value < |ws|
  {
    if |ws| == 0 then None
    else if roll - ws[0] as real <= 0.0 then Some(0)
    else match Pick(ws[1..], roll - ws[0] as real)
      case None => None
      case Some(k) => Some(k + 1)
  }

  function Shift(r: Option<nat>, offset: nat): Option<nat> {
    match r
    case None => None
    case Some(k) => Some(k + offset)
  }

  /** The roulette loop of the source, over the weights of the table it walks. */
  method Roulette(ws: seq<int>, roll0: real) returns (r: Option<nat>)
    ensures r == Pick(ws, roll0)
  {
    var roll := roll0;
    var i := 0;
    while i < |ws|
      invariant 0 <= i <= |ws|
      invariant Pick(ws, roll0) == Shift(Pick(ws[i..], roll), i)
    {
      assert ws[i..][1..] == ws[i + 1..];
      roll := roll - ws[i] as real;
      if roll <= 0.0 {
        return Some(i);
      }
      i := i + 1;
    }
    return None;
  }

  /** The running total of the weights up to and including entry `k`. */
  function Reach(ws: seq<int>, k: nat): int
    requires k < |ws|
  {
    if k == 0 then ws[0] else ws[0] + Reach(ws[1..], k - 1)
  }

  /** Each running total adds the next weight to the one before. */
  lemma {:induction false} ReachStep(ws: seq<int>, k: nat)
    requires k + 1 < |ws|
    ensures Reach(ws, k + 1) == Reach(ws, k) + ws[k + 1]
  {
    if k > 0 {
      ReachStep(ws[1..], k - 1);
    }
  }

  /** Entry `k` is the first whose running total reaches `roll`. */
  predicate FirstCrossing(ws: seq<int>, roll: real, k: nat) {
    && k < |ws| && roll <= Reach(ws, k) as real
    && forall j :: 0 <= j < k ==> roll > Reach(ws, j) as real
  }

  /** The roulette picks exactly the first entry whose running total reaches the roll. */
  lemma {:induction false} PickIsFirstCrossing(ws: seq<int>, roll: real, k: nat)
    ensures Pick(ws, roll) == Some(k) <==> FirstCrossing(ws, roll, k)
  {
    if |ws| > 0 && 0 < k < |ws| {
      var rest := roll - ws[0] as real;
      PickIsFirstCrossing(ws[1..], rest, k - 1);
      assert Reach(ws, k) == ws[0] + Reach(ws[1..], k - 1);
      assert Pick(ws, roll) == if rest <= 0.0 then Some(0) else Shift(Pick(ws[1..], rest), 1);
      if Pick(ws, roll) == Some(k) {
        assert FirstCrossing(ws[1..], rest, k - 1);
        forall j | 0 <= j < k
          ensures roll > Reach(ws, j) as real
        {
          if j > 0 {
            assert rest > Reach(ws[1..], j - 1) as real;
          }
        }
      }
      if FirstCrossing(ws, roll, k) {
        assert roll > Reach(ws, 0) as real;
        forall j | 0 <= j < k - 1
          ensures rest > Reach(ws[1..], j) as real
        {
          assert roll > Reach(ws, j + 1) as real;
        }
        assert FirstCrossing(ws[1..], rest, k - 1);
      }
    }
  }

  /** Running totals never decrease when no weight is negative. */
  lemma {:induction false} ReachGrows(ws: seq<int>, i: nat, j: nat)
    requires i <= j < |ws| && forall l :: 0 <= l < |ws| ==> ws[l] >= 0
    ensures Reach(ws, i) <= Reach(ws, j)
  {
    if i > 0 {
      ReachGrows(ws[1..], i - 1, j - 1);
    } else if j > 0 {
      ReachGrows(ws[1..], 0, j - 1);
    }
  }

  /**
   * With no negative weight, entry `k` is the first crossing exactly when the roll lies
   * above the running total before `k` and at most the running total through `k`.
   */
  lemma CrossingBetween(ws: seq<int>, roll: real, k: nat)
    requires forall l :: 0 <= l < |ws| ==> ws[l] >= 0
    ensures FirstCrossing(ws, roll, k) <==>
              k < |ws| && roll <= Reach(ws, k) as real && (k == 0 || roll > Reach(ws, k - 1) as real)
  {
    if k < |ws| && k > 0 && roll > Reach(ws, k - 1) as real {
      forall j | 0 <= j < k
        ensures roll > Reach(ws, j) as real
      {
        ReachGrows(ws, j, k - 1);
      }
    }
  }

  lemma ScaledBelow(u: real, t: real)
    requires 0.0 <= u < 1.0 && 0.0 <= t
    ensures u * t <= t
  {
    if t > 0.0 {
      assert u * t < 1.0 * t;
    }
  }

  /** A roll no larger than the total weight always lands on an entry. */
  lemma {:induction false} PickLandsBelowTotal(ws: seq<int>, roll: real)
    requires |ws| > 0 && roll <= Sum(ws) as real
    ensures Pick(ws, roll).Some?
  {
    if roll - ws[0] as real > 0.0 {
      PickLandsBelowTotal(ws[1..], roll - ws[0] as real);
    }
  }

  /** The roll of the source: a uniform draw `u` in [0, 1) times the total weight. */
  function Roll(ws: seq<int>, u: real): real {
    u * Sum(ws) as real
  }

  /** A draw in [0, 1) scaled by a non-negative total always lands on an entry. */
  lemma DrawAlwaysLands(ws: seq<int>, u: real)
    requires |ws| > 0 && 0.0 <= u < 1.0 && Sum(ws) >= 0
    ensures Pick(ws, Roll(ws, u)).Some?
  {
    var t := Sum(ws) as real;
    assert t >= 0.0;
    ScaledBelow(u, t);
    assert Roll(ws, u) == u * t <= t;
    PickLandsBelowTotal(ws, Roll(ws, u));
  }

  /** The index of the event the trigger selects, or None when it gives up. */
  function SelectEvent(table: seq<GameEvent>, turn: int, forced: Option<Forced>, u: real): (r: Option<nat>)
    ensures r.Some? ==> r.value < |table|
  {
    var name := if forced.Some? then forced.value.eventName else None;
    if turn == 1 then FirstIndex(Map(table, NameOf), CalmName)
    else if Truthy(name) then FirstIndex(Map(table, NameOf), name.value)
    else Pick(Map(table, EventWeight), Roll(Map(table, EventWeight), u))
  }

  /**
   * The index of the effect applied: the first effect with the forced description if there
   * is one, otherwise drawn by weight.
   */
  function SelectEffect(ev: GameEvent, forced: Option<Forced>, u: real): (r: Option<nat>)
    ensures r.Some? ==> r.value < |ev.effects|
  {
    var desc := if forced.Some? then forced.value.effectDescription else None;
    var found := if Truthy(desc) then FirstIndex(Map(ev.effects, DescriptionOf), desc.value) else None;
    if found.Some? then found
    else Pick(Map(ev.effects, EffectWeight), Roll(Map(ev.effects, EffectWeight), u))
  }

  /** Every player with one more mana stone. */
  function Blessed(ps: seq<Player>): (r: seq<Player>)
    ensures |r| == |ps|
    ensures forall i :: 0 <= i < |ps| ==>
              r[i] == ps[i].(loot := ps[i].loot.(manaStone := ps[i].loot.manaStone + 1))
  {
    seq(|ps|, i requires 0 <= i < |ps| => ps[i].(loot := ps[i].loot.(manaStone := ps[i].loot.manaStone + 1)))
  }

  /** The state after an effect is applied. */
  function ApplyEffect(k: EffectKind, w: World): (r: World)
    ensures k != ManaBlessing ==> r.players == w.players
    ensures k != GoblinRaid ==> r.queue == w.queue
    ensures k.Calm? || k.Merchant? || k.ManaBlessing? || k.GoblinRaid? ==> r.flags == w.flags
    ensures SameFighters(w.players, r.players)
  {
    match k
    case Calm => w
    case Merchant => w
    case ManaBlessing => w.(players := Blessed(w.players))
    case AllNeutral => w.(flags := w.flags.(allAttackNeutral := true))
    case Disable(e) => w.(flags := w.flags.(disableElement := Some(e)))
    case GoblinRaid => w.(queue := Goblins() + w.queue)
    case DoubleGold => w.(flags := w.flags.(doubleGold := true))
  }

  /**
   * The event trigger: select the event and the effect, apply the effect, and show the
   * event with the applied effect as its only effect. When no event or no effect is found,
   * nothing changes.
   */
  function Occur(table: seq<GameEvent>, turn: int, forced: Option<Forced>, u1: real, u2: real,
                 w: World, current: GameEvent): Outcome
  {
    match SelectEvent(table, turn, forced, u1)
    case None => Outcome(w, current)
    case Some(i) =>
      match SelectEffect(table[i], forced, u2)
      case None => Outcome(w, current)
      case Some(j) => Outcome(ApplyEffect(table[i].effects[j].kind, w),
                              table[i].(effects := [table[i].effects[j]]))
  }

  /** Every event has an effect and no table total is negative, so a draw always lands. */
  predicate WellFormed(table: seq<GameEvent>) {
    && |table| > 0
    && Sum(Map(table, EventWeight)) >= 0
    && forall i :: 0 <= i < |table| ==>
         |table[i].effects| > 0 && Sum(Map(table[i].effects, EffectWeight)) >= 0
  }

  /** An event as displayed after it happened: a table event with one of its effects. */
  predicate StoredFrom(table: seq<GameEvent>, ev: GameEvent) {
    exists i, j :: 0 <= i < |table| && 0 <= j < |table[i].effects| &&
                   ev == table[i].(effects := [table[i].effects[j]])
  }

  lemma EventTableWellFormed()
    ensures WellFormed(EventTable)
    ensures Sum(Map(EventTable, EventWeight)) == 12
    ensures Map(EventTable, NameOf)[0] == CalmName
  {
    assert Map(EventTable, EventWeight) == [5, 1, 1, 3, 1, 1];
    assert Sum([1]) == 1 && Sum([1, 1]) == 2 && Sum([3, 1, 1]) == 5;
    assert Sum([1, 3, 1, 1]) == 6 && Sum([1, 1, 3, 1, 1]) == 7 && Sum([5, 1, 1, 3, 1, 1]) == 12;
    EffectWeightsOfTable();
  }

  /** Every event's effect weights are non-negative in total; only the chaos event has several. */
  lemma EffectWeightsOfTable()
    ensures forall i :: 0 <= i < |EventTable| ==>
              |EventTable[i].effects| > 0 && Sum(Map(EventTable[i].effects, EffectWeight)) >= 0
  {
    assert Map(EventTable[3].effects, EffectWeight) == [1, 1, 1, 1];
    assert Sum([1]) == 1 && Sum([1, 1]) == 2 && Sum([1, 1, 1]) == 3 && Sum([1, 1, 1, 1]) == 4;
    forall i | 0 <= i < |EventTable| && i != 3
      ensures Sum(Map(EventTable[i].effects, EffectWeight)) == 1
    {
      assert Map(EventTable[i].effects, EffectWeight) == [1];
    }
  }

  /** Once an event is selected and draws lie in [0, 1), an effect is always applied. */
  lemma EffectAlwaysApplied(ev: GameEvent, forced: Option<Forced>, u: real)
    requires |ev.effects| > 0 && Sum(Map(ev.effects, EffectWeight)) >= 0 && 0.0 <= u < 1.0
    ensures SelectEffect(ev, forced, u).Some?
  {
    DrawAlwaysLands(Map(ev.effects, EffectWeight), u);
  }

  /**
   * The first turn always shows the calm event, whatever was forced or drawn, and changes
   * nothing.
   */
  lemma FirstTurnIsCalm(forced: Option<Forced>, u1: real, u2: real, w: World, current: GameEvent)
    requires 0.0 <= u2 < 1.0
    ensures Occur(EventTable, 1, forced, u1, u2, w, current) == Outcome(w, EventTable[0])
  {
    EventTableWellFormed();
    assert SelectEvent(EventTable, 1, forced, u1) == Some(0);
    EffectAlwaysApplied(EventTable[0], forced, u2);
  }

  /** A forced name that no event has makes the trigger give up: nothing changes. */
  lemma UnknownForcedEventIgnored(table: seq<GameEvent>, turn: int, name: string, desc: Option<string>,
                                   u1: real, u2: real, w: World, current: GameEvent)
    requires turn != 1 && name != "" && name !in Map(table, NameOf)
    ensures Occur(table, turn, Some(Forced(Some(name), desc)), u1, u2, w, current) == Outcome(w, current)
  {
  }

  /**
   * A forced name that an event has selects the first such event; the shown event carries
   * exactly one of its effects.
   */
  lemma KnownForcedEventChosen(table: seq<GameEvent>, turn: int, name: string, desc: Option<string>,
                               u1: real, u2: real, w: World, current: GameEvent)
    requires WellFormed(table) && 0.0 <= u2 < 1.0
    requires turn != 1 && name != "" && name in Map(table, NameOf)
    ensures var i := FirstIndex(Map(table, NameOf), name).value;
            var r := Occur(table, turn, Some(Forced(Some(name), desc)), u1, u2, w, current);
            && r.event.name == name && |r.event.effects| == 1
            && r.event.effects[0] in table[i].effects
            && forall j :: 0 <= j < i ==> table[j].name != name
  {
    var forced := Some(Forced(Some(name), desc));
    var i := FirstIndex(Map(table, NameOf), name).value;
    EffectAlwaysApplied(table[i], forced, u2);
  }

  /** A forced description that the selected event has picks the first effect with it. */
  lemma ForcedEffectHonoured(ev: GameEvent, eventName: Option<string>, desc: string, u: real)
    requires desc != "" && desc in Map(ev.effects, DescriptionOf)
    ensures var j := SelectEffect(ev, Some(Forced(eventName, Some(desc))), u);
            && j.Some? && ev.effects[j.value].description == desc
            && forall l :: 0 <= l < j.value ==> ev.effects[l].description != desc
  {
  }

  /**
   * After the first turn and without a forced name, the trigger always shows a table event
   * with a single effect (draws in [0, 1), well-formed table).
   */
  lemma RandomEventAlwaysHappens(table: seq<GameEvent>, turn: int, forced: Option<Forced>,
                                 u1: real, u2: real, w: World, current: GameEvent)
    requires WellFormed(table) && 0.0 <= u1 < 1.0 && 0.0 <= u2 < 1.0
    requires turn != 1 && (forced.None? || !Truthy(forced.value.eventName))
    ensures StoredFrom(table, Occur(table, turn, forced, u1, u2, w, current).event)
  {
    DrawAlwaysLands(Map(table, EventWeight), u1);
    var i := SelectEvent(table, turn, forced, u1).value;
    EffectAlwaysApplied(table[i], forced, u2);
    var j := SelectEffect(table[i], forced, u2).value;
    assert Occur(table, turn, forced, u1, u2, w, current).event == table[i].(effects := [table[i].effects[j]]);
  }

  /**
   * The odds of the table: a random draw `u` selects the calm event when 12u <= 5, the
   * merchant when 5 < 12u <= 6, the blessing when 6 < 12u <= 7, the element chaos when
   * 7 < 12u <= 10, the goblin raid when 10 < 12u <= 11, the gold rush otherwise.
   */
  lemma EventOdds(u: real, k: nat)
    requires 0.0 <= u < 1.0 && k < 6
    ensures var bounds := [0.0, 5.0, 6.0, 7.0, 10.0, 11.0, 12.0];
            Pick(Map(EventTable, EventWeight), u * 12.0) == Some(k) <==>
              (k == 0 || bounds[k] < u * 12.0) && u * 12.0 <= bounds[k + 1]
  {
    var ws := Map(EventTable, EventWeight);
    var bounds := [0.0, 5.0, 6.0, 7.0, 10.0, 11.0, 12.0];
    TableReach();
    PickIsFirstCrossing(ws, u * 12.0, k);
    CrossingBetween(ws, u * 12.0, k);
    assert Reach(ws, k) as real == bounds[k + 1];
    assert k > 0 ==> Reach(ws, k - 1) as real == bounds[k];
  }

  /** The running totals of the event weights. */
  lemma TableReach()
    ensures var ws := Map(EventTable, EventWeight);
            && ws == [5, 1, 1, 3, 1, 1]
            && Reach(ws, 0) == 5 && Reach(ws, 1) == 6 && Reach(ws, 2) == 7
            && Reach(ws, 3) == 10 && Reach(ws, 4) == 11 && Reach(ws, 5) == 12
  {
    var ws := Map(EventTable, EventWeight);
    assert ws == [5, 1, 1, 3, 1, 1];
    ReachStep(ws, 0);
    ReachStep(ws, 1);
    ReachStep(ws, 2);
    ReachStep(ws, 3);
    ReachStep(ws, 4);
  }

  /** The blessing gives every player exactly one mana stone and touches nothing else. */
  lemma BlessingGivesMana(w: World)
    ensures var r := ApplyEffect(ManaBlessing, w);
            && r.queue == w.queue && r.flags == w.flags && |r.players| == |w.players|
            && forall i :: 0 <= i < |w.players| ==>
                 r.players[i].loot.manaStone == w.players[i].loot.manaStone + 1
                 && r.players[i].loot.gold == w.players[i].loot.gold
                 && r.players[i].loot.cards == w.players[i].loot.cards
  {
  }

  /** The raid puts the three goblins in front of the waiting monsters, in order. */
  lemma RaidPrependsGoblins(w: World)
    ensures var r := ApplyEffect(GoblinRaid, w);
            && r.players == w.players && r.flags == w.flags
            && |r.queue| == |w.queue| + 3 && r.queue[3..] == w.queue && r.queue[..3] == Goblins()
  {
  }

  /** The element chaos effects each set exactly one flag. */
  lemma ChaosSetsOneFlag(k: EffectKind, w: World)
    requires k.AllNeutral? || k.Disable? || k.DoubleGold?
    ensures var r := ApplyEffect(k, w);
            && (k.AllNeutral? ==> r.flags == w.flags.(allAttackNeutral := true))
            && (k.Disable? ==> r.flags == w.flags.(disableElement := Some(k.element)))
            && (k.DoubleGold? ==> r.flags == w.flags.(doubleGold := true))
  {
  }
}
