# Monster siege: the game master's rules engine, in Dafny

ControlServer is the game master's console for a table-top "monster siege" game. Players
fight monsters that stand in three battlefield slots (A, B, C), and more monsters wait in a
queue behind them. Every turn runs through the same phases:

- 事件: a random or forced event.
- 準備: preparation.
- 行動: each player queues one attack action.
- 結算: the turn ends.

An action plays one of these cards:

- A wand (魔法棒) of fire, water or wood, with the elemental triangle: fire beats wood, wood
  beats water, water beats fire.
- A spell: ice (冰凍法術), bomb (炸彈法術) or poison (毒藥法術).

The whole engine is one React hook, `useGameLogic`. This project models the hook's rules as
values and proves properties of them. It also models the hook's loops and its state as
imperative Dafny, proved equal to those values.

Modules:

- `Elements`, `Entities`: the element triangle, players, monsters, slots, cards and actions.
- `Skills`: the skill table.
  - 屬性輪轉 rotates a monster's element on every hit. A monster of no element becomes fire,
    because `indexOf` gives -1.
  - 恢復 heals a monster to `min(HP + 2, maxHP)` at turn end.
- `Combat`: the combat resolver as functions. One core is parametrised by `Mode`:
  - `Commit` is the resolution when 行動 ends.
  - `Preview` is the forecast while actions are pending. It credits no loot, spends no card
    and ignores the disabled element.
- `Resolver`: the resolver as the source runs it. Loops over actions and slots update cloned
  players, slots and queue. Each method is proved equal to its `Combat` function.
- `CombatFacts`: what one action does, with one lemma per card.
  - The ice-lock gate and the disabled element.
  - The bomb sweep.
  - The poison tick and who it is credited to.
- `PreviewFacts`: the preview forecasts the committed battlefield exactly, unless a wand uses
  a disabled element. A concrete counterexample shows that case.
- `Events`: the event table, the weighted roulette, the one-shot forced-event override and the
  effects of events.
- `Spawning`: the rule-bound parts of random monster generation: the level band, the element
  draw and the loot coin flips.
- `Rules`: the game as a value.
  - The phase cycle, the roster and the rotation of the turn order.
  - The automatic refill of empty slots from the queue, and the turn-end skills.
  - One press of the "next phase" button, with the invariant it keeps: three slots, and none
    empty while a monster waits.
- `Session`: the `GameSession` class that holds the hook's state.
  - Each method updates the fields in place.
  - Each method is proved to leave the snapshot that the `Rules` function gives.

Random draws (`Math.random()`) are parameters `u` in [0, 1). React effects are explicit calls:

- The refill runs after every change of the queue.
- The event trigger runs when a press enters 事件.

Behaviour kept as the code has it:

- A bomb that kills the monster in its own target slot credits the bomber twice. The generic
  death check after the card still sees that monster's HP at or below 0. It also shifts a
  second queue monster into the slot over the first. `CombatFacts.BombKillingItsTargetPaysTwice`
  shows this.
- Spell-card counts are decremented with no floor, so they can go negative.
- An ice lock recorded for player id 0 does not lock, because the code tests `lastIcedBy` for
  truthiness.
- The event flags are reset when 行動 ends (src/game/useGameLogic.ts:1171-1179), not when 結算
  ends.
- A wand of a disabled element still lifts the actor's own ice lock on its target. The code
  runs the lock gate before the disabled-element check.
- A committed bomb that reaches an occupied slot under an ice lock logs the locking player's
  name as `players[lastIcedBy].name`: it indexes the roster by player id. Ids run from 1, so
  a lock by the player with the highest id (or any id that is not a roster position) makes
  that read throw. The whole resolution then stops before its setters: nothing is committed,
  and the "next phase" press stays in 行動 with its flags. The preview only skips the slot.
  `Combat.Aborts` says when this happens, and `PreviewFacts.HighestIdLockAbortsBomb` shows it.

## Model

| member | source | states |
|---|---|---|
| Elements.TablesAreTheTriangle | src/game/useGameLogic.ts:743-744 | the `counter` table gives exactly the element an attacking element beats, and the `weak` table exactly the element that beats it |
| Elements.TriangleShape | src/game/useGameLogic.ts:743-744 | the beats relation is asymmetric and irreflexive and never involves 無; every attacking element beats its counter and is beaten by its weakness; the counter of the counter is the weakness |
| Elements.WandDamage | src/game/useGameLogic.ts:753-757 | with the all-neutral flag the damage is the base attack; otherwise it is twice the base when the attack beats the target, 0 when the target beats the attack, and the base against 無 or an unrelated element |
| Entities.Cards.Add | src/game/useGameLogic.ts:684 | only the named card's count changes, by exactly the delta; the other spells and the wand keep their counts |
| Entities.SlotId.Index | src/game/useGameLogic.ts:649 | A, B and C map to the positions 0, 1 and 2 respectively, so distinct slot ids name distinct slots |
| Entities.FindPlayer | src/game/useGameLogic.ts:724-726 | `find` by id: the position found holds that id and no earlier player has it; none is found exactly when no player has the id |
| Entities.FindPlayerIgnoresLoot | src/game/useGameLogic.ts:658 | rosters that differ only in loot find the same player for every id |
| Skills.IndexOf | src/game/useGameLogic.ts:44 | JavaScript `indexOf`: the first position holding the element, or -1 exactly when it is absent |
| Skills.Rotate | src/game/useGameLogic.ts:40-46 | the rotated element is never 無; an elemental monster moves to the element that beats its old one; 無 becomes 火 |
| Skills.RotationCycle | src/game/useGameLogic.ts:35-56 | three rotations bring an elemental monster back to its element, and one rotation always changes it |
| Skills.Healed | src/game/useGameLogic.ts:65-67 | HP becomes `min(HP + 2, maxHP)`: never above maxHP nor more than 2 higher, never lower when HP was at most maxHP, nothing but HP changes |
| Skills.ApplySkill | src/game/useGameLogic.ts:612-643 | no change unless the monster has a skill that is in the table with the given trigger; appearance and turn-start triggers never change a monster; a hit changes only the element, turn end only the HP |
| Skills.HitRotates | src/game/useGameLogic.ts:35-56 | a hit on a 屬性輪轉 monster rotates its element to the one beating the old one, and turn end leaves it alone |
| Skills.TurnEndHeals | src/game/useGameLogic.ts:57-77 | at turn end a 恢復 monster has `min(HP + 2, maxHP)`, and a hit leaves it alone |
| Combat.Credit | src/game/useGameLogic.ts:865-872 | the killer gains the monster's gold (doubled under 掏金熱) and mana stones, plus exactly one of the dropped card if there is one; the wand count, id and attack are unchanged |
| Combat.Kill | src/game/useGameLogic.ts:865-893 | on a kill: only the killer's loot changes, and only in commit mode; the slot is refilled with its status cleared; the queue loses its front; other slots are untouched |
| Combat.Wounded | src/game/useGameLogic.ts:759-773 | the monster loses exactly the damage, and only its HP and element (through the on-hit skill) change |
| Combat.FirstPresent | src/game/useGameLogic.ts:657-659 | the position of the first poisoner id that is still a player: every earlier id is absent from the roster |
| Combat.Culprit | src/game/useGameLogic.ts:651-716 | a poison tick is charged to the player holding the first listed poisoner id still present; there is none exactly when the slot is empty, unpoisoned or ice-locked, or when every poisoner has left |
| Combat.FirstPresentIgnoresLoot | src/game/useGameLogic.ts:657-659 | loot changes never change which poisoner is found first |
| Combat.CulpritIgnoresLoot | src/game/useGameLogic.ts:651-716 | loot changes never change whom a tick is charged to |
| Combat.Spend | src/game/useGameLogic.ts:777 | in commit mode only the caster's count of that spell drops by one, with no floor; preview changes nothing; slots and queue are untouched |
| Combat.AddPoisoner | src/game/useGameLogic.ts:855-858 | the caster's id is in the new list; an existing list is kept as its prefix; the id is appended only if absent; a missing list becomes the id alone |
| Combat.ApplyAction | src/game/useGameLogic.ts:718-893 | one action as it runs to its end keeps the three slots and the fighters (ids and attacks); in preview no player changes at all |
| Combat.Resolve | src/game/useGameLogic.ts:718-901 | resolving all actions to the end keeps the three slots and the fighters; the preview never changes a player; whether the committed run gets to the end is `Combat.Aborts` |
| Resolver.Slay | src/game/useGameLogic.ts:865-893 | the death handling computes `Combat.Kill` |
| Resolver.TickOne | src/game/useGameLogic.ts:653-714 | the inner loop over a slot's poisoners computes the tick `Combat.TickSlot` |
| Resolver.ResolvePoisonDamage | src/game/useGameLogic.ts:651-716 | the loop over the three slots computes `Combat.PoisonTick` |
| Resolver.Detonate | src/game/useGameLogic.ts:795-852 | the bomb's loop over the slots returns nothing exactly when, in commit mode, it meets an occupied slot locked by an id that is not a roster position (the log at :800-806 throws); otherwise it computes `Combat.BombFrom` from slot A |
| Resolver.PlayWand | src/game/useGameLogic.ts:741-773 | the wand branch computes `Combat.WandPlay` |
| Resolver.PlayIce | src/game/useGameLogic.ts:774-791 | the ice branch computes `Combat.IcePlay` |
| Resolver.PlayPoison | src/game/useGameLogic.ts:853-862 | the poison branch with its death check computes `Combat.PoisonPlay` |
| Resolver.PlayBomb | src/game/useGameLogic.ts:792-852 | the bomb branch with its death check returns nothing exactly when the committed sweep throws, and otherwise computes `Combat.BombPlay` |
| Resolver.ResolveAction | src/game/useGameLogic.ts:721-893 | the skip checks, the freeze gate and the card branches return nothing exactly when the action is a committed bomb that throws (`Combat.ActionCrashes`), and otherwise compute `Combat.ApplyAction` |
| Resolver.ResolveActions | src/game/useGameLogic.ts:718-719 | the loop over the actions, each after a poison tick, returns nothing exactly when the committed run throws partway (`Combat.Aborts`; never in preview), and otherwise computes `Combat.Resolve` |
| CombatFacts.BlockedActionHarmsNothing | src/game/useGameLogic.ts:730-751 | an action blocked by another player's ice lock changes nothing; a committed wand of the disabled element only lifts the actor's own lock; either way every monster is unchanged |
| CombatFacts.OwnLockIsLifted | src/game/useGameLogic.ts:730-733 | the actor's own lock never nullifies its action: the lock is cleared and the action goes ahead as on the unlocked slot |
| CombatFacts.WandStrike | src/game/useGameLogic.ts:741-773 | a wand that is not disabled takes exactly its triangle damage: a survivor keeps its poison and loses only the actor's lock, with players and queue unchanged; a kill is `Kill` credited to the actor |
| CombatFacts.IceStrike | src/game/useGameLogic.ts:774-791 | ice locks the slot for the caster and deals 2 damage; one ice card is taken in commit mode, with no floor; a survivor (HP above 2) keeps its poison under the new lock, with players as after the spend and queue unchanged; a kill (HP 2 or below) is `Kill` credited to the caster after the spend |
| CombatFacts.PoisonCast | src/game/useGameLogic.ts:853-862 | poison deals no damage; one poison card is taken in commit mode, with no floor; a living target keeps its HP and the caster joins the slot's poisoners if absent, with the queue unchanged; a target at HP 0 or below dies in the death check, `Kill` credited to the caster after the spend |
| CombatFacts.AddPoisonerIdempotent | src/game/useGameLogic.ts:855-858 | casting poison twice leaves the same poisoner list as casting once |
| CombatFacts.Blasted | src/game/useGameLogic.ts:796-809 | the bomb takes 2 HP from an occupied slot with no ice lock and leaves other slots and all status untouched |
| CombatFacts.SweepOneField | src/game/useGameLogic.ts:795-852 | one step of the bomb's loop leaves that slot `Swept` (blasted, or refilled from the queue when it dies) and shifts the queue once exactly when the slot dies |
| CombatFacts.SweepOnePays | src/game/useGameLogic.ts:825-845 | one step of the bomb's loop pays only the bomber, and only in commit mode on a kill, that monster's drop |
| CombatFacts.BombFromQueue | src/game/useGameLogic.ts:795-852 | the sweep from a slot on shifts one queue monster per kill |
| CombatFacts.BombFromPlayers | src/game/useGameLogic.ts:795-852 | the sweep pays the bomber, in commit mode and in slot order, the drop of every monster it kills, and no other player anything |
| CombatFacts.BombFromSlot | src/game/useGameLogic.ts:795-852 | after the sweep, each slot it passed is `Swept`: blasted when it survives, refilled from the queue as the earlier kills left it when it dies; earlier slots are unchanged |
| CombatFacts.BombFromSweeps | src/game/useGameLogic.ts:795-852 | the whole sweep, kills included: slots, queue and players as the three lemmas above state |
| CombatFacts.BombPlayQueue | src/game/useGameLogic.ts:792-893 | the bomb card shifts one queue monster per slot the sweep kills, and one more when the death check on the target fires |
| CombatFacts.BombPlaySlots | src/game/useGameLogic.ts:792-893 | after the bomb card every slot is `Swept` against the queue as the earlier kills left it, except that a target whose death check fires is refilled from the queue after all the sweep's kills |
| CombatFacts.BombPlayPays | src/game/useGameLogic.ts:792-893 | the bomb card pays no other player anything; in commit mode the bomber gets every swept kill's drop in slot order, plus the target's drop once more when its death check fires |
| CombatFacts.BombStrike | src/game/useGameLogic.ts:792-893 | a bomb, kills included: every slot swept (the actor's own lock on the target lifted first), one queue monster per kill, the bomber alone credited in commit mode; then the death check on the target fires at HP 2 or below when unlocked or HP 0 or below when locked, paying that drop once more and shifting one more monster into the slot |
| CombatFacts.OnlyBombsAbort | src/game/useGameLogic.ts:800-806 | a committed run with no bomb action never throws |
| CombatFacts.BombFromSkipsEmpty | src/game/useGameLogic.ts:797-798 | the bomb's loop over empty slots changes nothing |
| CombatFacts.BombFromReaches | src/game/useGameLogic.ts:795-798 | empty slots before a position are passed over unchanged |
| CombatFacts.BombKillingItsTargetPaysTwice | src/game/useGameLogic.ts:825-893 | a bomb that kills its own target credits the bomber twice the gold and mana stones, shifts two monsters out of the queue and leaves the second in the slot |
| CombatFacts.TickFromPast | src/game/useGameLogic.ts:652 | the ticks on later slots never touch an earlier one |
| CombatFacts.QuietSlotUntouched | src/game/useGameLogic.ts:655-659 | a slot with no culprit is untouched by the ticks on all slots |
| CombatFacts.TickFromWoundsHere | src/game/useGameLogic.ts:661-713 | a slot whose tick it survives loses exactly 1 HP and keeps its status |
| CombatFacts.TicksBefore | src/game/useGameLogic.ts:652-716 | the ticks on earlier slots leave a slot and the fighters as they were, so its own tick sees them unchanged |
| CombatFacts.TickedSlotLosesOne | src/game/useGameLogic.ts:651-716 | a ticking slot that survives ends the pass with exactly 1 HP less |
| CombatFacts.PoisonTickOnSlot | src/game/useGameLogic.ts:651-716 | before each action, a slot that is empty, unpoisoned, locked or whose poisoners have all left is unchanged, and a ticking survivor loses exactly 1 HP and keeps its poisoners and lock |
| CombatFacts.PoisonKillCredited | src/game/useGameLogic.ts:677-709 | a tick that kills is a `Kill` credited to the culprit, the first listed poisoner still playing |
| PreviewFacts.SameFightersTransitive | src/game/useGameLogic.ts:909 | the fighters of cloned rosters compose: same fighters is transitive and symmetric |
| PreviewFacts.HitAgrees | src/game/useGameLogic.ts:994-1004 | a hit leaves committed and previewed fields showing the same battlefield |
| PreviewFacts.TickSlotAgrees | src/game/useGameLogic.ts:917-953 | one slot's tick keeps committed and previewed battlefields equal |
| PreviewFacts.TickFromAgrees | src/game/useGameLogic.ts:917-953 | the whole poison tick keeps committed and previewed battlefields equal |
| PreviewFacts.BombFromAgrees | src/game/useGameLogic.ts:1018-1043 | the bomb's loop, run to its end, gives the same battlefield in both modes |
| PreviewFacts.SpendAgrees | src/game/useGameLogic.ts:777 | spending a card never changes the battlefield |
| PreviewFacts.KillAgrees | src/game/useGameLogic.ts:1052-1059 | a kill leaves the same battlefield and queue in both modes |
| PreviewFacts.WandPlayAgrees | src/game/useGameLogic.ts:972-1004 | a wand whose element is not disabled gives the same battlefield in both modes |
| PreviewFacts.IcePlayAgrees | src/game/useGameLogic.ts:1005-1017 | ice gives the same battlefield in both modes |
| PreviewFacts.PoisonPlayAgrees | src/game/useGameLogic.ts:1044-1049 | poison gives the same battlefield in both modes |
| PreviewFacts.BombPlayAgrees | src/game/useGameLogic.ts:1018-1043 | the bomb, its sweep run to the end, gives the same battlefield in both modes |
| PreviewFacts.ApplyActionAgrees | src/game/useGameLogic.ts:955-1060 | one action not using a disabled wand element, run to its end, gives the same battlefield in both modes |
| PreviewFacts.ResolveAgrees | src/game/useGameLogic.ts:955-1060 | all actions, none using a disabled wand element, run to the end, give the same battlefield and queue in both modes |
| PreviewFacts.PreviewForecastsCommit | src/game/useGameLogic.ts:903-1063 | the preview's slots and queue are exactly those of the committed resolution run to its end, which is what the commit keeps whenever it does not throw, provided no wand uses a disabled element |
| PreviewFacts.PreviewIgnoresDisabledElement | src/game/useGameLogic.ts:746-751 | with fire disabled, a fire wand leaves a wood monster at 10 HP when committed, while the preview shows it at 4 |
| PreviewFacts.HighestIdLockAbortsBomb | src/game/useGameLogic.ts:792-806 | with players 1 and 2, a lock by player 2 on slot A makes player 1's committed bomb on B throw, while the preview shows B's monster blasted from 5 to 3 HP; the same lock by player 1 does not throw |
| Events.Goblins | src/game/useGameLogic.ts:188-228 | three goblins of fire, water and wood, 5 HP, dropping 2 gold and nothing else, without a skill |
| Events.FirstIndex | src/game/useGameLogic.ts:1087-1090 | `find` by key: the first position holding the key, none exactly when it is absent |
| Events.Pick | src/game/useGameLogic.ts:1101-1108 | the roulette only ever picks an entry of the table |
| Events.Roulette | src/game/useGameLogic.ts:1101-1108 | the loop that subtracts weights from the roll computes `Pick` |
| Events.ReachStep | src/game/useGameLogic.ts:1101-1108 | each running total adds the next weight to the one before |
| Events.PickIsFirstCrossing | src/game/useGameLogic.ts:1101-1108 | the roulette picks entry k exactly when k is the first entry whose running total reaches the roll |
| Events.ReachGrows | src/game/useGameLogic.ts:1101-1108 | with no negative weight the running totals never decrease |
| Events.CrossingBetween | src/game/useGameLogic.ts:1101-1108 | with no negative weight, entry k is picked exactly when the roll is above the total before k and at most the total through k |
| Events.PickLandsBelowTotal | src/game/useGameLogic.ts:1101-1108 | a roll no larger than the total weight always lands on an entry |
| Events.DrawAlwaysLands | src/game/useGameLogic.ts:1097-1108 | a uniform draw scaled by a non-negative total always selects an entry |
| Events.SelectEvent | src/game/useGameLogic.ts:1085-1109 | the event selected, if any, is an entry of the table |
| Events.SelectEffect | src/game/useGameLogic.ts:1115-1139 | the effect selected, if any, is one of the event's effects |
| Events.Blessed | src/game/useGameLogic.ts:290-303 | every player gets exactly one more mana stone and nothing else changes |
| Events.ApplyEffect | src/game/useGameLogic.ts:257-391 | only the blessing changes players and only the raid changes the queue; calm, merchant, blessing and raid leave the flags alone; no effect changes the fighters |
| Events.EventTableWellFormed | src/game/useGameLogic.ts:257-391 | the table is non-empty, its weights total 12, every event has an effect with a non-negative total, and 無事件 comes first |
| Events.EffectWeightsOfTable | src/game/useGameLogic.ts:306-359 | every event has at least one effect and a non-negative effect-weight total |
| Events.EffectAlwaysApplied | src/game/useGameLogic.ts:1115-1139 | once an event is selected, an effect is always applied |
| Events.FirstTurnIsCalm | src/game/useGameLogic.ts:1086-1088 | on turn 1 the trigger shows 無事件 and changes nothing, whatever was forced or drawn |
| Events.UnknownForcedEventIgnored | src/game/useGameLogic.ts:1089-1095 | a forced name no event has makes the trigger apply nothing and keep the shown event |
| Events.KnownForcedEventChosen | src/game/useGameLogic.ts:1089-1095 | a known forced name selects the first event with that name, shown with exactly one of its effects |
| Events.ForcedEffectHonoured | src/game/useGameLogic.ts:1119-1123 | a forced description the event has picks the first effect with that description |
| Events.RandomEventAlwaysHappens | src/game/useGameLogic.ts:1096-1153 | after turn 1 and without a forced name, the shown event is a table event holding exactly one of its effects |
| Events.EventOdds | src/game/useGameLogic.ts:1097-1108 | the exact intervals of `12u` for each of the six events: [0, 5], (5, 6], (6, 7], (7, 10], (10, 11], (11, 12] |
| Events.TableReach | src/game/useGameLogic.ts:257-391 | the event weights are 5, 1, 1, 3, 1, 1 and their running totals 5, 6, 7, 10, 11, 12 |
| Events.BlessingGivesMana | src/game/useGameLogic.ts:290-303 | the blessing gives each player one mana stone and changes no gold, card, queue or flag |
| Events.RaidPrependsGoblins | src/game/useGameLogic.ts:369 | the raid puts the three goblins in front of the queue, in order, and changes nothing else |
| Events.ChaosSetsOneFlag | src/game/useGameLogic.ts:306-390 | the chaos effects and the gold rush each set exactly one flag |
| Spawning.LevelBand | src/game/useGameLogic.ts:506-519 | the band is non-empty with levels from 1 to 3: only level 1 before 3 monsters, only level 3 from 15 on |
| Spawning.Draw | src/game/useGameLogic.ts:520-523 | `floor(u * length)` always selects an entry |
| Spawning.Level | src/game/useGameLogic.ts:506-523 | the level is between 1 and 3: 1 before 3 monsters, at most 2 from 6 to 8, at least 2 from 9 on, 3 from 15 on |
| Spawning.DrawElement | src/game/useGameLogic.ts:492-504 | the draw gives 無 exactly in the last of seven equal intervals |
| Spawning.DrawCard | src/game/useGameLogic.ts:531-535 | a spell card is attached exactly when the chance draw is below 0.4 |
| Spawning.SpawnDrop | src/game/useGameLogic.ts:557-579 | gold plus mana stones is 1 at level 1 and 2 from level 2 on, neither is negative, and the card is the one drawn |
| Rules.NextPhaseOf | src/game/useGameLogic.ts:1160-1219 | a press never returns to 準備開始遊戲 and always changes the phase |
| Rules.PhaseCycle | src/game/useGameLogic.ts:1160-1219 | after the start the phases form a cycle of four that never returns to the start |
| Rules.FreshPlayer | src/game/useGameLogic.ts:434-452 | a new player has attack 0, gold 0, 3 mana stones, one wand and no spell card |
| Rules.Roster | src/game/useGameLogic.ts:431-455 | the roster for n holds n fresh players with ids 1 to n, and none for n at most 0 |
| Rules.RosterIdsResolve | src/game/useGameLogic.ts:431-455 | every id from 1 to n finds its player at position id - 1 |
| Rules.Rotated | src/game/useGameLogic.ts:457-462 | the rotation keeps the number of players |
| Rules.RotatedIsPermutation | src/game/useGameLogic.ts:457-462 | the rotation is a permutation that moves the first player last and the others up by one |
| Rules.RotatedTimesSplits | src/game/useGameLogic.ts:457-462 | k rotations move the first k players, in order, to the end |
| Rules.RotationReturns | src/game/useGameLogic.ts:457-462 | after as many rotations as there are players the order is back where it started |
| Rules.PresentAfterPlacing | src/game/useGameLogic.ts:236-247 | putting a monster into an empty slot adds exactly that monster to the field |
| Rules.PlacingKeepsPool | src/game/useGameLogic.ts:236-247 | moving the queue front into an empty slot keeps every monster of the round |
| Rules.FillFromFrame | src/game/useGameLogic.ts:236-247 | the refill keeps the players and the occupied slots and leaves every slot filled or unchanged |
| Rules.FillFromQueue | src/game/useGameLogic.ts:236-247 | the queue loses only front entries, and a non-empty remainder means every slot was filled |
| Rules.FillFromPool | src/game/useGameLogic.ts:236-247 | the refill neither loses nor duplicates a monster |
| Rules.RefillFacts | src/game/useGameLogic.ts:230-255 | the refill keeps players and occupied slots, fills or keeps every slot, takes only the queue's front monsters, neither loses nor duplicates one, and leaves no empty slot while the queue is not empty |
| Rules.FillFromSettledIdle | src/game/useGameLogic.ts:236-247 | on a settled field the fill loop changes nothing |
| Rules.RefillIdle | src/game/useGameLogic.ts:230-255 | on a settled field the refill changes nothing |
| Rules.EndOfTurn | src/game/useGameLogic.ts:1180-1209 | the turn-end pass keeps the number of slots |
| Rules.TurnEndOnlyHeals | src/game/useGameLogic.ts:1180-1209 | at turn end only HP changes: a 恢復 monster gets `min(HP + 2, maxHP)`, every other monster and every empty slot and status is unchanged |
| Rules.EnqueueFacts | src/game/useGameLogic.ts:464-467 | adding a monster counts it, keeps the invariant and leaves players, turn, phase and forced monsters alone |
| Rules.EnqueueKeepsMonsters | src/game/useGameLogic.ts:464-467 | after adding a monster, the field and queue hold exactly the old monsters and the new one |
| Rules.SummonFacts | src/game/useGameLogic.ts:471-480 | a forced monster is used first, front to back, before any random one; the added monster is counted and joins the field or queue with none lost |
| Rules.DropLast | src/game/useGameLogic.ts:603-610 | cancelling removes exactly one action from a non-empty list |
| Rules.CancelUndoesAdd | src/game/useGameLogic.ts:598-610 | cancelling undoes the last addition, and cancelling with nothing queued does nothing |
| Rules.EndTurnFacts | src/game/useGameLogic.ts:1180-1217 | ending 結算 keeps the invariant, advances the turn by exactly one, rotates the players, enters 事件 and keeps actions, monster count and forced monsters |
| Rules.StartEventFacts | src/game/useGameLogic.ts:1079-1154 | the trigger keeps the invariant, turn, phase, actions and fighters, and always clears the override |
| Rules.OccurKeepsFighters | src/game/useGameLogic.ts:257-391 | no event adds, removes, reorders or re-arms a player |
| Rules.AdvanceKeepsOk | src/game/useGameLogic.ts:1160-1219 | every press keeps the invariant and moves the phase along the cycle, except a 行動 press whose resolution throws, which leaves the whole game unchanged |
| Rules.AdvanceBookkeeping | src/game/useGameLogic.ts:1160-1219 | only leaving 結算 advances the turn; leaving 行動 without a throw clears the actions and resets the flags; leaving 事件 or 準備 changes only the phase |
| Rules.SettleRotatesPlayers | src/game/useGameLogic.ts:1180-1217 | after 結算 the players are the old ones in rotated order, up to the loot an event may give |
| Rules.FirstPressIsCalm | src/game/useGameLogic.ts:1160-1164 | the first press on turn 1 shows 無事件, clears the override and changes nothing else but the phase |
| Rules.ActionCommitsThePreview | src/game/useGameLogic.ts:1171-1179 | when 行動 ends without a throw, the phase is 結算 and the field is the preview's field after the refill, provided no wand uses a disabled element; when the resolution throws, the press changes nothing |
| Session.BuildRoster | src/game/useGameLogic.ts:431-455 | the push loop builds `Rules.Roster(n)` |
| Session.RefillBoard | src/game/useGameLogic.ts:230-255 | the refill's walk over the slots computes `Rules.AutoRefill` |
| Session.RunTurnEnd | src/game/useGameLogic.ts:1185-1209 | the turn-end pass over the slots computes `Rules.EndOfTurn` |
| Session.DrawOutcome | src/game/useGameLogic.ts:1085-1153 | the event and effect choice with its roulette loops computes `Events.Occur` |
| Session.GameSession.constructor | src/game/useGameLogic.ts:174-404 | the session starts on turn 1 before the game, with no players, three empty slots, no queue, neutral flags and 無事件 shown |
| Session.GameSession.GeneratePlayers | src/game/useGameLogic.ts:431-455 | only the players change, to the roster for n |
| Session.GameSession.RotatePlayers | src/game/useGameLogic.ts:457-462 | only the players change, to the rotated order |
| Session.GameSession.Refill | src/game/useGameLogic.ts:230-255 | the board becomes its refill and the invariant holds |
| Session.GameSession.AddMonsterToQueue | src/game/useGameLogic.ts:464-467 | the state becomes `Rules.Enqueue` of the monster |
| Session.GameSession.SetForcedMonsters | src/game/useGameLogic.ts:469 | only the forced monster list changes |
| Session.GameSession.AddMonster | src/game/useGameLogic.ts:471-480 | the state becomes `Rules.Summon`: the first forced monster if one waits, else the generated one |
| Session.GameSession.AddAttackAction | src/game/useGameLogic.ts:598-600 | only the action list changes, by the action appended |
| Session.GameSession.CancelLastAttackAction | src/game/useGameLogic.ts:603-610 | only the action list changes, losing its last entry if it has one |
| Session.GameSession.SetNextEvent | src/game/useGameLogic.ts:1074-1077 | only the override changes, to the given name and description |
| Session.GameSession.TriggerEvent | src/game/useGameLogic.ts:1079-1154 | the state becomes `Rules.StartEvent`: the override is consumed, the effect applied, the event shown with one effect, the refill run |
| Session.GameSession.PreviewBattlefieldAfterActions | src/game/useGameLogic.ts:903-1063 | returns the previewed slots of the pending actions and changes nothing |
| Session.GameSession.ProcessAttackActions | src/game/useGameLogic.ts:645-901 | reports whether the resolution got through; if it did, the board becomes the committed resolution and the list is emptied, and if it threw, nothing changes |
| Session.GameSession.NextPhase | src/game/useGameLogic.ts:1160-1219 | one press leaves the state `Rules.Advance` gives, a throwing 行動 press included, and keeps the invariant; it needs players and, in 行動, one action per player |
| Session.GameSession.CloseActions | src/game/useGameLogic.ts:1171-1179 | leaving 行動 leaves `Rules.FinishActions`: actions resolved and cleared, flags reset, phase 結算, or nothing changed when the resolution throws |
| Session.GameSession.CloseTurn | src/game/useGameLogic.ts:1180-1217 | leaving 結算 leaves `Rules.EndTurn`: turn-end skills, turn + 1, rotated players, phase 事件 |

## Left out

- Log messages, `console.log`, the client and supervisor logs, player names and `imageUrl`.
  Their text carries no rule. The one log that can throw, the bomb's at
  src/game/useGameLogic.ts:800-806, is modelled by whether it throws (`Combat.Crashes`), not
  by its text.
- The hit-point formula of random monsters (a floating-point power `** 0.8`) and the monster
  name tables. Only the level band, the element draw, the card draw and the loot coin flips
  are modelled; the full monster is a parameter of `AddMonster`.
- Floating point: draws are exact reals in [0, 1), and rolls are their products with integer
  totals.
- React reactivity is not modelled as such. The refill effect, the event trigger on entering
  事件, the `useMemo` preview and the `gameState` snapshot are explicit calls or functions.
  The refill runs after every change of the queue, and the event trigger runs inside
  `NextPhase`.
- The button gate in src/App.tsx:81-85 compares the action count with the form's player
  count; the model uses the number of players.
- src/App.tsx rendering, src/component/Monstermodal.tsx, src/component/MonsterCard.tsx,
  src/hook/GameStateSender.tsx (WebSocket sending on a timer) and src/hook/NgrokStatus.tsx
  (HTTP polling, clipboard): user interface and I/O.
- Aliasing of the cloned objects inside the resolver: the model works on values. The source's
  `structuredClone` copies behave as values here, and the skill handler's slot copies carry
  the same values as the objects the resolver keeps using.
- Session.GameSession.CloseTurn: rotates with `Rules.Rotated` directly instead of calling
  `RotatePlayers`; the resulting state is the same.
- Rules.Rotated, Rules.EndOfTurn, Rules.DropLast: their own contracts state only lengths; what
  they do is stated by `Rules.RotatedIsPermutation`, `Rules.TurnEndOnlyHeals` and
  `Rules.CancelUndoesAdd`.
- Combat.ApplyAction: its own contract states only what is kept (three slots, the fighters,
  no player change in preview); the effect of each card is stated by the `CombatFacts`
  lemmas and the mode agreement by `PreviewFacts`.
- Combat.Resolve: its own contract states only what is kept, as for `Combat.ApplyAction`;
  the mode agreement is `PreviewFacts.ResolveAgrees`, and whether a committed run throws
  is `Combat.Aborts`.
- Events.Pick, Events.SelectEvent, Events.SelectEffect: their own contracts state only that
  the result is an entry; the exact choice is stated by `Events.PickIsFirstCrossing`,
  `Events.EventOdds` and the forced-choice lemmas.
