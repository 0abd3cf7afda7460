/**
 * Monster skills: the skill table keyed by skill name, the two skill effects
 * (element rotation on every hit, healing at turn end) and the trigger dispatcher.
 */
module Skills {
  import opened Wrappers
  import opened Elements
  import opened Entities

  datatype Trigger = OnAppear | OnHit | OnTurnStart | OnTurnEnd

  datatype SkillEffect = ElementRotation | Heal

  datatype Skill = Skill(name: string, trigger: Trigger, effect: SkillEffect)

  const RotationName: string := "屬性輪轉"
  const HealName: string := "恢復"

  /** The skill table: 屬性輪轉 fires on every hit, 恢復 at turn end; other names are absent. */
  function SkillTable(name: string): Option<Skill> {
    if name == RotationName then Some(Skill(RotationName, OnHit, ElementRotation))
    else if name == HealName then Some(Skill(HealName, OnTurnEnd, Heal))
    else None
  }

  /** The rotation order 火 → 水 → 木. */
  const RotationOrder: seq<Element> := [Fire, Water, Wood]

  /** JavaScript's `indexOf`: the first position of `x`, or -1. */
  function IndexOf(s: seq<Element>, x: Element): (i: int)
    ensures -1 <= i < |s|
    ensures i >= 0 ==> s[i] == x && forall j :: 0 <= j < i ==> s[j] != x
    ensures i == -1 <==> x !in s
  {
    if |s| == 0 then -1
    else if s[0] == x then 0
    else var k := IndexOf(s[1..], x); if k == -1 then -1 else k + 1
  }

  /**
   * The element after `e` in the rotation order. A monster without element (無) is not in
   * the order, `indexOf` gives -1, and it becomes 火.
   */
  function Rotate(e: Element): (r: Element)
    ensures r != Plain
    ensures e != Plain ==> Beats(r, e)
    ensures e == Plain ==> r == Fire
  {
    RotationOrder[(IndexOf(RotationOrder, e) + 1) % |RotationOrder|]
  }

  /** Three rotations bring an elemental monster back to its element. */
  lemma RotationCycle(e: PlayerElement)
    ensures Rotate(Rotate(Rotate(e))) == e
    ensures Rotate(e) != e
  {
  }

  /** The heal effect: HP becomes `min(HP + 2, maxHP)`. */
  function Healed(m: Monster): (r: Monster)
    ensures r.hp <= r.maxHP && r.hp <= m.hp + 2
    ensures r.hp == m.hp + 2 || r.hp == m.maxHP
    ensures m.hp <= m.maxHP ==> m.hp <= r.hp
    ensures r == m.(hp := r.hp)
  {
    m.(hp := if m.hp + 2 < m.maxHP then m.hp + 2 else m.maxHP)
  }

  /**
   * The source's `handleSkillTrigger`: a monster's skill fires only if the monster has a
   * skill name, the name is in the table and the skill's trigger is the given one.
   */
  function ApplySkill(m: Monster, trigger: Trigger): (r: Monster)
    ensures (m.skill.None? || SkillTable(m.skill.value).None?
             || SkillTable(m.skill.value).value.trigger != trigger) ==> r == m
    ensures trigger == OnAppear || trigger == OnTurnStart ==> r == m
    ensures trigger == OnHit ==> r == m.(element := r.element)
    ensures trigger == OnTurnEnd ==> r == m.(hp := r.hp)
  {
    if m.skill.None? || m.skill.value == "" then m
    else match SkillTable(m.skill.value)
      case None => m
      case Some(skill) =>
        if skill.trigger != trigger then m
        else match skill.effect
          case ElementRotation => m.(element := Rotate(m.element))
          case Heal => Healed(m)
  }

  /** A hit on a rotating monster moves it to the element that beats its old element. */
  lemma HitRotates(m: Monster)
    requires m.skill == Some(RotationName)
    ensures ApplySkill(m, OnHit).element == Rotate(m.element)
    ensures m.element != Plain ==> Beats(ApplySkill(m, OnHit).element, m.element)
    ensures ApplySkill(m, OnTurnEnd) == m
  {
  }

  /** At turn end a healing monster gets `min(HP + 2, maxHP)`, and a hit leaves it alone. */
  lemma TurnEndHeals(m: Monster)
    requires m.skill == Some(HealName)
    ensures ApplySkill(m, OnTurnEnd).hp == if m.hp + 2 < m.maxHP then m.hp + 2 else m.maxHP
    ensures ApplySkill(m, OnHit) == m
  {
  }
}
