/**
 * The elemental tags of the game and the elemental triangle
 * (fire beats wood, wood beats water, water beats fire).
 */
module Elements {

  /** 火 (fire), 水 (water), 木 (wood) and 無 (no element). */
  datatype Element = Fire | Water | Wood | Plain

  /** The elements a player can attack with: every element except 無. */
  type PlayerElement = e: Element | e != Plain witness Fire

  /** The triangle as a relation, independent of the two lookup tables below. */
  predicate Beats(a: Element, b: Element) {
    || (a == Fire && b == Wood)
    || (a == Wood && b == Water)
    || (a == Water && b == Fire)
  }

  /** The source's `counter` table: the element an attack of element `e` doubles against. */
  function Counter(e: Element): Element {
    match e
    case Fire => Wood
    case Wood => Water
    case Water => Fire
    case Plain => Plain
  }

  /** The source's `weak` table: the element an attack of element `e` does nothing against. */
  function Weak(e: Element): Element {
    match e
    case Fire => Water
    case Water => Wood
    case Wood => Fire
    case Plain => Plain
  }

  /** Both tables are the triangle: `Counter` is what `e` beats, `Weak` is what beats `e`. */
  lemma TablesAreTheTriangle(e: PlayerElement, t: Element)
    ensures Counter(e) == t <==> Beats(e, t)
    ensures Weak(e) == t <==> Beats(t, e)
  {
  }

  /** The triangle is asymmetric and every attacking element beats exactly one element. */
  lemma TriangleShape(a: Element, b: Element)
    ensures Beats(a, b) ==> !Beats(b, a)
    ensures Beats(a, b) ==> a != Plain && b != Plain && a != b
    ensures a != Plain ==> Beats(a, Counter(a)) && Beats(Weak(a), a)
    ensures Counter(Counter(a)) == Weak(a)
  {
  }

  /**
   * Damage of a wand (魔法棒) hit of element `e` with the player's attack value `base`
   * against a monster of element `target`. With `neutral` (the 元素紊亂 all-neutral flag)
   * the triangle is suppressed. The doubling is applied first and the zeroing second,
   * as the source does; for an attacking element they never both apply.
   */
  function WandDamage(base: int, e: PlayerElement, target: Element, neutral: bool): (dmg: int)
    ensures neutral ==> dmg == base
    ensures !neutral && Beats(e, target) ==> dmg == 2 * base
    ensures !neutral && Beats(target, e) ==> dmg == 0
    ensures !Beats(e, target) && !Beats(target, e) ==> dmg == base
    ensures target == Plain ==> dmg == base
  {
    var doubled := if !neutral && target == Counter(e) then base * 2 else base;
    if !neutral && target == Weak(e) then 0 else doubled
  }
}
