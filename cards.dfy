/** The data of the card scene: world-space points, an entity's translation,
    the card entity with its marker components written as flags, the strict
    box test used for hovering, and the layout spawned at startup. */
module Cards {

  /** A world-space point, the type of the pointer position. The engine's
      `f32` is modelled by exact reals. */
  datatype Vec2 = Vec2(x: real, y: real)

  /** The translation of an entity's transform. */
  datatype Vec3 = Vec3(x: real, y: real, z: real)

  /** Width and height of every card (`CARD_SIZE`). */
  const CardWidth: real := 40.0
  const CardHeight: real := 60.0

  /** One card entity. `draggable` and `hoverable` are the capability markers
      it is spawned with; `hovered` and `dragged` are the markers the systems
      insert and remove at run time. */
  datatype Card = Card(
    translation: Vec3,
    draggable: bool,
    hoverable: bool,
    hovered: bool,
    dragged: bool)

  /** The pointer resource's default position. */
  const Origin: Vec2 := Vec2(0.0, 0.0)

  /** The hover test: the pointer lies strictly inside the card-sized box
      centred on `centre`, written as the four comparisons of the
      `hoverable` system. */
  predicate Contains(centre: Vec3, p: Vec2) {
    && centre.x - CardWidth / 2.0 < p.x
    && centre.x + CardWidth / 2.0 > p.x
    && centre.y - CardHeight / 2.0 < p.y
    && centre.y + CardHeight / 2.0 > p.y
  }

  function Abs(r: real): real {
    if r < 0.0 then -r else r
  }

  /** The box test is the same as "closer than half the card's width and
      height on each axis", with the half-extents 20 and 30. */
  lemma ContainsIffWithinHalfExtents(centre: Vec3, p: Vec2)
    ensures Contains(centre, p) <==> Abs(p.x - centre.x) < 20.0 && Abs(p.y - centre.y) < 30.0
  {
  }

  /** A pointer exactly on an edge of the box is not inside it. */
  lemma EdgeIsOutside(centre: Vec3, p: Vec2)
    requires p.x == centre.x - 20.0 || p.x == centre.x + 20.0
          || p.y == centre.y - 30.0 || p.y == centre.y + 30.0
    ensures !Contains(centre, p)
  {
  }

  /** The two cards spawned at startup: a grey one left of the origin with no
      capability markers, and a white one right of it that is draggable and
      hoverable. Both sit 2 units beyond one card width from the origin. */
  const InitialCards: seq<Card> := [
    Card(Vec3(-CardWidth - 2.0, 0.0, 0.0), false, false, false, false),
    Card(Vec3(CardWidth + 2.0, 0.0, 0.0), true, true, false, false)
  ]

  /** The two starting boxes do not overlap: no pointer position hovers both. */
  lemma InitialCardsDisjoint(p: Vec2)
    ensures |InitialCards| == 2
    ensures !(Contains(InitialCards[0].translation, p) && Contains(InitialCards[1].translation, p))
  {
  }

  predicate NoneDragged(cs: seq<Card>) {
    forall i :: 0 <= i < |cs| ==> !cs[i].dragged
  }

  predicate AtMostOneDragged(cs: seq<Card>) {
    forall i, j :: 0 <= i < |cs| && 0 <= j < |cs| && cs[i].dragged && cs[j].dragged ==> i == j
  }
}
