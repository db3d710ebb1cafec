/** The four per-frame systems as functions on values: each takes the cards
    as they were when the system began and gives them as they are once the
    commands it queued have been applied. The class `Game.World` runs the
    same stages in place and is proved against these functions. */
module Systems {
  import opened Wrappers
  import opened Cards

  /** What the host supplies for one frame: the cursor's world position if
      there is one (the cursor is inside the window and the camera can map
      it), and the left button's press and release edges. */
  datatype Frame = Frame(cursor: Option<Vec2>, justPressed: bool, justReleased: bool)

  /** The state the systems work on: the pointer resource and the cards in
      query iteration order. */
  datatype Scene = Scene(pointer: Vec2, cards: seq<Card>)

  /** The scene after startup: the default pointer and the spawned layout. */
  const InitialScene: Scene := Scene(Origin, InitialCards)

  // ----- update_pointer -----

  /** The pointer after an update: the cursor's world position when there is
      one, otherwise the previous position. */
  function TrackPointer(previous: Vec2, cursor: Option<Vec2>): Vec2 {
    match cursor
    case Some(p) => p
    case None => previous
  }

  // ----- hoverable -----

  /** The hover query matches hoverable cards that are not dragged. */
  predicate HoverTested(c: Card) {
    c.hoverable && !c.dragged
  }

  function HoverCard(c: Card, p: Vec2): Card {
    if HoverTested(c) then c.(hovered := Contains(c.translation, p)) else c
  }

  function HoverAll(cs: seq<Card>, p: Vec2): seq<Card> {
    seq(|cs|, i requires 0 <= i < |cs| => HoverCard(cs[i], p))
  }

  // ----- draggable -----

  /** The press query matches cards that are hovered and draggable. */
  predicate Grabbable(c: Card) {
    c.hovered && c.draggable
  }

  /** The first card in iteration order that the press query matches. */
  function FirstGrabbable(cs: seq<Card>): (r: Option<nat>)
    ensures r.Some? ==> r.value < |cs| && Grabbable(cs[r.value])
    ensures r.Some? ==> forall j :: 0 <= j < r.value ==> !Grabbable(cs[j])
    ensures r.None? <==> forall j :: 0 <= j < |cs| ==> !Grabbable(cs[j])
  {
    if |cs| == 0 then None
    else if Grabbable(cs[0]) then Some(0)
    else match FirstGrabbable(cs[1..])
      case None => None
      case Some(k) => Some(k + 1)
  }

  predicate Picks(target: Option<nat>, i: int) {
    target.Some? && target.value == i
  }

  /** The dragged flag once the stage's commands are applied. They are
      applied in the order queued: the insert on the picked card, then the
      removal on every card that was dragged when the stage began. */
  function DraggedAfter(was: bool, picked: bool, released: bool): bool {
    if released && was then false else was || picked
  }

  function DragControl(cs: seq<Card>, pressed: bool, released: bool): seq<Card> {
    var target := if pressed then FirstGrabbable(cs) else None;
    seq(|cs|, i requires 0 <= i < |cs| =>
      cs[i].(dragged := DraggedAfter(cs[i].dragged, Picks(target, i), released)))
  }

  // ----- dragged -----

  function FollowCard(c: Card, p: Vec2): Card {
    if c.dragged then c.(translation := Vec3(p.x, p.y, c.translation.z)) else c
  }

  function FollowAll(cs: seq<Card>, p: Vec2): seq<Card> {
    seq(|cs|, i requires 0 <= i < |cs| => FollowCard(cs[i], p))
  }

  // ----- one frame, and a run of frames -----

  /** One frame: the four systems in the order they are registered. */
  function StepScene(s: Scene, f: Frame): Scene {
    var p := TrackPointer(s.pointer, f.cursor);
    var hovered := HoverAll(s.cards, p);
    var grabbed := DragControl(hovered, f.justPressed, f.justReleased);
    Scene(p, FollowAll(grabbed, p))
  }

  function Run(s: Scene, fs: seq<Frame>): Scene
    decreases |fs|
  {
    if |fs| == 0 then s else Run(StepScene(s, fs[0]), fs[1..])
  }

  // ----- the button, for runs whose edges alternate -----

  /** Whether the left button is held after a frame that starts with it
      `held`. */
  function HeldAfter(held: bool, f: Frame): bool {
    if f.justPressed then true else if f.justReleased then false else held
  }

  /** A frame whose edges fit a button that is `held` when it starts: at most
      one edge, a press only while the button is up, a release only while it
      is held. */
  predicate EdgesAlternate(f: Frame, held: bool) {
    && !(f.justPressed && f.justReleased)
    && (f.justPressed ==> !held)
    && (f.justReleased ==> held)
  }

  predicate Alternates(fs: seq<Frame>, held: bool)
    decreases |fs|
  {
    |fs| == 0 || (EdgesAlternate(fs[0], held) && Alternates(fs[1..], HeldAfter(held, fs[0])))
  }

  /** A frame whose edges fit a button that is `held` when it starts, where
      a press and a release may also fall into the same frame. */
  predicate EdgesFit(f: Frame, held: bool) {
    && (f.justPressed && !f.justReleased ==> !held)
    && (f.justReleased && !f.justPressed ==> held)
  }

  /** A run of frames a real button can produce. After a frame with both
      edges the button may be up (pressed and released within the frame) or
      held (released and pressed again). */
  predicate Fits(fs: seq<Frame>, held: bool)
    decreases |fs|
  {
    || |fs| == 0
    || (&& EdgesFit(fs[0], held)
        && if fs[0].justPressed && fs[0].justReleased
           then Fits(fs[1..], false) || Fits(fs[1..], true)
           else Fits(fs[1..], HeldAfter(held, fs[0])))
  }

  /** What a run with alternating edges keeps: at most one card dragged, and
      none while the button is up. */
  predicate DragInvariant(cs: seq<Card>, held: bool) {
    AtMostOneDragged(cs) && (!held ==> NoneDragged(cs))
  }
}
