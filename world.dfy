/** The app's mutable state and its per-frame systems, run in place. Each
    method is proved against the function of `Systems` that gives the same
    stage on values. */
module Game {
  import opened Wrappers
  import opened Cards
  import opened Systems

  class World {
    /** The pointer resource. */
    var pointer: Vec2
    /** The card entities, in query iteration order. */
    var cards: seq<Card>

    function State(): Scene
      reads this
    {
      Scene(pointer, cards)
    }

    /** Startup: the default pointer resource and the two spawned cards. */
    constructor ()
      ensures pointer == Origin
      ensures cards == InitialCards
    {
      pointer := Origin;
      cards := InitialCards;
    }

    /** `update_pointer`: overwrite the pointer with the cursor's world
        position when there is one, otherwise keep it. */
    method UpdatePointer(cursor: Option<Vec2>)
      modifies this`pointer
      ensures cursor.Some? ==> pointer == cursor.value
      ensures cursor.None? ==> pointer == old(pointer)
    {
      if cursor.Some? {
        pointer := cursor.value;
      }
    }

    /** `hoverable`: every hoverable card that is not dragged gets its hovered
        flag set when the pointer is strictly inside its box and cleared
        otherwise; every other card is left as it is. */
    method Hover()
      modifies this`cards
      ensures |cards| == |old(cards)|
      ensures forall i :: 0 <= i < |cards| && HoverTested(old(cards)[i]) ==>
        cards[i] == old(cards)[i].(hovered := Contains(old(cards)[i].translation, pointer))
      ensures forall i :: 0 <= i < |cards| && !HoverTested(old(cards)[i]) ==>
        cards[i] == old(cards)[i]
      ensures cards == HoverAll(old(cards), pointer)
    {
      var i := 0;
      while i < |cards|
        invariant 0 <= i <= |cards| == |old(cards)|
        invariant forall k :: 0 <= k < i ==> cards[k] == HoverCard(old(cards)[k], pointer)
        invariant forall k :: i <= k < |cards| ==> cards[k] == old(cards)[k]
      {
        var c := cards[i];
        if c.hoverable && !c.dragged {
          cards := cards[i := c.(hovered := Contains(c.translation, pointer))];
        }
        i := i + 1;
      }
    }

    /** The press query's first match: the first card in iteration order that
        is hovered and draggable, if any. */
    method PickTarget() returns (r: Option<nat>)
      ensures r.Some? ==> r.value < |cards| && Grabbable(cards[r.value])
      ensures r.Some? ==> forall j :: 0 <= j < r.value ==> !Grabbable(cards[j])
      ensures r.None? ==> forall j :: 0 <= j < |cards| ==> !Grabbable(cards[j])
    {
      var i := 0;
      while i < |cards| && !(cards[i].hovered && cards[i].draggable)
        invariant 0 <= i <= |cards|
        invariant forall j :: 0 <= j < i ==> !Grabbable(cards[j])
      {
        i := i + 1;
      }
      r := if i < |cards| then Some(i) else None;
    }

    /** `draggable`: on a press edge the first hovered draggable card is
        marked dragged; on a release edge every card that was dragged when
        the stage began is unmarked. Both queries see the cards as they were
        at the start; the commands are applied afterwards in the order
        queued. */
    method Drag(pressed: bool, released: bool)
      modifies this`cards
      ensures cards == DragControl(old(cards), pressed, released)
    {
      var before := cards;
      var target: Option<nat> := None;
      if pressed {
        target := PickTarget();
      }
      if target.Some? {
        cards := cards[target.value := cards[target.value].(dragged := true)];
      }
      if released {
        var i := 0;
        while i < |cards|
          invariant 0 <= i <= |cards| == |before|
          invariant forall k :: 0 <= k < i ==>
            cards[k] == before[k].(dragged := DraggedAfter(before[k].dragged, Picks(target, k), true))
          invariant forall k :: i <= k < |cards| ==>
            cards[k] == before[k].(dragged := before[k].dragged || Picks(target, k))
        {
          if before[i].dragged {
            cards := cards[i := cards[i].(dragged := false)];
          }
          i := i + 1;
        }
      }
    }

    /** `dragged`: every dragged card's translation takes the pointer's x and
        y and keeps its z; nothing else changes. */
    method Follow()
      modifies this`cards
      ensures |cards| == |old(cards)|
      ensures forall i :: 0 <= i < |cards| && old(cards)[i].dragged ==>
        cards[i] == old(cards)[i].(translation := Vec3(pointer.x, pointer.y, old(cards)[i].translation.z))
      ensures forall i :: 0 <= i < |cards| && !old(cards)[i].dragged ==>
        cards[i] == old(cards)[i]
      ensures cards == FollowAll(old(cards), pointer)
    {
      var i := 0;
      while i < |cards|
        invariant 0 <= i <= |cards| == |old(cards)|
        invariant forall k :: 0 <= k < i ==> cards[k] == FollowCard(old(cards)[k], pointer)
        invariant forall k :: i <= k < |cards| ==> cards[k] == old(cards)[k]
      {
        var c := cards[i];
        if c.dragged {
          cards := cards[i := c.(translation := Vec3(pointer.x, pointer.y, c.translation.z))];
        }
        i := i + 1;
      }
    }

    /** One frame: the systems in the order they are registered. */
    method Step(f: Frame)
      modifies this
      ensures State() == StepScene(old(State()), f)
    {
      UpdatePointer(f.cursor);
      Hover();
      Drag(f.justPressed, f.justReleased);
      Follow();
    }
  }
}
