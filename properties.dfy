/** What the systems promise, stated on the functions of `Systems`: one
    stage at a time, one frame at a time, and over runs of frames. */
module Properties {
  import opened Wrappers
  import opened Cards
  import opened Systems

  // ----- update_pointer -----

  /** Without a cursor the pointer keeps its value; with one it becomes
      exactly that position. */
  lemma PointerKeptOrOverwritten(s: Scene, f: Frame)
    ensures f.cursor.None? ==> StepScene(s, f).pointer == s.pointer
    ensures f.cursor.Some? ==> StepScene(s, f).pointer == f.cursor.value
  {
  }

  // ----- hoverable -----

  /** The hover stage sets or clears the flag of every tested card from the
      box test alone, and leaves dragged and non-hoverable cards untouched. */
  lemma HoverSetsOrClears(cs: seq<Card>, p: Vec2)
    ensures |HoverAll(cs, p)| == |cs|
    ensures forall i :: 0 <= i < |cs| && HoverTested(cs[i]) ==>
      HoverAll(cs, p)[i].hovered == Contains(cs[i].translation, p)
    ensures forall i :: 0 <= i < |cs| && !HoverTested(cs[i]) ==> HoverAll(cs, p)[i] == cs[i]
    ensures forall i :: 0 <= i < |cs| ==> HoverAll(cs, p)[i] == cs[i].(hovered := HoverAll(cs, p)[i].hovered)
  {
  }

  // ----- draggable -----

  /** Any index with the first-match property is the one `FirstGrabbable`
      finds; and when there is none, neither is there a first match. */
  lemma FirstGrabbableIsUnique(cs: seq<Card>, r: Option<nat>)
    requires r.Some? ==> r.value < |cs| && Grabbable(cs[r.value])
    requires r.Some? ==> forall j :: 0 <= j < r.value ==> !Grabbable(cs[j])
    requires r.None? ==> forall j :: 0 <= j < |cs| ==> !Grabbable(cs[j])
    ensures r == FirstGrabbable(cs)
  {
  }

  /** A press without a release marks exactly the first hovered draggable
      card, and is a no-op when there is none. */
  lemma PressMarksFirstGrabbable(cs: seq<Card>)
    ensures FirstGrabbable(cs).None? ==> DragControl(cs, true, false) == cs
    ensures FirstGrabbable(cs).Some? ==>
      var k := FirstGrabbable(cs).value;
      DragControl(cs, true, false) == cs[k := cs[k].(dragged := true)]
  {

  }

  /** A press never marks a card that is not draggable or not hovered. */
  lemma PressNeedsHoveredDraggable(cs: seq<Card>, pressed: bool, released: bool, i: int)
    requires 0 <= i < |cs| && !cs[i].dragged && !Grabbable(cs[i])
    ensures !DragControl(cs, pressed, released)[i].dragged
  {
  }

  /** If no card is dragged, a press leaves at most one dragged. */
  lemma PressDragsAtMostOne(cs: seq<Card>)
    requires NoneDragged(cs)
    ensures AtMostOneDragged(DragControl(cs, true, false))
  {
  }

  /** A release without a press unmarks every card and changes nothing else;
      with no card dragged it is a no-op. */
  lemma ReleaseDropsAll(cs: seq<Card>)
    ensures NoneDragged(DragControl(cs, false, true))
    ensures forall i :: 0 <= i < |cs| ==> DragControl(cs, false, true)[i] == cs[i].(dragged := false)
    ensures NoneDragged(cs) ==> DragControl(cs, false, true) == cs
  {

  }

  /** A frame with neither edge changes no flag. */
  lemma NoEdgeNoChange(cs: seq<Card>)
    ensures DragControl(cs, false, false) == cs
  {

  }

  /** A press and a release in the same frame: the release only removes the
      marker from cards that were dragged when the stage began, so the card
      the press picks stays dragged although the button is up again. */
  lemma ClickWithinOneFrameKeepsCardDragged(cs: seq<Card>, k: nat)
    requires NoneDragged(cs)
    requires FirstGrabbable(cs) == Some(k)
    ensures DragControl(cs, true, true)[k].dragged
    ensures forall i :: 0 <= i < |cs| && i != k ==> !DragControl(cs, true, true)[i].dragged
  {
  }

  /** The same, from startup: the pointer moves onto the white card and
      the button is pressed and released within one frame; the card is
      dragged afterwards. */
  lemma ClickWithinOneFrameFromStartup()
    ensures var hover := Frame(Some(Vec2(42.0, 0.0)), false, false);
            var click := Frame(None, true, true);
            StepScene(StepScene(InitialScene, hover), click).cards[1].dragged
  {

  }

  // ----- dragged -----

  /** Hover the white card, press, move the pointer to (100, 100), release:
      the card followed the pointer and is dropped there. */
  lemma DragAndDropFromStartup()
    ensures var s1 := StepScene(InitialScene, Frame(Some(Vec2(42.0, 0.0)), false, false));
            var s2 := StepScene(s1, Frame(None, true, false));
            var s3 := StepScene(s2, Frame(Some(Vec2(100.0, 100.0)), false, false));
            var s4 := StepScene(s3, Frame(None, false, true));
            && s2.cards[1].dragged
            && s3.cards[1].translation == Vec3(100.0, 100.0, 0.0)
            && s4.cards[1] == Card(Vec3(100.0, 100.0, 0.0), true, true, true, false)
  {

  }

  /** The follow stage moves only dragged cards, to the pointer's x and y,
      keeps their z, and changes no flag. */
  lemma FollowMovesOnlyDragged(cs: seq<Card>, p: Vec2)
    ensures |FollowAll(cs, p)| == |cs|
    ensures forall i :: 0 <= i < |cs| && cs[i].dragged ==>
      FollowAll(cs, p)[i].translation == Vec3(p.x, p.y, cs[i].translation.z)
    ensures forall i :: 0 <= i < |cs| && !cs[i].dragged ==> FollowAll(cs, p)[i] == cs[i]
    ensures forall i :: 0 <= i < |cs| ==>
      FollowAll(cs, p)[i] == cs[i].(translation := FollowAll(cs, p)[i].translation)
  {
  }

  // ----- one frame -----

  /** Every tested card's hover flag is recomputed in each frame from the
      new pointer, so no hover is left stale once the pointer leaves. */
  lemma HoverRecomputedEachFrame(s: Scene, f: Frame, i: int)
    requires 0 <= i < |s.cards| && HoverTested(s.cards[i])
    ensures |StepScene(s, f).cards| == |s.cards|
    ensures StepScene(s, f).cards[i].hovered == Contains(s.cards[i].translation, StepScene(s, f).pointer)
  {
  }

  /** A card that is not hoverable never gains the hover flag in a frame. */
  lemma UnhoverableStaysUnhovered(s: Scene, f: Frame, i: int)
    requires 0 <= i < |s.cards| && !s.cards[i].hoverable && !s.cards[i].hovered
    ensures !StepScene(s, f).cards[i].hovered
  {
  }

  /** At the end of every frame each dragged card sits at the pointer. */
  lemma DraggedCardsAtPointer(s: Scene, f: Frame)
    ensures var t := StepScene(s, f);
      forall i :: 0 <= i < |t.cards| && t.cards[i].dragged ==>
        t.cards[i].translation.x == t.pointer.x && t.cards[i].translation.y == t.pointer.y
  {
  }

  /** A frame keeps the card count, each card's capabilities and its z. */
  lemma StepKeepsShape(s: Scene, f: Frame)
    ensures |StepScene(s, f).cards| == |s.cards|
    ensures forall i :: 0 <= i < |s.cards| ==>
      var c, d := s.cards[i], StepScene(s, f).cards[i];
      d.draggable == c.draggable && d.hoverable == c.hoverable && d.translation.z == c.translation.z
  {
  }

  /** A frame whose edges alternate keeps the drag invariant. */
  lemma StepKeepsDragInvariant(s: Scene, f: Frame, held: bool)
    requires DragInvariant(s.cards, held)
    requires EdgesAlternate(f, held)
    ensures DragInvariant(StepScene(s, f).cards, HeldAfter(held, f))
  {

  }

  // ----- runs of frames -----

  /** Along a run whose press and release edges alternate, at most one card
      is dragged. */
  lemma {:induction false} AlternatingRunKeepsOneDragged(s: Scene, fs: seq<Frame>, held: bool)
    requires DragInvariant(s.cards, held)
    requires Alternates(fs, held)
    ensures AtMostOneDragged(Run(s, fs).cards)
    decreases |fs|
  {
    if |fs| > 0 {
      StepKeepsDragInvariant(s, fs[0], held);
      AlternatingRunKeepsOneDragged(StepScene(s, fs[0]), fs[1..], HeldAfter(held, fs[0]));
    }
  }

  /** From startup no run ever ends with two cards dragged, whatever its
      edges: only the white card is draggable. */
  lemma NeverTwoDraggedFromStartup(fs: seq<Frame>)
    ensures AtMostOneDragged(Run(InitialScene, fs).cards)
  {
    GreyCardNeverChanges(fs);
  }

  /** With two draggable cards, a run the button can produce ends with both
      dragged: a press and a release within one frame leave the second card
      dragged with the button up, and the next press picks the first. */
  lemma QuickClickThenPressDragsTwo()
    ensures var s := Scene(Origin, [Card(Vec3(0.0, 0.0, 0.0), true, true, false, false),
                                    Card(Vec3(100.0, 0.0, 0.0), true, true, false, false)]);
            var fs := [Frame(Some(Vec2(100.0, 0.0)), false, false),
                       Frame(None, true, true),
                       Frame(Some(Vec2(0.0, 0.0)), true, false)];
            && DragInvariant(s.cards, false)
            && Fits(fs, false)
            && var t := Run(s, fs); |t.cards| == 2 && t.cards[0].dragged && t.cards[1].dragged
  {
  }

  /** A card that is not draggable and not dragged is never dragged and never
      moves, whatever the frames; if it is also not hoverable, it never
      changes at all. */
  lemma {:induction false} UndraggableCardStaysPut(s: Scene, fs: seq<Frame>, i: int)
    requires 0 <= i < |s.cards|
    requires !s.cards[i].draggable && !s.cards[i].dragged
    ensures |Run(s, fs).cards| == |s.cards|
    ensures Run(s, fs).cards[i].translation == s.cards[i].translation
    ensures !Run(s, fs).cards[i].dragged && !Run(s, fs).cards[i].draggable
    ensures Run(s, fs).cards[i].hoverable == s.cards[i].hoverable
    ensures !s.cards[i].hoverable ==> Run(s, fs).cards[i] == s.cards[i]
    decreases |fs|
  {
    if |fs| > 0 {
      var t := StepScene(s, fs[0]);
      var p := TrackPointer(s.pointer, fs[0].cursor);
      var h := HoverAll(s.cards, p);
      PressNeedsHoveredDraggable(h, fs[0].justPressed, fs[0].justReleased, i);
      assert t.cards[i] == s.cards[i].(hovered := t.cards[i].hovered);
      UndraggableCardStaysPut(t, fs[1..], i);
    }
  }

  /** The grey card spawned at startup never changes. */
  lemma GreyCardNeverChanges(fs: seq<Frame>)
    ensures |Run(InitialScene, fs).cards| == 2
    ensures Run(InitialScene, fs).cards[0] == InitialCards[0]
  {
    UndraggableCardStaysPut(InitialScene, fs, 0);
  }
}
