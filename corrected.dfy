/** The drag stage as it is evidently meant to behave: a release drops every
    card, including one that a press in the same frame has just picked. It
    differs from `Systems.DragControl` only on frames with both edges, and
    with it a run the button can produce never has two cards dragged. */
module Corrected {
  import opened Wrappers
  import opened Cards
  import opened Systems

  function DraggedAfterCorrected(was: bool, picked: bool, released: bool): bool {
    !released && (was || picked)
  }

  function DragControlCorrected(cs: seq<Card>, pressed: bool, released: bool): seq<Card> {
    var target := if pressed then FirstGrabbable(cs) else None;
    seq(|cs|, i requires 0 <= i < |cs| =>
      cs[i].(dragged := DraggedAfterCorrected(cs[i].dragged, Picks(target, i), released)))
  }

  function StepSceneCorrected(s: Scene, f: Frame): Scene {
    var p := TrackPointer(s.pointer, f.cursor);
    var hovered := HoverAll(s.cards, p);
    var grabbed := DragControlCorrected(hovered, f.justPressed, f.justReleased);
    Scene(p, FollowAll(grabbed, p))
  }

  function RunCorrected(s: Scene, fs: seq<Frame>): Scene
    decreases |fs|
  {
    if |fs| == 0 then s else RunCorrected(StepSceneCorrected(s, fs[0]), fs[1..])
  }

  /** The correction changes nothing on a frame with at most one edge. */
  lemma CorrectionOnlyAffectsQuickClicks(cs: seq<Card>, pressed: bool, released: bool)
    requires !(pressed && released)
    ensures DragControlCorrected(cs, pressed, released) == DragControl(cs, pressed, released)
  {
  }

  /** With the correction, a frame with both edges leaves no card dragged. */
  lemma QuickClickDropsAll(cs: seq<Card>)
    ensures NoneDragged(DragControlCorrected(cs, true, true))
  {
  }

  /** A corrected frame whose edges fit the button keeps the drag invariant,
      for whichever button state follows a frame with both edges. */
  lemma StepCorrectedKeepsDragInvariant(s: Scene, f: Frame, held: bool, next: bool)
    requires DragInvariant(s.cards, held)
    requires EdgesFit(f, held)
    requires !(f.justPressed && f.justReleased) ==> next == HeldAfter(held, f)
    ensures DragInvariant(StepSceneCorrected(s, f).cards, next)
  {
  }

  /** With the correction, no run the button can produce ever ends with two
      cards dragged, quick clicks included. */
  lemma {:induction false} RunCorrectedKeepsOneDragged(s: Scene, fs: seq<Frame>, held: bool)
    requires DragInvariant(s.cards, held)
    requires Fits(fs, held)
    ensures AtMostOneDragged(RunCorrected(s, fs).cards)
    decreases |fs|
  {
    if |fs| > 0 {
      var next := if fs[0].justPressed && fs[0].justReleased
                  then !Fits(fs[1..], false)
                  else HeldAfter(held, fs[0]);
      StepCorrectedKeepsDragInvariant(s, fs[0], held, next);
      RunCorrectedKeepsOneDragged(StepSceneCorrected(s, fs[0]), fs[1..], next);
    }
  }

  /** The run that drags two cards as the program is written drags one with
      the correction. */
  lemma QuickClickThenPressDragsOne()
    ensures var s := Scene(Origin, [Card(Vec3(0.0, 0.0, 0.0), true, true, false, false),
                                    Card(Vec3(100.0, 0.0, 0.0), true, true, false, false)]);
            var fs := [Frame(Some(Vec2(100.0, 0.0)), false, false),
                       Frame(None, true, true),
                       Frame(Some(Vec2(0.0, 0.0)), true, false)];
            var t := RunCorrected(s, fs);
            |t.cards| == 2 && t.cards[0].dragged && !t.cards[1].dragged
  {
  }
}
