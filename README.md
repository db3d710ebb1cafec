# Card hover and drag, modelled in Dafny

The application shows two card sprites in a window. A card with the
`Hoverable` marker is marked `Hovered` while the pointer is strictly inside
its 40 by 60 box. Pressing the left button over a card with `Hovered` and
`Draggable` marks it `Dragged`. While dragged, the card follows the pointer.
Releasing the button drops it.

This project models the four per-frame systems that do this, the pointer
resource and the startup layout:

- `cards.dfy` (module `Cards`): points, translations and the card entity, with
  its marker components as boolean flags. It also holds `CARD_SIZE`, the
  strict box test and the two cards spawned at startup.
- `systems.dfy` (module `Systems`): each system as a function from the cards
  at the start of the stage to the cards once its commands are applied. It
  also holds one frame (`StepScene`), a run of frames (`Run`), and the
  alternation of press and release edges.
- `world.dfy` (module `Game`): class `World` holds the pointer and the cards
  as mutable fields. It has one method per system, proved against the
  function of `Systems`, and a `Step` that runs them in the order they are
  registered. The hover, drag and follow methods loop over the cards as the
  systems do; the pointer update is a single conditional assignment.
- `properties.dfy` (module `Properties`): what the systems promise, as lemmas
  about one stage, one frame and runs of frames.
- `corrected.dfy` (module `Corrected`): the drag stage with the correction
  described under "## Findings", and the invariant proved for it.
- `wrappers.dfy` (module `Wrappers`): `Option`.

Modelling decisions:

- Coordinates are exact reals in place of `f32`.
- Entities are a sequence. The sequence order is the query iteration order,
  so "first" in the press query means lowest index.
- Command buffering: a system reads the cards as they were when it began.
  The insert and remove commands it queues are applied when it ends, in the
  order queued. For `draggable` this matters. The release loop only removes
  `Dragged` from cards that had it when the stage began. So on a frame with
  both a press and a release edge, the card the press picks stays dragged
  after the button is up again. `Properties.ClickWithinOneFrameKeepsCardDragged`
  and `Properties.ClickWithinOneFrameFromStartup` state this.
- The host supplies the cursor as an optional world-space point. It already
  includes the camera's viewport-to-world mapping. It also supplies the two
  edges of the left button. Together these are a `Frame`.
- "Press and release alternate" means: at most one edge per frame, a press
  only while the button is up, and a release only while it is held.
  `Systems.Alternates` states this, with the button's held flag threaded
  through the run. `Systems.Fits` is the wider class of runs a real button
  can produce, where a press and a release may share a frame.

## Model

| member | source | states |
|---|---|---|
| `Cards.ContainsIffWithinHalfExtents` | src/main.rs:111-117 | the four-comparison box test holds iff the pointer is closer than 20 on x and 30 on y to the card's centre |
| `Cards.EdgeIsOutside` | src/main.rs:114-117 | a pointer exactly on an edge of the box does not hover the card |
| `Cards.InitialCardsDisjoint` | src/main.rs:28-65 | the two spawned cards, at x = -42 and x = 42, have boxes no pointer position is inside at once |
| `Cards.Contains` | src/main.rs:111-117 | the pointer is strictly inside the card-sized box centred on the translation, by the four strict comparisons of the hover system |
| `Cards.InitialCards` | src/main.rs:34-65 | the two spawned cards: grey at x = -42 with no capability markers, white at x = 42 draggable and hoverable, both at y = 0, z = 0, none hovered or dragged |
| `Systems.TrackPointer` | src/main.rs:96-102 | the cursor's world position when there is one, the previous pointer otherwise |
| `Systems.HoverCard` | src/main.rs:110-125 | a hoverable, not dragged card gets the box test as its hovered flag; any other card is unchanged |
| `Systems.HoverAll` | src/main.rs:105-126 | the hover system over every card in iteration order |
| `Systems.DraggedAfter` | src/main.rs:134-145 | a card's dragged flag once the insert on the picked card and then the removals on the cards dragged at stage start are applied |
| `Systems.DragControl` | src/main.rs:128-146 | the drag system: the first hovered draggable card is picked on a press; release removals cover only cards dragged at stage start |
| `Systems.FollowCard` | src/main.rs:149-152 | a dragged card takes the pointer's x and y and keeps z; any other card is unchanged |
| `Systems.FollowAll` | src/main.rs:148-153 | the follow system over every card |
| `Systems.StepScene` | src/main.rs:170-173 | one frame: pointer update, hover, drag and follow in the registered order |
| `Systems.Run` | src/main.rs:170-174 | the scene after a sequence of frames, each a `StepScene` |
| `Systems.FirstGrabbable` | src/main.rs:131-135 | the result is the lowest index whose card is hovered and draggable, and it is None iff no card is both |
| `Game.World.constructor` | src/main.rs:28-73 | startup: the pointer is at the origin (the resource's default) and the cards are the two spawned ones, only the second draggable and hoverable |
| `Game.World.UpdatePointer` | src/main.rs:88-103 | with a cursor world position the pointer becomes exactly it; without one it is unchanged; no card changes |
| `Game.World.Hover` | src/main.rs:105-126 | each hoverable, not dragged card's hovered flag becomes the strict box test; every other card is unchanged; the result equals the hover stage function |
| `Game.World.PickTarget` | src/main.rs:131-135 | returns the first card index that is hovered and draggable, or None when there is none |
| `Game.World.Drag` | src/main.rs:128-146 | the cards become the drag stage function of the old cards: a press marks the first match, a release unmarks every card dragged at stage start |
| `Game.World.Follow` | src/main.rs:148-153 | each dragged card's x and y become the pointer's, its z and flags are kept, other cards are unchanged |
| `Game.World.Step` | src/main.rs:170-173 | one frame runs pointer update, hover, drag and follow in that order; the new state equals the frame function of the old state |
| `Properties.PointerKeptOrOverwritten` | src/main.rs:96-102 | after a frame the pointer is the cursor position if there was one and the previous pointer otherwise |
| `Properties.HoverSetsOrClears` | src/main.rs:108-125 | the hover stage sets or clears every tested card's flag from the box test, leaves dragged and non-hoverable cards untouched, and changes no other field |
| `Properties.FirstGrabbableIsUnique` | src/main.rs:134-135 | any index (or None) with the first-match property is the one the first-match search gives |
| `Properties.PressMarksFirstGrabbable` | src/main.rs:134-139 | a press alone is a no-op without a match, and otherwise marks exactly the first match dragged |
| `Properties.PressNeedsHoveredDraggable` | src/main.rs:131 | a card that is not both hovered and draggable, and not already dragged, is not dragged after the drag stage |
| `Properties.PressDragsAtMostOne` | src/main.rs:134-139 | with no card dragged, a press leaves at most one card dragged |
| `Properties.ReleaseDropsAll` | src/main.rs:140-145 | a release alone unmarks every card and changes nothing else; with no card dragged it is a no-op |
| `Properties.NoEdgeNoChange` | src/main.rs:134-145 | with neither edge the drag stage changes nothing |
| `Properties.ClickWithinOneFrameKeepsCardDragged` | src/main.rs:132-145 | with a press and a release in one frame and no card dragged before, the picked card ends dragged and no other card does |
| `Properties.ClickWithinOneFrameFromStartup` | src/main.rs:128-146 | from startup, a frame moving the pointer onto the white card and then a frame with both edges leave that card dragged |
| `Properties.DragAndDropFromStartup` | src/main.rs:105-153 | from startup: hover, press, move to (100, 100), release; the white card is dragged, follows to (100, 100) and is dropped there |
| `Properties.FollowMovesOnlyDragged` | src/main.rs:148-152 | the follow stage sets dragged cards' x and y to the pointer and keeps z; other cards and all flags are unchanged |
| `Properties.HoverRecomputedEachFrame` | src/main.rs:110-125 | in every frame a hoverable, not dragged card's hovered flag ends equal to the box test against the new pointer |
| `Properties.UnhoverableStaysUnhovered` | src/main.rs:108 | a card without the hoverable marker never gains the hovered flag |
| `Properties.DraggedCardsAtPointer` | src/main.rs:148-152 | at the end of every frame each dragged card's x and y equal the pointer's |
| `Properties.StepKeepsShape` | src/main.rs:128-153 | a frame keeps the number of cards, each card's capability markers and its z |
| `Properties.StepKeepsDragInvariant` | src/main.rs:134-145 | a frame whose edges alternate keeps "at most one dragged, none while the button is up" |
| `Properties.AlternatingRunKeepsOneDragged` | src/main.rs:134-145 | along any run of frames whose edges alternate, at most one card is dragged at the end |
| `Properties.NeverTwoDraggedFromStartup` | src/main.rs:34-65 | from startup, whatever the frames, at most one card is dragged, since only the white card is draggable |
| `Properties.QuickClickThenPressDragsTwo` | src/main.rs:134-145 | with two draggable cards, a run the button can produce (hover, press and release in one frame, press on the other card) ends with both dragged |
| `Corrected.CorrectionOnlyAffectsQuickClicks` | src/main.rs:134-145 | the corrected drag stage equals the written one on every frame with at most one edge |
| `Corrected.QuickClickDropsAll` | src/main.rs:140-145 | with the correction, a frame with both edges leaves no card dragged |
| `Corrected.StepCorrectedKeepsDragInvariant` | src/main.rs:134-145 | with the correction, every frame whose edges fit the button keeps "at most one dragged, none while up", frames with both edges included |
| `Corrected.RunCorrectedKeepsOneDragged` | src/main.rs:134-145 | with the correction, every run the button can produce keeps at most one card dragged |
| `Corrected.QuickClickThenPressDragsOne` | src/main.rs:134-145 | the run that drags two cards as written ends with one dragged under the correction |
| `Properties.UndraggableCardStaysPut` | src/main.rs:131-152 | a card that is not draggable and not dragged is never dragged and never moves in any run; if also not hoverable it never changes |
| `Properties.GreyCardNeverChanges` | src/main.rs:43-49 | the grey card spawned without markers stays exactly as spawned in every run |

## Findings

| source | as written | input that shows it | evidently intended | confidence | as-written member | corrected member |
|---|---|---|---|---|---|---|
| src/main.rs:140-145 | the release loop removes `Dragged` only from cards dragged when the drag system began, so a card picked by a press in the same frame stays dragged with the button up | cards at (0,0) and (100,0), both draggable and hoverable; frames: pointer to (100,0); press and release in one frame; pointer to (0,0) and press: both cards end dragged | a release drops every card, the one just picked included, so at most one card is ever dragged | not executed; medium, depends on both edges arriving in one frame | `Properties.QuickClickThenPressDragsTwo` | `Corrected.RunCorrectedKeepsOneDragged` |

`Game.World` and `Systems` keep the drag stage as the program writes it.
`Corrected.CorrectionOnlyAffectsQuickClicks` shows that the correction
changes only frames with both edges. With the startup layout the two
behaviours cannot lead to two dragged cards, since only one card is
draggable (`Properties.NeverTwoDraggedFromStartup`).

## Left out

- Window creation, the plugin setup, `close_on_esc`, meshes, materials,
  colours and rendering: these are host framework calls with no logic of
  the application in them.
- `window.cursor_position()` and `camera.viewport_to_world`: foreign engine
  calls. Their combined result is the optional world position the caller
  passes in `Frame.cursor`.
- The entity component system itself: query iteration order is fixed to the
  sequence order, and components are flags on a record. Spawning happens
  only at startup, and the camera entity is not modelled.
- Scheduling: the systems tuple is not chained, so the engine does not
  guarantee its order and may run systems in parallel. The model fixes the
  registered order. In the engine version used, queued commands may be
  applied only at the end of the whole update schedule rather than after
  each system. The model applies them after each system, so within one frame
  the drag stage sees the hover flags that the hover stage just computed,
  and the follow stage sees a card picked in the same frame. Under
  end-of-schedule application a picked card would follow the pointer only
  from the next frame on. So `Properties.DraggedCardsAtPointer` holds for the
  model's schedule, not necessarily for the engine's.
- `Properties.StepKeepsDragInvariant`: its requires excludes a frame with
  both a press and a release edge. The program accepts such a frame, and
  the invariant then fails (`Properties.QuickClickThenPressDragsTwo`).
- `Properties.AlternatingRunKeepsOneDragged`: "alternating" excludes a frame
  with both edges, which the program accepts. Over all runs the button can
  produce, two cards can end dragged with two draggable cards
  (`Properties.QuickClickThenPressDragsTwo`).
- The single main camera and single primary window: `update_pointer` takes
  both with `single()`, which panics unless exactly one of each exists. The
  model assumes both exist.
- `f32` rounding: comparisons and copies use exact reals.
- The diagnostic `eprintln!` lines.
- The engine's run loop: `Systems.Run` gives the state after a sequence of
  frames, but no method drives frames.
