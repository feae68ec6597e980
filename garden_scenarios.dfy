/** Gestures on an 800 by 600 garden, followed through the editor's
    contracts alone. */
module GardenScenarios {
  import opened Common
  import opened Geometry
  import opened GardenCanvas

  /** Moving the only plant of a list. */
  lemma MoveOnly(p: Plant, to: Point)
    ensures MovePlant([p], p.id, to) == [p.(x := Some(to.x), y := Some(to.y))]
  {
  }

  /** A press that travels exactly the threshold and is released selects
      the plant and moves nothing. */
  method ClickSelectsPlant() {
    var tomato := Plant(1, "Tomato", "Tomato", Some(100), Some(100));
    var e := new GardenEditor([tomato], 800, 600);
    assert Hits(tomato, Point(110, 100));
    e.HandleMouseDown(Point(110, 100));
    assert e.Phase() == Armed(tomato, Point(110, 100), Point(10, 0));
    assert !BeyondThreshold(Point(113, 104), Point(110, 100));
    e.HandleMouseMove(Point(113, 104));
    e.HandleMouseUp(Point(113, 104), NotOk, FetchThrew);
    assert e.selectedPlant == Some(tomato) && e.showMetrics;
    assert e.plants == [tomato] && e.error == None;
  }

  /** A drag whose PUT fails ends with the backend's list, not with the
      position the plant was released at. */
  method FailedCommitRollsBack() {
    var tomato := Plant(1, "Tomato", "Tomato", Some(100), Some(100));
    var e := new GardenEditor([tomato], 800, 600);
    assert Hits(tomato, Point(100, 100));
    e.HandleMouseDown(Point(100, 100));
    assert BeyondThreshold(Point(200, 150), Point(100, 100));
    e.HandleMouseMove(Point(200, 150));
    assert e.isDragging;
    e.HandleMouseUp(Point(200, 150), NotOk, Fetched([tomato]));
    assert e.plants == [tomato] && e.error == Some(MsgPositionFailed);
  }

  /** A drag released off the left edge leaves the plant on the margin. */
  method DragClampedAtEdge() {
    var tomato := Plant(1, "Tomato", "Tomato", Some(100), Some(300));
    var e := new GardenEditor([tomato], 800, 600);
    assert Hits(tomato, Point(100, 300));
    e.HandleMouseDown(Point(100, 300));
    assert BeyondThreshold(Point(10, 300), Point(100, 300));
    e.HandleMouseMove(Point(10, 300));
    assert e.plants == [tomato];
    assert ClampPoint(Point(10, 300), Origin, 800, 600) == Point(25, 300);
    MoveOnly(tomato, Point(25, 300));
    e.HandleMouseUp(Point(10, 300), Ok, FetchThrew);
    assert e.plants == [tomato.(x := Some(25), y := Some(300))];
  }

  /** Of two plants at the same spot the earlier one is picked up. */
  method OverlapPicksFirst() {
    var basil := Plant(1, "Basil", "Basil", Some(300), Some(300));
    var mint := Plant(2, "Mint", "Basil", Some(300), Some(300));
    var e := new GardenEditor([basil, mint], 800, 600);
    FirstCoveringPlantWins([basil, mint], 0, Point(305, 300));
    e.HandleMouseDown(Point(305, 300));
    assert e.Phase() == Armed(basil, Point(305, 300), Point(5, 0));
  }

  /** A click on empty space opens the add dialog at that exact point; a
      click on a plant does not. */
  method ClickOnEmptySpacePlaces() {
    var tomato := Plant(1, "Tomato", "Tomato", Some(100), Some(100));
    var e := new GardenEditor([tomato], 800, 600);
    assert Hits(tomato, Point(120, 100));
    e.HandleCanvasClick(Point(120, 100));
    assert !e.showAddPlant;
    assert !Hits(tomato, Point(400, 300));
    e.HandleCanvasClick(Point(400, 300));
    assert e.showAddPlant && e.newPlant == NewPlant("", "", 400, 300);
  }
}
