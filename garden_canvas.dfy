/** The garden canvas editor: plants drawn as circles on a fixed-size
    surface, a press / drag / click classifier over pointer events, and the
    reconciliation of a dragged plant's position with the backend. */
module GardenCanvas {
  import opened Common
  import opened Geometry

  /** A plant of the open garden. `x` and `y` are absent for a plant that
      was never placed; such a plant is neither drawn nor hit. */
  datatype Plant = Plant(id: int, name: string, kind: string, x: Option<int>, y: Option<int>)

  /** The form behind the "add plant" dialog. */
  datatype NewPlant = NewPlant(kind: string, name: string, x: int, y: int)

  const EmptyNewPlant: NewPlant := NewPlant("", "", 0, 0)

  const MsgPositionFailed: string := "Failed to update plant position"
  const MsgPositionError: string := "Error updating plant position"
  const MsgFetchFailed: string := "Failed to fetch plants"
  const MsgConnectError: string := "Error connecting to server"
  const MsgAddFailed: string := "Failed to add plant"
  const MsgAddError: string := "Error adding plant"

  /** Spacing of the background grid lines. */
  const GridSpacing: int := 50

  predicate HasPosition(p: Plant) {
    p.x.Some? && p.y.Some?
  }

  function PositionOf(p: Plant): Point
    requires HasPosition(p)
  {
    Point(p.x.value, p.y.value)
  }

  /** The pointer at `pos` is on plant `p`: its centre is at most one radius
      away, boundary included. */
  predicate Hits(p: Plant, pos: Point) {
    HasPosition(p) && DistSq(pos, PositionOf(p)) <= MarkerRadius * MarkerRadius
  }

  // ---------------------------------------------------------------------
  // Hit-testing

  /** The plant under the pointer: the earliest plant in list order that
      the pointer hits, or none when it hits no plant. */
  function FindPlantAtPosition(plants: seq<Plant>, pos: Point): (r: Option<Plant>)
    ensures r.None? <==> forall i :: 0 <= i < |plants| ==> !Hits(plants[i], pos)
    ensures r.Some? ==> exists i :: 0 <= i < |plants| && plants[i] == r.value && Hits(plants[i], pos)
                                    && forall j :: 0 <= j < i ==> !Hits(plants[j], pos)
  {
    if plants == [] then None
    else if Hits(plants[0], pos) then Some(plants[0])
    else
      var r := FindPlantAtPosition(plants[1..], pos);
      assert forall i :: 1 <= i < |plants| ==> plants[i] == plants[1..][i - 1];
      r
  }

  /** Overlapping plants: the pointer on a plant that no earlier plant
      covers always finds that plant. */
  lemma FirstCoveringPlantWins(plants: seq<Plant>, i: nat, pos: Point)
    requires i < |plants| && Hits(plants[i], pos)
    requires forall j :: 0 <= j < i ==> !Hits(plants[j], pos)
    ensures FindPlantAtPosition(plants, pos) == Some(plants[i])
  {
  }

  // ---------------------------------------------------------------------
  // Moving a plant

  function Moved(p: Plant, id: int, to: Point): Plant {
    if p.id == id then p.(x := Some(to.x), y := Some(to.y)) else p
  }

  /** The list with every plant whose id is `id` placed at `to`: the list
      keeps its length and order, every plant keeps its id, name and kind,
      the other plants are untouched and the moved ones sit at `to`. */
  function MovePlant(plants: seq<Plant>, id: int, to: Point): (r: seq<Plant>)
    ensures |r| == |plants|
    ensures forall i :: 0 <= i < |r| ==>
              r[i].id == plants[i].id && r[i].name == plants[i].name && r[i].kind == plants[i].kind
    ensures forall i :: 0 <= i < |r| && plants[i].id != id ==> r[i] == plants[i]
    ensures forall i :: 0 <= i < |r| && plants[i].id == id ==> r[i].x == Some(to.x) && r[i].y == Some(to.y)
  {
    seq(|plants|, i requires 0 <= i < |plants| => Moved(plants[i], id, to))
  }

  /** Of a sequence of moves of one plant only the last one matters, so the
      live moves of a drag are overwritten by the committed position. */
  lemma LastMoveWins(plants: seq<Plant>, id: int, p: Point, q: Point)
    ensures MovePlant(MovePlant(plants, id, p), id, q) == MovePlant(plants, id, q)
  {
  }

  /** After a plant is moved to a point, the pointer at that point is on a
      plant (the moved one, or one earlier in the list). */
  lemma MovedPlantIsUnderPointer(plants: seq<Plant>, k: nat, to: Point)
    requires k < |plants|
    ensures FindPlantAtPosition(MovePlant(plants, plants[k].id, to), to).Some?
  {
  }

  // ---------------------------------------------------------------------
  // Drawing

  /** The three mutually exclusive looks of a plant's circle. A dragged
      plant also gets a dashed ring. */
  datatype MarkerState = Normal | Selected | Dragged

  datatype Marker = Marker(id: int, name: string, at: Point, state: MarkerState)

  /** Dragged takes precedence over selected, selected over normal; both
      are decided by id. */
  function MarkerStateOf(p: Plant, dragged: Option<Plant>, selected: Option<Plant>): MarkerState {
    if dragged.Some? && dragged.value.id == p.id then Dragged
    else if selected.Some? && selected.value.id == p.id then Selected
    else Normal
  }

  /** A plant is drawn as dragged exactly when it is the dragged plant, as
      selected exactly when it is the selected plant but not the dragged
      one, and normally otherwise: dragging outranks selection. */
  lemma MarkerPrecedence(p: Plant, dragged: Option<Plant>, selected: Option<Plant>)
    ensures MarkerStateOf(p, dragged, selected) == Dragged <==> dragged.Some? && dragged.value.id == p.id
    ensures MarkerStateOf(p, dragged, selected) == Selected <==>
              !(dragged.Some? && dragged.value.id == p.id) && selected.Some? && selected.value.id == p.id
    ensures MarkerStateOf(p, dragged, selected) == Normal <==>
              !(dragged.Some? && dragged.value.id == p.id) && !(selected.Some? && selected.value.id == p.id)
  {
  }

  /** The plants that are drawn: those with a position, in list order. */
  function Positioned(plants: seq<Plant>): seq<Plant> {
    if plants == [] then []
    else
      var last := plants[|plants| - 1];
      Positioned(plants[..|plants| - 1]) + (if HasPosition(last) then [last] else [])
  }

  function MarkerOf(p: Plant, dragged: Option<Plant>, selected: Option<Plant>): Marker
    requires HasPosition(p)
  {
    Marker(p.id, p.name, PositionOf(p), MarkerStateOf(p, dragged, selected))
  }

  /** The circles the canvas shows, in drawing order. */
  function Scene(plants: seq<Plant>, dragged: Option<Plant>, selected: Option<Plant>): seq<Marker> {
    if plants == [] then []
    else
      var last := plants[|plants| - 1];
      Scene(plants[..|plants| - 1], dragged, selected)
        + (if HasPosition(last) then [MarkerOf(last, dragged, selected)] else [])
  }

  /** Exactly the plants with a position are drawn, each once, in list
      order, at its position. */
  lemma {:induction false} SceneDrawsPositionedPlants(plants: seq<Plant>, dragged: Option<Plant>, selected: Option<Plant>)
    ensures |Scene(plants, dragged, selected)| == |Positioned(plants)|
    ensures forall k :: 0 <= k < |Positioned(plants)| ==>
              HasPosition(Positioned(plants)[k])
              && Scene(plants, dragged, selected)[k] == MarkerOf(Positioned(plants)[k], dragged, selected)
  {
    if plants != [] {
      SceneDrawsPositionedPlants(plants[..|plants| - 1], dragged, selected);
    }
  }

  /** A plant is drawn if and only if it has a position. */
  lemma {:induction false} PositionedMembers(plants: seq<Plant>)
    ensures forall p :: p in Positioned(plants) <==> p in plants && HasPosition(p)
  {
    if plants != [] {
      var init := plants[..|plants| - 1];
      PositionedMembers(init);
      assert plants == init + [plants[|plants| - 1]];
    }
  }

  predicate DistinctIds(plants: seq<Plant>) {
    forall i, j :: 0 <= i < j < |plants| ==> plants[i].id != plants[j].id
  }

  /** Drawing keeps distinct ids distinct. */
  lemma {:induction false} PositionedDistinct(plants: seq<Plant>)
    requires DistinctIds(plants)
    ensures DistinctIds(Positioned(plants))
  {
    if plants != [] {
      var init := plants[..|plants| - 1];
      var last := plants[|plants| - 1];
      assert DistinctIds(init) by {
        forall i, j | 0 <= i < j < |init|
          ensures init[i].id != init[j].id
        {
          assert init[i] == plants[i] && init[j] == plants[j];
        }
      }
      PositionedDistinct(init);
      PositionedMembers(init);
      var before := Positioned(init);
      forall i | 0 <= i < |before|
        ensures before[i].id != last.id
      {
        assert before[i] in init;
        var k :| 0 <= k < |init| && init[k] == before[i];
        assert plants[k] == init[k];
      }
    }
  }

  /** With distinct ids at most one circle is drawn as dragged and at most
      one as selected. */
  lemma AtMostOneHighlighted(plants: seq<Plant>, dragged: Option<Plant>, selected: Option<Plant>)
    requires DistinctIds(plants)
    ensures var s := Scene(plants, dragged, selected);
            forall j, k :: 0 <= j < k < |s| ==>
              (!(s[j].state == Dragged && s[k].state == Dragged)
               && !(s[j].state == Selected && s[k].state == Selected))
  {
    SceneDrawsPositionedPlants(plants, dragged, selected);
    PositionedDistinct(plants);
  }

  /** The `forEach` over the plants in `drawCanvas`: one circle per placed
      plant, coloured by its state. */
  method DrawPlants(plants: seq<Plant>, dragged: Option<Plant>, selected: Option<Plant>)
    returns (markers: seq<Marker>)
    ensures markers == Scene(plants, dragged, selected)
  {
    markers := [];
    for i := 0 to |plants|
      invariant markers == Scene(plants[..i], dragged, selected)
    {
      var p := plants[i];
      assert plants[..i + 1][..i] == plants[..i];
      if p.x.Some? && p.y.Some? {
        markers := markers + [Marker(p.id, p.name, Point(p.x.value, p.y.value), MarkerStateOf(p, dragged, selected))];
      }
    }
    assert plants[..|plants|] == plants;
  }

  /** The `for` loop that strokes the grid: one line every 50 pixels from 0
      up to and including `size`. */
  method GridLines(size: int) returns (offsets: seq<int>)
    ensures forall k :: 0 <= k < |offsets| ==> offsets[k] == GridSpacing * k
    ensures forall k :: 0 <= k < |offsets| ==> 0 <= offsets[k] <= size
    ensures |offsets| == if size < 0 then 0 else size / GridSpacing + 1
  {
    offsets := [];
    var x := 0;
    while x <= size
      invariant x == GridSpacing * |offsets|
      invariant forall k :: 0 <= k < |offsets| ==> offsets[k] == GridSpacing * k
      invariant forall k :: 0 <= k < |offsets| ==> 0 <= offsets[k] <= size
      invariant size >= 0 ==> |offsets| <= size / GridSpacing + 1
      invariant size < 0 ==> offsets == []
      decreases size - x
    {
      offsets := offsets + [x];
      x := x + GridSpacing;
    }
  }

  // ---------------------------------------------------------------------
  // The editor

  /** The gesture in progress, as the classifier sees it. */
  datatype Gesture =
    | Idle
    | Armed(plant: Plant, downPos: Point, offset: Point)
    | Dragging(plant: Plant, offset: Point)

  /** Squared pointer travel beyond the drag threshold. */
  predicate BeyondThreshold(pos: Point, downPos: Point) {
    DistSq(pos, downPos) > DragThreshold * DragThreshold
  }

  /** The state of the garden view of one canvas. */
  class GardenEditor {
    var plants: seq<Plant>
    var error: Option<string>
    var selectedPlant: Option<Plant>
    var showAddPlant: bool
    var showMetrics: bool
    var width: int
    var height: int
    var isDragging: bool
    var draggedPlant: Option<Plant>
    var dragOffset: Point
    var mouseDownPos: Point
    var mouseDownPlant: Option<Plant>
    var hasDraggedBeyondThreshold: bool
    var newPlant: NewPlant

    /** The drag flags agree with each other, and the press point and
        offset are at the origin whenever no plant is pressed. */
    ghost predicate Valid()
      reads this
    {
      && (isDragging <==> draggedPlant.Some?)
      && (hasDraggedBeyondThreshold <==> isDragging)
      && (isDragging ==> mouseDownPlant.Some?)
      && (mouseDownPlant.None? ==> dragOffset == Origin && mouseDownPos == Origin)
    }

    ghost function Phase(): Gesture
      reads this
      requires Valid()
    {
      if isDragging then Dragging(draggedPlant.value, dragOffset)
      else if mouseDownPlant.Some? then Armed(mouseDownPlant.value, mouseDownPos, dragOffset)
      else Idle
    }

    /** The view once the canvas of the given size and its plants have been
        loaded. */
    constructor (initialPlants: seq<Plant>, canvasWidth: int, canvasHeight: int)
      ensures Valid() && Phase() == Idle
      ensures plants == initialPlants && width == canvasWidth && height == canvasHeight
      ensures error == None && selectedPlant == None && !showAddPlant && !showMetrics
      ensures dragOffset == Origin && mouseDownPos == Origin && newPlant == EmptyNewPlant
    {
      plants := initialPlants;
      error := None;
      selectedPlant := None;
      showAddPlant := false;
      showMetrics := false;
      width := canvasWidth;
      height := canvasHeight;
      isDragging := false;
      draggedPlant := None;
      dragOffset := Origin;
      mouseDownPos := Origin;
      mouseDownPlant := None;
      hasDraggedBeyondThreshold := false;
      newPlant := EmptyNewPlant;
    }

    /** `fetchPlants`: a successful GET replaces the list, a failed one
        keeps it and reports an error. */
    method FetchPlants(result: FetchResult<seq<Plant>>)
      requires Valid()
      modifies this`plants, this`error
      ensures Valid()
      ensures result.Fetched? ==> plants == result.data && error == old(error)
      ensures result.FetchNotOk? ==> plants == old(plants) && error == Some(MsgFetchFailed)
      ensures result.FetchThrew? ==> plants == old(plants) && error == Some(MsgConnectError)
    {
      match result {
        case Fetched(data) => plants := data;
        case FetchNotOk => error := Some(MsgFetchFailed);
        case FetchThrew => error := Some(MsgConnectError);
      }
    }

    /** `updatePlantPosition`: the PUT of a plant's new position. Only on
        success is the position written locally; on failure the error is
        set and the list is refetched from the backend. */
    method UpdatePlantPosition(plantId: int, to: Point, response: Response, refetch: FetchResult<seq<Plant>>)
      requires Valid()
      modifies this`plants, this`error
      ensures Valid()
      ensures response == Ok ==> plants == MovePlant(old(plants), plantId, to) && error == old(error)
      ensures response != Ok && refetch.Fetched? ==>
                plants == refetch.data
                && error == Some(if response == NotOk then MsgPositionFailed else MsgPositionError)
      ensures response != Ok && refetch.FetchNotOk? ==> plants == old(plants) && error == Some(MsgFetchFailed)
      ensures response != Ok && refetch.FetchThrew? ==> plants == old(plants) && error == Some(MsgConnectError)
    {
      match response {
        case Ok =>
          plants := MovePlant(plants, plantId, to);
        case NotOk =>
          error := Some(MsgPositionFailed);
          FetchPlants(refetch);
        case Threw =>
          error := Some(MsgPositionError);
          FetchPlants(refetch);
      }
    }

    /** `handleMouseDown`: a press on a plant arms a possible drag and
        records the press point and the pointer's offset from the plant's
        centre; a press on empty space changes nothing. */
    method HandleMouseDown(pos: Point)
      requires Valid()
      modifies this`mouseDownPos, this`mouseDownPlant, this`dragOffset
      ensures Valid()
      ensures FindPlantAtPosition(plants, pos).None? ==>
                mouseDownPlant == old(mouseDownPlant) && mouseDownPos == old(mouseDownPos)
                && dragOffset == old(dragOffset)
      ensures FindPlantAtPosition(plants, pos).Some? ==>
                var p := FindPlantAtPosition(plants, pos).value;
                HasPosition(p) && mouseDownPlant == Some(p) && mouseDownPos == pos
                && dragOffset == Sub(pos, PositionOf(p))
      ensures old(Phase()).Idle? && FindPlantAtPosition(plants, pos).Some? ==>
                var p := FindPlantAtPosition(plants, pos).value;
                Phase() == Armed(p, pos, Sub(pos, PositionOf(p)))
    {
      var clicked := FindPlantAtPosition(plants, pos);
      if clicked.Some? {
        var p := clicked.value;
        mouseDownPos := pos;
        mouseDownPlant := clicked;
        dragOffset := Point(pos.x - p.x.value, pos.y - p.y.value);
      }
    }

    /** `handleMouseMove`. Every handler reads the state as it was when the
        event arrived, so the move that crosses the threshold starts the
        drag but does not yet move the plant; while dragging, each move
        places the dragged plant at the clamped pointer position. */
    method HandleMouseMove(pos: Point)
      requires Valid()
      modifies this`isDragging, this`draggedPlant, this`hasDraggedBeyondThreshold, this`plants
      ensures Valid()
      ensures old(Phase()).Idle? ==> Phase() == Idle && plants == old(plants)
      ensures old(Phase()).Armed? && !BeyondThreshold(pos, old(mouseDownPos)) ==>
                Phase() == old(Phase()) && plants == old(plants)
      ensures old(Phase()).Armed? && BeyondThreshold(pos, old(mouseDownPos)) ==>
                Phase() == Dragging(old(Phase()).plant, old(dragOffset)) && plants == old(plants)
      ensures old(Phase()).Dragging? ==>
                Phase() == old(Phase())
                && plants == MovePlant(old(plants), old(Phase()).plant.id, ClampPoint(pos, dragOffset, width, height))
    {
      var wasDragging, dragged := isDragging, draggedPlant;
      if mouseDownPlant.Some? && !isDragging {
        var dx, dy := pos.x - mouseDownPos.x, pos.y - mouseDownPos.y;
        if dx * dx + dy * dy > DragThreshold * DragThreshold {
          isDragging := true;
          draggedPlant := mouseDownPlant;
          hasDraggedBeyondThreshold := true;
        }
      }
      if wasDragging && dragged.Some? {
        var to := Point(Clamp(pos.x - dragOffset.x, width), Clamp(pos.y - dragOffset.y, height));
        plants := MovePlant(plants, dragged.value.id, to);
      }
    }

    /** `handleMouseUp`: a drag commits the clamped release point of the
        dragged plant; a press that never passed the threshold selects the
        pressed plant and opens its metrics dialog; without a press nothing
        happens. Afterwards no gesture is in progress. */
    method HandleMouseUp(pos: Point, response: Response, refetch: FetchResult<seq<Plant>>)
      requires Valid()
      modifies this`plants, this`error, this`selectedPlant, this`showMetrics, this`isDragging,
               this`draggedPlant, this`mouseDownPlant, this`hasDraggedBeyondThreshold,
               this`dragOffset, this`mouseDownPos
      ensures Valid() && Phase() == Idle
      ensures !isDragging && draggedPlant == None && mouseDownPlant == None && !hasDraggedBeyondThreshold
      ensures dragOffset == Origin && mouseDownPos == Origin
      ensures old(Phase()).Dragging? ==>
                var id := old(Phase()).plant.id;
                var to := ClampPoint(pos, old(dragOffset), width, height);
                && selectedPlant == old(selectedPlant) && showMetrics == old(showMetrics)
                && (response == Ok ==> plants == MovePlant(old(plants), id, to) && error == old(error))
                && (response != Ok && refetch.Fetched? ==>
                      plants == refetch.data
                      && error == Some(if response == NotOk then MsgPositionFailed else MsgPositionError))
                && (response != Ok && !refetch.Fetched? ==>
                      plants == old(plants)
                      && error == Some(if refetch.FetchNotOk? then MsgFetchFailed else MsgConnectError))
      ensures old(Phase()).Armed? ==>
                selectedPlant == Some(old(Phase()).plant) && showMetrics
                && plants == old(plants) && error == old(error)
      ensures old(Phase()).Idle? ==>
                selectedPlant == old(selectedPlant) && showMetrics == old(showMetrics)
                && plants == old(plants) && error == old(error)
    {
      if isDragging && draggedPlant.Some? {
        var to := Point(Clamp(pos.x - dragOffset.x, width), Clamp(pos.y - dragOffset.y, height));
        UpdatePlantPosition(draggedPlant.value.id, to, response, refetch);
      } else if mouseDownPlant.Some? && !hasDraggedBeyondThreshold {
        selectedPlant := mouseDownPlant;
        showMetrics := true;
      }
      isDragging := false;
      draggedPlant := None;
      mouseDownPlant := None;
      hasDraggedBeyondThreshold := false;
      dragOffset := Origin;
      mouseDownPos := Origin;
    }

    /** `handleCanvasClick`: a click on empty space while no gesture is in
        progress opens the "add plant" dialog for that point; any other
        click changes nothing. */
    method HandleCanvasClick(pos: Point)
      requires Valid()
      modifies this`newPlant, this`showAddPlant
      ensures Valid()
      ensures old(Phase()).Idle? && FindPlantAtPosition(plants, pos).None? ==>
                newPlant == old(newPlant).(x := pos.x, y := pos.y) && showAddPlant
      ensures !(old(Phase()).Idle? && FindPlantAtPosition(plants, pos).None?) ==>
                newPlant == old(newPlant) && showAddPlant == old(showAddPlant)
    {
      if isDragging || mouseDownPlant.Some? {
        return;
      }
      var clicked := FindPlantAtPosition(plants, pos);
      if clicked.None? {
        newPlant := newPlant.(x := pos.x, y := pos.y);
        showAddPlant := true;
      }
    }

    /** `handleAddPlant`: a plant without a type or a name is not sent;
        otherwise the form is POSTed, and on success the dialog closes, the
        form is cleared and the list refetched. Returns the form that was
        sent, if any. */
    method HandleAddPlant(response: Response, refetch: FetchResult<seq<Plant>>)
      returns (sent: Option<NewPlant>)
      requires Valid()
      modifies this`plants, this`error, this`showAddPlant, this`newPlant
      ensures Valid()
      ensures (old(newPlant).kind == "" || old(newPlant).name == "") ==>
                sent == None && unchanged(this)
      ensures old(newPlant).kind != "" && old(newPlant).name != "" ==>
                sent == Some(old(newPlant))
      ensures sent.Some? && response == Ok ==>
                !showAddPlant && newPlant == EmptyNewPlant
                && (if refetch.Fetched? then plants == refetch.data && error == old(error)
                    else plants == old(plants)
                         && error == Some(if refetch.FetchNotOk? then MsgFetchFailed else MsgConnectError))
      ensures sent.Some? && response != Ok ==>
                showAddPlant == old(showAddPlant) && newPlant == old(newPlant) && plants == old(plants)
                && error == Some(if response == NotOk then MsgAddFailed else MsgAddError)
    {
      if newPlant.kind == "" || newPlant.name == "" {
        return None;
      }
      sent := Some(newPlant);
      match response {
        case Ok =>
          showAddPlant := false;
          newPlant := EmptyNewPlant;
          FetchPlants(refetch);
        case NotOk =>
          error := Some(MsgAddFailed);
        case Threw =>
          error := Some(MsgAddError);
      }
    }

    /** `drawCanvas`: the grid lines across and down the surface and the
        plant circles. */
    method Draw() returns (columns: seq<int>, rows: seq<int>, markers: seq<Marker>)
      ensures |columns| == if width < 0 then 0 else width / GridSpacing + 1
      ensures |rows| == if height < 0 then 0 else height / GridSpacing + 1
      ensures forall k :: 0 <= k < |columns| ==> columns[k] == GridSpacing * k
      ensures forall k :: 0 <= k < |rows| ==> rows[k] == GridSpacing * k
      ensures markers == Scene(plants, draggedPlant, selectedPlant)
    {
      columns := GridLines(width);
      rows := GridLines(height);
      markers := DrawPlants(plants, draggedPlant, selectedPlant);
    }
  }
}
