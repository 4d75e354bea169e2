/**
 * The workspace layout of `amas-app/src/workspace_layout/`: one object holding
 * the import graph, the view state (zoom, pan and drag), the selection state,
 * the boxes drawn on the canvas and the editor.  The source spreads these
 * fields over several `impl WorkspaceLayout` blocks; its reactive cells become
 * plain fields here.
 */
module Workspace {
  import opened Wrappers
  import opened Graph
  import opened ForceLayout
  import opened Editing

  const MinZoom: real := 0.1
  const MaxZoom: real := 3.0

  /** The canvas `calculate_positions` lays the graph out on. */
  const CanvasWidth: real := 800.0
  const CanvasHeight: real := 600.0
  const Iterations: nat := 100

  // ---------------------------------------------------------------------
  // Zoom and pan
  // ---------------------------------------------------------------------

  /** `f64::clamp(0.1, 3.0)` */
  function ClampZoom(z: real): (r: real)
    ensures MinZoom <= r <= MaxZoom
    ensures MinZoom <= z <= MaxZoom ==> r == z
    ensures z < MinZoom ==> r == MinZoom
    ensures MaxZoom < z ==> r == MaxZoom
  {
    if z < MinZoom then MinZoom else if z > MaxZoom then MaxZoom else z
  }

  /** The world coordinate shown at screen coordinate `m` under translation `t` and zoom `z`. */
  function WorldAt(m: real, t: real, z: real): real
    requires z != 0.0
  {
    (m - t) / z
  }

  /** The translation that shows world coordinate `w` at screen coordinate `m` under zoom `z`. */
  function TranslationFor(m: real, w: real, z: real): real
  {
    m - w * z
  }

  lemma ShownAt(m: real, w: real, z: real, t: real)
    requires z != 0.0 && t == m - w * z
    ensures (m - t) / z == w
  {
  }

  /** Re-translating after a zoom keeps the world point under the mouse in place. */
  lemma ZoomKeepsPoint(m: real, t: real, z: real, z2: real)
    requires z != 0.0 && z2 != 0.0
    ensures WorldAt(m, TranslationFor(m, WorldAt(m, t, z), z2), z2) == WorldAt(m, t, z)
  {
    ShownAt(m, WorldAt(m, t, z), z2, TranslationFor(m, WorldAt(m, t, z), z2));
  }

  /**
   * The translation along one axis after the drag moves to `xs`, starting from
   * translation `t` with the drag anchored at `start`: each move adds its
   * offset from the anchor and becomes the new anchor.
   */
  function Dragged(t: real, start: real, xs: seq<real>): real
    decreases |xs|
  {
    if xs == [] then t else Dragged(t + (xs[0] - start), xs[0], xs[1..])
  }

  /** The offsets telescope: a drag shifts the view by the last point minus the first anchor. */
  lemma {:induction false} DragTelescopes(t: real, start: real, xs: seq<real>)
    requires xs != []
    ensures Dragged(t, start, xs) == t + (xs[|xs| - 1] - start)
    decreases |xs|
  {
    if |xs| > 1 {
      DragTelescopes(t + (xs[0] - start), xs[0], xs[1..]);
    }
  }

  /** `ViewState` */
  class ViewState {
    var zoom: real
    var translationX: real
    var translationY: real
    var dragStarted: bool
    var dragStartX: real
    var dragStartY: real
    var mouseX: real
    var mouseY: real

    /** Zoom never leaves [0.1, 3.0]. */
    ghost predicate Valid()
      reads this
    {
      MinZoom <= zoom <= MaxZoom
    }

    /** `ViewState::new`: zoom 1, no translation, not dragging, everything else at 0. */
    constructor ()
      ensures zoom == 1.0 && translationX == 0.0 && translationY == 0.0
      ensures !dragStarted && dragStartX == 0.0 && dragStartY == 0.0
      ensures mouseX == 0.0 && mouseY == 0.0
      ensures Valid()
    {
      zoom := 1.0;
      translationX := 0.0;
      translationY := 0.0;
      dragStarted := false;
      dragStartX := 0.0;
      dragStartY := 0.0;
      mouseX := 0.0;
      mouseY := 0.0;
    }
  }

  // ---------------------------------------------------------------------
  // Selection
  // ---------------------------------------------------------------------

  /** An entry of the canvas state: a file and its box `(x0, y0, x1, y1)`. */
  datatype CanvasFile = CanvasFile(file: File, left: real, top: real, right: real, bottom: real)

  /** The box contains the point, edges included. */
  predicate Hit(b: CanvasFile, x: real, y: real)
  {
    x >= b.left && x <= b.right && y >= b.top && y <= b.bottom
  }

  /** `get_file_at_position`: the name of the first file whose box contains the point. */
  function FileAt(files: seq<CanvasFile>, x: real, y: real): (r: Option<string>)
    ensures r == None <==> forall i :: 0 <= i < |files| ==> !Hit(files[i], x, y)
    ensures r.Some? ==> exists i :: 0 <= i < |files| && Hit(files[i], x, y) && files[i].file.name == r.value
                                    && (forall j :: 0 <= j < i ==> !Hit(files[j], x, y))
  {
    if files == [] then None
    else if Hit(files[0], x, y) then Some(files[0].file.name)
    else
      var r := FileAt(files[1..], x, y);
      assert forall i :: 1 <= i < |files| ==> files[i] == files[1..][i - 1];
      r
  }

  /** `multiselect`'s update of the selection: the name leaves the set if it is in, and joins it otherwise. */
  function Toggled(selected: set<string>, name: string): set<string>
  {
    if name in selected then selected - {name} else selected + {name}
  }

  /** Toggling changes the membership of the toggled name and of no other. */
  lemma ToggleMembership(selected: set<string>, name: string)
    ensures name in Toggled(selected, name) <==> name !in selected
    ensures forall other :: other != name ==> (other in Toggled(selected, name) <==> other in selected)
  {
  }

  /** Toggling the same name twice restores the selection. */
  lemma ToggleTwice(selected: set<string>, name: string)
    ensures Toggled(Toggled(selected, name), name) == selected
  {
  }

  /** `SelectionState` */
  class SelectionState {
    var selectedFiles: set<string>
    var hoveredFile: Option<string>

    /** `SelectionState::new`: nothing selected, nothing hovered. */
    constructor ()
      ensures selectedFiles == {} && hoveredFile == None
    {
      selectedFiles := {};
      hoveredFile := None;
    }
  }

  // ---------------------------------------------------------------------
  // The layout
  // ---------------------------------------------------------------------

  /** An entry of `calculate_positions`: a file, its position and the positions of its neighbours. */
  datatype PlacedFile = PlacedFile(file: File, position: Position, connected: seq<Position>)

  /** The positions of those `targets` that have one, in order. */
  function KnownPositions(targets: seq<nat>, positions: seq<Position>): seq<Position>
  {
    if targets == [] then []
    else
      var t := targets[|targets| - 1];
      KnownPositions(targets[..|targets| - 1], positions) + (if t < |positions| then [positions[t]] else [])
  }

  /** When every target has a position, none is skipped. */
  lemma {:induction false} KnownPositionsComplete(targets: seq<nat>, positions: seq<Position>)
    requires forall m :: 0 <= m < |targets| ==> targets[m] < |positions|
    ensures |KnownPositions(targets, positions)| == |targets|
    ensures forall m :: 0 <= m < |targets| ==> KnownPositions(targets, positions)[m] == positions[targets[m]]
    decreases |targets|
  {
    if targets != [] {
      var init := targets[..|targets| - 1];
      KnownPositionsComplete(init, positions);
    }
  }

  /** The inner loop of `calculate_positions`: the position of every target that has one. */
  method ConnectedPositions(targets: seq<nat>, positions: seq<Position>) returns (connected: seq<Position>)
    ensures connected == KnownPositions(targets, positions)
  {
    connected := [];
    for j := 0 to |targets|
      invariant connected == KnownPositions(targets[..j], positions)
    {
      assert targets[..j + 1][..j] == targets[..j];
      if targets[j] < |positions| {
        connected := connected + [positions[targets[j]]];
      }
    }
    assert targets[..|targets|] == targets;
  }

  /** The entry of node `i`: its file, its position and the positions of the other ends of its edges. */
  function Entry(nodes: seq<File>, edges: seq<Edge>, positions: seq<Position>, i: nat): PlacedFile
    requires i < |nodes| && |positions| == |nodes|
  {
    PlacedFile(nodes[i], positions[i], KnownPositions(Neighbours(edges, i), positions))
  }

  /** In a graph whose edges join nodes, an entry lists one neighbour position per incident edge, in `edges(i)` order. */
  lemma EntryConnected(nodes: seq<File>, edges: seq<Edge>, positions: seq<Position>, i: nat)
    requires EdgesWithin(edges, |nodes|) && i < |nodes| && |positions| == |nodes|
    ensures |Entry(nodes, edges, positions, i).connected| == Degree(edges, i) == |Neighbours(edges, i)|
    ensures forall j :: 0 <= j < |Neighbours(edges, i)| ==>
      Neighbours(edges, i)[j] < |nodes| && Entry(nodes, edges, positions, i).connected[j] == positions[Neighbours(edges, i)[j]]
  {
    var targets := Neighbours(edges, i);
    NeighboursWithin(edges, |nodes|, i);
    NeighboursCount(edges, i);
    assert forall m :: 0 <= m < |targets| ==> targets[m] in targets;
    KnownPositionsComplete(targets, positions);
  }

  /** The outer loop of `calculate_positions`: one entry per node, in index order. */
  method Placed(nodes: seq<File>, edges: seq<Edge>, positions: seq<Position>) returns (r: seq<PlacedFile>)
    requires |positions| == |nodes|
    ensures |r| == |nodes|
    ensures forall i :: 0 <= i < |r| ==> r[i] == Entry(nodes, edges, positions, i)
  {
    r := [];
    for i := 0 to |nodes|
      invariant |r| == i
      invariant forall t :: 0 <= t < i ==> r[t] == Entry(nodes, edges, positions, t)
    {
      var connected := ConnectedPositions(Neighbours(edges, i), positions);
      r := r + [PlacedFile(nodes[i], positions[i], connected)];
    }
  }

  class WorkspaceLayout {
    const graph: WorkspaceGraph
    const view: ViewState
    const selection: SelectionState
    var canvasFiles: seq<CanvasFile>
    const editor: Editor

    ghost predicate Valid()
      reads this, graph, view
    {
      graph.Valid() && view.Valid()
    }

    /** `WorkspaceLayout::new`, with the other states at their own `new`. */
    constructor (graph: WorkspaceGraph)
      requires graph.Valid()
      ensures this.graph == graph && canvasFiles == []
      ensures fresh(view) && fresh(selection) && fresh(editor)
      ensures view.zoom == 1.0 && view.translationX == 0.0 && view.translationY == 0.0 && !view.dragStarted
      ensures selection.selectedFiles == {} && selection.hoveredFile == None
      ensures editor.GetOpenedFile() == None
      ensures Valid()
    {
      this.graph := graph;
      view := new ViewState();
      selection := new SelectionState();
      canvasFiles := [];
      editor := new Editor();
    }

    /** `CanvaState::set_files`: the boxes last drawn. */
    method SetCanvasFiles(files: seq<CanvasFile>)
      modifies this
      ensures canvasFiles == files
    {
      canvasFiles := files;
    }

    /** `track_mouse_position`: records the mouse, then lets an ongoing drag follow it. */
    method TrackMousePosition(x: real, y: real)
      requires Valid()
      modifies view
      ensures Valid()
      ensures view.mouseX == x && view.mouseY == y
      ensures view.zoom == old(view.zoom) && view.dragStarted == old(view.dragStarted)
      ensures old(view.dragStarted) ==>
        view.translationX == Dragged(old(view.translationX), old(view.dragStartX), [x])
        && view.translationY == Dragged(old(view.translationY), old(view.dragStartY), [y])
        && view.dragStartX == x && view.dragStartY == y
      ensures !old(view.dragStarted) ==>
        view.translationX == old(view.translationX) && view.translationY == old(view.translationY)
        && view.dragStartX == old(view.dragStartX) && view.dragStartY == old(view.dragStartY)
    {
      view.mouseX := x;
      view.mouseY := y;
      MouseDrag(x, y);
    }

    /** `start_mouse_drag`: anchors the drag at the mouse. */
    method StartMouseDrag()
      requires Valid()
      modifies view
      ensures Valid()
      ensures view.dragStarted && view.dragStartX == old(view.mouseX) && view.dragStartY == old(view.mouseY)
      ensures view.zoom == old(view.zoom)
      ensures view.translationX == old(view.translationX) && view.translationY == old(view.translationY)
      ensures view.mouseX == old(view.mouseX) && view.mouseY == old(view.mouseY)
    {
      view.dragStarted := true;
      view.dragStartX := view.mouseX;
      view.dragStartY := view.mouseY;
    }

    /** `mouse_drag`: while dragging, shifts the view by the offset from the anchor and re-anchors. */
    method MouseDrag(currentX: real, currentY: real)
      requires Valid()
      modifies view
      ensures Valid()
      ensures view.zoom == old(view.zoom) && view.dragStarted == old(view.dragStarted)
      ensures view.mouseX == old(view.mouseX) && view.mouseY == old(view.mouseY)
      ensures old(view.dragStarted) ==>
        view.translationX == old(view.translationX) + (currentX - old(view.dragStartX))
        && view.translationY == old(view.translationY) + (currentY - old(view.dragStartY))
        && view.dragStartX == currentX && view.dragStartY == currentY
      ensures !old(view.dragStarted) ==>
        view.translationX == old(view.translationX) && view.translationY == old(view.translationY)
        && view.dragStartX == old(view.dragStartX) && view.dragStartY == old(view.dragStartY)
    {
      if !view.dragStarted {
        return;
      }
      var deltaX := currentX - view.dragStartX;
      var deltaY := currentY - view.dragStartY;
      view.translationX := view.translationX + deltaX;
      view.translationY := view.translationY + deltaY;
      view.dragStartX := currentX;
      view.dragStartY := currentY;
    }

    /** `end_mouse_drag`: only the drag flag changes. */
    method EndMouseDrag()
      requires Valid()
      modifies view
      ensures Valid()
      ensures !view.dragStarted
      ensures view.zoom == old(view.zoom)
      ensures view.translationX == old(view.translationX) && view.translationY == old(view.translationY)
      ensures view.dragStartX == old(view.dragStartX) && view.dragStartY == old(view.dragStartY)
      ensures view.mouseX == old(view.mouseX) && view.mouseY == old(view.mouseY)
    {
      view.dragStarted := false;
    }

    /**
     * `zoom`: the zoom moves by `factor`, clamped to [0.1, 3.0]; unless that
     * leaves it unchanged, the translation is recomputed so that the world
     * point under the mouse stays under the mouse.
     */
    method Zoom(factor: real)
      requires Valid()
      modifies view
      ensures Valid()
      ensures view.zoom == ClampZoom(old(view.zoom) + factor)
      ensures view.zoom == old(view.zoom) ==>
        view.translationX == old(view.translationX) && view.translationY == old(view.translationY)
      ensures WorldAt(view.mouseX, view.translationX, view.zoom) == WorldAt(old(view.mouseX), old(view.translationX), old(view.zoom))
      ensures WorldAt(view.mouseY, view.translationY, view.zoom) == WorldAt(old(view.mouseY), old(view.translationY), old(view.zoom))
      ensures view.mouseX == old(view.mouseX) && view.mouseY == old(view.mouseY)
      ensures view.dragStarted == old(view.dragStarted)
      ensures view.dragStartX == old(view.dragStartX) && view.dragStartY == old(view.dragStartY)
    {
      var mouseX, mouseY := view.mouseX, view.mouseY;
      var oldZoom := view.zoom;
      var newZoom := ClampZoom(oldZoom + factor);
      if oldZoom == newZoom {
        return;
      }
      var oldTx, oldTy := view.translationX, view.translationY;
      var worldX := WorldAt(mouseX, oldTx, oldZoom);
      var worldY := WorldAt(mouseY, oldTy, oldZoom);
      var newTx := TranslationFor(mouseX, worldX, newZoom);
      var newTy := TranslationFor(mouseY, worldY, newZoom);
      ZoomKeepsPoint(mouseX, oldTx, oldZoom, newZoom);
      ZoomKeepsPoint(mouseY, oldTy, oldZoom, newZoom);
      view.zoom := newZoom;
      view.translationX := newTx;
      view.translationY := newTy;
    }

    /** `move_`: pans by `(dx, dy)`; nothing else changes. */
    method Move(dx: real, dy: real)
      requires Valid()
      modifies view
      ensures Valid()
      ensures view.translationX == old(view.translationX) + dx && view.translationY == old(view.translationY) + dy
      ensures view.zoom == old(view.zoom) && view.dragStarted == old(view.dragStarted)
      ensures view.dragStartX == old(view.dragStartX) && view.dragStartY == old(view.dragStartY)
      ensures view.mouseX == old(view.mouseX) && view.mouseY == old(view.mouseY)
    {
      view.translationX := view.translationX + dx;
      view.translationY := view.translationY + dy;
    }

    /** `select_file_hovered_file`: the selection becomes the hovered file alone, or empty. */
    method SelectFileHoveredFile()
      modifies selection
      ensures selection.hoveredFile == old(selection.hoveredFile)
      ensures selection.selectedFiles == if old(selection.hoveredFile).Some? then {old(selection.hoveredFile).value} else {}
    {
      var hovered := selection.hoveredFile;
      if hovered.Some? {
        selection.selectedFiles := {hovered.value};
      } else {
        selection.selectedFiles := {};
      }
    }

    /** `multiselect_files_hovered_file`: toggles the hovered file; without one, nothing changes. */
    method MultiselectFilesHoveredFile()
      modifies selection
      ensures selection.hoveredFile == old(selection.hoveredFile)
      ensures old(selection.hoveredFile).None? ==> selection.selectedFiles == old(selection.selectedFiles)
      ensures old(selection.hoveredFile).Some? ==>
        selection.selectedFiles == Toggled(old(selection.selectedFiles), old(selection.hoveredFile).value)
    {
      var hovered := selection.hoveredFile;
      if hovered.Some? {
        var fileName := hovered.value;
        if fileName in selection.selectedFiles {
          selection.selectedFiles := selection.selectedFiles - {fileName};
        } else {
          selection.selectedFiles := selection.selectedFiles + {fileName};
        }
      }
    }

    /** `track_hovered_file`: the hovered file becomes whatever box is under the point. */
    method TrackHoveredFile(x: real, y: real)
      modifies selection
      ensures selection.hoveredFile == FileAt(canvasFiles, x, y)
      ensures selection.selectedFiles == old(selection.selectedFiles)
      ensures GetHoveredFile() == FileAt(canvasFiles, x, y)
    {
      selection.hoveredFile := FileAt(canvasFiles, x, y);
    }

    /** `get_hovered_file`: a read of the selection state that changes nothing. */
    function GetHoveredFile(): (r: Option<string>)
      reads this, selection
      ensures r == selection.hoveredFile
    {
      selection.hoveredFile
    }

    /** `get_selected_files`: a read of the selection state that changes nothing. */
    function GetSelectedFiles(): (r: set<string>)
      reads this, selection
      ensures r == selection.selectedFiles
    {
      selection.selectedFiles
    }

    /**
     * `calculate_positions`: nothing for an empty graph; otherwise the graph
     * is laid out on an 800×600 canvas for 100 iterations, and every node, in
     * index order, comes with its final position and the final positions of
     * the other ends of its edges, in the order `edges(node)` yields them.
     */
    method CalculatePositions(math: MathLib) returns (r: seq<PlacedFile>)
      requires Valid() && Lawful(math)
      ensures |graph.nodes| == 0 ==> r == []
      ensures |r| == |graph.nodes|
      ensures forall i :: 0 <= i < |r| ==>
        r[i].file == graph.nodes[i] && InCanvas(r[i].position, CanvasWidth, CanvasHeight)
        && |r[i].connected| == Degree(graph.edges, i)
      ensures forall i :: 0 <= i < |r| ==>
        r[i].position == LaidOut(math, |graph.nodes|, CanvasWidth, CanvasHeight, graph.edges, Iterations)[i]
      ensures forall i, j :: 0 <= i < |r| && 0 <= j < |r[i].connected| ==>
        j < |Neighbours(graph.edges, i)| && Neighbours(graph.edges, i)[j] < |r|
        && r[i].connected[j] == r[Neighbours(graph.edges, i)[j]].position
    {
      var n := |graph.nodes|;
      if n == 0 {
        return [];
      }
      var positions := LayOut(math, n, CanvasWidth, CanvasHeight, graph.edges, Iterations);
      r := Placed(graph.nodes, graph.edges, positions);
      forall i | 0 <= i < n {
        EntryConnected(graph.nodes, graph.edges, positions, i);
      }
    }
  }
}
