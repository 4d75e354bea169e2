# amas: import graph, force layout and workspace view, in Dafny

amas shows a TypeScript/JavaScript project as a graph of files. There is one node per source file and one edge per resolved relative import. The graph is laid out on an 800×600 canvas by a force-directed algorithm. The user can pan, zoom, hover, select and open files.

This project models the three parts of amas that hold its logic and proves properties of them.

**Import-graph builder** (`amas-app/src/workspace_graph/feeder/typescript.rs`, `workspace_graph.rs`), in modules `Paths`, `FileSystem`, `Syntax`, `Imports`, `TypeScriptFeeder` and `Graph`.
- A path is the sequence of its `components()`. A path string is parsed and rendered by the rules Rust uses on Unix.
- The filesystem is a value `Fs`. It holds the answers `canonicalize`, `exists`, `WalkDir` and `read_to_string` would give during one run.
- The oxc parser is a function parameter from source text and `SourceType` to a small syntax tree.
- `ImportVisitor` is a class. Its `imports` list grows as the visit methods walk the tree. Each visit method is proved to append exactly the entries of a pure specification (`Specifiers`, then `RecordedImports`).
- Resolution probes `base.ts`, `base.tsx`, `base.js`, `base.jsx`, then `base/index.*`, in two loops with early return.
- The feed runs two passes over a `WorkspaceGraph` class: one node per kept file, then one edge per import that names a node. Both are proved equal to pure specifications. Soundness and completeness lemmas are proved about those.

**Force-directed layout** (`amas-app/src/workspace_layout/calculate_positions.rs`), in module `ForceLayout`.
- `f64` is `real`. `sqrt`, `cos` and `sin` are the fields of a `MathLib` value, constrained by the laws in `ForceLayout.Lawful`: the non-negative root, and cos² + sin² = 1.
- Each loop of `iterate` is a method proved equal to a pure function of the positions.
- The proved facts are:
  - the pairwise forces cancel;
  - each move is bounded by the temperature;
  - nodes stay in the canvas;
  - the start positions lie on a circle;
  - the cooling is geometric.

**Viewport, selection and editor** (`view_state.rs`, `selection_state.rs`, `editor/editor.rs`), in modules `Workspace` and `Editing`.
- One `WorkspaceLayout` class holds the graph, the view state, the selection state, the canvas boxes and the editor.
- The source's `WorkspaceLayout` struct declares only the graph, but its other `impl` blocks use all five fields.
- Reactive `RwSignal` cells are plain fields.

Behaviour of the code worth noting, which the model keeps:
- Pass 1 adds one node per walked file, with no deduplication. A repeated canonical name gets a second node, and the map keeps the last index.
- Zoom is clamped to [0.1, 3.0].
- A parse error does not empty a file's import list. Errors are only logged, and whatever program the parser returns is visited.
- A pair of nodes at distance 0 gets no repulsion at all. The constant 1000 of `calculate_repulsive_force` is never used by `iterate`.
- Start positions are evenly spaced on a circle. Centring adds a circular spring to the gravity.
- The importing file's directory is the parent of the walked (not canonical) path.
- `import("x")` is recorded only through a call whose callee is an import expression, exactly as the branch is written.

## Model

| member | source | states |
|---|---|---|
| Paths.DirectoryOf | amas-app/src/workspace_graph/feeder/typescript.rs:20-27 | `parent().unwrap_or("")`: the directory is a prefix of the file's path, no longer than it |
| Paths.Components | amas-app/src/workspace_graph/feeder/typescript.rs:70 | `components()` of any string is well formed: a root or `.` only first, no empty names, no inner `.` |
| Paths.WithExtension | amas-app/src/workspace_graph/feeder/typescript.rs:46 | `with_extension` keeps the directory and the length, leaves a path without a file name unchanged, and gives a named path exactly the new extension |
| Paths.Normalize | amas-app/src/workspace_graph/feeder/typescript.rs:66-93 | the lexical fallback leaves no `.` and no `..` component and never lengthens the path |
| Paths.NormalizeKeepsPlainPath | amas-app/src/workspace_graph/feeder/typescript.rs:66-93 | a path with no `.` or `..` comes back unchanged |
| Paths.NormalizeIdempotent | amas-app/src/workspace_graph/feeder/typescript.rs:66-93 | normalising twice is normalising once |
| Paths.NormalizeAppend | amas-app/src/workspace_graph/feeder/typescript.rs:66-93 | the stack discipline composes: normalising a prefix first does not change the result |
| Paths.NormalizeWithoutParent | amas-app/src/workspace_graph/feeder/typescript.rs:70-84 | without `..`, the fallback only drops the `.` components and keeps the rest in order |
| Paths.ComponentsOfRender | amas-app/src/workspace_graph/feeder/typescript.rs:101-102 | parsing the `to_string_lossy` string of a well-formed path gives the same components back |
| Paths.RenderInjective | amas-app/src/workspace_graph/feeder/typescript.rs:271-278 | two well-formed paths have the same string exactly when they are equal, so string keys identify paths |
| Imports.FirstExisting | amas-app/src/workspace_graph/feeder/typescript.rs:45-58 | the probe chosen exists and none before it does; none is chosen exactly when no candidate exists |
| Imports.ResolveImportSpec | amas-app/src/workspace_graph/feeder/typescript.rs:30-63 | a specifier not starting with `.` never resolves; a relative one resolves exactly when one of its eight probes exists, and then to an existing probe |
| Imports.ProbeOrder | amas-app/src/workspace_graph/feeder/typescript.rs:45-58 | the `i`-th probe wins exactly when it exists and no earlier probe does, so `b.ts` beats `b.tsx` and every `b.*` beats `b/index.*` |
| Imports.IndexFileExtension | amas-app/src/workspace_graph/feeder/typescript.rs:54 | `index.<ext>` has extension `<ext>` |
| Imports.WithExtensionProbe | amas-app/src/workspace_graph/feeder/typescript.rs:46 | an extension probe carries exactly the probed extension, unless `with_extension` leaves a nameless base unchanged |
| Imports.ProbeExtension | amas-app/src/workspace_graph/feeder/typescript.rs:44-58 | probe `i` ends in its own extension, `ts`, `tsx`, `js`, `jsx` in turn for `base.*` and again for `base/index.*`, unless `with_extension` leaves a nameless base unchanged |
| Imports.ResolvedExtension | amas-app/src/workspace_graph/feeder/typescript.rs:44-58 | a resolved path always ends in one of ts, tsx, js, jsx (`./a.mjs` is probed as `a.ts`), unless the base is a root that `with_extension` leaves alone |
| Imports.ProbeCandidates | amas-app/src/workspace_graph/feeder/typescript.rs:44-58 | the two probe loops together return the first existing probe, or nothing |
| Imports.ProbeWithExtensions | amas-app/src/workspace_graph/feeder/typescript.rs:45-50 | the first loop returns the first existing probe when it finds one, and otherwise establishes that no extension probe exists |
| Imports.ProbeIndexFiles | amas-app/src/workspace_graph/feeder/typescript.rs:52-58 | when no extension probe exists, the second loop returns the first existing index file, or nothing |
| Imports.SpecifiersOfAppend | amas-app/src/workspace_graph/feeder/typescript.rs:150-152 | siblings are visited in order: walking two lists records the first list's specifiers, then the second's |
| Imports.TopLevelImportRecorded | amas-app/src/workspace_graph/feeder/typescript.rs:108-111 | every `import … from "s"` of a program hands `s` to `add_import` |
| Imports.RequireMemberRecordedTwice | amas-app/src/workspace_graph/feeder/typescript.rs:155-180 | `require("s").p` yields `s` twice, once for the member and once for the call inside it, followed by the other arguments' specifiers |
| Imports.RequireCallRecorded | amas-app/src/workspace_graph/feeder/typescript.rs:137-152 | `require("s", …)` records `s`, then the specifiers inside its arguments |
| Imports.RequireNeedsLiteral | amas-app/src/workspace_graph/feeder/typescript.rs:137-152 | a `require` whose first argument is missing or not a string literal records only what its arguments contain |
| Imports.SpecifiersAreWritten | amas-app/src/workspace_graph/feeder/typescript.rs:107-185 | the visitor invents nothing: every specifier it records is a string written in the tree |
| Imports.RecordedImportsExist | amas-app/src/workspace_graph/feeder/typescript.rs:95-104 | every entry `add_import` appends is the canonical string of a file that exists |
| Imports.BareSpecifiersRecordNothing | amas-app/src/workspace_graph/feeder/typescript.rs:30-32 | bare (package) specifiers add nothing, whatever files exist |
| Imports.ImportVisitor.constructor | amas-app/src/workspace_graph/feeder/typescript.rs:20-28 | a fresh visitor has no imports and the parent of the file as its directory |
| Imports.ImportVisitor.ManualResolvePath | amas-app/src/workspace_graph/feeder/typescript.rs:66-93 | the push/pop loop computes `Normalize(path)`, so no `.` or `..` remains |
| Imports.ImportVisitor.ResolveImportPath | amas-app/src/workspace_graph/feeder/typescript.rs:30-64 | the method returns `ResolveImport`: canonicalize or the lexical fallback, then the probes |
| Imports.ImportVisitor.AddImport | amas-app/src/workspace_graph/feeder/typescript.rs:95-104 | the list grows by the canonical string of the resolved path, or not at all |
| Imports.ImportVisitor.VisitNode | amas-app/src/workspace_graph/feeder/typescript.rs:107-123 | visiting a node appends the entries of exactly its specifiers, in visit order |
| Imports.ImportVisitor.VisitNodes | amas-app/src/workspace_graph/feeder/typescript.rs:150-152 | visiting siblings appends their entries one after the other |
| Imports.ImportVisitor.VisitProgram | amas-app/src/workspace_graph/feeder/typescript.rs:216-219 | after the walk, the list holds what `add_import` gives for every specifier of the program, in order |
| Imports.ImportVisitor.RecordCall | amas-app/src/workspace_graph/feeder/typescript.rs:126-146 | the head of `visit_call_expression` records the first argument of an import-callee or `require` call only when it is a string literal |
| Imports.ImportVisitor.VisitCallExpression | amas-app/src/workspace_graph/feeder/typescript.rs:125-153 | the call's own check, then the callee, then the arguments |
| Imports.ImportVisitor.RecordRequireMember | amas-app/src/workspace_graph/feeder/typescript.rs:156-170 | `o.p` records `s` only when `o` is `require` applied to the string literal `s` |
| Imports.ImportVisitor.VisitMemberExpression | amas-app/src/workspace_graph/feeder/typescript.rs:155-185 | the member check, then the default walk of object and computed property |
| TypeScriptFeeder.FindTypescriptFiles | amas-app/src/workspace_graph/feeder/typescript.rs:222-252 | a walked path is kept exactly when it is a readable file entry with a source extension and no component is an ignored directory |
| TypeScriptFeeder.KeptFilesHaveSourceType | amas-app/src/workspace_graph/feeder/typescript.rs:195-203 | every kept file is parsed in a mode named for its extension, never the default (`.ts` as ts, `.js` as unambiguous) |
| TypeScriptFeeder.FindTypescriptFilesFilters | amas-app/src/workspace_graph/feeder/typescript.rs:222-252 | the kept files are the walk filtered in place: each entry contributes its path when kept and nothing otherwise, in walk order |
| TypeScriptFeeder.KeptInWalkOrder | amas-app/src/workspace_graph/feeder/typescript.rs:222-252 | files walked earlier are kept earlier, which fixes the node indices pass 1 hands out |
| TypeScriptFeeder.ParseTypescriptFile | amas-app/src/workspace_graph/feeder/typescript.rs:188-220 | an unreadable file is an error; otherwise the result is the recorded imports of the parsed program |
| TypeScriptFeeder.FileImportsExist | amas-app/src/workspace_graph/feeder/typescript.rs:188-220 | every import a file yields names an existing file |
| TypeScriptFeeder.IndexMap | amas-app/src/workspace_graph/feeder/typescript.rs:264-279 | `file_to_node` has exactly the keys of the files |
| TypeScriptFeeder.IndexMapLast | amas-app/src/workspace_graph/feeder/typescript.rs:278 | a key maps to the node of its last occurrence, because `insert` overwrites |
| TypeScriptFeeder.FileEdges | amas-app/src/workspace_graph/feeder/typescript.rs:291-297 | every edge of a file starts at its node, weighs 1.0 and ends at an import's node; every import in the map gives an edge |
| TypeScriptFeeder.FeedEdgesSound | amas-app/src/workspace_graph/feeder/typescript.rs:282-305 | every edge of pass 2 joins two pass-1 nodes. It starts at a node named like a read file and ends at the node of one of that file's imports, which names an existing file |
| TypeScriptFeeder.FeedEdgesComplete | amas-app/src/workspace_graph/feeder/typescript.rs:288-297 | every import of a read file that names a node gives an edge from the file's node |
| TypeScriptFeeder.AddImportEdges | amas-app/src/workspace_graph/feeder/typescript.rs:291-297 | the inner loop appends `FileEdges` and adds no node |
| TypeScriptFeeder.AddFileNodes | amas-app/src/workspace_graph/feeder/typescript.rs:267-279 | pass 1 appends one node per file, duplicates included, adds no edge, and builds `IndexMap` |
| TypeScriptFeeder.AddEdgesOfFile | amas-app/src/workspace_graph/feeder/typescript.rs:282-304 | one file of pass 2: its edges, or none when it cannot be read or its key is not in the map |
| TypeScriptFeeder.AddFileEdges | amas-app/src/workspace_graph/feeder/typescript.rs:282-305 | pass 2 appends the files' edges in walk order and adds no node |
| TypeScriptFeeder.FeedWorkspaceGraph | amas-app/src/workspace_graph/feeder/typescript.rs:254-308 | the feed appends `NodesOf` the kept files and then `FeedEdges` over the pass-1 map, keeping every edge between existing nodes |
| Graph.WorkspaceGraph.constructor | amas-app/src/workspace_graph/workspace_graph.rs:9-13 | a new graph has no nodes and no edges |
| Graph.WorkspaceGraph.AddFile | amas-app/src/workspace_graph/workspace_graph.rs:15-17 | the node list grows by exactly the file, whose index is returned; edges are unchanged |
| Graph.WorkspaceGraph.AddImport | amas-app/src/workspace_graph/workspace_graph.rs:19-21 | exactly one edge of weight 1.0 is appended, even when it repeats an edge or is a self-loop; nodes are unchanged |
| Graph.NeighboursCount | amas-app/src/workspace_layout/calculate_positions.rs:37 | `edges(v)` yields one entry per edge touching `v` |
| Graph.NeighboursWithin | amas-app/src/workspace_layout/calculate_positions.rs:37-38 | every neighbour is a node of the graph |
| Graph.NeighboursSymmetric | amas-app/src/workspace_graph/workspace_graph.rs:5 | the graph is undirected: `u` is a neighbour of `v` exactly when `v` is one of `u` |
| Graph.AddedImportFirst | amas-app/src/workspace_graph/workspace_graph.rs:19-21 | the import just added is the first entry of `edges(a)` |
| Graph.AddedImportAtTarget | amas-app/src/workspace_graph/workspace_graph.rs:19-21 | at its other end, the new import comes after that node's outgoing edges and before its incoming ones |
| ForceLayout.DistanceLaw | amas-app/src/workspace_layout/calculate_positions.rs:16-18 | a distance is the non-negative root of the squared distance |
| ForceLayout.DistanceSelf | amas-app/src/workspace_layout/calculate_positions.rs:16-18 | a point is at distance zero from itself |
| ForceLayout.DistanceSymmetric | amas-app/src/workspace_layout/calculate_positions.rs:117-141 | the repulsion and edge loops may measure in either order |
| ForceLayout.RepulsionLaw | amas-app/src/workspace_layout/calculate_positions.rs:93-98 | above distance 0 the repulsion is positive and equals k²/d, so `iterate` never uses the constant 1000 |
| ForceLayout.AttractionLaw | amas-app/src/workspace_layout/calculate_positions.rs:100-102 | the attraction times k is d² |
| ForceLayout.ForcesBalance | amas-app/src/workspace_layout/calculate_positions.rs:93-102 | repulsion and attraction are equal exactly at the ideal distance `k` |
| ForceLayout.CentringAtCentre | amas-app/src/workspace_layout/calculate_positions.rs:165-184 | a node at the centre gets neither gravity nor spring |
| ForceLayout.CentringOnCircle | amas-app/src/workspace_layout/calculate_positions.rs:174-183 | a node on the ideal circle gets gravity only |
| ForceLayout.RepulsionTotal | amas-app/src/workspace_layout/calculate_positions.rs:109-133 | repulsion only moves displacement between nodes: the total is unchanged |
| ForceLayout.AttractionTotal | amas-app/src/workspace_layout/calculate_positions.rs:135-156 | attraction only moves displacement between an edge's ends: the total is unchanged |
| ForceLayout.PairwiseForcesCancel | amas-app/src/workspace_layout/calculate_positions.rs:105-156 | from zero displacements, repulsion and attraction together sum to zero |
| ForceLayout.MoveZeroIsIdentity | amas-app/src/workspace_layout/calculate_positions.rs:186-188 | a node with zero displacement is left where it is |
| ForceLayout.MoveStaysInCanvas | amas-app/src/workspace_layout/calculate_positions.rs:197-198 | a node in the canvas stays in the canvas |
| ForceLayout.MoveWithinTemperature | amas-app/src/workspace_layout/calculate_positions.rs:186-198 | a node moves by at most the temperature, clamping included |
| ForceLayout.StepLength | amas-app/src/workspace_layout/calculate_positions.rs:186-196 | before clamping a node moves exactly min(length of d, temperature): its whole displacement when shorter than the temperature, the temperature otherwise |
| ForceLayout.MovedBounds | amas-app/src/workspace_layout/calculate_positions.rs:186-200 | after the final loop every node is in the canvas and within the temperature of where it was |
| ForceLayout.InitialPositionOnCircle | amas-app/src/workspace_layout/calculate_positions.rs:68-78 | start positions lie on the circle of radius min(w, h)/2.5 about the centre |
| ForceLayout.InitialPositionInCanvas | amas-app/src/workspace_layout/calculate_positions.rs:68-78 | start positions lie in the canvas |
| ForceLayout.CoolingStart | amas-app/src/workspace_layout/calculate_positions.rs:88 | the schedule starts at the initial temperature |
| ForceLayout.CoolingStep | amas-app/src/workspace_layout/calculate_positions.rs:202 | one more cooling step follows the schedule t0·0.95ⁿ |
| ForceLayout.CoolingDecreases | amas-app/src/workspace_layout/calculate_positions.rs:202-212 | the schedule is positive and strictly decreasing |
| ForceLayout.LaidInCanvas | amas-app/src/workspace_layout/calculate_positions.rs:186-213 | over a whole run every node stays in the canvas, and iteration n moves each node by at most the temperature it runs at |
| ForceLayout.LaidOut | amas-app/src/workspace_layout/calculate_positions.rs:27-29 | the laid-out positions of `n` nodes: one per node, all in the canvas |
| ForceLayout.ApplyRepulsion | amas-app/src/workspace_layout/calculate_positions.rs:109-133 | the double loop over pairs `i < j` computes `Repulsion` and keeps the total |
| ForceLayout.ApplyAttraction | amas-app/src/workspace_layout/calculate_positions.rs:135-156 | the edge loop computes `Attraction` and keeps the total |
| ForceLayout.ApplyCentring | amas-app/src/workspace_layout/calculate_positions.rs:158-184 | each node gets gravity, then the spring unless it is at the centre |
| ForceLayout.ApplyMoves | amas-app/src/workspace_layout/calculate_positions.rs:186-200 | the final loop computes `Moved` |
| ForceLayout.ComputeDisplacements | amas-app/src/workspace_layout/calculate_positions.rs:105-184 | the three force loops from zero give `Displacements` |
| ForceLayout.ForceDirectedLayout.constructor | amas-app/src/workspace_layout/calculate_positions.rs:61-91 | nodes start at `InitialPositions` on the circle, `k = sqrt(w·h/n)`, temperature `w/10`, all in the canvas |
| ForceLayout.ForceDirectedLayout.Iterate | amas-app/src/workspace_layout/calculate_positions.rs:104-203 | positions become `Moved(Displacements)`, each within the old temperature of where it was and in the canvas, and the temperature is multiplied by 0.95 |
| ForceLayout.ForceDirectedLayout.Run | amas-app/src/workspace_layout/calculate_positions.rs:205-213 | after `n` iterations the positions are `Laid`, the n-fold `Moved(Displacements)` at temperatures t0·0.95ⁱ, and the temperature is t0·0.95ⁿ |
| ForceLayout.LayOut | amas-app/src/workspace_layout/calculate_positions.rs:27-29 | a new layout run for the given iterations ends at `LaidOut`: the circle start, `Laid` from temperature w/10 |
| Editing.FirstOpened | amas-app/src/editor/editor.rs:22-24 | the shown file is absent exactly when nothing is open, and is otherwise one of the opened files |
| Editing.OpenedIsShown | amas-app/src/editor/editor.rs:16-24 | after opening `f`, `get_opened_file` gives `f` |
| Editing.Editor.constructor | amas-app/src/editor/editor.rs:11-14 | nothing is open |
| Editing.Editor.OpenFile | amas-app/src/editor/editor.rs:16-20 | the list becomes exactly `[f]`, so at most one file is open and `f` is shown |
| Editing.Editor.GetOpenedFile | amas-app/src/editor/editor.rs:22-24 | a reads-only function, so reading changes no state: none exactly when nothing is open, and otherwise the one open file |
| Workspace.ClampZoom | amas-app/src/workspace_layout/view_state.rs:92 | the result is in [0.1, 3.0], equal to the input inside it and to the nearer bound outside |
| Workspace.ZoomKeepsPoint | amas-app/src/workspace_layout/view_state.rs:101-107 | the new translation shows the same world point under the mouse |
| Workspace.DragTelescopes | amas-app/src/workspace_layout/view_state.rs:73-81 | over moves p1..pn after anchoring at p0, the view shifts by pn − p0 |
| Workspace.ViewState.constructor | amas-app/src/workspace_layout/view_state.rs:21-44 | zoom 1, no translation, not dragging, mouse and anchor at 0 |
| Workspace.FileAt | amas-app/src/workspace_layout/selection_state.rs:24-36 | the name of the first box containing the point, edges included, or none exactly when no box contains it |
| Workspace.ToggleMembership | amas-app/src/workspace_layout/selection_state.rs:48-60 | toggling flips the membership of the hovered name and of no other |
| Workspace.ToggleTwice | amas-app/src/workspace_layout/selection_state.rs:48-60 | toggling the same name twice restores the selection |
| Workspace.SelectionState.constructor | amas-app/src/workspace_layout/selection_state.rs:12-20 | nothing selected, nothing hovered |
| Workspace.KnownPositionsComplete | amas-app/src/workspace_layout/calculate_positions.rs:37-42 | when every target has a position, none is skipped and the order is kept |
| Workspace.ConnectedPositions | amas-app/src/workspace_layout/calculate_positions.rs:36-42 | the inner loop collects the positions of the targets that have one, in order |
| Workspace.EntryConnected | amas-app/src/workspace_layout/calculate_positions.rs:32-45 | an entry lists one neighbour position per incident edge, in `edges(i)` order |
| Workspace.Placed | amas-app/src/workspace_layout/calculate_positions.rs:31-47 | one entry per node, in index order |
| Workspace.WorkspaceLayout.constructor | amas-app/src/workspace_layout/workspace_layout.rs:9-11 | the layout holds the given graph, a new view, selection and editor, and no boxes |
| Workspace.WorkspaceLayout.SetCanvasFiles | amas-app/src/workspace_layout/canva_state.rs:16-18 | the boxes become those last drawn |
| Workspace.WorkspaceLayout.TrackMousePosition | amas-app/src/workspace_layout/view_state.rs:48-53 | the mouse is recorded. While dragging, the view follows by one `Dragged` step; otherwise translation and anchor are unchanged |
| Workspace.WorkspaceLayout.StartMouseDrag | amas-app/src/workspace_layout/view_state.rs:55-63 | the drag starts, anchored at the mouse; nothing else changes |
| Workspace.WorkspaceLayout.MouseDrag | amas-app/src/workspace_layout/view_state.rs:65-82 | without a drag nothing changes. Otherwise translation grows by current − anchor and the anchor moves to current |
| Workspace.WorkspaceLayout.EndMouseDrag | amas-app/src/workspace_layout/view_state.rs:84-86 | only the drag flag changes |
| Workspace.WorkspaceLayout.Zoom | amas-app/src/workspace_layout/view_state.rs:88-112 | zoom becomes clamp(old + f) and stays in [0.1, 3.0]. An unchanged zoom keeps the translation. The world point under the mouse stays fixed on both axes |
| Workspace.WorkspaceLayout.Move | amas-app/src/workspace_layout/view_state.rs:114-117 | translation grows by (dx, dy); nothing else changes |
| Workspace.WorkspaceLayout.SelectFileHoveredFile | amas-app/src/workspace_layout/selection_state.rs:38-46 | the selection becomes {hovered}, or empty without a hovered file |
| Workspace.WorkspaceLayout.MultiselectFilesHoveredFile | amas-app/src/workspace_layout/selection_state.rs:48-60 | the hovered name is toggled; without one nothing changes |
| Workspace.WorkspaceLayout.TrackHoveredFile | amas-app/src/workspace_layout/selection_state.rs:62-66 | the hovered file becomes the hit-test result; the selection is unchanged |
| Workspace.WorkspaceLayout.GetHoveredFile | amas-app/src/workspace_layout/selection_state.rs:68-70 | a reads-only function, so reading changes no state: the hovered file, which `TrackHoveredFile` sets to the hit-test result |
| Workspace.WorkspaceLayout.GetSelectedFiles | amas-app/src/workspace_layout/selection_state.rs:72-74 | a reads-only function, so reading changes no state: the selected set |
| Workspace.WorkspaceLayout.CalculatePositions | amas-app/src/workspace_layout/calculate_positions.rs:22-48 | nothing for an empty graph. Otherwise one entry per node in index order, whose position is the node's `LaidOut` position after 100 iterations on 800×600 (so in the canvas), and whose neighbour list has one such position per incident edge |

## Left out

- Floating point: `f64` rounding, NaN and infinities are not modelled. `sqrt`, `cos` and `sin` are known only through the laws of `ForceLayout.Lawful`, so convergence and visual quality are out of reach.
- ForceLayout.DistanceSelf: only "distance to itself is zero" is proved. The converse (distance zero means equal positions) needs positivity of a sum of squares of differences, which the nonlinear arithmetic here does not reach.
- ForceLayout.ForceDirectedLayout.constructor: requires `n > 0`. The only caller returns early on an empty graph, and with `n = 0` the source would compute `k` from a division by zero. It takes the node count, not the graph, since only the count is used.
- Petgraph is not part of this model. `Graph.Neighbours` follows the documented order of `edges(v)` on an undirected `Graph`: the outgoing list newest first, then the incoming list, with a self-loop once. Node indices are unbounded (`nat`) rather than `u32`.
- HashMaps (`file_to_node`, positions, displacements) are sequences or Dafny maps indexed by node. Their iteration order does not matter, since the final loop of `iterate` updates each node independently.
- I/O is a value: `canonicalize`, `exists`, `WalkDir` and `read_to_string` are looked up in `FileSystem.Fs`, and the oxc parser is a function parameter. Parse errors are only printed by the source, so they are not modelled. `eprintln!` output is not modelled.
- Paths are modelled by their components. A joined path that is not canonicalised keeps no trace of doubled or trailing `/` or of a `.` in its middle, as `components()` also forgets them. The same holds for the node key of a walked file whose `canonicalize` fails: the source then keys it by the raw walked string (`proj/./src/b.ts` under the root `proj/.`), which an importer's clean entry `proj/src/b.ts` does not match, so the source adds no edge where the model, keying both by their rendered components, adds one. Windows prefixes and non-UTF-8 names (the `to_str().unwrap()` of the project path) are not modelled.
- `feed_workspace_graph_with_ts_project` always returns `Ok(())`, so `TypeScriptFeeder.FeedWorkspaceGraph` returns nothing.
- Imports.ResolvedExtension: requires that the base's last component is not an empty name, which `components()` never produces.
- The dynamic-import branch is modelled as written: a call whose callee is an import expression. Whether oxc ever builds such a call for `import("x")` is not part of this model, so the model does not claim dynamic imports are captured.
- The probe loops of `resolve_import_path` are split into two methods, `Imports.ProbeWithExtensions` and `Imports.ProbeIndexFiles`. `Imports.ProbeCandidates` runs them in sequence.
- `WorkspaceLayout::new` takes only the graph. The view, selection, canvas and editor fields the other `impl` blocks use start at their own `new`.
- Reactivity of `RwSignal` (tracking, redraws, sharing across clones) is not modelled; each cell is a field.
- Closing a file: `editor/view.rs` calls `close_file`, which `editor.rs` does not define; it is not part of this model.
- The pinch handler in `workspace_layout/view.rs` opens the hovered file when the zoom equals 3.5. `Workspace.ViewState.Valid` keeps the zoom at most 3.0, so that branch never fires. The handler itself is UI code and not part of this model.
- Drawing, event wiring and the vendored editor UI (`app.rs`, `view.rs`, `draw.rs`, `app_temp/app.rs`) are UI code and not part of this model.
