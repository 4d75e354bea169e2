/**
 * The feed of `amas-app/src/workspace_graph/feeder/typescript.rs`: which
 * walked files count as sources, how each one is parsed, and the two passes
 * that add one node per source file and then one edge per resolved import.
 */
module TypeScriptFeeder {
  import opened Wrappers
  import opened Paths
  import opened FileSystem
  import opened Syntax
  import opened Imports
  import opened Graph
  import opened Sequences

  // ---------------------------------------------------------------------
  // find_typescript_files
  // ---------------------------------------------------------------------

  const SourceExtensions: set<string> := {"ts", "tsx", "js", "jsx", "mjs", "cjs"}

  const IgnoredDirectories: set<string> := {"node_modules", ".git", "dist", "build", "coverage"}

  /** Some component of the path, the walk root's own included, is an ignored directory name. */
  predicate InIgnoredDirectory(p: Path)
  {
    exists i :: 0 <= i < |p| && Text(p[i]) in IgnoredDirectories
  }

  predicate HasSourceExtension(p: Path)
  {
    Extension(p).Some? && Extension(p).value in SourceExtensions
  }

  /** The two filters of `find_typescript_files`; failed walk entries are dropped first. */
  predicate IsCandidate(e: WalkEntry)
  {
    e.Entry? && e.isFile && HasSourceExtension(e.path) && !InIgnoredDirectory(e.path)
  }

  /** The kept paths, in walk order. */
  function FindTypescriptFiles(walk: seq<WalkEntry>): (r: seq<Path>)
    ensures |r| <= |walk|
    ensures forall p :: p in r <==> Entry(p, true) in walk && IsCandidate(Entry(p, true))
  {
    if walk == [] then []
    else
      var init, e := walk[..|walk| - 1], walk[|walk| - 1];
      assert walk == init + [e];
      if IsCandidate(e) then FindTypescriptFiles(init) + [e.path] else FindTypescriptFiles(init)
  }

  /** What one walk entry contributes: its path when it is kept. */
  function KeptPath(e: WalkEntry): seq<Path>
  {
    if IsCandidate(e) then [e.path] else []
  }

  /** The kept paths are the walk filtered in place: each entry's path if kept, in walk order. */
  lemma {:induction false} FindTypescriptFilesFilters(walk: seq<WalkEntry>)
    ensures FindTypescriptFiles(walk) == FlatMap(KeptPath, walk)
    decreases |walk|
  {
    if walk != [] {
      FindTypescriptFilesFilters(walk[..|walk| - 1]);
    }
  }

  /** Files walked earlier are kept earlier: the filter of a walk is the filters of its parts, in order. */
  lemma KeptInWalkOrder(a: seq<WalkEntry>, b: seq<WalkEntry>)
    ensures FindTypescriptFiles(a + b) == FindTypescriptFiles(a) + FindTypescriptFiles(b)
  {
    FindTypescriptFilesFilters(a);
    FindTypescriptFilesFilters(b);
    FindTypescriptFilesFilters(a + b);
    FlatMapAppend(KeptPath, a, b);
  }

  // ---------------------------------------------------------------------
  // parse_typescript_file
  // ---------------------------------------------------------------------

  /** The parser mode chosen from the file's extension. */
  function SourceTypeFor(p: Path): SourceType
  {
    match Extension(p)
    case Some("tsx") => Tsx
    case Some("ts") => Ts
    case Some("jsx") => Jsx
    case Some("js") => Unambiguous
    case Some("mjs") => Mjs
    case Some("cjs") => Cjs
    case _ => DefaultType
  }

  /** Every kept file is parsed in a mode named for its own extension, never the default one. */
  lemma KeptFilesHaveSourceType(walk: seq<WalkEntry>, p: Path)
    requires p in FindTypescriptFiles(walk)
    ensures SourceTypeFor(p) != DefaultType
    ensures Extension(p) == Some("ts") <==> SourceTypeFor(p) == Ts
    ensures Extension(p) == Some("js") <==> SourceTypeFor(p) == Unambiguous
  {
    assert IsCandidate(Entry(p, true));
  }

  /** The only error `parse_typescript_file` returns: the file cannot be read. */
  datatype FeedError = ReadFailed(path: Path)

  /** The imports recorded for one file, or the read error. */
  function FileImports(fs: Fs, parser: (string, SourceType) -> Program, path: Path): Result<seq<string>, FeedError>
  {
    if path in fs.contents then
      Ok(RecordedImports(fs, DirectoryOf(path), SpecifiersOf(parser(fs.contents[path], SourceTypeFor(path)))))
    else Err(ReadFailed(path))
  }

  /** `parse_typescript_file`: read, parse, and run a fresh visitor over the program. */
  method ParseTypescriptFile(fs: Fs, parser: (string, SourceType) -> Program, path: Path)
    returns (r: Result<seq<string>, FeedError>)
    ensures r == FileImports(fs, parser, path)
  {
    if path !in fs.contents {
      return Err(ReadFailed(path));
    }
    var program := parser(fs.contents[path], SourceTypeFor(path));
    var visitor := new ImportVisitor(fs, path);
    visitor.VisitProgram(program);
    assert visitor.imports == RecordedImports(fs, DirectoryOf(path), SpecifiersOf(program));
    r := Ok(visitor.imports);
  }

  /** Every recorded import of a file names the canonical form of a file that exists. */
  lemma FileImportsExist(fs: Fs, parser: (string, SourceType) -> Program, path: Path)
    requires FileImports(fs, parser, path).Ok?
    ensures forall x :: x in FileImports(fs, parser, path).value ==> NamesExistingFile(fs, x)
  {
    RecordedImportsExist(fs, DirectoryOf(path), SpecifiersOf(parser(fs.contents[path], SourceTypeFor(path))));
  }

  // ---------------------------------------------------------------------
  // feed_workspace_graph_with_ts_project
  // ---------------------------------------------------------------------

  /** The name a file is stored under: its canonical path, or the path itself when that fails. */
  function NodeKey(fs: Fs, f: Path): string
  {
    Render(CanonicalizeOr(fs, f))
  }

  function Keys(fs: Fs, files: seq<Path>): (r: seq<string>)
    ensures |r| == |files|
  {
    seq(|files|, i requires 0 <= i < |files| => NodeKey(fs, files[i]))
  }

  /** The nodes pass 1 adds: one per file, duplicates included. */
  function NodesOf(fs: Fs, files: seq<Path>): (r: seq<File>)
    ensures |r| == |files|
  {
    seq(|files|, i requires 0 <= i < |files| => File(NodeKey(fs, files[i])))
  }

  /**
   * `file_to_node` after pass 1 when the graph already held `base` nodes:
   * each key maps to the index of its LAST occurrence, since `insert` overwrites.
   */
  function IndexMap(keys: seq<string>, base: nat): (m: map<string, nat>)
    ensures forall k :: k in m <==> k in keys
  {
    if keys == [] then map[]
    else
      var init := keys[..|keys| - 1];
      assert keys == init + [keys[|keys| - 1]];
      IndexMap(init, base)[keys[|keys| - 1] := base + |keys| - 1]
  }

  /** A key maps to a node added by pass 1, the one added for its last occurrence. */
  lemma {:induction false} IndexMapLast(keys: seq<string>, base: nat, k: string)
    requires k in keys
    ensures var m := IndexMap(keys, base);
      base <= m[k] < base + |keys| && keys[m[k] - base] == k
      && forall j :: 0 <= j < |keys| && keys[j] == k ==> j <= m[k] - base
    decreases |keys|
  {
    var init := keys[..|keys| - 1];
    if keys[|keys| - 1] != k {
      assert keys == init + [keys[|keys| - 1]];
      IndexMapLast(init, base, k);
    }
  }

  /** The edges `from` gains for `imports`: one per import that names a node, in order. */
  function FileEdges(m: map<string, nat>, from: nat, imports: seq<string>): (r: seq<Edge>)
    ensures |r| <= |imports|
    ensures forall e :: e in r ==> e.a == from && e.weight == 1.0 && exists x :: x in imports && x in m && e.b == m[x]
    ensures forall x :: x in imports && x in m ==> Edge(from, m[x], 1.0) in r
  {
    if imports == [] then []
    else
      var init, x := imports[..|imports| - 1], imports[|imports| - 1];
      assert imports == init + [x];
      FileEdges(m, from, init) + (if x in m then [Edge(from, m[x], 1.0)] else [])
  }

  /** The edges pass 2 adds for one file: none when it cannot be read. */
  function EdgesOfFile(fs: Fs, parser: (string, SourceType) -> Program, m: map<string, nat>, f: Path): seq<Edge>
  {
    match FileImports(fs, parser, f)
    case Err(_) => []
    case Ok(imports) =>
      var key := NodeKey(fs, f);
      if key in m then FileEdges(m, m[key], imports) else []
  }

  /** `EdgesOfFile` as a function of the file. */
  function EdgesOf(fs: Fs, parser: (string, SourceType) -> Program, m: map<string, nat>): Path -> seq<Edge>
  {
    f => EdgesOfFile(fs, parser, m, f)
  }

  /** The edges pass 2 adds, file by file in walk order. */
  function FeedEdges(fs: Fs, parser: (string, SourceType) -> Program, files: seq<Path>, m: map<string, nat>): seq<Edge>
  {
    FlatMap(EdgesOf(fs, parser, m), files)
  }

  /**
   * Soundness of the feed: every edge weighs 1.0, joins two nodes added by
   * pass 1, starts at the (last) node named like a file that was read and
   * ends at the node named by one of that file's imports, which is the
   * canonical form of a file that exists.
   */
  lemma FeedEdgesSound(fs: Fs, parser: (string, SourceType) -> Program, files: seq<Path>, base: nat, e: Edge)
    requires e in FeedEdges(fs, parser, files, IndexMap(Keys(fs, files), base))
    ensures e.weight == 1.0
    ensures base <= e.a < base + |files| && base <= e.b < base + |files|
    ensures exists i :: (0 <= i < |files| && Keys(fs, files)[i] == Keys(fs, files)[e.a - base]
      && FileImports(fs, parser, files[i]).Ok? && Keys(fs, files)[e.b - base] in FileImports(fs, parser, files[i]).value)
    ensures NamesExistingFile(fs, Keys(fs, files)[e.b - base])
  {
    var m := IndexMap(Keys(fs, files), base);
    var i := FlatMapFrom(EdgesOf(fs, parser, m), files, e);
    FileEdgeSound(fs, parser, files, base, i, e);
  }

  /** Soundness for the edges of the file at position `i`. */
  lemma FileEdgeSound(fs: Fs, parser: (string, SourceType) -> Program, files: seq<Path>, base: nat, i: nat, e: Edge)
    requires i < |files| && e in EdgesOfFile(fs, parser, IndexMap(Keys(fs, files), base), files[i])
    ensures e.weight == 1.0
    ensures base <= e.a < base + |files| && base <= e.b < base + |files|
    ensures Keys(fs, files)[i] == Keys(fs, files)[e.a - base]
    ensures FileImports(fs, parser, files[i]).Ok? && Keys(fs, files)[e.b - base] in FileImports(fs, parser, files[i]).value
    ensures NamesExistingFile(fs, Keys(fs, files)[e.b - base])
  {
    var keys := Keys(fs, files);
    assert NodeKey(fs, files[i]) == keys[i];
    var imports := FileImports(fs, parser, files[i]).value;
    var x := ImportEdgeEnds(keys, base, keys[i], imports, e);
    FileImportsExist(fs, parser, files[i]);
  }

  /**
   * An edge that the file with key `k` gains for `imports` starts at the node
   * pass 1 added for `k` and ends at the node added for one of the imports.
   */
  lemma ImportEdgeEnds(keys: seq<string>, base: nat, k: string, imports: seq<string>, e: Edge) returns (x: string)
    requires k in IndexMap(keys, base)
    requires e in FileEdges(IndexMap(keys, base), IndexMap(keys, base)[k], imports)
    ensures e.weight == 1.0 && x in imports
    ensures base <= e.a < base + |keys| && keys[e.a - base] == k
    ensures base <= e.b < base + |keys| && keys[e.b - base] == x
  {
    var m := IndexMap(keys, base);
    x :| x in imports && x in m && e.b == m[x];
    IndexedNode(keys, base, k, e.a);
    IndexedNode(keys, base, x, e.b);
  }

  /** The node a key maps to was added by pass 1 for that key. */
  lemma IndexedNode(keys: seq<string>, base: nat, k: string, a: nat)
    requires k in IndexMap(keys, base) && a == IndexMap(keys, base)[k]
    ensures base <= a < base + |keys| && keys[a - base] == k
  {
    IndexMapLast(keys, base, k);
  }

  /** Completeness of the feed: every import of a read file that names a node gives an edge. */
  lemma FeedEdgesComplete(fs: Fs, parser: (string, SourceType) -> Program, files: seq<Path>, base: nat, i: nat, x: string)
    requires i < |files| && FileImports(fs, parser, files[i]).Ok?
    requires x in FileImports(fs, parser, files[i]).value && x in Keys(fs, files)
    ensures var m := IndexMap(Keys(fs, files), base);
      Edge(m[Keys(fs, files)[i]], m[x], 1.0) in FeedEdges(fs, parser, files, m)
  {
    var keys := Keys(fs, files);
    var m := IndexMap(keys, base);
    assert NodeKey(fs, files[i]) == keys[i];
    FlatMapOf(EdgesOf(fs, parser, m), files, i, Edge(m[keys[i]], m[x], 1.0));
  }

  /** The inner loop of pass 2: one `add_import` per import that names a node. */
  method AddImportEdges(graph: WorkspaceGraph, m: map<string, nat>, current: nat, imports: seq<string>)
    requires graph.Valid()
    requires current < |graph.nodes|
    requires forall k :: k in m ==> m[k] < |graph.nodes|
    modifies graph
    ensures graph.Valid()
    ensures graph.nodes == old(graph.nodes)
    ensures graph.edges == old(graph.edges) + FileEdges(m, current, imports)
  {
    for j := 0 to |imports|
      invariant graph.Valid()
      invariant graph.nodes == old(graph.nodes)
      invariant graph.edges == old(graph.edges) + FileEdges(m, current, imports[..j])
    {
      assert imports[..j + 1][..j] == imports[..j];
      if imports[j] in m {
        graph.AddImport(current, m[imports[j]]);
      }
    }
    assert imports[..|imports|] == imports;
  }

  /** Inserting the next key at the next index extends the map of the keys so far. */
  lemma IndexMapStep(keys: seq<string>, base: nat, i: nat, m: map<string, nat>, key: string, index: nat)
    requires i < |keys| && key == keys[i] && index == base + i
    requires m == IndexMap(keys[..i], base)
    ensures m[key := index] == IndexMap(keys[..i + 1], base)
  {
    assert keys[..i + 1][..i] == keys[..i];
  }

  /** Adding the node of the next file extends the nodes of the files so far. */
  lemma NodesStep(nodes: seq<File>, i: nat, start: seq<File>, current: seq<File>)
    requires i < |nodes|
    requires current == start + nodes[..i]
    ensures |current| == |start| + i
    ensures current + [nodes[i]] == start + nodes[..i + 1]
  {
    assert nodes[..i + 1] == nodes[..i] + [nodes[i]];
    AppendAssociative(start, nodes[..i], [nodes[i]]);
  }

  /** Pass 1: one node per file, named by the file's canonical path; the map keeps each name's last index. */
  method AddFileNodes(graph: WorkspaceGraph, fs: Fs, files: seq<Path>) returns (fileToNode: map<string, nat>)
    requires graph.Valid()
    modifies graph
    ensures graph.Valid()
    ensures graph.nodes == old(graph.nodes) + NodesOf(fs, files)
    ensures graph.edges == old(graph.edges)
    ensures fileToNode == IndexMap(Keys(fs, files), old(|graph.nodes|))
  {
    fileToNode := map[];
    ghost var base := |graph.nodes|;
    ghost var keys := Keys(fs, files);
    ghost var nodes := NodesOf(fs, files);
    for i := 0 to |files|
      invariant graph.Valid()
      invariant graph.nodes == old(graph.nodes) + nodes[..i]
      invariant graph.edges == old(graph.edges)
      invariant fileToNode == IndexMap(keys[..i], base)
    {
      NodesStep(nodes, i, old(graph.nodes), graph.nodes);
      var key := NodeKey(fs, files[i]);
      assert keys[i] == key && nodes[i] == File(key);
      var index := graph.AddFile(File(key));
      IndexMapStep(keys, base, i, fileToNode, key, index);
      fileToNode := fileToNode[key := index];
    }
    assert keys[..|files|] == keys && nodes[..|files|] == nodes;
  }

  /** One step of pass 2: parse the file and add its edges; an unreadable file adds none. */
  method AddEdgesOfFile(graph: WorkspaceGraph, fs: Fs, parser: (string, SourceType) -> Program,
                        fileToNode: map<string, nat>, f: Path)
    requires graph.Valid()
    requires forall k :: k in fileToNode ==> fileToNode[k] < |graph.nodes|
    modifies graph
    ensures graph.Valid()
    ensures graph.nodes == old(graph.nodes)
    ensures graph.edges == old(graph.edges) + EdgesOfFile(fs, parser, fileToNode, f)
  {
    var key := NodeKey(fs, f);
    var parsed := ParseTypescriptFile(fs, parser, f);
    match parsed
    case Ok(imports) =>
      if key in fileToNode {
        AddImportEdges(graph, fileToNode, fileToNode[key], imports);
      }
    case Err(_) =>
  }

  /** Pass 2: the files' edges in walk order. */
  method AddFileEdges(graph: WorkspaceGraph, fs: Fs, parser: (string, SourceType) -> Program, files: seq<Path>,
                      fileToNode: map<string, nat>)
    requires graph.Valid()
    requires forall k :: k in fileToNode ==> fileToNode[k] < |graph.nodes|
    modifies graph
    ensures graph.Valid()
    ensures graph.nodes == old(graph.nodes)
    ensures graph.edges == old(graph.edges) + FeedEdges(fs, parser, files, fileToNode)
  {
    for i := 0 to |files|
      invariant graph.Valid()
      invariant graph.nodes == old(graph.nodes)
      invariant graph.edges == old(graph.edges) + FeedEdges(fs, parser, files[..i], fileToNode)
    {
      AddEdgesOfFile(graph, fs, parser, fileToNode, files[i]);
      FlatMapStep(EdgesOf(fs, parser, fileToNode), files, i);
      AppendAssociative(old(graph.edges), FeedEdges(fs, parser, files[..i], fileToNode), EdgesOfFile(fs, parser, fileToNode, files[i]));
    }
    assert files[..|files|] == files;
  }

  /**
   * `feed_workspace_graph_with_ts_project`: pass 1 adds one node per kept
   * file, pass 2 an edge from the file's node to every import that names a node.
   */
  method FeedWorkspaceGraph(graph: WorkspaceGraph, fs: Fs, parser: (string, SourceType) -> Program)
    requires graph.Valid()
    modifies graph
    ensures graph.Valid()
    ensures var files := FindTypescriptFiles(fs.walk);
      graph.nodes == old(graph.nodes) + NodesOf(fs, files)
      && graph.edges == old(graph.edges) + FeedEdges(fs, parser, files, IndexMap(Keys(fs, files), old(|graph.nodes|)))
  {
    var files := FindTypescriptFiles(fs.walk);
    var fileToNode := AddFileNodes(graph, fs, files);
    forall k | k in fileToNode ensures fileToNode[k] < |graph.nodes| {
      IndexMapLast(Keys(fs, files), old(|graph.nodes|), k);
    }
    AddFileEdges(graph, fs, parser, files, fileToNode);
  }
}
