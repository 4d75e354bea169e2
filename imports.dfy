/**
 * The import visitor of `amas-app/src/workspace_graph/feeder/typescript.rs`:
 * which specifiers a syntax tree yields, how a relative specifier is resolved
 * against the importing file's directory, and the `ImportVisitor` object that
 * appends the resolved paths to its `imports` list while it walks the tree.
 */
module Imports {
  import opened Wrappers
  import opened Paths
  import opened FileSystem
  import opened Syntax
  import opened Sequences

  // ---------------------------------------------------------------------
  // Resolution (resolve_import_path)
  // ---------------------------------------------------------------------

  /** The extensions probed, in this order, first as a replacement extension, then as `index.<ext>`. */
  const ProbeExtensions: seq<string> := ["ts", "tsx", "js", "jsx"]

  lemma ProbeExtensionsValid()
    ensures forall i :: 0 <= i < |ProbeExtensions| ==> ProbeExtensions[i] != "" && '.' !in ProbeExtensions[i]
  {
  }

  /** Only a specifier starting with '.' is ever resolved. */
  predicate IsRelative(spec: string)
  {
    |spec| > 0 && spec[0] == '.'
  }

  /**
   * The base every probe starts from: the specifier joined to the directory,
   * canonicalized when the filesystem can, lexically normalised otherwise.
   */
  function CanonicalBase(fs: Fs, dir: Path, spec: string): Path
  {
    var joined := Join(dir, spec);
    if joined in fs.canonical then fs.canonical[joined] else Normalize(joined)
  }

  /** `base.join(format!("index.{ext}"))` */
  function IndexFile(base: Path, ext: string): Path
  {
    base + [Normal("index." + ext)]
  }

  /** The probe at position `i`: the four replaced extensions, then the four index files. */
  function Probe(base: Path, i: nat): Path
    requires i < 2 * |ProbeExtensions|
  {
    ProbeExtensionsValid();
    if i < |ProbeExtensions| then WithExtension(base, ProbeExtensions[i])
    else IndexFile(base, ProbeExtensions[i - |ProbeExtensions|])
  }

  /** The eight probed paths, in probe order. */
  function Probes(base: Path): (r: seq<Path>)
    ensures |r| == 2 * |ProbeExtensions|
    ensures forall i :: 0 <= i < |r| ==> r[i] == Probe(base, i)
  {
    seq(2 * |ProbeExtensions|, i requires 0 <= i < 2 * |ProbeExtensions| => Probe(base, i))
  }

  /** Position of the first candidate that exists, if any. */
  function FirstExisting(existing: set<Path>, candidates: seq<Path>): (r: Option<nat>)
    ensures r.None? <==> forall j :: 0 <= j < |candidates| ==> candidates[j] !in existing
    ensures r.Some? ==>
      r.value < |candidates| && candidates[r.value] in existing &&
      forall j :: 0 <= j < r.value ==> candidates[j] !in existing
  {
    if candidates == [] then None
    else if candidates[0] in existing then Some(0)
    else
      match FirstExisting(existing, candidates[1..])
      case None => None
      case Some(i) => Some(i + 1)
  }

  /** The first existing candidate is the one at `i` when it exists and none before it does. */
  lemma FirstExistingAt(existing: set<Path>, candidates: seq<Path>, i: nat)
    requires i < |candidates| && candidates[i] in existing
    requires forall j :: 0 <= j < i ==> candidates[j] !in existing
    ensures FirstExisting(existing, candidates) == Some(i)
  {
    var r := FirstExisting(existing, candidates);
    assert r.Some?;
    assert !(r.value < i);
    assert !(i < r.value);
  }

  /** The first of the eight probes of `base` that exists. */
  function FirstProbe(existing: set<Path>, base: Path): Option<Path>
  {
    var probes := Probes(base);
    match FirstExisting(existing, probes)
    case None => None
    case Some(i) => Some(probes[i])
  }

  /**
   * `resolve_import_path`: a specifier not starting with '.' never resolves;
   * a relative one resolves to the first probe of its base that exists.
   */
  function ResolveImport(fs: Fs, dir: Path, spec: string): Option<Path>
  {
    if !IsRelative(spec) then None else FirstProbe(fs.existing, CanonicalBase(fs, dir, spec))
  }

  /**
   * A relative specifier resolves exactly when one of its probes exists, and
   * then to an existing probe; a bare one never does.
   */
  lemma ResolveImportSpec(fs: Fs, dir: Path, spec: string)
    ensures var r := ResolveImport(fs, dir, spec);
      var probes := Probes(CanonicalBase(fs, dir, spec));
      (!IsRelative(spec) ==> r == None) &&
      (IsRelative(spec) ==> (r.Some? <==> exists i :: 0 <= i < |probes| && probes[i] in fs.existing)) &&
      (r.Some? ==> r.value in fs.existing && r.value in probes)
  {
    var probes := Probes(CanonicalBase(fs, dir, spec));
    if IsRelative(spec) {
      match FirstExisting(fs.existing, probes)
      case None =>
      case Some(i) => assert probes[i] in fs.existing;
    }
  }

  /**
   * Probe order: the `i`-th probe wins exactly when it exists and none of the
   * earlier ones do, so `b.ts` beats `b.tsx`, and any `b.*` beats `b/index.*`.
   */
  lemma ProbeOrder(fs: Fs, dir: Path, spec: string, i: nat)
    requires IsRelative(spec)
    requires i < 8
    requires Probes(CanonicalBase(fs, dir, spec))[i] in fs.existing
    requires forall j :: 0 <= j < i ==> Probes(CanonicalBase(fs, dir, spec))[j] !in fs.existing
    ensures ResolveImport(fs, dir, spec) == Some(Probes(CanonicalBase(fs, dir, spec))[i])
  {
    FirstExistingAt(fs.existing, Probes(CanonicalBase(fs, dir, spec)), i);
  }

  lemma IndexFileExtension(base: Path, ext: string)
    requires ext != "" && '.' !in ext
    ensures Extension(IndexFile(base, ext)) == Some(ext)
  {
    var name := "index." + ext;
    assert name[5] == '.';
    forall j | 5 < j < |name| ensures name[j] != '.' {
      assert name[j] == ext[j - 6];
    }
    assert LastDot(name) == 5;
    assert name[6..] == ext;
  }

  /**
   * Because `with_extension` replaces whatever extension the base had, a
   * resolved path always carries one of the probed extensions (`./a.mjs` is
   * probed as `a.ts`, …), unless the base has no file name at all (a root),
   * in which case `with_extension` leaves it unchanged.
   */
  lemma ResolvedExtension(fs: Fs, dir: Path, spec: string)
    requires ResolveImport(fs, dir, spec).Some?
    requires FileName(CanonicalBase(fs, dir, spec)) != Some("")
    ensures HasProbedExtension(ResolveImport(fs, dir, spec).value, CanonicalBase(fs, dir, spec))
  {
    var base := CanonicalBase(fs, dir, spec);
    var i := FirstExisting(fs.existing, Probes(base)).value;
    ProbeExtension(base, i);
  }

  /** `p` ends in one of the probed extensions, or is `base` itself when that has no file name. */
  predicate HasProbedExtension(p: Path, base: Path)
  {
    (Extension(p).Some? && Extension(p).value in ProbeExtensions) || (p == base && FileName(p).None?)
  }

  lemma WithExtensionProbe(base: Path, e: string)
    requires e != "" && '.' !in e
    requires FileName(base) != Some("")
    ensures Extension(WithExtension(base, e)) == Some(e) || (WithExtension(base, e) == base && FileName(base).None?)
  {
  }

  /** Probe `i` ends in its own extension: `ts`, `tsx`, `js`, `jsx`, then the same four for `index`. */
  lemma ProbeExtension(base: Path, i: nat)
    requires i < 2 * |ProbeExtensions|
    requires FileName(base) != Some("")
    ensures Extension(Probes(base)[i]) == Some(ProbeExtensions[i % |ProbeExtensions|])
            || (Probes(base)[i] == base && FileName(base).None?)
    ensures HasProbedExtension(Probes(base)[i], base)
  {
    if i < |ProbeExtensions| {
      var e := ProbeExtensions[i];
      assert i % |ProbeExtensions| == i;
      assert Probes(base)[i] == WithExtension(base, e);
      WithExtensionProbe(base, e);
      assert e in ProbeExtensions;
    } else {
      var e := ProbeExtensions[i - |ProbeExtensions|];
      assert i % |ProbeExtensions| == i - |ProbeExtensions|;
      assert Probes(base)[i] == IndexFile(base, e);
      IndexFileExtension(base, e);
      assert e in ProbeExtensions;
    }
  }

  /** The probing half of `resolve_import_path`: extensions first, then index files. */
  method ProbeCandidates(existing: set<Path>, canonicalBase: Path) returns (r: Option<Path>)
    ensures r == FirstProbe(existing, canonicalBase)
  {
    r := ProbeWithExtensions(existing, canonicalBase);
    if r.None? {
      r := ProbeIndexFiles(existing, canonicalBase);
    }
  }

  /** The first loop: the base with each extension in turn. */
  method ProbeWithExtensions(existing: set<Path>, canonicalBase: Path) returns (r: Option<Path>)
    ensures r.Some? ==> r == FirstProbe(existing, canonicalBase)
    ensures r.None? ==> ExtensionProbesMissing(existing, canonicalBase, |ProbeExtensions|)
  {
    for i := 0 to |ProbeExtensions|
      invariant ExtensionProbesMissing(existing, canonicalBase, i)
    {
      var withExt := WithExtension(canonicalBase, ProbeExtensions[i]);
      if withExt in existing {
        ExtensionProbeWins(existing, canonicalBase, i);
        return Some(withExt);
      }
    }
    return None;
  }

  /** The second loop, reached when no extension matched: `index.<ext>` under the base. */
  method ProbeIndexFiles(existing: set<Path>, canonicalBase: Path) returns (r: Option<Path>)
    requires ExtensionProbesMissing(existing, canonicalBase, |ProbeExtensions|)
    ensures r == FirstProbe(existing, canonicalBase)
  {
    for i := 0 to |ProbeExtensions|
      invariant IndexProbesMissing(existing, canonicalBase, i)
    {
      var indexFile := IndexFile(canonicalBase, ProbeExtensions[i]);
      if indexFile in existing {
        IndexProbeWins(existing, canonicalBase, i);
        return Some(indexFile);
      }
    }
    NoProbeWins(existing, canonicalBase);
    return None;
  }

  /** None of the first `n` extension probes exists. */
  ghost predicate ExtensionProbesMissing(existing: set<Path>, base: Path, n: nat)
    requires n <= |ProbeExtensions|
  {
    forall j :: 0 <= j < n ==> WithExtension(base, ProbeExtensions[j]) !in existing
  }

  /** No extension probe exists, and neither do the first `n` index-file probes. */
  ghost predicate IndexProbesMissing(existing: set<Path>, base: Path, n: nat)
    requires n <= |ProbeExtensions|
  {
    ExtensionProbesMissing(existing, base, |ProbeExtensions|) &&
    forall j :: 0 <= j < n ==> IndexFile(base, ProbeExtensions[j]) !in existing
  }

  lemma ExtensionProbeWins(existing: set<Path>, base: Path, i: nat)
    requires i < |ProbeExtensions| && ExtensionProbesMissing(existing, base, i)
    requires WithExtension(base, ProbeExtensions[i]) in existing
    ensures FirstProbe(existing, base) == Some(WithExtension(base, ProbeExtensions[i]))
  {
    var probes := Probes(base);
    forall j | 0 <= j < i ensures probes[j] !in existing {
      ExtensionProbe(base, j);
    }
    ExtensionProbe(base, i);
    FirstProbeAt(existing, base, i);
  }

  lemma IndexProbeWins(existing: set<Path>, base: Path, i: nat)
    requires i < |ProbeExtensions| && IndexProbesMissing(existing, base, i)
    requires IndexFile(base, ProbeExtensions[i]) in existing
    ensures FirstProbe(existing, base) == Some(IndexFile(base, ProbeExtensions[i]))
  {
    var probes := Probes(base);
    forall j | 0 <= j < |ProbeExtensions| + i ensures probes[j] !in existing {
      if j < |ProbeExtensions| {
        ExtensionProbe(base, j);
      } else {
        IndexProbe(base, j - |ProbeExtensions|);
      }
    }
    IndexProbe(base, i);
    FirstProbeAt(existing, base, |ProbeExtensions| + i);
  }

  lemma NoProbeWins(existing: set<Path>, base: Path)
    requires IndexProbesMissing(existing, base, |ProbeExtensions|)
    ensures FirstProbe(existing, base) == None
  {
    var probes := Probes(base);
    forall j | 0 <= j < 2 * |ProbeExtensions| ensures probes[j] !in existing {
      if j < |ProbeExtensions| {
        ExtensionProbe(base, j);
      } else {
        IndexProbe(base, j - |ProbeExtensions|);
      }
    }
    FirstProbeNone(existing, base);
  }

  /** The `i`-th probe is the base with the `i`-th extension. */
  lemma ExtensionProbe(base: Path, i: nat)
    requires i < |ProbeExtensions|
    ensures Probes(base)[i] == WithExtension(base, ProbeExtensions[i])
  {
  }

  /** The probe after the extension ones at offset `i` is `index.<ext>`. */
  lemma IndexProbe(base: Path, i: nat)
    requires i < |ProbeExtensions|
    ensures Probes(base)[|ProbeExtensions| + i] == IndexFile(base, ProbeExtensions[i])
  {
  }

  /** The winning probe is the one at `i` when it exists and none before it does. */
  lemma FirstProbeAt(existing: set<Path>, base: Path, i: nat)
    requires i < 2 * |ProbeExtensions| && Probes(base)[i] in existing
    requires forall j :: 0 <= j < i ==> Probes(base)[j] !in existing
    ensures FirstProbe(existing, base) == Some(Probes(base)[i])
  {
    FirstExistingAt(existing, Probes(base), i);
  }

  /** No probe wins when none exists. */
  lemma FirstProbeNone(existing: set<Path>, base: Path)
    requires forall j :: 0 <= j < 2 * |ProbeExtensions| ==> Probes(base)[j] !in existing
    ensures FirstProbe(existing, base) == None
  {
  }

  // ---------------------------------------------------------------------
  // What the visitor records
  // ---------------------------------------------------------------------

  /** The value of the first call argument when it is a string literal. */
  function FirstStringArgument(args: seq<Node>): Option<string>
  {
    if args != [] && args[0].StringLiteral? then Some(args[0].value) else None
  }

  predicate IsRequire(callee: Node)
  {
    callee == Identifier("require")
  }

  /** What `visit_call_expression` records before walking into the call. */
  function CallSpecifiers(callee: Node, args: seq<Node>): seq<string>
  {
    match FirstStringArgument(args)
    case None => []
    case Some(s) => if callee.ImportExpression? || IsRequire(callee) then [s] else []
  }

  /** What `visit_member_expression` records for `require("s").p`. */
  function RequireMemberSpecifiers(target: Node): seq<string>
  {
    if target.CallExpression? && IsRequire(target.callee) then
      match FirstStringArgument(target.arguments)
      case None => []
      case Some(s) => [s]
    else []
  }

  /**
   * The specifiers the visitor hands to `add_import` while walking `n`, in
   * visit order.  `export {…}` records its source only when it has one and
   * is not walked further; calls and member expressions are walked into
   * after their own check.
   */
  function Specifiers(n: Node): seq<string>
  {
    match n
    case ImportDeclaration(s) => [s]
    case ExportAllDeclaration(s) => [s]
    case ExportNamedDeclaration(from, _) => if from.Some? then [from.value] else []
    case StringLiteral(_) => []
    case Identifier(_) => []
    case CallExpression(callee, args) => CallSpecifiers(callee, args) + Specifiers(callee) + SpecifiersOf(args)
    case SpreadElement(arg) => Specifiers(arg)
    case StaticMemberExpression(target, _) => RequireMemberSpecifiers(target) + Specifiers(target)
    case ComputedMemberExpression(target, e) => Specifiers(target) + Specifiers(e)
    case PrivateFieldExpression(target, _) => Specifiers(target)
    case ImportExpression(e) => Specifiers(e)
    case OtherNode(children) => SpecifiersOf(children)
  }

  function SpecifiersOf(ns: seq<Node>): seq<string>
  {
    if ns == [] then [] else SpecifiersOf(ns[..|ns| - 1]) + Specifiers(ns[|ns| - 1])
  }

  /** Walking two sibling lists one after the other records both, in order. */
  lemma {:induction false} SpecifiersOfAppend(a: seq<Node>, b: seq<Node>)
    ensures SpecifiersOf(a + b) == SpecifiersOf(a) + SpecifiersOf(b)
    decreases |b|
  {
    if b == [] {
      assert a + b == a;
    } else {
      var init, last := b[..|b| - 1], b[|b| - 1];
      SpecifiersOfAppend(a, init);
      SnocSplit(a, b);
      SpecifiersOfSnoc(a + init, last);
      SpecifiersOfSnoc(init, last);
    }
  }

  lemma SpecifiersOfSnoc(ns: seq<Node>, n: Node)
    ensures SpecifiersOf(ns + [n]) == SpecifiersOf(ns) + Specifiers(n)
  {
    assert (ns + [n])[..|ns|] == ns;
  }

  /** Every top-level `import … from "s"` of a program is recorded. */
  lemma TopLevelImportRecorded(program: Program, i: nat)
    requires i < |program| && program[i].ImportDeclaration?
    ensures program[i].source in SpecifiersOf(program)
  {
    var before, after := program[..i], program[i + 1..];
    assert program == before + [program[i]] + after;
    SpecifiersOfAppend(before + [program[i]], after);
    SpecifiersOfAppend(before, [program[i]]);
    assert SpecifiersOf([program[i]]) == [program[i].source] by {
      assert [program[i]][..0] == [];
    }
    assert SpecifiersOf(program) == SpecifiersOf(before) + [program[i].source] + SpecifiersOf(after);
  }

  /** `require("s").p` yields `s` twice: once for the member, once for the call inside it. */
  lemma RequireMemberRecordedTwice(s: string, args: seq<Node>, p: string)
    requires args != [] && args[0] == StringLiteral(s)
    ensures Specifiers(StaticMemberExpression(CallExpression(Identifier("require"), args), p))
         == [s, s] + SpecifiersOf(args[1..])
  {
    var call := CallExpression(Identifier("require"), args);
    var tail := SpecifiersOf(args[1..]);
    RequireCallRecorded(s, args);
    LiteralFirstArgument(s, args);
    StaticMemberSpecifiers(call, p);
    assert RequireMemberSpecifiers(call) == [s];
    assert [s] + ([s] + tail) == [s, s] + tail;
  }

  lemma RequireCallRecorded(s: string, args: seq<Node>)
    requires FirstStringArgument(args) == Some(s)
    ensures Specifiers(CallExpression(Identifier("require"), args)) == [s] + SpecifiersOf(args)
  {
    assert CallSpecifiers(Identifier("require"), args) == [s];
    assert Specifiers(Identifier("require")) == [];
  }

  /** A string literal as first argument records nothing of its own. */
  lemma LiteralFirstArgument(s: string, args: seq<Node>)
    requires args != [] && args[0] == StringLiteral(s)
    ensures SpecifiersOf(args) == SpecifiersOf(args[1..])
  {
    assert args == [args[0]] + args[1..];
    SpecifiersOfAppend([args[0]], args[1..]);
    assert [args[0]][..0] == [];
    assert SpecifiersOf([args[0]]) == [];
  }

  lemma StaticMemberSpecifiers(target: Node, p: string)
    ensures Specifiers(StaticMemberExpression(target, p)) == RequireMemberSpecifiers(target) + Specifiers(target)
  {
  }

  /** A `require` whose first argument is not a string literal records only what its arguments hold. */
  lemma RequireNeedsLiteral(args: seq<Node>)
    requires args == [] || !args[0].StringLiteral?
    ensures Specifiers(CallExpression(Identifier("require"), args)) == SpecifiersOf(args)
  {
  }

  /** Every string literal, import source and named-export source in a tree. */
  function Strings(n: Node): set<string>
  {
    match n
    case ImportDeclaration(s) => {s}
    case ExportAllDeclaration(s) => {s}
    case ExportNamedDeclaration(from, decl) => (if from.Some? then {from.value} else {}) + StringsOf(decl)
    case StringLiteral(s) => {s}
    case Identifier(_) => {}
    case CallExpression(callee, args) => Strings(callee) + StringsOf(args)
    case SpreadElement(arg) => Strings(arg)
    case StaticMemberExpression(target, _) => Strings(target)
    case ComputedMemberExpression(target, e) => Strings(target) + Strings(e)
    case PrivateFieldExpression(target, _) => Strings(target)
    case ImportExpression(e) => Strings(e)
    case OtherNode(children) => StringsOf(children)
  }

  function StringsOf(ns: seq<Node>): set<string>
  {
    if ns == [] then {} else StringsOf(ns[..|ns| - 1]) + Strings(ns[|ns| - 1])
  }

  /** The visitor invents nothing: every recorded specifier is a string written in the tree. */
  lemma {:induction false} SpecifiersAreWritten(n: Node)
    ensures forall s :: s in Specifiers(n) ==> s in Strings(n)
    decreases n, 1
  {
    match n
    case CallExpression(callee, args) =>
      SpecifiersAreWritten(callee);
      SpecifiersOfAreWritten(args);
      if args != [] {
        assert args[0] in args;
        StringsOfHas(args, 0);
      }
    case SpreadElement(arg) => SpecifiersAreWritten(arg);
    case StaticMemberExpression(target, _) =>
      SpecifiersAreWritten(target);
      if target.CallExpression? && target.arguments != [] {
        StringsOfHas(target.arguments, 0);
      }
    case ComputedMemberExpression(target, e) =>
      SpecifiersAreWritten(target);
      SpecifiersAreWritten(e);
    case PrivateFieldExpression(target, _) => SpecifiersAreWritten(target);
    case ImportExpression(e) => SpecifiersAreWritten(e);
    case OtherNode(children) => SpecifiersOfAreWritten(children);
    case _ =>
  }

  lemma {:induction false} SpecifiersOfAreWritten(ns: seq<Node>)
    ensures forall s :: s in SpecifiersOf(ns) ==> s in StringsOf(ns)
    decreases ns, 0
  {
    if ns != [] {
      SpecifiersOfAreWritten(ns[..|ns| - 1]);
      SpecifiersAreWritten(ns[|ns| - 1]);
    }
  }

  lemma {:induction false} StringsOfHas(ns: seq<Node>, i: nat)
    requires i < |ns|
    ensures Strings(ns[i]) <= StringsOf(ns)
    decreases |ns|
  {
    if i < |ns| - 1 {
      StringsOfHas(ns[..|ns| - 1], i);
    }
  }

  // ---------------------------------------------------------------------
  // What add_import appends
  // ---------------------------------------------------------------------

  /** The entry `add_import(spec)` appends: the canonical form of the resolved path, or nothing. */
  function ImportEntry(fs: Fs, dir: Path, spec: string): seq<string>
  {
    match ResolveImport(fs, dir, spec)
    case None => []
    case Some(p) => [Render(CanonicalizeOr(fs, p))]
  }

  function EntryOf(fs: Fs, dir: Path): string -> seq<string>
  {
    spec => ImportEntry(fs, dir, spec)
  }

  /** One more sibling visited appends what that sibling yields. */
  lemma EntriesSiblingStep(entry: string -> seq<string>, ns: seq<Node>, i: nat)
    requires i < |ns|
    ensures FlatMap(entry, SpecifiersOf(ns[..i + 1])) == FlatMap(entry, SpecifiersOf(ns[..i])) + FlatMap(entry, Specifiers(ns[i]))
  {
    assert ns[..i + 1][..i] == ns[..i];
    FlatMapAppend(entry, SpecifiersOf(ns[..i]), Specifiers(ns[i]));
  }

  /** How the three steps of `visit_call_expression` add up. */
  lemma CallEntries(entry: string -> seq<string>, call: Node, s0: seq<string>, s1: seq<string>, s2: seq<string>, s3: seq<string>)
    requires call.CallExpression?
    requires s1 == s0 + FlatMap(entry, CallSpecifiers(call.callee, call.arguments))
    requires s2 == s1 + FlatMap(entry, Specifiers(call.callee))
    requires s3 == s2 + FlatMap(entry, SpecifiersOf(call.arguments))
    ensures s3 == s0 + FlatMap(entry, Specifiers(call))
  {
    CallSpecifiersSplit(call);
    EntriesSteps(entry, CallSpecifiers(call.callee, call.arguments), Specifiers(call.callee), SpecifiersOf(call.arguments), s0, s1, s2, s3);
  }

  /** Three appends in a row append the entries of the three lists joined. */
  lemma EntriesSteps(entry: string -> seq<string>, a: seq<string>, b: seq<string>, c: seq<string>, s0: seq<string>, s1: seq<string>, s2: seq<string>, s3: seq<string>)
    requires s1 == s0 + FlatMap(entry, a)
    requires s2 == s1 + FlatMap(entry, b)
    requires s3 == s2 + FlatMap(entry, c)
    ensures s3 == s0 + FlatMap(entry, a + b + c)
  {
    FlatMapAppend3(entry, a, b, c);
  }

  lemma CallSpecifiersSplit(call: Node)
    requires call.CallExpression?
    ensures Specifiers(call) == CallSpecifiers(call.callee, call.arguments) + Specifiers(call.callee) + SpecifiersOf(call.arguments)
  {
  }

  /** How the two steps of `visit_member_expression` on `o.p` add up. */
  lemma StaticMemberEntries(entry: string -> seq<string>, expr: Node, s0: seq<string>, s1: seq<string>, s2: seq<string>)
    requires expr.StaticMemberExpression?
    requires s1 == s0 + FlatMap(entry, RequireMemberSpecifiers(expr.obj))
    requires s2 == s1 + FlatMap(entry, Specifiers(expr.obj))
    ensures s2 == s0 + FlatMap(entry, Specifiers(expr))
  {
    FlatMapAppend(entry, RequireMemberSpecifiers(expr.obj), Specifiers(expr.obj));
  }

  /** How the two walks of `o[e]` add up. */
  lemma ComputedMemberEntries(entry: string -> seq<string>, expr: Node, s0: seq<string>, s1: seq<string>, s2: seq<string>)
    requires expr.ComputedMemberExpression?
    requires s1 == s0 + FlatMap(entry, Specifiers(expr.obj))
    requires s2 == s1 + FlatMap(entry, Specifiers(expr.expression))
    ensures s2 == s0 + FlatMap(entry, Specifiers(expr))
  {
    FlatMapAppend(entry, Specifiers(expr.obj), Specifiers(expr.expression));
  }

  /** What `add_import` appends for each specifier of `specs`, in order. */
  function RecordedImports(fs: Fs, dir: Path, specs: seq<string>): (r: seq<string>)
  {
    FlatMap(EntryOf(fs, dir), specs)
  }

  lemma RecordedImportsAppend(fs: Fs, dir: Path, a: seq<string>, b: seq<string>)
    ensures RecordedImports(fs, dir, a + b) == RecordedImports(fs, dir, a) + RecordedImports(fs, dir, b)
  {
    FlatMapAppend(EntryOf(fs, dir), a, b);
  }

  /** `x` is the canonical form of some file that exists. */
  ghost predicate NamesExistingFile(fs: Fs, x: string)
  {
    exists p :: p in fs.existing && x == Render(CanonicalizeOr(fs, p))
  }

  /** What one `add_import` appends names an existing file. */
  lemma ImportEntryExists(fs: Fs, dir: Path, spec: string)
    ensures forall x :: x in ImportEntry(fs, dir, spec) ==> NamesExistingFile(fs, x)
  {
    match ResolveImport(fs, dir, spec)
    case None =>
    case Some(p) =>
      ResolveImportSpec(fs, dir, spec);
      assert p in fs.existing;
      assert NamesExistingFile(fs, Render(CanonicalizeOr(fs, p)));
  }

  /** Every recorded import names the canonical form of a file that exists. */
  lemma {:induction false} RecordedImportsExist(fs: Fs, dir: Path, specs: seq<string>)
    ensures forall x :: x in RecordedImports(fs, dir, specs) ==> NamesExistingFile(fs, x)
    decreases |specs|
  {
    if specs != [] {
      var init, spec := specs[..|specs| - 1], specs[|specs| - 1];
      RecordedImportsExist(fs, dir, init);
      assert specs == init + [spec];
      RecordedImportsAppend(fs, dir, init, [spec]);
      FlatMapSingle(EntryOf(fs, dir), spec);
      assert RecordedImports(fs, dir, [spec]) == ImportEntry(fs, dir, spec);
      ImportEntryExists(fs, dir, spec);
    }
  }

  /** Bare (package) specifiers add nothing, whatever files exist. */
  lemma {:induction false} BareSpecifiersRecordNothing(fs: Fs, dir: Path, specs: seq<string>)
    requires forall i :: 0 <= i < |specs| ==> !IsRelative(specs[i])
    ensures RecordedImports(fs, dir, specs) == []
    decreases |specs|
  {
    if specs != [] {
      BareSpecifiersRecordNothing(fs, dir, specs[..|specs| - 1]);
    }
  }

  // ---------------------------------------------------------------------
  // The visitor object
  // ---------------------------------------------------------------------

  class ImportVisitor {
    var imports: seq<string>
    const currentFileDir: Path
    const fs: Fs
    /** What `add_import` appends for one specifier, as a value the proofs can pass around. */
    ghost const entry: string -> seq<string>

    /** `entry` is `ImportEntry` for this visitor's filesystem and directory. */
    ghost predicate Linked()
    {
      forall spec {:trigger ImportEntry(fs, currentFileDir, spec)} :: entry(spec) == ImportEntry(fs, currentFileDir, spec)
    }

    /** `ImportVisitor::new(current_file_path)` */
    constructor (fs: Fs, currentFilePath: Path)
      ensures this.fs == fs && currentFileDir == DirectoryOf(currentFilePath)
      ensures imports == []
      ensures Linked()
    {
      this.fs := fs;
      currentFileDir := DirectoryOf(currentFilePath);
      entry := EntryOf(fs, DirectoryOf(currentFilePath));
      imports := [];
    }

    /** The lexical fallback: a stack of components, popped by `..`, untouched by `.`. */
    method ManualResolvePath(path: Path) returns (r: Path)
      ensures r == Normalize(path)
      ensures CurDir !in r && ParentDir !in r
    {
      var components: seq<Component> := [];
      for i := 0 to |path|
        invariant components == Normalize(path[..i])
      {
        assert path[..i + 1][..i] == path[..i];
        match path[i]
        case ParentDir =>
          if components != [] {
            components := components[..|components| - 1];
          }
        case CurDir =>
        case other =>
          components := components + [other];
      }
      assert path[..|path|] == path;
      // Pushing the kept components one by one onto an empty PathBuf
      // gives a path whose components are exactly those kept.
      r := components;
    }

    /** Probes the extensions, then the index files, and returns the first that exists. */
    method ResolveImportPath(importPath: string) returns (r: Option<Path>)
      ensures r == ResolveImport(fs, currentFileDir, importPath)
    {
      if IsRelative(importPath) {
        var resolved := Join(currentFileDir, importPath);
        var canonicalBase: Path;
        if resolved in fs.canonical {
          canonicalBase := fs.canonical[resolved];
        } else {
          canonicalBase := ManualResolvePath(resolved);
        }
        assert canonicalBase == CanonicalBase(fs, currentFileDir, importPath);
        r := ProbeCandidates(fs.existing, canonicalBase);
        return;
      }
      return None;
    }

    /** Resolves a specifier and appends the canonical form of the result, if any. */
    method AddImport(importPath: string)
      requires Linked()
      modifies this
      ensures imports == old(imports) + entry(importPath)
    {
      var resolved := ResolveImportPath(importPath);
      if resolved.Some? {
        var canonicalPath := if resolved.value in fs.canonical then fs.canonical[resolved.value] else resolved.value;
        imports := imports + [Render(canonicalPath)];
      }
      assert entry(importPath) == ImportEntry(fs, currentFileDir, importPath);
    }

    /** The walk over one node: the overridden visits, and the default walk elsewhere. */
    method VisitNode(n: Node)
      requires Linked()
      modifies this
      ensures imports == old(imports) + FlatMap(entry, Specifiers(n))
      decreases n, 2
    {
      match n
      case ImportDeclaration(source) =>
        AddImport(source);
        FlatMapSingle(entry, source);
      case ExportAllDeclaration(source) =>
        AddImport(source);
        FlatMapSingle(entry, source);
      case ExportNamedDeclaration(from, _) =>
        if from.Some? {
          AddImport(from.value);
          FlatMapSingle(entry, from.value);
        }
      case StringLiteral(_) =>
      case Identifier(_) =>
      case CallExpression(_, _) =>
        VisitCallExpression(n);
      case SpreadElement(arg) =>
        VisitNode(arg);
      case StaticMemberExpression(_, _) =>
        VisitMemberExpression(n);
      case ComputedMemberExpression(_, _) =>
        VisitMemberExpression(n);
      case PrivateFieldExpression(_, _) =>
        VisitMemberExpression(n);
      case ImportExpression(e) =>
        VisitNode(e);
      case OtherNode(children) =>
        VisitNodes(children);
    }

    /** Visits siblings in order. */
    method VisitNodes(ns: seq<Node>)
      requires Linked()
      modifies this
      ensures imports == old(imports) + FlatMap(entry, SpecifiersOf(ns))
      decreases ns, 3
    {
      for i := 0 to |ns|
        invariant imports == old(imports) + FlatMap(entry, SpecifiersOf(ns[..i]))
      {
        VisitNode(ns[i]);
        EntriesSiblingStep(entry, ns, i);
      }
      assert ns[..|ns|] == ns;
    }

    /** `visit_program`: the imports gained are those of every specifier the walk meets, in order. */
    method VisitProgram(program: Program)
      requires Linked()
      modifies this
      ensures imports == old(imports) + RecordedImports(fs, currentFileDir, SpecifiersOf(program))
    {
      VisitNodes(program);
      var specs := SpecifiersOf(program);
      forall i | 0 <= i < |specs| ensures entry(specs[i]) == EntryOf(fs, currentFileDir)(specs[i]) {
        assert entry(specs[i]) == ImportEntry(fs, currentFileDir, specs[i]);
      }
      FlatMapAgree(entry, EntryOf(fs, currentFileDir), specs);
    }

    /** The check at the head of `visit_call_expression`: `import("s")` or `require("s")`. */
    method RecordCall(callee: Node, args: seq<Node>)
      requires Linked()
      modifies this
      ensures imports == old(imports) + FlatMap(entry, CallSpecifiers(callee, args))
    {
      if callee.ImportExpression? {
        if args != [] {
          if args[0].StringLiteral? {
            AddImport(args[0].value);
            FlatMapSingle(entry, args[0].value);
          }
        }
      }
      if callee.Identifier? {
        if callee.name == "require" {
          if args != [] {
            if args[0].StringLiteral? {
              AddImport(args[0].value);
              FlatMapSingle(entry, args[0].value);
            }
          }
        }
      }
    }

    /** `visit_call_expression`: the check above, then the callee and the arguments. */
    method VisitCallExpression(call: Node)
      requires call.CallExpression?
      requires Linked()
      modifies this
      ensures imports == old(imports) + FlatMap(entry, Specifiers(call))
      decreases call, 1
    {
      ghost var start := imports;
      RecordCall(call.callee, call.arguments);
      ghost var recorded := imports;
      VisitNode(call.callee);
      ghost var walkedCallee := imports;
      VisitNodes(call.arguments);
      CallEntries(entry, call, start, recorded, walkedCallee, imports);
    }

    /** The check at the head of `visit_member_expression`: the object is `require("s")`. */
    method RecordRequireMember(target: Node)
      requires Linked()
      modifies this
      ensures imports == old(imports) + FlatMap(entry, RequireMemberSpecifiers(target))
    {
      if target.CallExpression? {
        if target.callee.Identifier? {
          if target.callee.name == "require" {
            var args := target.arguments;
            if args != [] {
              if args[0].StringLiteral? {
                AddImport(args[0].value);
                FlatMapSingle(entry, args[0].value);
              }
            }
          }
        }
      }
    }

    /** `visit_member_expression`: the check above for `o.p`, then the default walk. */
    method VisitMemberExpression(expr: Node)
      requires expr.StaticMemberExpression? || expr.ComputedMemberExpression? || expr.PrivateFieldExpression?
      requires Linked()
      modifies this
      ensures imports == old(imports) + FlatMap(entry, Specifiers(expr))
      decreases expr, 1
    {
      match expr
      case StaticMemberExpression(target, _) =>
        ghost var start := imports;
        RecordRequireMember(target);
        ghost var recorded := imports;
        VisitNode(target);
        StaticMemberEntries(entry, expr, start, recorded, imports);
      case ComputedMemberExpression(target, e) =>
        ghost var start := imports;
        VisitNode(target);
        ghost var walkedTarget := imports;
        VisitNode(e);
        ComputedMemberEntries(entry, expr, start, walkedTarget, imports);
      case PrivateFieldExpression(target, _) =>
        VisitNode(target);
    }
  }
}
