/**
 * Unix paths as Rust's `std::path` sees them: a path is the sequence of its
 * `components()`.  Everything here is pure string and sequence logic; the
 * operations are the ones the import resolver in
 * `amas-app/src/workspace_graph/feeder/typescript.rs` relies on: parsing a
 * specifier, `join`, `parent`, `extension`, `with_extension`,
 * `to_string_lossy` and the lexical `.`/`..` fallback of `manual_resolve_path`.
 */
module Paths {
  import opened Wrappers
  import opened Sequences

  /** One item of `Path::components()` (no Windows prefixes). */
  datatype Component = RootDir | CurDir | ParentDir | Normal(name: string)

  type Path = seq<Component>

  /** A name Rust can hand out as a `Normal` component. */
  predicate ValidName(n: string)
  {
    n != "" && n != "." && n != ".." && '/' !in n
  }

  /**
   * The shape every `components()` result has: a root or a leading `.` can
   * only come first, and normal names are real names.
   */
  predicate WellFormed(p: Path)
  {
    forall i :: 0 <= i < |p| ==>
      (p[i] == RootDir || p[i] == CurDir ==> i == 0) &&
      (p[i].Normal? ==> ValidName(p[i].name))
  }

  /** Components that may follow the first one of a well-formed path. */
  predicate Inner(p: Path)
  {
    forall c :: c in p ==> c != RootDir && c != CurDir && (c.Normal? ==> ValidName(c.name))
  }

  /** A root or a `.` followed by inner components is well formed. */
  lemma InnerWellFormed(head: Path, q: Path)
    requires |head| <= 1 && Inner(q)
    requires forall c :: c in head ==> !c.Normal? && c != ParentDir
    ensures WellFormed(head + q)
  {
    var p := head + q;
    forall i | 0 <= i < |p|
      ensures (p[i] == RootDir || p[i] == CurDir ==> i == 0) && (p[i].Normal? ==> ValidName(p[i].name))
    {
      if i >= |head| { assert p[i] == q[i - |head|]; assert p[i] in q; }
      else { assert p[i] in head; }
    }
  }

  // ---------------------------------------------------------------------
  // Parsing a string into components
  // ---------------------------------------------------------------------

  /** Splits on every '/', keeping empty pieces: "a//b" gives ["a", "", "b"]. */
  function Split(s: string): (r: seq<string>)
    ensures |r| >= 1
    ensures forall i :: 0 <= i < |r| ==> '/' !in r[i]
    decreases |s|
  {
    if s == [] then [""]
    else if s[0] == '/' then [""] + Split(s[1..])
    else
      var rest := Split(s[1..]);
      [[s[0]] + rest[0]] + rest[1..]
  }

  /** The component a piece between separators stands for, if any. */
  function SegmentComponent(seg: string): Path
  {
    if seg == "" || seg == "." then []
    else if seg == ".." then [ParentDir]
    else [Normal(seg)]
  }

  /**
   * Components of the pieces of a path after its start: empty pieces and `.`
   * are normalised away, `..` is kept as `ParentDir`.
   */
  function SegmentComponents(segs: seq<string>): (r: Path)
    requires forall i :: 0 <= i < |segs| ==> '/' !in segs[i]
    ensures Inner(r)
  {
    if segs == [] then []
    else SegmentComponent(segs[0]) + SegmentComponents(segs[1..])
  }

  predicate IsAbsolute(s: string)
  {
    |s| > 0 && s[0] == '/'
  }

  /** A relative path whose first piece is exactly "." keeps a leading `CurDir`. */
  predicate StartsWithCurDir(s: string)
  {
    s == "." || (|s| >= 2 && s[0] == '.' && s[1] == '/')
  }

  /** `Path::new(s).components()` on a Unix host. */
  function Components(s: string): (r: Path)
    ensures WellFormed(r)
  {
    var rest := SegmentComponents(Split(s));
    var head := if IsAbsolute(s) then [RootDir] else if StartsWithCurDir(s) then [CurDir] else [];
    InnerWellFormed(head, rest);
    head + rest
  }

  // ---------------------------------------------------------------------
  // Rendering components back to a string (`to_string_lossy`)
  // ---------------------------------------------------------------------

  /** The text of one component (`Component::as_os_str`). */
  function Text(c: Component): string
  {
    match c
    case RootDir => "/"
    case CurDir => "."
    case ParentDir => ".."
    case Normal(n) => n
  }

  function JoinTexts(p: Path): string
  {
    if p == [] then ""
    else if |p| == 1 then Text(p[0])
    else Text(p[0]) + "/" + JoinTexts(p[1..])
  }

  /** The string of the `PathBuf` obtained by pushing the components in order. */
  function Render(p: Path): string
  {
    if p != [] && p[0] == RootDir then "/" + JoinTexts(p[1..])
    else JoinTexts(p)
  }

  // ---------------------------------------------------------------------
  // join, parent, file name, extension
  // ---------------------------------------------------------------------

  /**
   * `dir.join(s)`: an absolute `s` replaces `dir`; otherwise the pieces of `s`
   * follow `dir`, and a leading "." of `s` is no longer at the start, so it
   * is normalised away, unless `dir` is empty.
   */
  function Join(dir: Path, s: string): Path
  {
    if IsAbsolute(s) || dir == [] then Components(s)
    else dir + SegmentComponents(Split(s))
  }

  /** `p.parent().unwrap_or(Path::new(""))`: the root and the empty path have no parent. */
  function DirectoryOf(p: Path): (r: Path)
    ensures |r| <= |p|
    ensures r == p[..|r|]
  {
    if p != [] && p[|p| - 1] != RootDir then p[..|p| - 1] else []
  }

  /** `p.file_name()`: the last component when it is a normal name. */
  function FileName(p: Path): Option<string>
  {
    if p != [] && p[|p| - 1].Normal? then Some(p[|p| - 1].name) else None
  }

  /** Index of the last '.' in `s`, or -1 when there is none. */
  function LastDot(s: string): (r: int)
    ensures -1 <= r < |s|
    ensures r >= 0 ==> s[r] == '.'
    ensures forall j :: r < j < |s| ==> s[j] != '.'
  {
    if s == [] then -1
    else if s[|s| - 1] == '.' then |s| - 1
    else LastDot(s[..|s| - 1])
  }

  /**
   * Extension of a file name: the text after the last dot, except that a
   * name with no dot, or whose only dot is its first character (".git"),
   * has none.
   */
  function NameExtension(name: string): Option<string>
  {
    var d := LastDot(name);
    if d <= 0 then None else Some(name[d + 1..])
  }

  /** File stem: the name up to its last dot, under the same rule. */
  function NameStem(name: string): string
  {
    var d := LastDot(name);
    if d <= 0 then name else name[..d]
  }

  /** `p.extension()` */
  function Extension(p: Path): Option<string>
  {
    match FileName(p)
    case None => None
    case Some(n) => NameExtension(n)
  }

  /**
   * `p.with_extension(ext)`: the stem of the last name followed by "." and
   * `ext`; a path without a file name comes back unchanged.
   */
  function WithExtension(p: Path, ext: string): (r: Path)
    requires ext != "" && '.' !in ext
    ensures FileName(p).None? ==> r == p
    ensures FileName(p).Some? ==> |r| == |p| && r[..|r| - 1] == p[..|p| - 1]
    ensures FileName(p).Some? && FileName(p).value != "" ==> Extension(r) == Some(ext)
  {
    match FileName(p)
    case None => p
    case Some(n) =>
      var stem := NameStem(n);
      var name := stem + "." + ext;
      assert LastDot(name) == |stem| by {
        assert name[|stem|] == '.';
        forall j | |stem| < j < |name| ensures name[j] != '.' {
          assert name[j] == ext[j - |stem| - 1];
        }
      }
      assert name[|stem| + 1..] == ext;
      p[..|p| - 1] + [Normal(name)]
  }

  // ---------------------------------------------------------------------
  // Lexical normalisation (manual_resolve_path)
  // ---------------------------------------------------------------------

  /**
   * The components kept by the lexical fallback, read left to right: `..`
   * pops the last kept component (nothing happens on an empty stack), `.` is
   * skipped and everything else is pushed.
   */
  function Normalize(p: Path): (r: Path)
    ensures |r| <= |p|
    ensures CurDir !in r && ParentDir !in r
    decreases |p|
  {
    if p == [] then []
    else
      var kept := Normalize(p[..|p| - 1]);
      match p[|p| - 1]
      case ParentDir => if kept == [] then [] else kept[..|kept| - 1]
      case CurDir => kept
      case c => kept + [c]
  }

  /** A path with no `.` or `..` is its own normal form. */
  lemma {:induction false} NormalizeKeepsPlainPath(p: Path)
    requires CurDir !in p && ParentDir !in p
    ensures Normalize(p) == p
    decreases |p|
  {
    if p != [] {
      NormalizeKeepsPlainPath(p[..|p| - 1]);
    }
  }

  /** Normalising twice is normalising once. */
  lemma NormalizeIdempotent(p: Path)
    ensures Normalize(Normalize(p)) == Normalize(p)
  {
    NormalizeKeepsPlainPath(Normalize(p));
  }

  /**
   * Normalisation composes: a prefix may be normalised first, so the result
   * of a join depends on the directory only through its normal form.
   */
  lemma {:induction false} NormalizeAppend(a: Path, b: Path)
    ensures Normalize(a + b) == Normalize(Normalize(a) + b)
    decreases |b|
  {
    if b == [] {
      assert a + b == a;
      assert Normalize(a) + b == Normalize(a);
      NormalizeIdempotent(a);
    } else {
      var b' := b[..|b| - 1];
      NormalizeAppend(a, b');
      assert (a + b)[..|a + b| - 1] == a + b';
      assert (Normalize(a) + b)[..|Normalize(a) + b| - 1] == Normalize(a) + b';
    }
  }

  /** Without `..`, normalisation only drops the `.` components, keeping order. */
  lemma {:induction false} NormalizeWithoutParent(p: Path)
    requires ParentDir !in p
    ensures Normalize(p) == WithoutCurDir(p)
    decreases |p|
  {
    if p != [] {
      NormalizeWithoutParent(p[..|p| - 1]);
      WithoutCurDirSnoc(p[..|p| - 1], p[|p| - 1]);
      assert p[..|p| - 1] + [p[|p| - 1]] == p;
    }
  }

  function WithoutCurDir(p: Path): Path
  {
    if p == [] then []
    else (if p[0] == CurDir then [] else [p[0]]) + WithoutCurDir(p[1..])
  }

  lemma {:induction false} WithoutCurDirSnoc(p: Path, c: Component)
    ensures WithoutCurDir(p + [c]) == WithoutCurDir(p) + (if c == CurDir then [] else [c])
    decreases |p|
  {
    if p != [] {
      WithoutCurDirSnoc(p[1..], c);
      assert (p + [c])[1..] == p[1..] + [c];
    }
  }

  // ---------------------------------------------------------------------
  // Parsing inverts rendering on well-formed paths
  // ---------------------------------------------------------------------

  function Texts(p: Path): seq<string>
  {
    if p == [] then [] else [Text(p[0])] + Texts(p[1..])
  }

  /** How Split treats the first character of a string. */
  lemma SplitCons(c: char, t: string)
    ensures c == '/' ==> Split([c] + t) == [""] + Split(t)
    ensures c != '/' ==> Split([c] + t) == [[c] + Split(t)[0]] + Split(t)[1..]
  {
    assert ([c] + t)[1..] == t;
  }

  lemma {:induction false} SplitAppend(a: string, b: string)
    ensures Split(a + "/" + b) == Split(a) + Split(b)
    decreases |a|
  {
    if a == [] {
      SplitCons('/', b);
      assert a + "/" + b == ['/'] + b;
    } else {
      var t := a[1..] + "/" + b;
      var x, y := Split(a[1..]), Split(b);
      SplitAppend(a[1..], b);
      assert Split(t) == x + y;
      ConsSplit(a, "/" + b);
      assert a + "/" + b == [a[0]] + t;
      SplitCons(a[0], t);
      SplitCons(a[0], a[1..]);
      if a[0] != '/' {
        GlueFirstPiece([a[0]], x, y);
      } else {
        AppendAssociative([""], x, y);
      }
    }
  }

  /** Gluing a prefix onto the first piece commutes with appending more pieces. */
  lemma GlueFirstPiece(c: string, x: seq<string>, y: seq<string>)
    requires |x| >= 1
    ensures [c + (x + y)[0]] + (x + y)[1..] == [c + x[0]] + x[1..] + y
  {
    assert (x + y)[0] == x[0];
    assert (x + y)[1..] == x[1..] + y;
  }

  lemma {:induction false} SplitName(n: string)
    requires '/' !in n
    ensures Split(n) == [n]
    decreases |n|
  {
    if n != [] {
      SplitName(n[1..]);
      assert [n[0]] + n[1..] == n;
    }
  }

  lemma {:induction false} SplitJoinTexts(p: Path)
    requires p != []
    requires forall c :: c in p ==> '/' !in Text(c)
    ensures Split(JoinTexts(p)) == Texts(p)
    decreases |p|
  {
    if |p| == 1 {
      SplitName(Text(p[0]));
    } else {
      SplitJoinTexts(p[1..]);
      SplitName(Text(p[0]));
      SplitAppend(Text(p[0]), JoinTexts(p[1..]));
    }
  }

  lemma {:induction false} SegmentComponentsAppend(a: seq<string>, b: seq<string>)
    requires forall i :: 0 <= i < |a| ==> '/' !in a[i]
    requires forall i :: 0 <= i < |b| ==> '/' !in b[i]
    ensures SegmentComponents(a + b) == SegmentComponents(a) + SegmentComponents(b)
    decreases |a|
  {
    if a != [] {
      SegmentComponentsAppend(a[1..], b);
      ConsSplit(a, b);
      assert SegmentComponents(a + b) == SegmentComponent(a[0]) + SegmentComponents(a[1..] + b);
    } else {
      assert a + b == b;
    }
  }

  /** Texts of components that are neither a root nor `.` parse back to themselves. */
  lemma {:induction false} SegmentComponentsTexts(p: Path)
    requires Inner(p)
    ensures forall i :: 0 <= i < |Texts(p)| ==> '/' !in Texts(p)[i]
    ensures SegmentComponents(Texts(p)) == p
    decreases |p|
  {
    if p != [] {
      var head, tail := Text(p[0]), Texts(p[1..]);
      assert p[0] in p;
      TextComponent(p[0]);
      assert Inner(p[1..]) by {
        assert forall c :: c in p[1..] ==> c in p;
      }
      SegmentComponentsTexts(p[1..]);
      assert Texts(p) == [head] + tail;
      SegmentComponentsAppend([head], tail);
      assert SegmentComponents([head]) == SegmentComponent(head);
      ConsSplit(p, []);
    }
  }

  /** An inner component's text is one piece that parses back to it. */
  lemma TextComponent(c: Component)
    requires c != RootDir && c != CurDir && (c.Normal? ==> ValidName(c.name))
    ensures '/' !in Text(c) && SegmentComponent(Text(c)) == [c]
  {
  }

  lemma WellFormedTail(p: Path)
    requires WellFormed(p) && p != []
    ensures Inner(p[1..])
  {
    forall c | c in p[1..] ensures c != RootDir && c != CurDir && (c.Normal? ==> ValidName(c.name)) {
      var i :| 0 <= i < |p[1..]| && p[1..][i] == c;
      assert p[i + 1] == c;
    }
  }

  lemma RenderRooted(q: Path)
    requires Inner(q)
    ensures Components("/" + JoinTexts(q)) == [RootDir] + q
  {
    SegmentComponentsTexts(q);
    var s := "/" + JoinTexts(q);
    assert IsAbsolute(s);
    SplitCons('/', JoinTexts(q));
    assert s == ['/'] + JoinTexts(q);
    if q == [] {
      assert Split(s) == [""] + [""];
    } else {
      SplitJoinTexts(q);
      SegmentComponentsAppend([""], Texts(q));
    }
  }

  lemma RenderCurDir(q: Path)
    requires Inner(q)
    ensures Components(JoinTexts([CurDir] + q)) == [CurDir] + q
  {
    CurDirPrefix(q);
    CurDirPieces(q);
  }

  lemma CurDirPrefix(q: Path)
    ensures var s := JoinTexts([CurDir] + q); !IsAbsolute(s) && StartsWithCurDir(s)
  {
    var p := [CurDir] + q;
    assert p[1..] == q;
    var s := JoinTexts(p);
    if q == [] {
      assert s == ".";
    } else {
      assert s == "." + "/" + JoinTexts(q);
      assert s[0] == '.' && s[1] == '/';
    }
  }

  lemma CurDirPieces(q: Path)
    requires Inner(q)
    ensures SegmentComponents(Split(JoinTexts([CurDir] + q))) == q
  {
    var p := [CurDir] + q;
    assert p[1..] == q;
    SegmentComponentsTexts(q);
    SplitJoinTexts(p);
    assert Texts(p) == ["."] + Texts(q);
    SegmentComponentsAppend(["."], Texts(q));
  }

  lemma RenderPlain(p: Path)
    requires Inner(p) && p != []
    ensures Components(JoinTexts(p)) == p
  {
    SegmentComponentsTexts(p);
    SplitJoinTexts(p);
    var s := JoinTexts(p);
    var t := Text(p[0]);
    assert p[0] in p;
    assert t == ".." || ValidName(t);
    assert |p| > 1 ==> s == t + "/" + JoinTexts(p[1..]);
    assert |p| == 1 ==> s == t;
    assert s[0] == t[0];
    assert !IsAbsolute(s);
    assert !StartsWithCurDir(s) by {
      if |t| >= 2 { assert t[1] == s[1]; }
      else if |p| > 1 { assert s[1] == '/'; }
    }
  }

  /**
   * Parsing the rendered string of a well-formed path gives the path back,
   * so two well-formed paths have the same string exactly when they are equal.
   */
  lemma ComponentsOfRender(p: Path)
    requires WellFormed(p)
    ensures Components(Render(p)) == p
  {
    if p == [] {
      assert Split("") == [""];
    } else {
      WellFormedTail(p);
      if p[0] == RootDir {
        RenderRooted(p[1..]);
        assert [RootDir] + p[1..] == p;
      } else if p[0] == CurDir {
        RenderCurDir(p[1..]);
        assert [CurDir] + p[1..] == p;
      } else {
        assert Inner(p) by {
          forall c | c in p ensures c != RootDir && c != CurDir && (c.Normal? ==> ValidName(c.name)) {
            if c != p[0] { assert c in p[1..]; }
          }
        }
        RenderPlain(p);
      }
    }
  }

  /** Rendering is injective on well-formed paths. */
  lemma RenderInjective(p: Path, q: Path)
    requires WellFormed(p) && WellFormed(q)
    requires Render(p) == Render(q)
    ensures p == q
  {
    ComponentsOfRender(p);
    ComponentsOfRender(q);
  }
}
