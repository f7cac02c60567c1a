/** Resolution of a configuration file's chain of `default:` parents, as `YamlParser::LoadYaml`
    performs it: the named file is parsed; if it names a parent in its `default` key, the parent
    is resolved the same way (same search path) and the file is merged over it. Parsing itself is
    a parameter: `Files` maps a full path to the parsed document, `None` for a file that is
    missing or does not parse. */
module DefaultChain {
  import opened Yaml
  import Overlay

  /** `YAML::LoadFile`: the parsed top-level node of the file at a path, `None` when loading
      throws. */
  type Files = string -> Option<Value>

  /** `BadFile(path)` is the exception the loader rethrows. `Diverges` stands for the unbounded
      recursion of a cyclic chain: the loader never returns there, and the model produces it only
      when its fuel (the number of parents it may still follow) runs out. */
  datatype LoadError = BadFile(path: string) | Diverges

  /** What the `default` key of a document asks for. */
  datatype DefaultRef = NoParent | Parent(name: string) | NotAName

  /** The path the loader opens: `cwd + "/" + searchPath + "/" + name`, with no normalisation. */
  function FilePath(cwd: string, searchPath: string, name: string): (r: string)
    ensures |r| == |cwd| + |searchPath| + |name| + 2
    ensures r[..|cwd|] == cwd && r[|cwd|] == '/' && r[|r| - |name| - 1] == '/' && r[|r| - |name|..] == name
    ensures r[|cwd| + 1 .. |cwd| + 1 + |searchPath|] == searchPath
  {
    cwd + "/" + searchPath + "/" + name
  }

  /** The document a parsed top-level node becomes once the loader subscripts it with
      `root["default"]`: a null node turns into an empty mapping and a scalar throws
      `BadSubscript`. A sequence is refused as well. */
  function TopLevel(v: Value): Option<Doc>
  {
    match v
    case Map(m) => Some(m)
    case Null => Some(map[])
    case _ => None
  }

  /** The `default` entry: absent or null ends the chain; a scalar names the parent file; a
      mapping or sequence makes `as<std::string>()` throw. */
  function DefaultOf(root: Doc): DefaultRef
  {
    if "default" !in root || root["default"] == Null then NoParent
    else if root["default"].Scalar? then Parent(root["default"].text)
    else NotAName
  }

  /** The document stored in the file `name`, when it loads. */
  function Document(files: Files, cwd: string, searchPath: string, name: string): Option<Doc>
  {
    match files(FilePath(cwd, searchPath, name))
    case None => None
    case Some(v) => TopLevel(v)
  }

  /** The parent the file `name` names, when it loads and names one. */
  function ParentOf(files: Files, cwd: string, searchPath: string, name: string): Option<string>
  {
    match Document(files, cwd, searchPath, name)
    case None => None
    case Some(root) => if DefaultOf(root).Parent? then Some(DefaultOf(root).name) else None
  }

  /** The `n`-th ancestor of `name` along its `default` chain. */
  function Ancestor(files: Files, cwd: string, searchPath: string, name: string, n: nat): Option<string>
    decreases n
  {
    if n == 0 then Some(name)
    else match ParentOf(files, cwd, searchPath, name)
      case None => None
      case Some(p) => Ancestor(files, cwd, searchPath, p, n - 1)
  }

  /** `LoadYaml(name, searchPath)` following at most `fuel` parents. Every failure below is
      caught and rethrown as `BadFile` of this level's own path. */
  function Resolve(files: Files, cwd: string, searchPath: string, name: string, fuel: nat): (r: Result<Doc, LoadError>)
    ensures r.Failure? && r.error.BadFile? ==> r.error.path == FilePath(cwd, searchPath, name)
    ensures r.Success? ==> Document(files, cwd, searchPath, name).Some?
    decreases fuel
  {
    var path := FilePath(cwd, searchPath, name);
    match files(path)
    case None => Failure(BadFile(path))
    case Some(v) =>
      match TopLevel(v)
      case None => Failure(BadFile(path))
      case Some(root) =>
        match DefaultOf(root)
        case NoParent => Success(root)
        case NotAName => Failure(BadFile(path))
        case Parent(parent) =>
          if fuel == 0 then Failure(Diverges)
          else
            match Resolve(files, cwd, searchPath, parent, fuel - 1)
            case Failure(Diverges) => Failure(Diverges)
            case Failure(BadFile(_)) => Failure(BadFile(path))
            case Success(defaults) =>
              match Overlay.Merge(defaults, root)
              case None => Failure(BadFile(path))
              case Some(merged) => Success(merged)
  }

  /** The value `yaml_node` holds after `LoadYaml(name, searchPath)` when it held `prev`
      before: every level that gets as far as merging over its parent stores the merged document,
      innermost first, so the outermost such level's document is the one left. */
  function StoredNode(files: Files, cwd: string, searchPath: string, name: string, fuel: nat, prev: Doc): (r: Doc)
    ensures ParentOf(files, cwd, searchPath, name).None? ==> r == prev
    decreases fuel
  {
    match Document(files, cwd, searchPath, name)
    case None => prev
    case Some(root) =>
      match DefaultOf(root)
      case NoParent => prev
      case NotAName => prev
      case Parent(parent) =>
        if fuel == 0 then prev
        else
          var inner := StoredNode(files, cwd, searchPath, parent, fuel - 1, prev);
          match Resolve(files, cwd, searchPath, parent, fuel - 1)
          case Failure(_) => inner
          case Success(defaults) =>
            match Overlay.Merge(defaults, root)
            case None => inner
            case Some(merged) => merged
  }

  // ---------------------------------------------------------------------------------------
  // Where the chain ends

  /** A document without a `default` key resolves to itself. `files` is arbitrary apart from
      this one path, so no other file is consulted, and no fuel is needed. */
  lemma NoDefaultKeyResolvesToItself(files: Files, cwd: string, searchPath: string, name: string, fuel: nat, root: Doc)
    requires Document(files, cwd, searchPath, name) == Some(root)
    requires "default" !in root
    ensures Resolve(files, cwd, searchPath, name, fuel) == Success(root)
  {
  }

  /** A document whose `default` is null is a root of its chain and resolves to itself, again
      without consulting any other file. */
  lemma NullDefaultResolvesToItself(files: Files, cwd: string, searchPath: string, name: string, fuel: nat, root: Doc)
    requires Document(files, cwd, searchPath, name) == Some(root)
    requires "default" in root && root["default"] == Null
    ensures Resolve(files, cwd, searchPath, name, fuel) == Success(root)
  {
  }

  // ---------------------------------------------------------------------------------------
  // Following the chain

  /** A document that names parent `p` resolves to the merge of the document over `p`'s
      resolution, with the same search path. */
  lemma ChainStep(files: Files, cwd: string, searchPath: string, name: string, fuel: nat,
                  root: Doc, p: string, defaults: Doc, merged: Doc)
    requires Document(files, cwd, searchPath, name) == Some(root)
    requires "default" in root && root["default"] == Scalar(p)
    requires Resolve(files, cwd, searchPath, p, fuel) == Success(defaults)
    requires Overlay.Merge(defaults, root) == Some(merged)
    ensures Resolve(files, cwd, searchPath, name, fuel + 1) == Success(merged)
  {
  }

  /** Three files D3 -> D2 -> D1, D1 without a `default`: D3 resolves to D3 merged over
      (D2 merged over D1), the earliest ancestor being overridden most. */
  lemma ThreeLevelChain(files: Files, cwd: string, searchPath: string, n1: string, n2: string, n3: string,
                        d1: Doc, d2: Doc, d3: Doc, m12: Doc, m123: Doc)
    requires Document(files, cwd, searchPath, n1) == Some(d1) && "default" !in d1
    requires Document(files, cwd, searchPath, n2) == Some(d2) && "default" in d2 && d2["default"] == Scalar(n1)
    requires Document(files, cwd, searchPath, n3) == Some(d3) && "default" in d3 && d3["default"] == Scalar(n2)
    requires Overlay.Merge(d1, d2) == Some(m12) && Overlay.Merge(m12, d3) == Some(m123)
    ensures Resolve(files, cwd, searchPath, n3, 2) == Success(m123)
  {
    NoDefaultKeyResolvesToItself(files, cwd, searchPath, n1, 0, d1);
    ChainStep(files, cwd, searchPath, n2, 0, d2, n1, d1, m12);
    ChainStep(files, cwd, searchPath, n3, 1, d3, n2, m12, m123);
  }

  /** Every non-mapping value of the requested file, at any path, is in the resolved document;
      in particular the file's own `default` entry survives. */
  lemma ChildLeavesWin(files: Files, cwd: string, searchPath: string, name: string, fuel: nat,
                       root: Doc, r: Doc, path: seq<string>, v: Value)
    requires Document(files, cwd, searchPath, name) == Some(root)
    requires Resolve(files, cwd, searchPath, name, fuel) == Success(r)
    requires PathGet(Map(root), path) == Some(v) && !v.Map?
    ensures PathGet(Map(r), path) == Some(v)
  {
    if DefaultOf(root).Parent? {
      var defaults := Resolve(files, cwd, searchPath, DefaultOf(root).name, fuel - 1).value;
      Overlay.OverlayLeafWins(defaults, root, r, path, v);
    }
  }

  /** The requested file's `default` entry is kept in the resolved document. */
  lemma ChildDefaultSurvives(files: Files, cwd: string, searchPath: string, name: string, fuel: nat,
                             root: Doc, r: Doc)
    requires Document(files, cwd, searchPath, name) == Some(root)
    requires Resolve(files, cwd, searchPath, name, fuel) == Success(r)
    requires "default" in root
    ensures "default" in r && r["default"] == root["default"]
  {
    if DefaultOf(root).Parent? {
      var defaults := Resolve(files, cwd, searchPath, DefaultOf(root).name, fuel - 1).value;
      Overlay.MergeAtKey(defaults, root, r, "default");
    }
  }

  // ---------------------------------------------------------------------------------------
  // Which keys the resolved document defines

  /** The `n`-th ancestor of `name` loads and its own document sets key `k`. */
  ghost predicate SetsAt(files: Files, cwd: string, searchPath: string, name: string, n: nat, k: string)
  {
    var a := Ancestor(files, cwd, searchPath, name, n);
    a.Some? && Document(files, cwd, searchPath, a.value).Some? &&
    k in Document(files, cwd, searchPath, a.value).value
  }

  /** Key `k` is set by the requested file or by one of its first `fuel` ancestors. */
  ghost predicate SetInChain(files: Files, cwd: string, searchPath: string, name: string, fuel: nat, k: string)
  {
    exists n: nat :: n <= fuel && SetsAt(files, cwd, searchPath, name, n, k)
  }

  /** The resolved document defines exactly the keys some file of the chain sets itself: every
      key of the requested file or of an ancestor is there, and no other key is. */
  lemma {:induction false} ResolveKeys(files: Files, cwd: string, searchPath: string, name: string, fuel: nat,
                                       r: Doc, k: string)
    requires Resolve(files, cwd, searchPath, name, fuel) == Success(r)
    ensures k in r <==> SetInChain(files, cwd, searchPath, name, fuel, k)
    decreases fuel
  {
    var root := Document(files, cwd, searchPath, name).value;
    assert Ancestor(files, cwd, searchPath, name, 0) == Some(name);
    if !DefaultOf(root).Parent? {
      assert r == root;
      if k in r {
        assert SetsAt(files, cwd, searchPath, name, 0, k);
      }
      if SetInChain(files, cwd, searchPath, name, fuel, k) {
        var n: nat :| n <= fuel && SetsAt(files, cwd, searchPath, name, n, k);
        assert ParentOf(files, cwd, searchPath, name).None?;
        assert n == 0;
      }
    } else {
      var p := DefaultOf(root).name;
      assert ParentOf(files, cwd, searchPath, name) == Some(p);
      var d := Resolve(files, cwd, searchPath, p, fuel - 1).value;
      assert Overlay.Merge(d, root) == Some(r);
      ResolveKeys(files, cwd, searchPath, p, fuel - 1, d, k);
      forall n: nat
        ensures SetsAt(files, cwd, searchPath, name, n + 1, k) == SetsAt(files, cwd, searchPath, p, n, k)
      {
        assert Ancestor(files, cwd, searchPath, name, n + 1) == Ancestor(files, cwd, searchPath, p, n);
      }
      if k in root {
        assert SetsAt(files, cwd, searchPath, name, 0, k);
      } else if k in d {
        var n: nat :| n <= fuel - 1 && SetsAt(files, cwd, searchPath, p, n, k);
        assert SetsAt(files, cwd, searchPath, name, n + 1, k);
      }
      if SetInChain(files, cwd, searchPath, name, fuel, k) {
        var n: nat :| n <= fuel && SetsAt(files, cwd, searchPath, name, n, k);
        if n > 0 {
          assert SetsAt(files, cwd, searchPath, p, n - 1, k);
        }
      }
    }
  }

  // ---------------------------------------------------------------------------------------
  // Failure and divergence

  /** A top-level scalar cannot be subscripted by `root["default"]`: the load fails with
      `BadFile` of the file's own path. */
  lemma ScalarDocumentFails(files: Files, cwd: string, searchPath: string, name: string, fuel: nat, s: string)
    requires files(FilePath(cwd, searchPath, name)) == Some(Scalar(s))
    ensures Resolve(files, cwd, searchPath, name, fuel) == Failure(BadFile(FilePath(cwd, searchPath, name)))
  {
  }

  /** A `default` entry holding a mapping or a sequence is no file name: `as<std::string>()`
      throws and the load fails with `BadFile` of the file's own path, whatever the fuel. */
  lemma DefaultNotANameFails(files: Files, cwd: string, searchPath: string, name: string, fuel: nat, root: Doc)
    requires Document(files, cwd, searchPath, name) == Some(root)
    requires "default" in root && (root["default"].Map? || root["default"].Seq?)
    ensures Resolve(files, cwd, searchPath, name, fuel) == Failure(BadFile(FilePath(cwd, searchPath, name)))
  {
  }

  /** A missing or unparsable file anywhere up the chain makes the whole load fail, with no
      document, and the error names the requested file's own path. */
  lemma {:induction false} MissingAncestorFails(files: Files, cwd: string, searchPath: string, name: string,
                                                n: nat, a: string, fuel: nat)
    requires Ancestor(files, cwd, searchPath, name, n) == Some(a)
    requires Document(files, cwd, searchPath, a).None?
    requires n <= fuel
    ensures Resolve(files, cwd, searchPath, name, fuel) == Failure(BadFile(FilePath(cwd, searchPath, name)))
    decreases n
  {
    if n > 0 {
      var p := ParentOf(files, cwd, searchPath, name).value;
      MissingAncestorFails(files, cwd, searchPath, p, n - 1, a, fuel - 1);
    }
  }

  /** Fuel only bounds the recursion: once a resolution ends without running out of it, more
      fuel gives the same result. */
  lemma {:induction false} ResolveFuelMonotone(files: Files, cwd: string, searchPath: string, name: string,
                                               fuel: nat, more: nat)
    requires Resolve(files, cwd, searchPath, name, fuel) != Failure(Diverges)
    requires fuel <= more
    ensures Resolve(files, cwd, searchPath, name, more) == Resolve(files, cwd, searchPath, name, fuel)
    decreases fuel
  {
    var root := Document(files, cwd, searchPath, name);
    if root.Some? && DefaultOf(root.value).Parent? {
      ResolveFuelMonotone(files, cwd, searchPath, DefaultOf(root.value).name, fuel - 1, more - 1);
    }
  }

  /** The loader has no cycle detection: when every file of a set names a parent in the same
      set, resolving any of them never ends, however much fuel is given. */
  lemma {:induction false} CycleDiverges(files: Files, cwd: string, searchPath: string, cycle: set<string>,
                                         name: string, fuel: nat)
    requires forall x :: x in cycle ==>
               ParentOf(files, cwd, searchPath, x).Some? && ParentOf(files, cwd, searchPath, x).value in cycle
    requires name in cycle
    ensures Resolve(files, cwd, searchPath, name, fuel) == Failure(Diverges)
    decreases fuel
  {
    if fuel > 0 {
      CycleDiverges(files, cwd, searchPath, cycle, ParentOf(files, cwd, searchPath, name).value, fuel - 1);
    }
  }

  /** After a load whose requested file names a parent, `yaml_node` holds the resolved
      document; after one whose file names none, it is left as it was. */
  lemma StoredNodeOnSuccess(files: Files, cwd: string, searchPath: string, name: string, fuel: nat,
                            prev: Doc, root: Doc, r: Doc)
    requires Document(files, cwd, searchPath, name) == Some(root)
    requires Resolve(files, cwd, searchPath, name, fuel) == Success(r)
    ensures StoredNode(files, cwd, searchPath, name, fuel, prev) == (if DefaultOf(root).Parent? then r else prev)
  {
  }
}
