/** The `file_operations::YamlParser` class: it resolves a configuration file and its
    `default:` chain once, keeps the merged document in `yaml_node`, and answers key lookups on
    it. The parsing library and the current working directory are parameters (`files`, `cwd`). */
module FileOperations {
  import opened Yaml
  import Overlay
  import opened DefaultChain

  /** The `std::runtime_error(variableName)` of a required lookup for an undefined key. */
  datatype LookupError = RuntimeError(key: string)

  class YamlParser {
    /** `yaml_node`: the resolved top-level document. */
    var yamlNode: Doc
    var searchPath: string
    var filePath: string

    /** `YamlParser()`: nothing loaded, every key undefined. */
    constructor Empty()
      ensures yamlNode == map[] && searchPath == "" && filePath == ""
    {
      yamlNode := map[];
      searchPath := "";
      filePath := "";
    }

    /** `YamlParser(yamlFileName, searchPath)`: loads the file and its chain, or throws the
        load's `BadFile`, in which case there is no parser. `fuel` bounds the chain for the proof
        only; the precondition says the chain ends, which the loader needs and does not check. */
    static method Open(files: Files, cwd: string, name: string, searchPath: string, ghost fuel: nat)
      returns (r: Result<YamlParser, LoadError>)
      requires Resolve(files, cwd, searchPath, name, fuel) != Failure(Diverges)
      ensures r.Success? ==> fresh(r.value)
      ensures match Resolve(files, cwd, searchPath, name, fuel)
              case Success(d) =>
                r.Success? && r.value.yamlNode == d &&
                r.value.searchPath == searchPath && r.value.filePath == name
              case Failure(e) => r == Failure(e)
    {
      var p := new YamlParser.Empty();
      p.searchPath := searchPath;
      p.filePath := name;
      var loaded := p.LoadYaml(files, cwd, p.filePath, p.searchPath, fuel);
      match loaded
      case Failure(e) =>
        return Failure(e);
      case Success(d) =>
        p.yamlNode := d;
        return Success(p);
    }

    /** `YamlParser(yamlFileName)`: the same with an empty search path, so the file is looked
        up at `cwd + "//" + yamlFileName`. */
    static method OpenInWorkingDirectory(files: Files, cwd: string, name: string, ghost fuel: nat)
      returns (r: Result<YamlParser, LoadError>)
      requires Resolve(files, cwd, "", name, fuel) != Failure(Diverges)
      ensures r.Success? ==> fresh(r.value)
      ensures match Resolve(files, cwd, "", name, fuel)
              case Success(d) =>
                r.Success? && r.value.yamlNode == d && r.value.searchPath == "" && r.value.filePath == name
              case Failure(e) => r == Failure(e)
    {
      r := Open(files, cwd, name, "", fuel);
    }

    /** `LoadYaml(yamlFileName, searchPath)`: parse the file, follow its `default` parent and
        merge it over the parent's resolution. Each level that merges stores its result in
        `yaml_node`, so a load can change `yaml_node` even when it fails further up. */
    method LoadYaml(files: Files, cwd: string, name: string, searchPath: string, ghost fuel: nat)
      returns (r: Result<Doc, LoadError>)
      requires Resolve(files, cwd, searchPath, name, fuel) != Failure(Diverges)
      modifies this`yamlNode
      ensures r == Resolve(files, cwd, searchPath, name, fuel)
      ensures yamlNode == StoredNode(files, cwd, searchPath, name, fuel, old(yamlNode))
      decreases fuel
    {
      var path := FilePath(cwd, searchPath, name);
      var parsed := files(path);
      if parsed.None? {
        return Failure(BadFile(path));
      }
      var top := TopLevel(parsed.value);
      if top.None? {
        return Failure(BadFile(path));
      }
      var root := top.value;
      if "default" !in root {
        return Success(root);
      }
      if root["default"].Null? {
        return Success(root);
      }
      if !root["default"].Scalar? {
        return Failure(BadFile(path));
      }
      var defaults := LoadYaml(files, cwd, root["default"].text, searchPath, fuel - 1);
      if defaults.Failure? {
        return Failure(BadFile(path));
      }
      var merged := UpdateOverwrite(Some(Map(defaults.value)), root);
      Overlay.MergeNodeOfMap(defaults.value, root);
      if merged.None? {
        return Failure(BadFile(path));
      }
      yamlNode := merged.value.entries;
      return Success(yamlNode);
    }

    /** `exists(variableName)`: the key is defined in `yaml_node`, an explicit null included. */
    predicate Exists(key: string)
      reads this
    {
      key in yamlNode
    }

    /** On a parser holding the resolved document of its file (as `Open` leaves it), `exists`
        holds exactly for the keys that the file or one of its ancestors sets itself. */
    lemma ExistsAfterLoad(files: Files, cwd: string, fuel: nat, key: string)
      requires Resolve(files, cwd, searchPath, filePath, fuel).Success?
      requires yamlNode == Resolve(files, cwd, searchPath, filePath, fuel).value
      ensures Exists(key) <==> SetInChain(files, cwd, searchPath, filePath, fuel, key)
    {
      ResolveKeys(files, cwd, searchPath, filePath, fuel, yamlNode, key);
    }

    /** `GetVariable(value, variableName)`: reports whether the key is defined and, only if it
        is, overwrites `value` with the stored entry. */
    method TryGetVariable(value: Value, key: string) returns (available: bool, result: Value)
      ensures available <==> key in yamlNode
      ensures available ==> result == yamlNode[key]
      ensures !available ==> result == value
    {
      available := Exists(key);
      result := value;
      if available {
        result := yamlNode[key];
      }
    }

    /** `GetVariable<T>(variableName)`: the stored entry, or `runtime_error(variableName)` when
        the key is undefined. */
    method GetVariable(key: string) returns (r: Result<Value, LookupError>)
      ensures r.Success? <==> key in yamlNode
      ensures r.Success? ==> r.value == yamlNode[key]
      ensures r.Failure? ==> r.error == RuntimeError(key)
    {
      var available, value := TryGetVariable(Null, key);
      if !available {
        return Failure(RuntimeError(key));
      }
      return Success(value);
    }

    /** `AddVariable(value, variableName)`: defines or overwrites one key and reports that it
        is now defined. */
    method AddVariable(value: Value, key: string) returns (ok: bool)
      modifies this`yamlNode
      ensures yamlNode == old(yamlNode)[key := value]
      ensures ok && Exists(key)
    {
      yamlNode := yamlNode[key := value];
      ok := Exists(key);
    }

    /** `UpdateOverwrite(defaults, overrides)`: walks the keys of the overlay, merging an
        overlay mapping into the node's entry by recursion and replacing the entry otherwise.
        The node is subscripted only once there is a key: a scalar node then throws, an undefined
        or null one becomes a mapping; the model refuses a sequence node as well, where yaml-cpp
        would re-key it by index. */
    method UpdateOverwrite(defaults: Option<Value>, overrides: Doc) returns (r: Option<Value>)
      ensures r == Overlay.MergeNode(defaults, overrides)
      decreases Map(overrides)
    {
      if overrides == map[] {
        return Some(if defaults.Some? then defaults.value else Map(map[]));
      }
      if Overlay.Blocks(defaults) {
        return None;
      }
      ghost var base := Overlay.AsMap(defaults);
      var node := Overlay.AsMap(defaults);
      var todo := overrides.Keys;
      while todo != {}
        invariant todo <= overrides.Keys
        invariant node.Keys == base.Keys + (overrides.Keys - todo)
        invariant forall k :: k in todo && k in base ==> node[k] == base[k]
        invariant forall k :: k in base && k !in overrides ==> node[k] == base[k]
        invariant forall k :: k in overrides && k !in todo ==>
                    node[k] == if overrides[k].Map? then Overlay.MergeInto(Lookup(base, k), overrides[k].entries)
                               else overrides[k]
        invariant forall k :: k in overrides && k !in todo && overrides[k].Map? ==>
                    !Overlay.Conflicts(Lookup(base, k), overrides[k].entries)
        decreases todo
      {
        var key :| key in todo;
        if overrides[key].Map? {
          var sub := UpdateOverwrite(Lookup(node, key), overrides[key].entries);
          if sub.None? {
            assert Overlay.ConflictsIn(base, overrides);
            return None;
          }
          node := node[key := sub.value];
        } else {
          node := node[key := overrides[key]];
        }
        todo := todo - {key};
      }
      assert node == Overlay.MergeMaps(base, overrides);
      assert !Overlay.ConflictsIn(base, overrides);
      return Some(Map(node));
    }
  }
}
