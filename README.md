# YamlParser: layered YAML configuration loading

A Dafny model of `file_operations::YamlParser`, the configuration loader of the
`file_operations` utilities. The loader opens a YAML file under a search directory. If the file
names a parent in its `default:` key, the loader resolves that parent the same way and merges
the child over it, child values winning at every nesting level. It keeps the merged document
and answers key lookups on it.

Modules:

- `Yaml` (`yaml_value.dfy`): parsed values `Null | Scalar | Seq | Map`, documents
  (`map<string, Value>`), `Option`, `Result` and key-path lookup.
- `Overlay` (`overlay.dfy`): the deep merge that `UpdateOverwrite` is meant to perform, as pure
  functions. `Merge(b, o)` is `None` exactly when the source throws on a scalar, or when it
  meets a sequence, which the model refuses. `MergeNode` is the same merge on a node that may
  be undefined. The lemmas prove its laws and the precedence rules along key paths. It differs
  from the source in two cases: an overlay mapping with no values below it (`b: {}`,
  `b: {c: {}}`) over a key the base lacks (see Findings), and a sequence under a non-empty
  overlay mapping (see Left out). The loader's model uses it.
- `OverlayAsWritten` (`overlay_as_written.dfy`): the merge as it behaves on yaml-cpp's nodes.
  It differs from the intended merge in one case (see Findings).
- `DefaultChain` (`default_chain.dfy`): `Resolve`, which follows the `default` chain.
  `StoredNode` gives the value `yaml_node` is left holding. The lemmas cover where the chain
  stops, how it merges, how errors are wrapped, and divergence on cycles.
- `FileOperations` (`yaml_parser.dfy`): the class `YamlParser`. It has the fields `yamlNode`,
  `searchPath` and `filePath`; its constructors; the recursive `LoadYaml` and the looping
  `UpdateOverwrite`, each proved equal to the pure functions above; and the queries `Exists`
  (key membership, so an explicit null counts as defined), `TryGetVariable`, `GetVariable`
  and `AddVariable`.

Parameters in place of the environment:

- Parsing is a parameter `files: string -> Option<Value>`. It gives the parsed top-level node
  of a full path, or `None` when `YAML::LoadFile` throws (missing or malformed file).
- The working directory is a parameter `cwd`. The path opened is the plain concatenation
  `cwd + "/" + searchPath + "/" + name`, so an empty search path gives `cwd + "//" + name`.

How the code's library calls are read:

- A top-level null document becomes an empty mapping, because `root["default"]` subscripts it.
  A top-level scalar makes that subscript throw, which ends in `BadFile`.
- A `default` value that is a mapping or sequence makes `as<std::string>()` throw, which also
  ends in `BadFile`.
- `Resolve` takes fuel: the number of parents it may still follow. Running out gives
  `Diverges`, which stands for the endless recursion of a cyclic chain. The source has no
  cycle detection, so the methods require a chain that ends (`Resolve(...) != Diverges`) and
  take the fuel only as a ghost argument. `ResolveFuelMonotone` shows that the fuel does not
  change any result that ends.

The model follows the code:

- A load failure is `YAML::BadFile` carrying the path of the requested top-level file.
- A missing required key raises `std::runtime_error(key)`.
- Type coercion (`as<T>`) is yaml-cpp's and is not modelled (see Left out).

## Model

| member | source | states |
|---|---|---|
| `Overlay.Merge` | include/file_operations/yaml_parser.hpp:143-157 | The intended merge of two documents: on success its keys are the union of both documents' keys, and every key only the base has keeps its value |
| `Overlay.MergeNode` | include/file_operations/yaml_parser.hpp:143-157 | The intended merge into a node that may be undefined: an empty overlay returns the node unchanged (an undefined node as an empty mapping); a non-empty overlay over a scalar or sequence fails; otherwise the result is a mapping with the union of the node's and overlay's keys |
| `FileOperations.YamlParser.UpdateOverwrite` | include/file_operations/yaml_parser.hpp:143-157 | The key-by-key loop, recursing on overlay mappings, returns exactly `Overlay.MergeNode(defaults, overrides)`, and `None` exactly when a nested subscript of a scalar throws or a sequence is met, which the model refuses |
| `Overlay.MergeAtKey` | include/file_operations/yaml_parser.hpp:145-155 | The result's keys are the union of base and overlay keys. Base-only keys keep their value; a non-mapping overlay value replaces the base's wholesale. An overlay mapping is merged recursively into the base entry: absent or null counts as empty, and an empty overlay mapping leaves a defined entry unchanged |
| `Overlay.MergeFailsIff` | include/file_operations/yaml_parser.hpp:150-154 | The merge fails if and only if some non-empty overlay mapping meets a scalar or sequence in the base, or its own nested merge fails |
| `Overlay.MergeEmptyOverlay` | include/file_operations/yaml_parser.hpp:143-157 | `Merge(b, {}) == b` |
| `Overlay.MergeEmptyBase` | include/file_operations/yaml_parser.hpp:143-157 | `Merge({}, o) == o`, at every depth |
| `Overlay.MergeIdempotent` | include/file_operations/yaml_parser.hpp:143-157 | Merging the same overlay again changes nothing: `Merge(Merge(b, o), o) == Merge(b, o)` |
| `Overlay.MergeNodeOfMap` | include/file_operations/yaml_parser.hpp:143-157 | On a mapping node, the node-level merge is the document-level merge |
| `Overlay.OverlayLeafWins` | include/file_operations/yaml_parser.hpp:150-154 | Every non-mapping value of the overlay, at any key path, is at the same path in the result |
| `Overlay.UntouchedPathKeepsBase` | include/file_operations/yaml_parser.hpp:145-156 | At every key path the overlay does not reach, the result holds what the base holds |
| `Overlay.PrecedenceExample` | include/file_operations/yaml_parser.hpp:143-157 | `{a: 1, b: {x: 1, y: 2}}` under `{b: {x: 5}, c: 3}` gives `{a: 1, b: {x: 5, y: 2}, c: 3}` |
| `OverlayAsWritten.WrittenMaps` | include/file_operations/yaml_parser.hpp:145-155 | As yaml-cpp runs the loop, the result keeps every base key and gains only overlay keys |
| `OverlayAsWritten.MergeAsWritten` | include/file_operations/yaml_parser.hpp:143-157 | The source's merge of two documents fails (it throws on a scalar, or meets a sequence, which the model refuses) exactly when the intended merge fails, and on success its keys lie between the base's keys and the union of both documents' keys |
| `OverlayAsWritten.EmptyMapDropped` | include/file_operations/yaml_parser.hpp:150-151 | As the source runs on yaml-cpp, overlay `{b: {}}` over base `{}` yields `{}`; the intended merge yields `{b: {}}` |
| `OverlayAsWritten.AgreesWithoutEmptyMaps` | include/file_operations/yaml_parser.hpp:143-157 | When the overlay has no empty mapping anywhere, the source's merge and the intended merge agree, errors included |
| `OverlayAsWritten.IntoAgrees` | include/file_operations/yaml_parser.hpp:151 | The same agreement for the merge into one (possibly undefined) node |
| `DefaultChain.FilePath` | include/file_operations/yaml_parser.hpp:56-58 | The opened path is the working directory, a `/`, the search path, a `/` and the file name, with nothing added or removed |
| `DefaultChain.StoredNode` | include/file_operations/yaml_parser.hpp:84-86 | A file that does not load or names no parent leaves `yaml_node` as it was |
| `DefaultChain.Resolve` | include/file_operations/yaml_parser.hpp:53-91 | Any `BadFile` it reports carries the requested file's own path `cwd/searchPath/name`, and a success means that file loaded |
| `DefaultChain.NoDefaultKeyResolvesToItself` | include/file_operations/yaml_parser.hpp:66-69 | A document with no `default` key resolves to itself, with any fuel, whatever the other files hold |
| `DefaultChain.NullDefaultResolvesToItself` | include/file_operations/yaml_parser.hpp:71-74 | A document whose `default` is null resolves to itself, with any fuel, whatever the other files hold |
| `DefaultChain.ChainStep` | include/file_operations/yaml_parser.hpp:77-86 | A document with `default: P` resolves to itself merged over `P`'s resolution, from the same search path |
| `DefaultChain.ThreeLevelChain` | include/file_operations/yaml_parser.hpp:77-86 | D3 -> D2 -> D1 with D1 a root resolves to `Merge(Merge(D1, D2), D3)` |
| `DefaultChain.ChildLeavesWin` | include/file_operations/yaml_parser.hpp:84 | Every non-mapping value of the requested file is in the resolved document at the same path |
| `DefaultChain.ChildDefaultSurvives` | include/file_operations/yaml_parser.hpp:84 | The requested file's own `default` entry is in the resolved document unchanged |
| `DefaultChain.ResolveKeys` | include/file_operations/yaml_parser.hpp:53-91 | A resolved document defines key `k` exactly when the requested file or one of its ancestors sets `k` in its own document: every key set anywhere up the chain is there, and no other key is |
| `DefaultChain.ScalarDocumentFails` | include/file_operations/yaml_parser.hpp:63-89 | A file whose top-level node is a scalar fails to load, with `BadFile` of its own path, because `root["default"]` throws on it |
| `DefaultChain.DefaultNotANameFails` | include/file_operations/yaml_parser.hpp:79-89 | A `default` entry holding a mapping or sequence makes `as<std::string>()` throw, so the load fails with `BadFile` of the file's own path, with any fuel |
| `DefaultChain.MissingAncestorFails` | include/file_operations/yaml_parser.hpp:61-90 | A missing or unloadable file at any depth of the chain makes the load fail with no document, reporting `BadFile` of the top-level path |
| `DefaultChain.ResolveFuelMonotone` | include/file_operations/yaml_parser.hpp:81 | A resolution that ends gives the same result with any larger fuel |
| `DefaultChain.CycleDiverges` | include/file_operations/yaml_parser.hpp:77-81 | When every file of a set names a parent inside the set, resolving any of them diverges for every fuel: there is no cycle detection |
| `DefaultChain.StoredNodeOnSuccess` | include/file_operations/yaml_parser.hpp:84-86 | After a successful load, `yaml_node` holds the resolved document when the requested file names a parent, and is unchanged when it names none |
| `FileOperations.YamlParser.LoadYaml` | include/file_operations/yaml_parser.hpp:53-91 | The recursive method returns `Resolve(...)` and leaves `yamlNode` as `StoredNode(...)` of its old value |
| `FileOperations.YamlParser.Empty` | include/file_operations/yaml_parser.hpp:42 | A default-constructed parser has every key undefined |
| `FileOperations.YamlParser.Open` | include/file_operations/yaml_parser.hpp:34-37 | Constructing from a file and search path yields a fresh parser holding the resolved document and both names, or the load's `BadFile` and no parser |
| `FileOperations.YamlParser.OpenInWorkingDirectory` | include/file_operations/yaml_parser.hpp:38-41 | The same with the empty search path |
| `FileOperations.YamlParser.ExistsAfterLoad` | include/file_operations/yaml_parser.hpp:96-98 | On a parser holding its file's resolved document, as `Open` leaves it, `exists(k)` holds exactly when the file or one of its ancestors sets `k`; a key set by none of them is not defined |
| `FileOperations.YamlParser.TryGetVariable` | include/file_operations/yaml_parser.hpp:101-111 | Returns true exactly when the key is defined (null included). It then yields the stored entry; otherwise the caller's value is returned untouched |
| `FileOperations.YamlParser.GetVariable` | include/file_operations/yaml_parser.hpp:118-128 | Succeeds exactly when the key is defined, with the stored entry; otherwise fails with `runtime_error(key)` |
| `FileOperations.YamlParser.AddVariable` | include/file_operations/yaml_parser.hpp:131-135 | Sets that one key to the value and changes no other key; returns true, and the key is then defined |

## Left out

- `include/file_operations/binary_file.hpp`: a thin wrapper whose every operation is a stream-state guard followed by one `std::fstream` call; what it reads and writes is the library's and the operating system's.
- YAML text parsing (`YAML::LoadFile`): the parsed document of each path is the parameter `files`.
- Typed coercion `as<T>` in `GetVariable`: the model returns the stored `Value`; the conversion and its exceptions are yaml-cpp's.
- Keys that are not strings (`as<std::string>()` on a key that is a mapping or sequence throws): keys are strings in the model.
- FileOperations.YamlParser.UpdateOverwrite, FileOperations.YamlParser.LoadYaml, FileOperations.YamlParser.Open, DefaultChain.Resolve, Overlay.Merge, Overlay.MergeNode: these follow the intended merge of the Findings row, not the source as written. An overlay mapping with no values below it, over a key the base lacks, is created as an empty mapping; on yaml-cpp the source leaves that key undefined. `OverlayAsWritten` models the source's behaviour and `OverlayAsWritten.AgreesWithoutEmptyMaps` shows the two agree on every overlay without an empty mapping.
- Overlay.Merge, Overlay.MergeNode, FileOperations.YamlParser.UpdateOverwrite, Overlay.MergeFailsIff, OverlayAsWritten.MergeAsWritten: a sequence in the base under a non-empty overlay mapping counts as a failure; yaml-cpp would instead turn the sequence into a mapping keyed by indices.
- DefaultChain.Resolve, DefaultChain.TopLevel: a top-level sequence document counts as a load failure (`BadFile`); yaml-cpp would instead re-key the sequence by its indices when `root["default"]` subscripts it, and load it as a mapping.
- FileOperations.YamlParser.LoadYaml: yaml-cpp nodes are shared references, and the model uses values. When a merge throws partway, yaml-cpp has already changed the shared `yaml_node` in place. So after a failed load `yaml_node` may hold a partly merged document, where the model holds the last completed level's document (`StoredNode`).
- FileOperations.YamlParser.AddVariable: with YAML anchors and aliases, one node can sit under several keys, and writing one key changes the others; the model writes one key only.
- FileOperations.YamlParser.UpdateOverwrite, Overlay.Merge: the same sharing applies inside the merge. The assignments `defaults[key] = ...` (lines 151 and 153) write into nodes that aliases may share, and a merged entry may be the overlay's own node; the model merges values, so no write is seen through another key.
- Key order of documents (yaml-cpp iterates in document order; merged keys are appended): maps in the model are unordered.
- Cyclic `default` chains: the source recurses without end. The model represents this as `Diverges`, produced only when the fuel runs out. `Open` and `LoadYaml` require a chain that ends.
- Logging through spdlog and `std::filesystem::current_path()` (a parameter `cwd`).
- The test programs `tests/test_yaml_parser.cpp` and `tests/test_signal_file.cpp`: command-line programs doing real file I/O on files that are not part of this model.

## Findings

| source | as written | input that shows it | evidently intended | confidence | as-written member | corrected member |
|---|---|---|---|---|---|---|
| include/file_operations/yaml_parser.hpp:150-151 | `defaults[key]` on a key the base lacks gives an undefined node. It becomes defined only when a value is assigned somewhere below it, so an overlay mapping with no values in it leaves the key undefined, and the key is dropped | base `{}` with overlay `{b: {}}` yields `{}`, so `exists("b")` is false | the key is created as an empty mapping, giving `{b: {}}` | not executed; medium, as it rests on yaml-cpp's rules for undefined nodes | `OverlayAsWritten.EmptyMapDropped` | `Overlay.MergeEmptyBase` |
