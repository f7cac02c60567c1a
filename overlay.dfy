/** The right-biased deep merge that `YamlParser::UpdateOverwrite` is meant to perform: every
    key of the overlay replaces the base's entry, except that an overlay mapping is merged
    recursively into the base's entry; keys only the base has are kept. It differs from what the
    source does on yaml-cpp in two cases: an overlay mapping with no values below it over a key
    the base lacks is created here as an empty mapping (see `OverlayAsWritten`), and a sequence
    under a non-empty overlay mapping is refused here, where yaml-cpp re-keys it by index. */
module Overlay {
  import opened Yaml

  /** The mapping a node acts as when the merge subscripts it: an undefined or null node becomes
      an empty mapping and a mapping stays itself. Scalars and sequences are `Blocks`. */
  function AsMap(base: Option<Value>): Doc
  {
    match base
    case Some(Map(m)) => m
    case _ => map[]
  }

  /** A node the merge cannot subscript: yaml-cpp throws `BadSubscript` for a scalar, and this
      model refuses a sequence as well. */
  predicate Blocks(base: Option<Value>)
  {
    base.Some? && (base.value.Scalar? || base.value.Seq?)
  }

  /** Merging the overlay mapping `o` into the node `base` throws (or, for a sequence, is
      refused). An empty overlay never subscripts the node, so it never throws. */
  predicate Conflicts(base: Option<Value>, o: Doc)
    decreases Map(o), 1
  {
    o != map[] && (Blocks(base) || ConflictsIn(AsMap(base), o))
  }

  /** Some overlay mapping of `o` conflicts with what `b` holds at its key. */
  predicate ConflictsIn(b: Doc, o: Doc)
    decreases Map(o), 0
  {
    exists k :: k in o && o[k].Map? && Conflicts(Lookup(b, k), o[k].entries)
  }

  /** The value the node `base` holds after the overlay mapping `o` is merged into it
      (meaningful only when there is no conflict). An empty overlay leaves a defined node as it
      is; an undefined node becomes a mapping. */
  function MergeInto(base: Option<Value>, o: Doc): Value
    decreases Map(o), 1
  {
    if o == map[] && base.Some? then base.value
    else Map(MergeMaps(AsMap(base), o))
  }

  /** The merged mapping, conflicts aside. */
  function MergeMaps(b: Doc, o: Doc): (r: Doc)
    ensures r.Keys == b.Keys + o.Keys
    decreases Map(o), 0
  {
    map k | k in b.Keys + o.Keys ::
      if k !in o then b[k]
      else if o[k].Map? then MergeInto(Lookup(b, k), o[k].entries)
      else o[k]
  }

  /** `UpdateOverwrite(defaults, overrides)` on two documents; `None` when it throws on a scalar
      or meets a sequence, which the model refuses. */
  function Merge(b: Doc, o: Doc): (r: Option<Doc>)
    ensures r.Some? ==> r.value.Keys == b.Keys + o.Keys
    ensures r.Some? ==> forall k :: k in b && k !in o ==> r.value[k] == b[k]
  {
    if ConflictsIn(b, o) then None else Some(MergeMaps(b, o))
  }

  /** `UpdateOverwrite(node, overrides)` on an arbitrary, possibly undefined, node. */
  function MergeNode(base: Option<Value>, o: Doc): (r: Option<Value>)
    ensures o == map[] ==> r == Some(if base.Some? then base.value else Map(map[]))
    ensures o != map[] && Blocks(base) ==> r.None?
    ensures r.Some? && o != map[] ==> r.value.Map? && AsMap(base).Keys + o.Keys == r.value.entries.Keys
  {
    if Conflicts(base, o) then None else Some(MergeInto(base, o))
  }

  /** The entry of the merged mapping at an overlay key. */
  lemma MergeMapsAt(b: Doc, o: Doc, k: string)
    requires k in o
    ensures k in MergeMaps(b, o)
    ensures MergeMaps(b, o)[k] ==
              if o[k].Map? then MergeInto(Lookup(b, k), o[k].entries) else o[k]
  {
    assert k in b.Keys + o.Keys;
  }

  // ---------------------------------------------------------------------------------------
  // Laws of the merge

  /** An empty overlay changes nothing. */
  lemma MergeEmptyOverlay(b: Doc)
    ensures Merge(b, map[]) == Some(b)
  {
    assert MergeMaps(b, map[]) == b;
  }

  /** Merging a mapping into an empty base yields the overlay itself. */
  lemma {:induction false} MergeEmptyBase(o: Doc)
    ensures Merge(map[], o) == Some(o)
    decreases Map(o)
  {
    forall k | k in o && o[k].Map?
      ensures !Conflicts(Lookup(map[], k), o[k].entries)
      ensures MergeInto(Lookup(map[], k), o[k].entries) == o[k]
    {
      MergeEmptyBase(o[k].entries);
    }
    assert MergeMaps(map[], o) == o;
  }

  /** Applying the same overlay twice is the same as applying it once. */
  lemma {:induction false} MergeIdempotent(b: Doc, o: Doc, m: Doc)
    requires Merge(b, o) == Some(m)
    ensures Merge(m, o) == Some(m)
    decreases Map(o)
  {
    forall k | k in o && o[k].Map?
      ensures !Conflicts(Lookup(m, k), o[k].entries)
      ensures MergeInto(Lookup(m, k), o[k].entries) == m[k]
    {
      var e := o[k].entries;
      var base := Lookup(b, k);
      assert !Conflicts(base, e);
      if e != map[] {
        var mm := MergeMaps(AsMap(base), e);
        MergeMapsAt(b, o, k);
        assert m[k] == Map(mm);
        MergeIdempotent(AsMap(base), e, mm);
      }
    }
    assert MergeMaps(m, o) == m;
  }

  /** The keys of the result and what happens at each of them: base-only keys keep their
      value, a non-mapping overlay value replaces the base's wholesale, and an overlay mapping
      is merged into the base's entry, which counts as empty when it is absent or null. */
  lemma MergeAtKey(b: Doc, o: Doc, m: Doc, k: string)
    requires Merge(b, o) == Some(m)
    ensures m.Keys == b.Keys + o.Keys
    ensures k in b && k !in o ==> m[k] == b[k]
    ensures k in o && !o[k].Map? ==> m[k] == o[k]
    ensures k in o && o[k].Map? && o[k].entries == map[] ==>
              m[k] == (if k in b then b[k] else Map(map[]))
    ensures k in o && o[k].Map? && o[k].entries != map[] ==>
              !Blocks(Lookup(b, k)) && Merge(AsMap(Lookup(b, k)), o[k].entries) == Some(AsMap(Some(m[k])))
              && m[k].Map?
  {
    assert m == MergeMaps(b, o);
    forall j | j in b.Keys + o.Keys ensures j in m {
      assert j in b.Keys + o.Keys;
    }
    if k in o {
      MergeMapsAt(b, o, k);
      if o[k].Map? && o[k].entries != map[] {
        assert !Conflicts(Lookup(b, k), o[k].entries);
      }
    }
  }

  /** The merge fails exactly when some non-empty overlay mapping meets a scalar or sequence
      in the base, or its own nested merge fails. */
  lemma MergeFailsIff(b: Doc, o: Doc)
    ensures Merge(b, o).None? <==>
              exists k :: k in o && o[k].Map? && o[k].entries != map[] &&
                (Blocks(Lookup(b, k)) || Merge(AsMap(Lookup(b, k)), o[k].entries).None?)
  {
    if Merge(b, o).None? {
      var k :| k in o && o[k].Map? && Conflicts(Lookup(b, k), o[k].entries);
      assert o[k].entries != map[] &&
             (Blocks(Lookup(b, k)) || Merge(AsMap(Lookup(b, k)), o[k].entries).None?);
    }
    if exists k :: k in o && o[k].Map? && o[k].entries != map[] &&
                (Blocks(Lookup(b, k)) || Merge(AsMap(Lookup(b, k)), o[k].entries).None?) {
      var k :| k in o && o[k].Map? && o[k].entries != map[] &&
                (Blocks(Lookup(b, k)) || Merge(AsMap(Lookup(b, k)), o[k].entries).None?);
      assert Conflicts(Lookup(b, k), o[k].entries);
    }
  }

  /** The node-level merge agrees with the document-level one on a mapping node. */
  lemma MergeNodeOfMap(b: Doc, o: Doc)
    ensures MergeNode(Some(Map(b)), o) ==
              (match Merge(b, o) case Some(m) => Some(Map(m)) case None => None)
  {
    if o == map[] {
      MergeEmptyOverlay(b);
    }
  }

  // ---------------------------------------------------------------------------------------
  // Precedence along key paths

  /** Following `path` through the overlay leaves it before the path ends, passing only
      through mappings: the overlay says nothing about the value at `path`. */
  predicate Untouched(o: Doc, path: seq<string>)
    decreases |path|
  {
    |path| > 0 &&
    (path[0] !in o || (o[path[0]].Map? && Untouched(o[path[0]].entries, path[1..])))
  }

  /** Every non-mapping value of the overlay appears at the same path in the result. */
  lemma {:induction false} OverlayLeafWins(b: Doc, o: Doc, m: Doc, path: seq<string>, v: Value)
    requires Merge(b, o) == Some(m)
    requires PathGet(Map(o), path) == Some(v) && !v.Map?
    ensures PathGet(Map(m), path) == Some(v)
    decreases |path|
  {
    var k := path[0];
    if |path| == 1 {
      assert PathGet(o[k], path[1..]) == Some(o[k]);
    } else {
      var e := o[k].entries;
      assert PathGet(Map(e), path[1..]) == Some(v);
      var base := Lookup(b, k);
      assert !Conflicts(base, e);
      var mm := MergeMaps(AsMap(base), e);
      MergeMapsAt(b, o, k);
      assert m[k] == Map(mm);
      OverlayLeafWins(AsMap(base), e, mm, path[1..], v);
    }
  }

  /** Wherever the overlay is silent, the result holds what the base holds. */
  lemma {:induction false} UntouchedPathKeepsBase(b: Doc, o: Doc, m: Doc, path: seq<string>)
    requires Merge(b, o) == Some(m)
    requires Untouched(o, path)
    ensures PathGet(Map(m), path) == PathGet(Map(b), path)
    decreases |path|
  {
    var k := path[0];
    if k in o {
      var e := o[k].entries;
      var base := Lookup(b, k);
      assert !Conflicts(base, e);
      MergeMapsAt(b, o, k);
      assert path[1..] != [];
      if e == map[] {
        if k !in b {
          assert m[k] == Map(map[]);
        }
      } else {
        var mm := MergeMaps(AsMap(base), e);
        assert m[k] == Map(mm);
        UntouchedPathKeepsBase(AsMap(base), e, mm, path[1..]);
        if k in b {
          assert PathGet(Map(AsMap(base)), path[1..]) == PathGet(b[k], path[1..]);
        }
      }
    }
  }

  /** A worked example: base `{a: 1, b: {x: 1, y: 2}}` under
      overlay `{b: {x: 5}, c: 3}` gives `{a: 1, b: {x: 5, y: 2}, c: 3}`. */
  lemma PrecedenceExample()
    ensures Merge(map["a" := Scalar("1"), "b" := Map(map["x" := Scalar("1"), "y" := Scalar("2")])],
                  map["b" := Map(map["x" := Scalar("5")]), "c" := Scalar("3")])
         == Some(map["a" := Scalar("1"), "b" := Map(map["x" := Scalar("5"), "y" := Scalar("2")]),
                     "c" := Scalar("3")])
  {
    var inner := map["x" := Scalar("1"), "y" := Scalar("2")];
    var innerO := map["x" := Scalar("5")];
    var b := map["a" := Scalar("1"), "b" := Map(inner)];
    var o := map["b" := Map(innerO), "c" := Scalar("3")];
    assert !ConflictsIn(inner, innerO);
    MergeMapsAt(inner, innerO, "x");
    assert MergeMaps(inner, innerO).Keys == {"x", "y"};
    assert MergeMaps(inner, innerO) == map["x" := Scalar("5"), "y" := Scalar("2")];
    assert !ConflictsIn(b, o);
    MergeMapsAt(b, o, "b");
    MergeMapsAt(b, o, "c");
    assert MergeMaps(b, o).Keys == {"a", "b", "c"};
    assert MergeMaps(b, o) == map["a" := Scalar("1"), "b" := Map(map["x" := Scalar("5"), "y" := Scalar("2")]),
                                  "c" := Scalar("3")];
  }
}
