/** `UpdateOverwrite` as it behaves on yaml-cpp nodes. `defaults[key]` on a key the base lacks
    yields an undefined node; the recursive call subscripts it into an undefined mapping, and it
    becomes defined only when some entry below it is assigned a value. An overlay mapping with no
    value anywhere below it (`b: {}`, `b: {c: {}}`) therefore leaves the key undefined, and the
    key is missing from the result. `Overlay.Merge` is the intended merge, which creates the empty
    mapping instead. */
module OverlayAsWritten {
  import opened Yaml
  import Overlay

  /** The node `base` after the overlay mapping `o` is merged into it; `None` while the node is
      still undefined. */
  function WrittenInto(base: Option<Value>, o: Doc): Option<Value>
    decreases Map(o), 1
  {
    if o == map[] then base
    else
      var m := WrittenMaps(Overlay.AsMap(base), o);
      if base.None? && m == map[] then None else Some(Map(m))
  }

  /** The merged mapping: keys whose merged node stays undefined are not in it. */
  function WrittenMaps(b: Doc, o: Doc): (r: Doc)
    ensures b.Keys <= r.Keys <= b.Keys + o.Keys
    decreases Map(o), 0
  {
    map k | k in b.Keys + o.Keys &&
            (k !in o || !o[k].Map? || WrittenInto(Lookup(b, k), o[k].entries).Some?) ::
      if k !in o then b[k]
      else if o[k].Map? then WrittenInto(Lookup(b, k), o[k].entries).value
      else o[k]
  }

  /** The merge of two documents the way the source computes it; conflicts are the same as in
      the intended merge. */
  function MergeAsWritten(b: Doc, o: Doc): (r: Option<Doc>)
    ensures r.None? <==> Overlay.Merge(b, o).None?
    ensures r.Some? ==> b.Keys <= r.value.Keys <= b.Keys + o.Keys
  {
    if Overlay.ConflictsIn(b, o) then None else Some(WrittenMaps(b, o))
  }

  /** A mapping with no empty mapping anywhere inside it. */
  predicate NoEmptyMaps(o: Doc)
    decreases Map(o)
  {
    forall k :: k in o && o[k].Map? ==> o[k].entries != map[] && NoEmptyMaps(o[k].entries)
  }

  /** The discrepancy: an overlay `{b: {}}` over an empty base. The source drops `b`; the
      intended merge keeps it as an empty mapping, so `exists("b")` would differ. */
  lemma EmptyMapDropped()
    ensures MergeAsWritten(map[], map["b" := Map(map[])]) == Some(map[])
    ensures Overlay.Merge(map[], map["b" := Map(map[])]) == Some(map["b" := Map(map[])])
  {
    var o := map["b" := Map(map[])];
    assert !Overlay.ConflictsIn(map[], o);
    assert WrittenInto(None, map[]) == None;
    assert WrittenMaps(map[], o) == map[];
    Overlay.MergeEmptyBase(o);
  }

  /** Where the overlay has no empty mapping the source and the intended merge agree. */
  lemma {:induction false} AgreesWithoutEmptyMaps(b: Doc, o: Doc)
    requires NoEmptyMaps(o)
    ensures MergeAsWritten(b, o) == Overlay.Merge(b, o)
    decreases Map(o), 0
  {
    if !Overlay.ConflictsIn(b, o) {
      forall k | k in o && o[k].Map?
        ensures WrittenInto(Lookup(b, k), o[k].entries) == Some(Overlay.MergeInto(Lookup(b, k), o[k].entries))
      {
        IntoAgrees(Lookup(b, k), o[k].entries);
      }
      assert WrittenMaps(b, o) == Overlay.MergeMaps(b, o);
    }
  }

  /** The node-level half of `AgreesWithoutEmptyMaps`. */
  lemma {:induction false} IntoAgrees(base: Option<Value>, e: Doc)
    requires NoEmptyMaps(e) && e != map[]
    requires !Overlay.Conflicts(base, e)
    ensures WrittenInto(base, e) == Some(Overlay.MergeInto(base, e))
    decreases Map(e), 1
  {
    AgreesWithoutEmptyMaps(Overlay.AsMap(base), e);
    var k :| k in e;
    Overlay.MergeMapsAt(Overlay.AsMap(base), e, k);
  }
}
