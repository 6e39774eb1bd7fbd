/** The recursive policy merge of agent/executor_schema.py (and agent/executor_country.py) and the
    normalisation of the policy blocks of an executor payload.
 */
module PolicyMerge {
  import opened Common
  import opened Texts

  /** A configuration value as the merge sees it: dictionaries, whatever the order of their keys, are
      merged, anything else is replaced. */
  datatype Setting = Scalar(text: Text) | List(items: seq<Setting>) | Dict(entries: map<Text, Setting>)

  /** The value the merge leaves where `base` and `overlay` meet. */
  function Merge(base: Setting, overlay: Setting): Setting
    decreases overlay
  {
    if base.Dict? && overlay.Dict? then
      Dict(map k | k in base.entries.Keys + overlay.entries.Keys ::
        if k !in overlay.entries then base.entries[k]
        else if k !in base.entries then overlay.entries[k]
        else Merge(base.entries[k], overlay.entries[k]))
    else overlay
  }

  /** `_deep_merge`: a copy of `base`, updated key by key from `overlay`. */
  method DeepMerge(base: Setting, overlay: Setting) returns (out: Setting)
    requires base.Dict? && overlay.Dict?
    ensures out == Merge(base, overlay)
    decreases overlay
  {
    out := base;
    var todo := overlay.entries.Keys;
    while todo != {}
      invariant todo <= overlay.entries.Keys
      invariant out.Dict? && out.entries.Keys == base.entries.Keys + (overlay.entries.Keys - todo)
      invariant forall k :: k in out.entries ==>
                  out.entries[k] == if k in overlay.entries && k !in todo then Merge(base, overlay).entries[k] else base.entries[k]
    {
      var k :| k in todo;
      var v := overlay.entries[k];
      if k in out.entries && out.entries[k].Dict? && v.Dict? {
        var inner := DeepMerge(out.entries[k], v);
        out := Dict(out.entries[k := inner]);
      } else {
        out := Dict(out.entries[k := v]);
      }
      todo := todo - {k};
    }
    assert out.entries == Merge(base, overlay).entries;
  }

  // ----- What a merge leaves at each path -----

  /** The value at a path of keys, if there is one. */
  function At(v: Setting, path: seq<Text>): Option<Setting>
    decreases |path|
  {
    if path == [] then Some(v)
    else if v.Dict? && path[0] in v.entries then At(v.entries[path[0]], path[1..])
    else None
  }

  /** A proper prefix of the path already leads to something that is no dictionary. */
  predicate Blocked(v: Setting, path: seq<Text>)
    decreases |path|
  {
    path != [] && (!v.Dict? || (path[0] in v.entries && Blocked(v.entries[path[0]], path[1..])))
  }

  /** The merged value at any path, from the two values there: the overlay's replaces the base's
      unless both are dictionaries; where the overlay is silent the base shows through, unless the
      overlay has replaced something above. */
  lemma {:induction false} MergeAt(base: Setting, overlay: Setting, path: seq<Text>)
    ensures At(Merge(base, overlay), path) ==
            match (At(base, path), At(overlay, path))
            case (Some(b), Some(o)) => Some(Merge(b, o))
            case (None, Some(o)) => Some(o)
            case (b, None) => if Blocked(overlay, path) then None else b
    decreases |path|
  {
    if path != [] && overlay.Dict? && path[0] in overlay.entries {
      if base.Dict? && path[0] in base.entries {
        MergeAt(base.entries[path[0]], overlay.entries[path[0]], path[1..]);
      } else {
        OverlayAlone(overlay.entries[path[0]], path[1..]);
      }
    }
  }

  /** Nothing is at a blocked path. */
  lemma {:induction false} OverlayAlone(v: Setting, path: seq<Text>)
    ensures Blocked(v, path) ==> At(v, path).None?
    decreases |path|
  {
    if path != [] && v.Dict? && path[0] in v.entries {
      OverlayAlone(v.entries[path[0]], path[1..]);
    }
  }

  /** The same from the two values alone.  What the overlay gives wins unless both give dictionaries;
      those are united, key by key; and the base shows through where the overlay is silent. */
  lemma OverlayWins(base: Setting, overlay: Setting, path: seq<Text>)
    ensures var m, b, o := At(Merge(base, overlay), path), At(base, path), At(overlay, path);
            && (o.Some? && !(o.value.Dict? && b.Some? && b.value.Dict?) ==> m == o)
            && (o.Some? && o.value.Dict? && b.Some? && b.value.Dict? ==>
                  m.Some? && m.value.Dict? && m.value.entries.Keys == b.value.entries.Keys + o.value.entries.Keys)
            && (o.None? ==> m == if Blocked(overlay, path) then None else b)
  {
    MergeAt(base, overlay, path);
  }

  // ----- Laws -----

  lemma {:induction false} MergeSelf(a: Setting)
    ensures Merge(a, a) == a
    decreases a
  {
    if a.Dict? {
      forall k | k in a.entries
        ensures Merge(a.entries[k], a.entries[k]) == a.entries[k]
      {
        MergeSelf(a.entries[k]);
      }
      assert Merge(a, a).entries == a.entries;
    }
  }

  /** Merging onto the same defaults twice is merging once. */
  lemma {:induction false} MergeAbsorbs(d: Setting, x: Setting)
    ensures Merge(d, Merge(d, x)) == Merge(d, x)
    decreases x
  {
    if d.Dict? && x.Dict? {
      var m := Merge(d, x);
      forall k | k in m.entries
        ensures Merge(d, m).entries[k] == m.entries[k]
      {
        if k in d.entries && k in x.entries {
          MergeAbsorbs(d.entries[k], x.entries[k]);
        } else if k in d.entries {
          MergeSelf(d.entries[k]);
        }
      }
      assert Merge(d, m).entries == m.entries;
    }
  }

  lemma MergeEmpty(a: Setting)
    requires a.Dict?
    ensures Merge(a, Dict(map[])) == a && Merge(Dict(map[]), a) == a
  {
    assert Merge(a, Dict(map[])).entries == a.entries;
    assert Merge(Dict(map[]), a).entries == a.entries;
  }

  // ----- Normalising the policy blocks -----

  /** A policy block: its key, what the configuration supplies for it before the payload is merged,
      and the default the normalisation loop merges underneath. */
  datatype Block = Block(key: Text, supplied: Setting, fallback: Setting)

  predicate BlocksOk(blocks: seq<Block>) {
    && (forall i :: 0 <= i < |blocks| ==> blocks[i].supplied.Dict? && blocks[i].fallback.Dict?)
    && (forall i, j :: 0 <= i < j < |blocks| ==> blocks[i].key != blocks[j].key)
  }

  /** The configuration side of the first merge. */
  predicate Supplies(config: Setting, blocks: seq<Block>) {
    config.Dict? && forall i :: 0 <= i < |blocks| ==>
      blocks[i].key in config.entries && config.entries[blocks[i].key] == blocks[i].supplied
  }

  /** One block after normalisation, from the payload's entry for it. */
  function BlockResult(b: Block, given: Option<Setting>): Setting {
    var merged := if given.Some? then Merge(b.supplied, given.value) else b.supplied;
    if merged.Dict? then Merge(b.fallback, merged) else b.fallback
  }

  function Entry(v: Setting, key: Text): Option<Setting> {
    if v.Dict? && key in v.entries then Some(v.entries[key]) else None
  }

  /** The merge of configuration and payload followed by the loop over the blocks. */
  method NormalizeBlocks(config: Setting, raw: Setting, blocks: seq<Block>) returns (out: Setting)
    requires raw.Dict? && Supplies(config, blocks) && BlocksOk(blocks)
    ensures out.Dict? && out.entries.Keys == config.entries.Keys + raw.entries.Keys
    ensures forall i :: 0 <= i < |blocks| ==> Entry(out, blocks[i].key) == Some(BlockResult(blocks[i], Entry(raw, blocks[i].key)))
    ensures forall k :: k in out.entries && (forall i :: 0 <= i < |blocks| ==> blocks[i].key != k) ==>
              out.entries[k] == Merge(config, raw).entries[k]
  {
    var merged := DeepMerge(config, raw);
    ghost var first := merged;
    for i := 0 to |blocks|
      invariant merged.Dict? && merged.entries.Keys == first.entries.Keys
      invariant forall j :: 0 <= j < i ==> Entry(merged, blocks[j].key) == Some(BlockResult(blocks[j], Entry(raw, blocks[j].key)))
      invariant forall k :: k in merged.entries && (forall j :: 0 <= j < i ==> blocks[j].key != k) ==>
                  merged.entries[k] == first.entries[k]
    {
      var b := blocks[i];
      var here := merged.entries[b.key];
      if !here.Dict? {
        merged := Dict(merged.entries[b.key := b.fallback]);
      } else {
        var filled := DeepMerge(b.fallback, here);
        merged := Dict(merged.entries[b.key := filled]);
      }
    }
    out := merged;
  }

  /** A block backed by its default ends as that default merged with the operator's block, or as
      the default if there is none or it is no dictionary; normalising again changes nothing. */
  lemma DefaultBackedBlock(b: Block, given: Option<Setting>)
    requires b.supplied == b.fallback && b.fallback.Dict?
    ensures BlockResult(b, given) ==
            if given.Some? && given.value.Dict? then Merge(b.fallback, given.value) else b.fallback
    ensures BlockResult(b, Some(BlockResult(b, given))) == BlockResult(b, given)
  {
    MergeSelf(b.fallback);
    if given.Some? {
      MergeAbsorbs(b.fallback, given.value);
    }
    var once := BlockResult(b, given);
    MergeAbsorbs(b.fallback, once);
    if given.Some? && given.value.Dict? {
      MergeAbsorbs(b.fallback, given.value);
      assert Merge(b.fallback, once) == once;
    } else {
      assert once == b.fallback;
    }
  }

  /** The screenshot block is backed by the project's configuration with an empty default.  There
      normalising again changes nothing except when the payload gives something that is no
      dictionary although the project configures some: the project's settings are dropped by the
      first pass and come back in the second. */
  lemma ScreenshotBlockStableIff(b: Block, given: Option<Setting>)
    requires b.supplied.Dict? && b.fallback == Dict(map[])
    ensures BlockResult(b, given) ==
            if given.None? then b.supplied else if given.value.Dict? then Merge(b.supplied, given.value) else Dict(map[])
    ensures BlockResult(b, Some(BlockResult(b, given))) == BlockResult(b, given) <==>
            given.None? || given.value.Dict? || b.supplied == Dict(map[])
  {
    MergeEmpty(b.supplied);
    MergeSelf(b.supplied);
    if given.Some? && given.value.Dict? {
      var m := Merge(b.supplied, given.value);
      MergeEmpty(m);
      MergeAbsorbs(b.supplied, given.value);
    }
  }
}
