/** `deep_merge_dict` (tools/merge_converter_dbs.py) and its laws, on every pair and triple of trees. */
module DeepMerge {
  import opened Wrappers
  import opened Json

  /** The overlay wins, except that two objects under one key are merged. */
  function Merge(base: Fields, overlay: Fields): Fields
    decreases Obj(overlay), 0
  {
    map k | k in base.Keys + overlay.Keys ::
      if k !in overlay then base[k]
      else if k in base then MergeJson(base[k], overlay[k])
      else overlay[k]
  }

  function MergeJson(base: Json, overlay: Json): Json
    decreases overlay, 1
  {
    if base.Obj? && overlay.Obj? then Obj(Merge(base.fields, overlay.fields)) else overlay
  }

  // ------------------------------------------------------------------ identity and idempotence

  lemma EmptyIsIdentity(a: Fields)
    ensures Merge(a, map[]) == a && Merge(map[], a) == a
  {
  }

  /** `base` adds nothing to `overlay`: it has no key of its own where both are objects. */
  predicate Absorbed(base: Json, overlay: Json)
    decreases overlay
  {
    base.Obj? && overlay.Obj? ==>
      && base.fields.Keys <= overlay.fields.Keys
      && forall k :: k in base.fields && k in overlay.fields ==> Absorbed(base.fields[k], overlay.fields[k])
  }

  /** Merging gives the overlay back exactly when the base adds nothing to it. */
  lemma {:induction false} AbsorbedExactly(base: Json, overlay: Json)
    ensures MergeJson(base, overlay) == overlay <==> Absorbed(base, overlay)
    decreases overlay
  {
    if base.Obj? && overlay.Obj? {
      var b, o := base.fields, overlay.fields;
      forall k | k in b && k in o
        ensures MergeJson(b[k], o[k]) == o[k] <==> Absorbed(b[k], o[k])
      {
        AbsorbedExactly(b[k], o[k]);
      }
      var m := Merge(b, o);
      assert m.Keys == b.Keys + o.Keys;
      if Absorbed(base, overlay) {
        assert m == o;
      }
      if m == o {
        assert b.Keys <= o.Keys;
        forall k | k in b && k in o ensures Absorbed(b[k], o[k]) {
          assert m[k] == o[k];
        }
      }
    }
  }

  lemma {:induction false} SelfAbsorbed(a: Json)
    ensures Absorbed(a, a)
    decreases a
  {
    if a.Obj? {
      forall k | k in a.fields ensures Absorbed(a.fields[k], a.fields[k]) {
        SelfAbsorbed(a.fields[k]);
      }
    }
  }

  lemma {:induction false} MergedAbsorbs(base: Json, overlay: Json)
    ensures Absorbed(overlay, MergeJson(base, overlay))
    decreases overlay
  {
    if base.Obj? && overlay.Obj? {
      var b, o := base.fields, overlay.fields;
      forall k | k in o ensures Absorbed(o[k], Merge(b, o)[k]) {
        if k in b {
          MergedAbsorbs(b[k], o[k]);
        } else {
          SelfAbsorbed(o[k]);
        }
      }
    } else {
      SelfAbsorbed(overlay);
    }
  }

  /** Merging a tree with itself changes nothing. */
  lemma MergeWithSelf(a: Fields)
    ensures Merge(a, a) == a
  {
    SelfAbsorbed(Obj(a));
    AbsorbedExactly(Obj(a), Obj(a));
  }

  /** Merging the overlay once more changes nothing. */
  lemma {:induction false} MergeAgain(base: Json, overlay: Json)
    ensures MergeJson(MergeJson(base, overlay), overlay) == MergeJson(base, overlay)
    decreases overlay
  {
    if base.Obj? && overlay.Obj? {
      var b, o := base.fields, overlay.fields;
      var m := Merge(b, o);
      forall k | k in o ensures Merge(m, o)[k] == m[k] {
        if k in b {
          MergeAgain(b[k], o[k]);
        } else {
          SelfAbsorbed(o[k]);
          AbsorbedExactly(o[k], o[k]);
        }
      }
      assert Merge(m, o) == m;
    } else {
      SelfAbsorbed(overlay);
      AbsorbedExactly(overlay, overlay);
    }
  }

  // ------------------------------------------------------------------ what is found at a path

  function Lookup(j: Json, path: seq<string>): Option<Json>
    decreases |path|
  {
    if path == [] then Some(j)
    else if j.Obj? && path[0] in j.fields then Lookup(j.fields[path[0]], path[1..])
    else None
  }

  /** Both trees hold objects all the way down to the parent of `path`. */
  predicate Shared(base: Json, overlay: Json, path: seq<string>)
    decreases |path|
  {
    path == [] ||
    (&& base.Obj? && overlay.Obj?
     && (path[0] in base.fields && path[0] in overlay.fields ==>
           Shared(base.fields[path[0]], overlay.fields[path[0]], path[1..]))
     && (|path| > 1 ==> path[0] in base.fields && path[0] in overlay.fields))
  }

  /** Below shared objects the merged tree has what either has, and the merge of what both have. */
  lemma {:induction false} MergeAtPath(base: Json, overlay: Json, path: seq<string>)
    requires Shared(base, overlay, path)
    ensures
      Lookup(MergeJson(base, overlay), path) ==
        match (Lookup(base, path), Lookup(overlay, path))
        case (Some(b), Some(o)) => Some(MergeJson(b, o))
        case (b, None) => b
        case (None, o) => o
    decreases |path|
  {
    if path != [] {
      var b, o, k := base.fields, overlay.fields, path[0];
      if k in b && k in o {
        MergeAtPath(b[k], o[k], path[1..]);
      }
    }
  }

  // ------------------------------------------------------------------ associativity

  /**
    Wherever all three trees have a value and the outer two have objects, the middle one has an
    object too, or else the first tree's object adds nothing to the last one's.
   */
  predicate Compatible(a: Json, b: Json, c: Json)
    decreases c
  {
    a.Obj? && c.Obj? ==>
      if b.Obj? then
        forall k :: k in a.fields && k in b.fields && k in c.fields ==>
          Compatible(a.fields[k], b.fields[k], c.fields[k])
      else
        Absorbed(a, c)
  }

  /** `deep_merge_dict` is associative on exactly the compatible triples. */
  lemma {:induction false} AssociativeExactly(a: Json, b: Json, c: Json)
    ensures MergeJson(MergeJson(a, b), c) == MergeJson(a, MergeJson(b, c)) <==> Compatible(a, b, c)
    decreases c
  {
    if a.Obj? && c.Obj? && !b.Obj? {
      AbsorbedExactly(a, c);
    } else if a.Obj? && b.Obj? && c.Obj? {
      var left := Merge(Merge(a.fields, b.fields), c.fields);
      var right := Merge(a.fields, Merge(b.fields, c.fields));
      assert left.Keys == right.Keys;
      forall k | k in left
        ensures left[k] == right[k] <==>
          (k in a.fields && k in b.fields && k in c.fields ==> Compatible(a.fields[k], b.fields[k], c.fields[k]))
      {
        if k in a.fields && k in b.fields && k in c.fields {
          AssociativeExactly(a.fields[k], b.fields[k], c.fields[k]);
        }
      }
      if Compatible(a, b, c) {
        assert left == right;
      }
    }
  }

  /** It is not associative in general: an object, a scalar and an object under one key. */
  lemma NotAssociative()
    ensures
      var a, b, c := map["k" := Obj(map["x" := Null])], map["k" := Null], map["k" := Obj(map[])];
      Merge(Merge(a, b), c) != Merge(a, Merge(b, c))
  {
    var a, b, c: Fields := map["k" := Obj(map["x" := Null])], map["k" := Null], map["k" := Obj(map[])];
    AssociativeExactly(Obj(a), Obj(b), Obj(c));
    assert "x" in a["k"].fields && "x" !in c["k"].fields;
    assert !Absorbed(a["k"], c["k"]);
    assert !Compatible(a["k"], b["k"], c["k"]);
  }
}
