/**
 JSON objects, the gateway's merge patch and the merge patch of section 2 of RFC 7396.

 The gateway's merge copies an object into the result as it stands when the target has no object
 there; the standard merges it into an empty object, which drops its nulls. The two agree exactly when
 no such inserted object holds a null.
 */
module JsonMerge {
  import opened Wrappers

  datatype Json =
    | Null | Bool(b: bool) | Number(n: real) | String(s: string)
    | Array(items: seq<Json>) | Object(m: Members)

  type Members = map<string, Json>

  // ---- The gateway's merge ------------------------------------------------------------------------

  function Merge(target: Members, patch: Members): Members
    decreases Object(patch)
  {
    map k | k in target.Keys + patch.Keys && !(k in patch && patch[k].Null?) ::
      if k !in patch then target[k]
      else if patch[k].Object? && k in target && target[k].Object? then Object(Merge(target[k].m, patch[k].m))
      else patch[k]
  }

  /** The loop over the patch, in whatever order its keys come. */
  method MergeMaps(target: Members, patch: Members) returns (result: Members)
    ensures result == Merge(target, patch)
    decreases Object(patch)
  {
    result := target;
    var todo := patch.Keys;
    while todo != {}
      invariant todo <= patch.Keys
      invariant forall k :: k in todo || k !in patch ==>
                  (k in result <==> k in target) && (k in target ==> result[k] == target[k])
      invariant forall k | k in patch && k !in todo ::
                  && (k in result <==> !patch[k].Null?)
                  && (k in result ==> k in Merge(target, patch) && result[k] == Merge(target, patch)[k])
      decreases todo
    {
      var k :| k in todo;
      todo := todo - {k};
      var pv := patch[k];
      if pv.Null? {
        result := result - {k};
      } else if pv.Object? && k in result && result[k].Object? {
        var merged := MergeMaps(result[k].m, pv.m);
        result := result[k := Object(merged)];
      } else {
        result := result[k := pv];
      }
    }
  }

  // ---- The standard ---------------------------------------------------------------------------------

  // MergePatch(Target, Patch) of section 2 of RFC 7396.
  function RfcMerge(target: Json, patch: Json): Json
    decreases patch
  {
    if !patch.Object? then patch
    else
      var t: Members := if target.Object? then target.m else map[];
      Object(map k | k in t.Keys + patch.m.Keys && !(k in patch.m && patch.m[k].Null?) ::
        if k !in patch.m then t[k]
        else RfcMerge(if k in t then t[k] else Null, patch.m[k]))
  }

  // No null at any depth reached through objects.
  ghost predicate NullFree(m: Members)
    decreases Object(m)
  {
    forall k | k in m :: !m[k].Null? && (m[k].Object? ==> NullFree(m[k].m))
  }

  // Objects inserted where the target has none are null-free.
  ghost predicate CleanInserts(target: Members, patch: Members)
    decreases Object(patch)
  {
    forall k | k in patch && patch[k].Object? ::
      if k in target && target[k].Object? then CleanInserts(target[k].m, patch[k].m) else NullFree(patch[k].m)
  }

  // Inserting an object where there is none.
  lemma {:induction false} InsertExactly(target: Json, patch: Members)
    requires !target.Object?
    ensures RfcMerge(target, Object(patch)) == Object(patch) <==> NullFree(patch)
    decreases Object(patch)
  {
    var r := RfcMerge(target, Object(patch)).m;
    forall k | k in patch && patch[k].Object?
      ensures RfcMerge(Null, patch[k]) == patch[k] <==> NullFree(patch[k].m)
    {
      InsertExactly(Null, patch[k].m);
    }
    if NullFree(patch) {
      assert r.Keys == patch.Keys;
      forall k | k in patch ensures r[k] == patch[k] {
        assert r[k] == RfcMerge(Null, patch[k]);
      }
    }
    if r == patch {
      forall k | k in patch ensures !patch[k].Null? && (patch[k].Object? ==> NullFree(patch[k].m)) {
        assert k in r;
        assert r[k] == RfcMerge(Null, patch[k]);
      }
    }
  }

  lemma MergeKeys(target: Members, patch: Members)
    ensures var t, r := Merge(target, patch), RfcMerge(Object(target), Object(patch));
            r.Object? && r.m.Keys == t.Keys
  {
  }

  /** The gateway's merge is the RFC 7396 merge exactly when no object inserted where the target has none
      holds a null. */
  lemma {:induction false} MergeExactly(target: Members, patch: Members)
    ensures Object(Merge(target, patch)) == RfcMerge(Object(target), Object(patch)) <==> CleanInserts(target, patch)
    decreases Object(patch)
  {
    MergeKeys(target, patch);
    var g, r := Merge(target, patch), RfcMerge(Object(target), Object(patch)).m;
    forall k | k in patch && patch[k].Object?
      ensures k in g && k in r
      ensures g[k] == r[k] <==>
              if k in target && target[k].Object? then CleanInserts(target[k].m, patch[k].m) else NullFree(patch[k].m)
    {
      assert k in g && k in r;
      if k in target && target[k].Object? {
        MergeExactly(target[k].m, patch[k].m);
        assert target[k] == Object(target[k].m) && patch[k] == Object(patch[k].m);
        assert g[k] == Object(Merge(target[k].m, patch[k].m));
        assert r[k] == RfcMerge(target[k], patch[k]);
      } else {
        InsertExactly(if k in target then target[k] else Null, patch[k].m);
        assert patch[k] == Object(patch[k].m);
      }
    }
    forall k | k in g && !(k in patch && patch[k].Object?) ensures g[k] == r[k] {
    }
    assert g == r <==> forall k | k in g :: g[k] == r[k];
    if CleanInserts(target, patch) {
      forall k | k in g ensures g[k] == r[k] {
      }
    }
  }

  /** The merge keeps a nested null that the standard strips. */
  lemma NestedNullKept()
    ensures var patch: Members := map["mock" := Object(map["delay" := Null])];
            Merge(map[], patch) == patch && Object(Merge(map[], patch)) != RfcMerge(Object(map[]), Object(patch))
  {
    var patch: Members := map["mock" := Object(map["delay" := Null])];
    assert "delay" in patch["mock"].m && !NullFree(patch["mock"].m);
    assert "mock" in patch && patch["mock"].Object?;
    assert !CleanInserts(map[], patch);
    MergeExactly(map[], patch);
  }

  // ---- Idempotence ------------------------------------------------------------------------------------

  lemma {:induction false} SelfMergeExactly(q: Members)
    ensures Merge(q, q) == q <==> NullFree(q)
    decreases Object(q)
  {
    var r := Merge(q, q);
    forall k | k in q && q[k].Object?
      ensures k in r && (r[k] == q[k] <==> NullFree(q[k].m))
    {
      SelfMergeExactly(q[k].m);
      assert q[k] == Object(q[k].m);
    }
    if NullFree(q) {
      assert r.Keys == q.Keys;
    }
    if r == q {
      forall k | k in q ensures !q[k].Null? && (q[k].Object? ==> NullFree(q[k].m)) {
        assert k in r;
      }
    }
  }

  /** Applying a patch twice is applying it once exactly under the same condition. */
  lemma {:induction false} IdempotentExactly(target: Members, patch: Members)
    ensures Merge(Merge(target, patch), patch) == Merge(target, patch) <==> CleanInserts(target, patch)
    decreases Object(patch)
  {
    var once := Merge(target, patch);
    var twice := Merge(once, patch);
    assert twice.Keys == once.Keys;
    forall k | k in patch && patch[k].Object?
      ensures k in once && k in twice
      ensures twice[k] == once[k] <==>
              if k in target && target[k].Object? then CleanInserts(target[k].m, patch[k].m) else NullFree(patch[k].m)
    {
      assert k in once && once[k].Object?;
      if k in target && target[k].Object? {
        IdempotentExactly(target[k].m, patch[k].m);
      } else {
        SelfMergeExactly(patch[k].m);
        assert patch[k] == Object(patch[k].m);
      }
    }
    forall k | k in once && !(k in patch && patch[k].Object?) ensures twice[k] == once[k] {
    }
    assert twice == once <==> forall k | k in once :: twice[k] == once[k];
  }

  // ---- Paths ------------------------------------------------------------------------------------------

  type Path = seq<string>

  function Lookup(m: Members, path: Path): Option<Json>
    requires path != []
    decreases |path|
  {
    if path[0] !in m then None
    else if |path| == 1 then Some(m[path[0]])
    else if m[path[0]].Object? then Lookup(m[path[0]].m, path[1..])
    else None
  }

  // The patch says nothing about `path`: following it leaves the patch through objects.
  ghost predicate Untouched(patch: Members, path: Path)
    decreases |path|
  {
    path != [] &&
    (path[0] !in patch || (patch[path[0]].Object? && Untouched(patch[path[0]].m, path[1..])))
  }

  lemma {:induction false} NotNamed(patch: Members, path: Path)
    requires Untouched(patch, path)
    ensures Lookup(patch, path) == None
    decreases |path|
  {
    if path[0] in patch {
      NotNamed(patch[path[0]].m, path[1..]);
    }
  }

  /** A merge leaves every path the patch does not name as it was. */
  lemma {:induction false} MergeFrame(target: Members, patch: Members, path: Path)
    requires Untouched(patch, path)
    ensures Lookup(Merge(target, patch), path) == Lookup(target, path)
    decreases |path|
  {
    var k, r := path[0], Merge(target, patch);
    if k in patch {
      assert k in r && |path| > 1;
      if k in target && target[k].Object? {
        MergeFrame(target[k].m, patch[k].m, path[1..]);
      } else {
        NotNamed(patch[k].m, path[1..]);
      }
    }
  }

  // Following `path`, target and patch are both objects up to its last key.
  ghost predicate Shared(target: Members, patch: Members, path: Path)
    decreases |path|
  {
    && path != []
    && (|path| == 1 || (&& path[0] in target && path[0] in patch && target[path[0]].Object? && patch[path[0]].Object?
                        && Shared(target[path[0]].m, patch[path[0]].m, path[1..])))
  }

  ghost predicate ObjectAt(m: Members, path: Path)
    requires path != []
  {
    Lookup(m, path).Some? && Lookup(m, path).value.Object?
  }

  /** Where the patch has a value and the two are not both objects, the merged config reads exactly as the patch there
      and at every path below, nested nulls included; a null leaves nothing. */
  lemma {:induction false} MergePlaces(target: Members, patch: Members, path: Path, below: Path)
    requires Shared(target, patch, path) && Lookup(patch, path).Some?
    requires !(ObjectAt(target, path) && ObjectAt(patch, path))
    ensures Lookup(Merge(target, patch), path + below) ==
            if Lookup(patch, path).value.Null? then None else Lookup(patch, path + below)
    decreases |path|
  {
    var k, r := path[0], Merge(target, patch);
    assert (path + below)[0] == k && (path + below)[1..] == path[1..] + below;
    if |path| > 1 {
      assert k in r && r[k] == Object(Merge(target[k].m, patch[k].m));
      MergePlaces(target[k].m, patch[k].m, path[1..], below);
    }
  }

  /** Where both are objects, the merged config has the merge of the two. */
  lemma {:induction false} MergeMeets(target: Members, patch: Members, path: Path)
    requires Shared(target, patch, path) && ObjectAt(target, path) && ObjectAt(patch, path)
    ensures Lookup(Merge(target, patch), path) ==
            Some(Object(Merge(Lookup(target, path).value.m, Lookup(patch, path).value.m)))
    decreases |path|
  {
    var k, r := path[0], Merge(target, patch);
    assert k in r && r[k] == Object(Merge(target[k].m, patch[k].m));
    if |path| > 1 {
      MergeMeets(target[k].m, patch[k].m, path[1..]);
    }
  }
}
