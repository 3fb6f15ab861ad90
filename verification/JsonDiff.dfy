/**
 The config diff: the paths at which two JSON objects differ.

 A path is a key sequence; the gateway renders it with dots. `Changed` is the recursion over both
 objects; `Differs` says, without recursion, what a changed path is.
 */
module JsonDiff {
  import opened Wrappers
  import opened JsonMerge

  // A missing key reads as null.
  function Get(m: Members, k: string): Json {
    if k in m then m[k] else Null
  }

  predicate BothObjects(b: Members, a: Members, k: string) {
    k in b && k in a && b[k].Object? && a[k].Object?
  }

  function Changed(b: Members, a: Members): set<Path>
    decreases Object(b)
  {
    (set k | k in b.Keys + a.Keys && !BothObjects(b, a, k) && Get(b, k) != Get(a, k) :: [k]) +
    (set k, p | k in b.Keys && BothObjects(b, a, k) && p in Changed(b[k].m, a[k].m) :: [k] + p)
  }

  // ---- What a changed path is -----------------------------------------------------------------------

  function At(m: Members, path: Path): Json
    requires path != []
  {
    Lookup(m, path).GetOr(Null)
  }

  ghost predicate Differs(b: Members, a: Members, path: Path) {
    && path != []
    && (forall i | 0 < i < |path| :: At(b, path[..i]).Object? && At(a, path[..i]).Object?)
    && At(b, path) != At(a, path)
    && !(At(b, path).Object? && At(a, path).Object?)
  }

  lemma AtTail(m: Members, path: Path)
    requires |path| > 1 && path[0] in m && m[path[0]].Object?
    ensures At(m, path) == At(m[path[0]].m, path[1..])
  {
  }

  lemma DiffersTail(b: Members, a: Members, path: Path)
    requires |path| > 1 && BothObjects(b, a, path[0])
    ensures Differs(b, a, path) <==> Differs(b[path[0]].m, a[path[0]].m, path[1..])
  {
    var k, tail := path[0], path[1..];
    AtTail(b, path);
    AtTail(a, path);
    assert path[..1] == [k];
    forall i | 1 < i < |path|
      ensures At(b, path[..i]) == At(b[k].m, tail[..i - 1]) && At(a, path[..i]) == At(a[k].m, tail[..i - 1])
    {
      assert path[..i][1..] == tail[..i - 1];
      AtTail(b, path[..i]);
      AtTail(a, path[..i]);
    }
    if Differs(b, a, path) {
      forall j | 0 < j < |tail| ensures At(b[k].m, tail[..j]).Object? && At(a[k].m, tail[..j]).Object? {
        assert 1 < j + 1 < |path|;
        assert At(b, path[..j + 1]).Object? && At(a, path[..j + 1]).Object?;
      }
    }
  }

  lemma ChangedAtKey(b: Members, a: Members, k: string)
    ensures [k] in Changed(b, a) <==> !BothObjects(b, a, k) && Get(b, k) != Get(a, k)
    ensures [] !in Changed(b, a)
    decreases Object(b)
  {
    if BothObjects(b, a, k) {
      ChangedAtKey(b[k].m, a[k].m, k);
    }
  }

  lemma ChangedBelow(b: Members, a: Members, k: string, p: Path)
    requires p != []
    ensures [k] + p in Changed(b, a) <==> BothObjects(b, a, k) && p in Changed(b[k].m, a[k].m)
  {
    assert ([k] + p)[0] == k && ([k] + p)[1..] == p;
  }

  /** A path is reported exactly when everything above it is an object on both sides, the two values there
      differ (absent counting as null), and they are not both objects. */
  lemma {:induction false} ChangedExactly(b: Members, a: Members, path: Path)
    ensures path in Changed(b, a) <==> Differs(b, a, path)
    decreases |path|
  {
    if path == [] {
      ChangedAtKey(b, a, "");
    } else {
      var k, tail := path[0], path[1..];
      ChangedAtKey(b, a, k);
      assert At(b, [k]) == Get(b, k) && At(a, [k]) == Get(a, k);
      if tail == [] {
        assert path == [k];
      } else {
        assert path == [k] + tail && path[..1] == [k];
        ChangedBelow(b, a, k, tail);
        if BothObjects(b, a, k) {
          ChangedExactly(b[k].m, a[k].m, tail);
          DiffersTail(b, a, path);
        } else {
          hide Changed;
          assert !Differs(b, a, path);
        }
      }
    }
  }

  lemma {:induction false} ChangedSymmetric(b: Members, a: Members)
    ensures Changed(b, a) == Changed(a, b)
  {
    forall path ensures path in Changed(b, a) <==> path in Changed(a, b) {
      ChangedExactly(b, a, path);
      ChangedExactly(a, b, path);
    }
  }

  // ---- Soundness and completeness -----------------------------------------------------------------------

  // Drop null members at every depth reached through objects.
  function Strip(m: Members): Members
    decreases Object(m)
  {
    map k | k in m && !m[k].Null? :: if m[k].Object? then Object(Strip(m[k].m)) else m[k]
  }

  /** Nothing is reported exactly when the two objects are equal up to null members. */
  lemma {:induction false} NoChangeExactly(b: Members, a: Members)
    ensures Changed(b, a) == {} <==> Strip(b) == Strip(a)
    decreases Object(b)
  {
    var sb, sa := Strip(b), Strip(a);
    forall k | BothObjects(b, a, k)
      ensures k in sb && k in sa && (sb[k] == sa[k] <==> Changed(b[k].m, a[k].m) == {})
    {
      NoChangeExactly(b[k].m, a[k].m);
    }
    if Changed(b, a) == {} {
      forall k | k in b.Keys + a.Keys && !BothObjects(b, a, k) ensures Get(b, k) == Get(a, k) {
        ChangedAtKey(b, a, k);
      }
      forall k | BothObjects(b, a, k) ensures Changed(b[k].m, a[k].m) == {} {
        forall p ensures p !in Changed(b[k].m, a[k].m) {
          ChangedAtKey(b[k].m, a[k].m, k);
          if p != [] {
            ChangedBelow(b, a, k, p);
          }
        }
      }
      assert sb.Keys == sa.Keys;
      forall k | k in sb ensures sb[k] == sa[k] {
      }
    }
    if sb == sa {
      forall k | k in b.Keys + a.Keys && !BothObjects(b, a, k) ensures Get(b, k) == Get(a, k) {
        assert k in sb <==> k in sa;
      }
    }
  }

  /** The diff between a config and its patched form names only paths the patch touches. */
  lemma DiffOfMerge(target: Members, patch: Members, path: Path)
    requires path in Changed(target, Merge(target, patch))
    ensures !Untouched(patch, path)
  {
    ChangedExactly(target, Merge(target, patch), path);
    if Untouched(patch, path) {
      MergeFrame(target, patch, path);
    }
  }

  // ---- The rendered list --------------------------------------------------------------------------------

  function Render(path: Path): string
    requires path != []
  {
    if |path| == 1 then path[0] else path[0] + "." + Render(path[1..])
  }

  ghost predicate DotFree(path: Path) {
    forall i | 0 <= i < |path| :: '.' !in path[i]
  }

  function DotIndex(s: string): (i: nat)
    ensures i <= |s| && '.' !in s[..i] && (i < |s| ==> s[i] == '.')
  {
    if s == [] || s[0] == '.' then 0 else
      var i := 1 + DotIndex(s[1..]);
      assert s[..i] == [s[0]] + s[1..][..i - 1];
      i
  }

  // A rendered path shows its first key up to the first dot, and the rest after it.
  lemma {:induction false} RenderHead(p: Path)
    requires p != [] && DotFree(p)
    ensures var s := Render(p);
            && DotIndex(s) == |p[0]| && s[..|p[0]|] == p[0]
            && (|p| == 1 <==> |p[0]| == |s|)
            && (|p| > 1 ==> s[|p[0]| + 1..] == Render(p[1..]))
  {
    var s, n := Render(p), |p[0]|;
    assert s[..n] == p[0];
    assert forall j | 0 <= j < n :: s[j] == p[0][j];
    assert |p| > 1 ==> s[n] == '.';
  }

  /** With dot-free keys a rendered string determines its path. */
  lemma {:induction false} RenderInjective(p: Path, q: Path)
    requires p != [] && q != [] && DotFree(p) && DotFree(q) && Render(p) == Render(q)
    ensures p == q
    decreases |p|
  {
    RenderHead(p);
    RenderHead(q);
    assert p == [p[0]] + p[1..] && q == [q[0]] + q[1..];
    if |p| > 1 {
      RenderInjective(p[1..], q[1..]);
    }
  }

  ghost predicate NoDuplicates(ps: seq<Path>) {
    forall i, j | 0 <= i < j < |ps| :: ps[i] != ps[j]
  }

  // `out` renders `paths`, one string each.
  ghost predicate Renders(out: seq<string>, prefix: string, paths: seq<Path>) {
    |out| == |paths| && forall i | 0 <= i < |paths| :: paths[i] != [] && out[i] == prefix + Render(paths[i])
  }

  function Prepend(k: string, ps: seq<Path>): (r: seq<Path>)
    ensures |r| == |ps| && forall i | 0 <= i < |ps| :: r[i] == [k] + ps[i]
  {
    seq(|ps|, i requires 0 <= i < |ps| => [k] + ps[i])
  }

  // Changed paths whose first key has been dealt with.
  ghost predicate Covered(b: Members, a: Members, todo: set<string>, p: Path) {
    p != [] && p in Changed(b, a) && p[0] !in todo
  }

  // `paths` are the changed paths, each once, and `out` renders them.
  ghost predicate ListsAs(out: seq<string>, prefix: string, b: Members, a: Members, paths: seq<Path>) {
    Renders(out, prefix, paths) && NoDuplicates(paths) && forall p :: p in paths <==> p in Changed(b, a)
  }

  ghost predicate Lists(out: seq<string>, prefix: string, b: Members, a: Members) {
    exists paths: seq<Path> :: ListsAs(out, prefix, b, a, paths)
  }

  ghost predicate RendersChange(b: Members, a: Members, s: string) {
    exists p: Path :: p in Changed(b, a) && p != [] && s == Render(p)
  }

  lemma Listed(out: seq<string>, b: Members, a: Members, s: string)
    requires Lists(out, "", b, a)
    ensures s in out <==> RendersChange(b, a, s)
  {
    hide Changed, Render;
    var paths :| ListsAs(out, "", b, a, paths);
    if s in out {
      var i :| 0 <= i < |out| && out[i] == s;
      var p := paths[i];
      assert p in paths && "" + Render(p) == Render(p);
      assert p in Changed(b, a) && p != [] && s == Render(p);
    }
    if RendersChange(b, a, s) {
      var p: Path :| p in Changed(b, a) && p != [] && s == Render(p);
      assert p in paths;
      var i :| 0 <= i < |paths| && paths[i] == p;
      assert "" + Render(p) == Render(p);
      assert out[i] == s;
    }
  }

  /** Nothing is listed exactly when the objects are equal up to null members; otherwise the listed strings are the
      rendered changed paths, and swapping the two objects lists the same ones. */
  lemma ListedExactly(b: Members, a: Members, out: seq<string>, back: seq<string>)
    requires Lists(out, "", b, a) && Lists(back, "", a, b)
    ensures out == [] <==> Strip(b) == Strip(a)
    ensures forall s :: s in out <==> RendersChange(b, a, s)
    ensures forall s :: s in out <==> s in back
  {
    hide Changed, RendersChange;
    ChangedSymmetric(b, a);
    NoChangeExactly(b, a);
    var paths :| ListsAs(out, "", b, a, paths);
    assert paths != [] ==> paths[0] in Changed(b, a);
    assert paths == [] ==> Changed(b, a) == {};
    forall s ensures (s in out <==> RendersChange(b, a, s)) && (s in out <==> s in back) {
      Listed(out, b, a, s);
      Listed(back, a, b, s);
      ChangeSymmetric(b, a, s);
    }
  }

  lemma ChangeSymmetric(b: Members, a: Members, s: string)
    ensures RendersChange(b, a, s) <==> RendersChange(a, b, s)
  {
    hide Changed;
    ChangedSymmetric(b, a);
  }

  /** The recursion with its string accumulators, over the keys in any order: every changed path once. */
  method ChangedFieldPaths(before: Members, after: Members, prefix: string) returns (out: seq<string>)
    ensures Lists(out, prefix, before, after)
    decreases Object(before)
  {
    hide Changed;
    out := [];
    ghost var paths: seq<Path> := [];
    var todo := before.Keys + after.Keys;
    forall p ensures !Covered(before, after, todo, p) {
      FirstKeyKnown(before, after, p);
    }
    while todo != {}
      invariant todo <= before.Keys + after.Keys
      invariant Renders(out, prefix, paths) && NoDuplicates(paths)
      invariant forall p :: p in paths <==> Covered(before, after, todo, p)
      decreases todo
    {
      var key :| key in todo;
      ChangedAtKey(before, after, key);
      ghost var more: seq<Path> := [];
      if BothObjects(before, after, key) {
        var sub := ChangedFieldPaths(before[key].m, after[key].m, prefix + key + ".");
        ghost var subPaths: seq<Path> :| ListsAs(sub, prefix + key + ".", before[key].m, after[key].m, subPaths);
        RendersPrepend(sub, prefix, key, subPaths);
        more := Prepend(key, subPaths);
        PrependNoDuplicates(key, subPaths);
        forall q ensures [key] + q in more <==> q in Changed(before[key].m, after[key].m) {
          PrependIn(key, subPaths, q);
        }
        RendersAppend(out, sub, prefix, paths, more);
        out := out + sub;
      } else if Get(before, key) != Get(after, key) {
        more := [[key]];
        RendersAppend(out, [prefix + key], prefix, paths, more);
        out := out + [prefix + key];
      }
      forall p ensures p in more <==> p in Changed(before, after) && p != [] && p[0] == key {
        if BothObjects(before, after, key) {
          SubPaths(before, after, key, more, p);
        } else {
          KeyOnly(before, after, key, p);
        }
      }
      assert NoDuplicates(more) by {
        assert BothObjects(before, after, key) || |more| <= 1;
      }
      NoDuplicatesAppend(paths, more);
      paths := paths + more;
      todo := todo - {key};
    }
    forall p ensures p in Changed(before, after) ==> p != [] {
      ChangedAtKey(before, after, "");
    }
    assert ListsAs(out, prefix, before, after, paths);
  }

  lemma FirstKeyKnown(b: Members, a: Members, p: Path)
    ensures p in Changed(b, a) && p != [] ==> p[0] in b.Keys + a.Keys
  {
  }

  lemma KeyOnly(b: Members, a: Members, k: string, p: Path)
    requires !BothObjects(b, a, k)
    ensures p in Changed(b, a) && p != [] && p[0] == k <==> p == [k] && Get(b, k) != Get(a, k)
  {
    ChangedAtKey(b, a, k);
    if p != [] && p[0] == k && p != [k] {
      assert p == [k] + p[1..] && p[1..] != [];
      ChangedBelow(b, a, k, p[1..]);
    }
  }

  lemma NoDuplicatesAppend(ps: seq<Path>, qs: seq<Path>)
    requires NoDuplicates(ps) && NoDuplicates(qs) && forall p | p in ps :: p !in qs
    ensures NoDuplicates(ps + qs)
  {
    var all := ps + qs;
    forall i, j | 0 <= i < j < |all| ensures all[i] != all[j] {
      if i < |ps| <= j {
        assert all[i] in ps && all[j] in qs;
      }
    }
  }

  lemma PrependNoDuplicates(k: string, ps: seq<Path>)
    requires NoDuplicates(ps)
    ensures NoDuplicates(Prepend(k, ps))
  {
    forall i, j | 0 <= i < j < |ps| ensures [k] + ps[i] != [k] + ps[j] {
      assert ([k] + ps[i])[1..] == ps[i] && ([k] + ps[j])[1..] == ps[j];
    }
  }

  lemma PrependIn(k: string, ps: seq<Path>, q: Path)
    ensures [k] + q in Prepend(k, ps) <==> q in ps
  {
    if [k] + q in Prepend(k, ps) {
      var i :| 0 <= i < |ps| && Prepend(k, ps)[i] == [k] + q;
      assert ([k] + q)[1..] == ([k] + ps[i])[1..];
      assert ps[i] == q;
    }
    if q in ps {
      var i :| 0 <= i < |ps| && ps[i] == q;
      assert Prepend(k, ps)[i] == [k] + q;
    }
  }

  lemma RendersAppend(out: seq<string>, more: seq<string>, prefix: string, ps: seq<Path>, qs: seq<Path>)
    requires Renders(out, prefix, ps) && Renders(more, prefix, qs)
    ensures Renders(out + more, prefix, ps + qs)
  {
  }

  lemma RendersPrepend(out: seq<string>, prefix: string, k: string, ps: seq<Path>)
    requires Renders(out, prefix + k + ".", ps)
    ensures Renders(out, prefix, Prepend(k, ps))
  {
    forall i | 0 <= i < |ps| ensures out[i] == prefix + Render(Prepend(k, ps)[i]) {
      assert ([k] + ps[i])[1..] == ps[i];
      assert prefix + k + "." + Render(ps[i]) == prefix + (k + "." + Render(ps[i]));
    }
  }

  lemma SubPaths(b: Members, a: Members, k: string, more: seq<Path>, p: Path)
    requires BothObjects(b, a, k)
    requires forall q :: [k] + q in more <==> q in Changed(b[k].m, a[k].m)
    requires forall i | 0 <= i < |more| :: more[i] != [] && more[i][0] == k
    ensures p in more <==> p in Changed(b, a) && p != [] && p[0] == k
  {
    ChangedAtKey(b, a, k);
    ChangedAtKey(b[k].m, a[k].m, k);
    if p != [] && p[0] == k {
      assert p == [k] + p[1..];
      if p[1..] != [] {
        ChangedBelow(b, a, k, p[1..]);
      }
    }
  }
}
