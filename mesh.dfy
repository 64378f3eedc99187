/**
 * One step of loop subdivision of a triangle mesh (`atualizar_malha`) and
 * the projection of every vertex onto the unit sphere
 * (`normalizar_todos_vertices`).
 *
 * Each triangle `[v1, v2, v3]` is cut into four through the midpoints of its
 * edges. A midpoint is created once per undirected edge: a cache keyed by the
 * sorted pair of end points remembers its index. The projection of a new
 * midpoint onto the sphere is a parameter `project`; only the bookkeeping is
 * modelled.
 */
module Mesh {
  import opened Vectors
  import opened RealArith

  /** A face as a list of 0-based vertex indices. */
  type Face = seq<int>

  /** An undirected edge: its end points in increasing order. */
  type EdgeKey = (int, int)

  /** Every face is a triangle whose indices name vertices among the first `n`. */
  predicate Triangles(faces: seq<Face>, n: int) {
    forall k :: 0 <= k < |faces| ==> |faces[k]| == 3 && forall j :: 0 <= j < 3 ==> 0 <= faces[k][j] < n
  }

  /** Every face has three indices. */
  predicate Shaped(faces: seq<Face>) {
    forall k :: 0 <= k < |faces| ==> |faces[k]| == 3
  }

  /** `tuple(sorted((i1, i2)))`. */
  function Key(i: int, j: int): (key: EdgeKey)
    ensures key.0 <= key.1 && (key == (i, j) || key == (j, i))
  {
    if i <= j then (i, j) else (j, i)
  }

  /** The midpoint of two vertices, before it is projected onto the sphere. */
  function Mid(a: Vec3, b: Vec3): Vec3 {
    Vec3((a.x + b.x) / 2.0, (a.y + b.y) / 2.0, (a.z + b.z) / 2.0)
  }

  lemma MidSymmetric(a: Vec3, b: Vec3)
    ensures Mid(a, b) == Mid(b, a)
  {}

  function FaceEdges(f: Face): set<EdgeKey>
    requires |f| == 3
  {
    {Key(f[0], f[1]), Key(f[1], f[2]), Key(f[2], f[0])}
  }

  /** The undirected edges of the faces. */
  function Edges(faces: seq<Face>): set<EdgeKey>
    requires Shaped(faces)
  {
    if faces == [] then {}
    else Edges(faces[..|faces| - 1]) + FaceEdges(faces[|faces| - 1])
  }

  /** The four faces that replace `f`, given the midpoint index of each edge. */
  function Split(f: Face, mids: map<EdgeKey, int>): seq<Face>
    requires |f| == 3 && FaceEdges(f) <= mids.Keys
  {
    var a, b, c := mids[Key(f[0], f[1])], mids[Key(f[1], f[2])], mids[Key(f[2], f[0])];
    [[f[0], a, c], [f[1], b, a], [f[2], c, b], [a, b, c]]
  }

  /** The faces of the subdivided mesh: the splits of the faces, in order. */
  function Refine(faces: seq<Face>, mids: map<EdgeKey, int>): seq<Face>
    requires Shaped(faces)
    requires Edges(faces) <= mids.Keys
  {
    if faces == [] then []
    else Refine(faces[..|faces| - 1], mids) + Split(faces[|faces| - 1], mids)
  }

  /** `m2` keeps every entry of `m1`. */
  predicate Extends(m1: map<EdgeKey, int>, m2: map<EdgeKey, int>) {
    forall k :: k in m1 ==> k in m2 && m2[k] == m1[k]
  }

  /**
   * Three cache updates, each recording a new key or a key again with the
   * value it already has, only add to the map, and the final map holds all
   * three values.
   */
  lemma ThreeUpdates(m0: map<EdgeKey, int>, m1: map<EdgeKey, int>, m2: map<EdgeKey, int>, m3: map<EdgeKey, int>,
                     k1: EdgeKey, k2: EdgeKey, k3: EdgeKey, a: int, b: int, c: int)
    requires m1 == m0[k1 := a] && (k1 in m0 ==> m0[k1] == a)
    requires m2 == m1[k2 := b] && (k2 in m1 ==> m1[k2] == b)
    requires m3 == m2[k3 := c] && (k3 in m2 ==> m2[k3] == c)
    ensures Extends(m0, m3) && m3.Keys == m0.Keys + {k1, k2, k3}
    ensures m3[k1] == a && m3[k2] == b && m3[k3] == c
  {}

  /** Distinct edges are given distinct indices. */
  predicate Injective(mids: map<EdgeKey, int>) {
    forall k1, k2 :: k1 in mids && k2 in mids && k1 != k2 ==> mids[k1] != mids[k2]
  }

  /** `i` is the index of some edge. */
  ghost predicate IndexOfEdge(mids: map<EdgeKey, int>, i: int) {
    exists key :: key in mids && mids[key] == i
  }

  /** Every index in `[lo, hi)` is the index of some edge. */
  ghost predicate Covers(mids: map<EdgeKey, int>, lo: int, hi: int) {
    forall i :: lo <= i < hi ==> IndexOfEdge(mids, i)
  }

  /**
   * The invariant of the midpoint cache: the input vertices are a prefix of
   * the list, and there is exactly one appended vertex per cached edge, the
   * projected midpoint of that edge. Distinct edges have distinct indices,
   * and every appended slot is the index of some edge.
   */
  ghost predicate Indexed(original: seq<Vec3>, vertices: seq<Vec3>, cache: map<EdgeKey, int>, project: Vec3 -> Vec3) {
    |original| <= |vertices| && vertices[..|original|] == original
    && |vertices| == |original| + |cache.Keys|
    && Placed(original, vertices, cache, project)
    && Injective(cache)
    && Covers(cache, |original|, |vertices|)
  }

  /** Each cached edge of the input vertices has an appended slot holding its projected midpoint. */
  ghost predicate Placed(original: seq<Vec3>, vertices: seq<Vec3>, cache: map<EdgeKey, int>, project: Vec3 -> Vec3) {
    forall key :: key in cache ==>
      0 <= key.0 <= key.1 < |original| && |original| <= cache[key] < |vertices|
      && vertices[cache[key]] == project(Mid(original[key.0], original[key.1]))
  }

  /** Appending the projected midpoint of a new edge and caching its index keeps `Indexed`. */
  lemma AppendKeepsIndexed(original: seq<Vec3>, vertices: seq<Vec3>, cache: map<EdgeKey, int>, project: Vec3 -> Vec3, key: EdgeKey)
    requires Indexed(original, vertices, cache, project)
    requires key !in cache && 0 <= key.0 <= key.1 < |original|
    ensures Indexed(original, vertices + [project(Mid(original[key.0], original[key.1]))], cache[key := |vertices|], project)
  {
    var vs := vertices + [project(Mid(original[key.0], original[key.1]))];
    var m := cache[key := |vertices|];
    assert m.Keys == cache.Keys + {key};
    assert vs[..|original|] == vertices[..|original|];
    AppendKeepsPlaced(original, vertices, cache, project, key);
    NewIndexKeepsBijection(cache, key, |vertices|, |original|);
  }

  lemma AppendKeepsPlaced(original: seq<Vec3>, vertices: seq<Vec3>, cache: map<EdgeKey, int>, project: Vec3 -> Vec3, key: EdgeKey)
    requires Placed(original, vertices, cache, project)
    requires key !in cache && 0 <= key.0 <= key.1 < |original| <= |vertices|
    ensures Placed(original, vertices + [project(Mid(original[key.0], original[key.1]))], cache[key := |vertices|], project)
    ensures forall k :: k in cache ==> cache[k] < |vertices|
  {
    var vs := vertices + [project(Mid(original[key.0], original[key.1]))];
    var m := cache[key := |vertices|];
    forall k | k in m && k != key
      ensures vs[m[k]] == project(Mid(original[k.0], original[k.1]))
    {
      assert k in cache && m[k] == cache[k] < |vertices|;
    }
  }

  /**
   * `get_ponto_medio`'s append for an uncached edge `(i1, i2)`: the first
   * end point read from the growing list is still the input vertex, and
   * the append keeps `Indexed`.
   */
  lemma AppendMidpoint(original: seq<Vec3>, vertices: seq<Vec3>, cache: map<EdgeKey, int>, project: Vec3 -> Vec3, i1: int, i2: int)
    requires Indexed(original, vertices, cache, project)
    requires Key(i1, i2) !in cache && 0 <= i1 < |original| && 0 <= i2 < |original|
    ensures i1 < |vertices| && vertices[i1] == original[i1]
    ensures Indexed(original, vertices + [project(Mid(original[i1], original[i2]))], cache[Key(i1, i2) := |vertices|], project)
  {
    var key := Key(i1, i2);
    assert vertices[i1] == vertices[..|original|][i1];
    MidSymmetric(original[i1], original[i2]);
    assert Mid(original[i1], original[i2]) == Mid(original[key.0], original[key.1]);
    AppendKeepsIndexed(original, vertices, cache, project, key);
  }

  /**
   * Recording a new edge at the next free index keeps the indices distinct
   * and extends the covered range by that index.
   */
  lemma NewIndexKeepsBijection(mids: map<EdgeKey, int>, key: EdgeKey, idx: int, lo: int)
    requires key !in mids && Injective(mids) && Covers(mids, lo, idx)
    requires forall k :: k in mids ==> mids[k] < idx
    ensures Injective(mids[key := idx]) && Covers(mids[key := idx], lo, idx + 1)
  {
    var m := mids[key := idx];
    forall i | lo <= i < idx + 1
      ensures IndexOfEdge(m, i)
    {
      if i == idx {
        assert m[key] == i;
      } else {
        assert IndexOfEdge(mids, i);
        var k :| k in mids && mids[k] == i;
        assert k != key && m[k] == i;
      }
    }
  }

  /**
   * The state `atualizar_malha` shares with its inner `get_ponto_medio`: the
   * input vertices, the growing vertex list `vertices_novos` and the midpoint
   * cache.
   */
  class Refiner {
    const original: seq<Vec3>
    const project: Vec3 -> Vec3
    var vertices: seq<Vec3>
    var cache: map<EdgeKey, int>

    /** The state satisfies `Indexed`. */
    ghost predicate Valid()
      reads this
    {
      Indexed(original, vertices, cache, project)
    }

    constructor (vs: seq<Vec3>, project: Vec3 -> Vec3)
      ensures Valid()
      ensures original == vs && vertices == vs && cache == map[] && this.project == project
    {
      original := vs;
      this.project := project;
      vertices := vs;
      cache := map[];
    }

    /**
     * `get_ponto_medio(i1, i2)`: the cached index of the edge's midpoint, or
     * a new vertex appended to the list and recorded in the cache.
     */
    method Midpoint(i1: int, i2: int) returns (idx: int)
      requires Valid() && 0 <= i1 < |original| && 0 <= i2 < |original|
      modifies this
      ensures Valid()
      ensures cache == old(cache)[Key(i1, i2) := idx]
      ensures Key(i1, i2) in old(cache) ==> idx == old(cache)[Key(i1, i2)] && vertices == old(vertices)
      ensures Key(i1, i2) !in old(cache) ==>
        idx == |old(vertices)| && vertices == old(vertices) + [project(Mid(original[i1], original[i2]))]
    {
      var key := Key(i1, i2);
      if key in cache {
        idx := cache[key];
        assert cache == cache[key := idx];
        return;
      }
      AppendMidpoint(original, vertices, cache, project, i1, i2);
      var v1 := vertices[i1];
      var v2 := original[i2];
      vertices := vertices + [project(Mid(v1, v2))];
      idx := |vertices| - 1;
      cache := cache[key := idx];
    }

    /**
     * The body of `atualizar_malha`'s loop for one triangle `[v1, v2, v3]`:
     * the midpoints `a`, `b`, `c` of its edges `(v1, v2)`, `(v2, v3)`,
     * `(v3, v1)`, in that order, and the four faces through them.
     */
    method SplitFace(f: Face) returns (quad: seq<Face>)
      requires Valid() && |f| == 3 && forall j :: 0 <= j < 3 ==> 0 <= f[j] < |original|
      modifies this
      ensures Valid()
      ensures cache.Keys == old(cache).Keys + FaceEdges(f) && Extends(old(cache), cache)
      ensures quad == Split(f, cache)
    {
      var v1, v2, v3 := f[0], f[1], f[2];
      ghost var m0 := cache;
      var a := Midpoint(v1, v2);
      ghost var m1 := cache;
      var b := Midpoint(v2, v3);
      ghost var m2 := cache;
      var c := Midpoint(v3, v1);
      ThreeUpdates(m0, m1, m2, cache, Key(v1, v2), Key(v2, v3), Key(v3, v1), a, b, c);
      quad := [[v1, a, c], [v2, b, a], [v3, c, b], [a, b, c]];
    }

    /** `atualizar_malha`'s loop over the faces, starting from an empty cache. */
    method SplitAll(faces: seq<Face>) returns (newFaces: seq<Face>)
      requires Valid() && cache == map[] && Triangles(faces, |original|)
      modifies this
      ensures Valid() && cache.Keys == Edges(faces)
      ensures newFaces == Refine(faces, cache)
    {
      newFaces := [];
      for k := 0 to |faces|
        invariant Valid() && cache.Keys == Edges(faces[..k])
        invariant newFaces == Refine(faces[..k], cache)
      {
        ghost var before := cache;
        var quad := SplitFace(faces[k]);
        RefineStep(faces, k, before, cache, newFaces, quad);
        newFaces := newFaces + quad;
      }
      assert faces[..|faces|] == faces;
    }
  }

  /**
   * `atualizar_malha`. Every triangle is replaced by four faces through the
   * midpoints of its edges; the new vertices are appended after the input
   * ones, one per undirected edge. `mids` is the final cache.
   */
  method Subdivide(vertices: seq<Vec3>, faces: seq<Face>, project: Vec3 -> Vec3)
    returns (newVertices: seq<Vec3>, newFaces: seq<Face>, mids: map<EdgeKey, int>)
    requires Triangles(faces, |vertices|)
    ensures |vertices| <= |newVertices| && newVertices[..|vertices|] == vertices
    ensures mids.Keys == Edges(faces) && |newVertices| == |vertices| + |Edges(faces)|
    ensures forall key :: key in mids ==>
      0 <= key.0 <= key.1 < |vertices| && |vertices| <= mids[key] < |newVertices|
      && newVertices[mids[key]] == project(Mid(vertices[key.0], vertices[key.1]))
    ensures Injective(mids)
    ensures forall i :: |vertices| <= i < |newVertices| ==> IndexOfEdge(mids, i)
    ensures newFaces == Refine(faces, mids)
  {
    var r := new Refiner(vertices, project);
    newFaces := r.SplitAll(faces);
    newVertices, mids := r.vertices, r.cache;
  }

  /** One turn of the face loop keeps its invariant: the cache covers the edges so far and the faces are their refinement. */
  lemma RefineStep(faces: seq<Face>, k: nat, before: map<EdgeKey, int>, after: map<EdgeKey, int>,
                   done: seq<Face>, quad: seq<Face>)
    requires Shaped(faces) && k < |faces|
    requires before.Keys == Edges(faces[..k]) && done == Refine(faces[..k], before)
    requires after.Keys == before.Keys + FaceEdges(faces[k]) && Extends(before, after)
    requires quad == Split(faces[k], after)
    ensures after.Keys == Edges(faces[..k + 1])
    ensures done + quad == Refine(faces[..k + 1], after)
  {
    RefineExtends(faces[..k], before, after);
    RefineSnoc(faces, k, after);
  }

  /** Edges and refinement of one more face. */
  lemma RefineSnoc(faces: seq<Face>, k: nat, mids: map<EdgeKey, int>)
    requires Shaped(faces) && k < |faces|
    ensures Edges(faces[..k + 1]) == Edges(faces[..k]) + FaceEdges(faces[k])
    ensures Edges(faces[..k + 1]) <= mids.Keys ==>
      Refine(faces[..k + 1], mids) == Refine(faces[..k], mids) + Split(faces[k], mids)
  {
    assert faces[..k + 1][..k] == faces[..k];
  }

  /** Refining needs only the midpoints of the faces' own edges: a larger cache gives the same faces. */
  lemma {:induction false} RefineExtends(faces: seq<Face>, m1: map<EdgeKey, int>, m2: map<EdgeKey, int>)
    requires Shaped(faces)
    requires Edges(faces) <= m1.Keys && Extends(m1, m2)
    ensures Edges(faces) <= m2.Keys
    ensures Refine(faces, m1) == Refine(faces, m2)
  {
    if faces != [] {
      RefineExtends(faces[..|faces| - 1], m1, m2);
    }
  }

  /** Four faces out per face in. */
  lemma {:induction false} RefineLength(faces: seq<Face>, mids: map<EdgeKey, int>)
    requires Shaped(faces)
    requires Edges(faces) <= mids.Keys
    ensures |Refine(faces, mids)| == 4 * |faces|
  {
    if faces != [] {
      RefineLength(faces[..|faces| - 1], mids);
    }
  }

  /**
   * Faces `4k` to `4k + 3` of the result are `[v1, a, c]`, `[v2, b, a]`,
   * `[v3, c, b]` and `[a, b, c]` for face `k = [v1, v2, v3]`, where `a`, `b`
   * and `c` are the midpoints of the edges `(v1, v2)`, `(v2, v3)` and
   * `(v3, v1)`.
   */
  lemma {:induction false} RefineAt(faces: seq<Face>, mids: map<EdgeKey, int>, k: nat)
    requires Shaped(faces)
    requires Edges(faces) <= mids.Keys && k < |faces|
    ensures FaceEdges(faces[k]) <= Edges(faces)
    ensures |Refine(faces, mids)| == 4 * |faces|
    ensures var f := faces[k];
      var a, b, c := mids[Key(f[0], f[1])], mids[Key(f[1], f[2])], mids[Key(f[2], f[0])];
      Refine(faces, mids)[4 * k..4 * k + 4] == [[f[0], a, c], [f[1], b, a], [f[2], c, b], [a, b, c]]
    decreases |faces|
  {
    RefineLength(faces, mids);
    var init := faces[..|faces| - 1];
    assert Edges(init) <= Edges(faces);
    RefineLength(init, mids);
    if k < |faces| - 1 {
      RefineAt(init, mids, k);
      assert init[k] == faces[k];
      assert Refine(faces, mids)[4 * k..4 * k + 4] == Refine(init, mids)[4 * k..4 * k + 4];
    }
  }

  /** With every face index and every midpoint index below `n`, so is every index of the result. */
  lemma {:induction false} RefineInRange(faces: seq<Face>, mids: map<EdgeKey, int>, n: int)
    requires Triangles(faces, n)
    requires Edges(faces) <= mids.Keys
    requires forall key :: key in Edges(faces) ==> 0 <= mids[key] < n
    ensures Triangles(Refine(faces, mids), n)
  {
    if faces != [] {
      var init := faces[..|faces| - 1];
      assert Edges(init) <= Edges(faces);
      RefineInRange(init, mids, n);
    }
  }

  /**
   * The subdivided mesh is well formed: four faces per input face, each a
   * triangle over the new vertex list.
   */
  lemma SubdividedIsWellFormed(vertices: seq<Vec3>, faces: seq<Face>, newVertices: seq<Vec3>, mids: map<EdgeKey, int>)
    requires Triangles(faces, |vertices|) && |vertices| <= |newVertices|
    requires mids.Keys == Edges(faces)
    requires forall key :: key in mids ==> |vertices| <= mids[key] < |newVertices|
    ensures |Refine(faces, mids)| == 4 * |faces|
    ensures Triangles(Refine(faces, mids), |newVertices|)
  {
    RefineLength(faces, mids);
    assert Triangles(faces, |newVertices|);
    RefineInRange(faces, mids, |newVertices|);
  }

  /**
   * `normalizar_todos_vertices`: every vertex of non-zero length is divided
   * by its length, in place; a vertex of length zero is left as it is.
   */
  method NormalizeAll(a: array<Vec3>, sqrt: real -> real)
    requires IsSqrt(sqrt)
    modifies a
    ensures forall k :: 0 <= k < a.Length ==> a[k] == Normalize(old(a[k]), sqrt)
    ensures forall k :: 0 <= k < a.Length ==> a[k] == old(a[k]) || Dot(a[k], a[k]) == 1.0
  {
    for i := 0 to a.Length
      invariant forall k :: 0 <= k < i ==> a[k] == Normalize(old(a[k]), sqrt)
      invariant forall k :: i <= k < a.Length ==> a[k] == old(a[k])
    {
      var v := a[i];
      var len := Length(v, sqrt);
      if len > 0.0 {
        a[i] := Vec3(v.x / len, v.y / len, v.z / len);
        assert a[i] == Scale(1.0 / len, v);
      } else {
        DotNonNegative(v);
      }
    }
  }

  /** Normalizing twice is normalizing once, so `normalizar_todos_vertices` may be repeated freely. */
  lemma NormalizeIdempotent(v: Vec3, sqrt: real -> real)
    requires IsSqrt(sqrt)
    ensures Normalize(Normalize(v, sqrt), sqrt) == Normalize(v, sqrt)
  {
    DotNonNegative(v);
    if Dot(v, v) > 0.0 {
      NormalizeUnit(Normalize(v, sqrt), sqrt);
    } else {
      SquareRootUnique(sqrt(0.0), 0.0);
    }
  }
}
