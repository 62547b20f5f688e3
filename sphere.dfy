/** The index bookkeeping of `GenerateSphereTriangulation`: start from an
    icosahedron (12 vertices, 20 triangles), orient its triangles, then
    split every triangle into four per level, creating one midpoint vertex
    per undirected edge. Vertex coordinates are not modelled: a vertex is
    an icosahedron corner or the midpoint of an edge between two earlier
    vertices, and the orientation test is an input. */
module Sphere {
  import opened Arith

  /** A vertex without coordinates. `Midpoint(a, b)` (with `a <= b`) is the
      normalised midpoint of vertices `a` and `b`, which does not depend on
      the order of its two ends. */
  datatype Vertex = Corner(id: nat) | Midpoint(a: int, b: int)

  /** `KinBody::Link::TRIMESH`: vertices and a flat list of index triples. */
  datatype TriMesh = TriMesh(vertices: seq<Vertex>, indices: seq<int>)

  predicate ValidIndices(indices: seq<int>, n: int) {
    forall k :: 0 <= k < |indices| ==> 0 <= indices[k] < n
  }

  // ---------------------------------------------------------------------
  // Edge keys

  /** `((uint64_t)a << 32) | (uint64_t)b`; for `b < 2^32` the two halves do
      not overlap, so the bitwise or is a sum. */
  function EdgeKey(a: nat, b: nat): nat {
    a * Two32 + b
  }

  /** `(key << 32) | (key >> 32)` on a `uint64_t`: the left shift drops the
      high half, and the two halves again do not overlap. */
  function SwapKey(key: nat): nat {
    (key * Two32) % Two64 + key / Two32
  }

  /** Swapping the halves of an edge key gives the key of the reversed edge. */
  lemma SwapKeyReverses(a: nat, b: nat)
    requires a < Two32 && b < Two32
    ensures SwapKey(EdgeKey(a, b)) == EdgeKey(b, a)
  {
    var key := EdgeKey(a, b);
    DivModUnique(key, Two32, a, b);
    assert key * Two32 == a * Two64 + b * Two32;
    DivModUnique(key * Two32, Two64, a, b * Two32);
  }

  /** Distinct edges (with second end below 2^32) have distinct keys. */
  lemma EdgeKeyInjective(a: nat, b: nat, c: nat, d: nat)
    requires b < Two32 && d < Two32
    ensures EdgeKey(a, b) == EdgeKey(c, d) ==> a == c && b == d
  {
    if EdgeKey(a, b) == EdgeKey(c, d) {
      DivModUnique(EdgeKey(a, b), Two32, a, b);
      DivModUnique(EdgeKey(c, d), Two32, c, d);
    }
  }

  /** The undirected edge between `a` and `b`, smaller end first. */
  function Undirected(a: int, b: int): (e: (int, int))
    ensures e.0 <= e.1
    ensures e == (a, b) || e == (b, a)
  {
    if a <= b then (a, b) else (b, a)
  }

  /** Two ordered pairs name the same undirected edge exactly when they are
      equal or reversed. */
  lemma UndirectedSame(a: int, b: int, c: int, d: int)
    ensures Undirected(a, b) == Undirected(c, d) <==> (a == c && b == d) || (a == d && b == c)
  {
  }

  function TriEdges(a: int, b: int, c: int): set<(int, int)> {
    {Undirected(a, b), Undirected(b, c), Undirected(c, a)}
  }

  /** The undirected edges of all triangles of an index list (a trailing
      partial triangle, which the generator never makes, adds none). */
  function Edges(indices: seq<int>): set<(int, int)>
    decreases |indices|
  {
    if |indices| < 3 then {}
    else
      var n := |indices| - 3;
      Edges(indices[..n]) + TriEdges(indices[n], indices[n + 1], indices[n + 2])
  }

  /** There are at most as many edges as indices (three per triangle). */
  lemma {:induction false} EdgesBound(indices: seq<int>)
    ensures |Edges(indices)| <= |indices|
    decreases |indices|
  {
    if |indices| >= 3 {
      var n := |indices| - 3;
      EdgesBound(indices[..n]);
      var t := TriEdges(indices[n], indices[n + 1], indices[n + 2]);
      assert |t| <= 3;
      assert |Edges(indices[..n]) + t| <= |Edges(indices[..n])| + |t|;
    }
  }

  /** Edges of a concatenation are the edges of both parts, when the
      second part holds `k` whole triangles. */
  lemma {:induction false} EdgesAppend(a: seq<int>, b: seq<int>, k: nat)
    requires |b| == 3 * k
    ensures Edges(a + b) == Edges(a) + Edges(b)
    decreases k
  {
    if k == 0 {
      assert a + b == a;
    } else {
      var n := |b| - 3;
      var ab := a + b;
      var m := |ab| - 3;
      var t := TriEdges(b[n], b[n + 1], b[n + 2]);
      assert ab[..m] == a + b[..n];
      assert ab[m] == b[n] && ab[m + 1] == b[n + 1] && ab[m + 2] == b[n + 2];
      calc {
        Edges(ab);
        Edges(ab[..m]) + t;
        Edges(a + b[..n]) + t;
        { EdgesAppend(a, b[..n], k - 1); }
        Edges(a) + Edges(b[..n]) + t;
        Edges(a) + (Edges(b[..n]) + t);
      }
    }
  }

  // ---------------------------------------------------------------------
  // Orientation

  /** The first triangle of `tri`, with its first two indices swapped when
      `flip`. */
  function OrientedTriangle(tri: seq<int>, flip: bool): (r: seq<int>)
    requires |tri| >= 3
    ensures |r| == 3
  {
    if flip then [tri[1], tri[0], tri[2]] else tri[..3]
  }

  /** The initial index list after the orientation pass: triangle `t` has
      its first two indices swapped when `flips[t]` (the outcome of the
      counter-clockwise test, which needs coordinates). */
  function Oriented(indices: seq<int>, flips: seq<bool>): (r: seq<int>)
    requires |indices| == 3 * |flips|
    ensures |r| == |indices|
    decreases |flips|
  {
    if |flips| == 0 then []
    else OrientedTriangle(indices, flips[0]) + Oriented(indices[3..], flips[1..])
  }

  /** Splitting the triangles in two splits their orientation. */
  lemma {:induction false} OrientedAppend(a: seq<int>, fa: seq<bool>, b: seq<int>, fb: seq<bool>)
    requires |a| == 3 * |fa| && |b| == 3 * |fb|
    ensures Oriented(a + b, fa + fb) == Oriented(a, fa) + Oriented(b, fb)
    decreases |fa|
  {
    if |fa| > 0 {
      var ab, fab := a + b, fa + fb;
      var head := OrientedTriangle(a, fa[0]);
      assert ab[3..] == a[3..] + b;
      assert fab[1..] == fa[1..] + fb;
      assert fab[0] == fa[0];
      assert ab[..3] == a[..3];
      assert OrientedTriangle(ab, fab[0]) == head;
      calc {
        Oriented(ab, fab);
        head + Oriented(ab[3..], fab[1..]);
        head + Oriented(a[3..] + b, fa[1..] + fb);
        { OrientedAppend(a[3..], fa[1..], b, fb); }
        head + (Oriented(a[3..], fa[1..]) + Oriented(b, fb));
        (head + Oriented(a[3..], fa[1..])) + Oriented(b, fb);
        Oriented(a, fa) + Oriented(b, fb);
      }
    } else {
      assert a + b == b && fa + fb == fb;
    }
  }

  /** The index list once the first `t` triangles have been oriented. */
  ghost function PartlyOriented(orig: seq<int>, flips: seq<bool>, t: nat): seq<int>
    requires |orig| == 3 * |flips| && t <= |flips|
  {
    Oriented(orig[..3 * t], flips[..t]) + orig[3 * t..]
  }

  /** `s` with positions `i` and `i + 1` exchanged when `flip`. */
  function SwapFirstTwo(s: seq<int>, i: int, flip: bool): (r: seq<int>)
    requires 0 <= i && i + 1 < |s|
    ensures |r| == |s|
  {
    if flip then s[i := s[i + 1]][i + 1 := s[i]] else s
  }

  /** A single triangle is oriented by `OrientedTriangle`. */
  lemma OrientedSingle(block: seq<int>, flip: bool)
    requires |block| == 3
    ensures Oriented(block, [flip]) == OrientedTriangle(block, flip)
  {
    assert block[3..] == [] && [flip][1..] == [];
  }

  /** Orienting one more triangle appends its oriented form. */
  lemma {:induction false} OrientedSnoc(orig: seq<int>, flips: seq<bool>, t: nat)
    requires |orig| == 3 * |flips| && t < |flips|
    ensures Oriented(orig[..3 * t + 3], flips[..t + 1]) ==
      Oriented(orig[..3 * t], flips[..t]) + OrientedTriangle(orig[3 * t..], flips[t])
  {
    var i := 3 * t;
    var block := orig[i..i + 3];
    assert orig[..i + 3] == orig[..i] + block;
    assert flips[..t + 1] == flips[..t] + [flips[t]];
    OrientedAppend(orig[..i], flips[..t], block, [flips[t]]);
    OrientedSingle(block, flips[t]);
    assert block[..3] == orig[i..][..3];
  }

  /** Orienting the triangle that starts right after `done` is the swap of
      its first two indices. */
  lemma {:induction false} OrientedTriangleIsSwap(done: seq<int>, rest: seq<int>, flip: bool)
    requires |rest| >= 3
    ensures done + OrientedTriangle(rest, flip) + rest[3..] == SwapFirstTwo(done + rest, |done|, flip)
  {
    var lhs := done + OrientedTriangle(rest, flip) + rest[3..];
    var rhs := SwapFirstTwo(done + rest, |done|, flip);
    forall k | 0 <= k < |lhs|
      ensures lhs[k] == rhs[k]
    {
      if k < |done| {
      } else if k < |done| + 3 {
      } else {
        assert lhs[k] == rest[k - |done|];
      }
    }
  }

  /** Orienting triangle `t` is one swap in the partly oriented list. */
  lemma {:induction false} OrientStep(orig: seq<int>, flips: seq<bool>, t: nat)
    requires |orig| == 3 * |flips| && t < |flips|
    ensures PartlyOriented(orig, flips, t + 1) == SwapFirstTwo(PartlyOriented(orig, flips, t), 3 * t, flips[t])
  {
    var done := Oriented(orig[..3 * t], flips[..t]);
    OrientedSnoc(orig, flips, t);
    OrientedTriangleIsSwap(done, orig[3 * t..], flips[t]);
    assert orig[3 * t..][3..] == orig[3 * t + 3..];
  }

  /** The orientation pass, in place on the index array. */
  method OrientTriangles(a: array<int>, flips: seq<bool>)
    requires a.Length == 3 * |flips|
    modifies a
    ensures a[..] == Oriented(old(a[..]), flips)
  {
    ghost var orig := a[..];
    var i, t := 0, 0;
    assert PartlyOriented(orig, flips, 0) == orig;
    while i < a.Length
      invariant i == 3 * t && 0 <= t <= |flips|
      invariant a[..] == PartlyOriented(orig, flips, t)
    {
      OrientStep(orig, flips, t);
      OrientOne(a, i, flips[t]);
      i, t := i + 3, t + 1;
    }
    assert orig[..i] == orig && flips[..t] == flips;
  }

  /** The body of the orientation loop: swaps the first two indices of the
      triangle starting at `i` when `flip`. */
  method OrientOne(a: array<int>, i: int, flip: bool)
    requires 0 <= i && i + 1 < a.Length
    modifies a
    ensures a[..] == SwapFirstTwo(old(a[..]), i, flip)
  {
    if flip {
      a[i], a[i + 1] := a[i + 1], a[i];
    }
  }

  /** Orienting keeps every index in range. */
  lemma {:induction false} OrientedKeepsRange(indices: seq<int>, flips: seq<bool>, n: int)
    requires |indices| == 3 * |flips| && ValidIndices(indices, n)
    ensures ValidIndices(Oriented(indices, flips), n)
    decreases |flips|
  {
    if |flips| > 0 {
      OrientedKeepsRange(indices[3..], flips[1..], n);
    }
  }

  /** The edges of a single triangle. */
  lemma TriangleEdges(tri: seq<int>)
    requires |tri| == 3
    ensures Edges(tri) == TriEdges(tri[0], tri[1], tri[2])
  {
    assert tri[..0] == [];
  }

  /** Swapping two corners of a triangle keeps its edges. */
  lemma OrientedTriangleEdges(indices: seq<int>, flip: bool)
    requires |indices| >= 3
    ensures Edges(OrientedTriangle(indices, flip)) == Edges(indices[..3])
  {
    var head := OrientedTriangle(indices, flip);
    TriangleEdges(head);
    TriangleEdges(indices[..3]);
  }

  /** Orienting does not change which edges the triangles have. */
  lemma {:induction false} OrientedKeepsEdges(indices: seq<int>, flips: seq<bool>)
    requires |indices| == 3 * |flips|
    ensures Edges(Oriented(indices, flips)) == Edges(indices)
    decreases |flips|
  {
    if |flips| > 0 {
      var head := OrientedTriangle(indices, flips[0]);
      var tail := Oriented(indices[3..], flips[1..]);
      OrientedKeepsEdges(indices[3..], flips[1..]);
      OrientedTriangleEdges(indices, flips[0]);
      EdgesAppend(head, tail, |flips| - 1);
      EdgesAppend(indices[..3], indices[3..], |flips| - 1);
      assert indices == indices[..3] + indices[3..];
    }
  }

  /** Orienting twice with the same decisions restores the original list. */
  lemma {:induction false} OrientedTwice(indices: seq<int>, flips: seq<bool>)
    requires |indices| == 3 * |flips|
    ensures Oriented(Oriented(indices, flips), flips) == indices
    decreases |flips|
  {
    if |flips| > 0 {
      var r := Oriented(indices, flips);
      OrientedTwice(indices[3..], flips[1..]);
      assert r[3..] == Oriented(indices[3..], flips[1..]);
      assert indices == indices[..3] + indices[3..];
    }
  }

  // ---------------------------------------------------------------------
  // One subdivision level

  /** The four children of triangle (a, b, c) with edge midpoints m0 on
      (a, b), m1 on (b, c) and m2 on (c, a), in the order they are pushed;
      each child keeps the parent's winding. */
  function Children(a: int, b: int, c: int, m0: int, m1: int, m2: int): seq<int> {
    [a, m0, m2, m0, b, m1, m2, m0, m1, m2, m1, c]
  }

  /** Block t of the new index list holds the children of triangle t. */
  ghost predicate SplitsInto(indices: seq<int>, next: seq<int>, mids: map<(int, int), int>, t: int)
    requires 0 <= t && 3 * t + 3 <= |indices| && 12 * t + 12 <= |next|
  {
    var a, b, c := indices[3 * t], indices[3 * t + 1], indices[3 * t + 2];
    Undirected(a, b) in mids && Undirected(b, c) in mids && Undirected(c, a) in mids &&
    next[12 * t..12 * t + 12] ==
      Children(a, b, c, mids[Undirected(a, b)], mids[Undirected(b, c)], mids[Undirected(c, a)])
  }

  /** An edge key between two old vertices is present in `mapnewinds`
      exactly when its undirected edge has a midpoint, and then maps to it. */
  ghost predicate KeysMatch(keys: map<nat, int>, mids: map<(int, int), int>, base: nat) {
    forall a: nat, b: nat :: a < base && b < base ==>
      (EdgeKey(a, b) in keys <==> Undirected(a, b) in mids) &&
      (EdgeKey(a, b) in keys ==> keys[EdgeKey(a, b)] == mids[Undirected(a, b)])
  }

  /** Every midpoint is a new vertex that records its edge. */
  ghost predicate MidsRecorded(mids: map<(int, int), int>, vertices: seq<Vertex>, base: nat) {
    base <= |vertices| && |vertices| == base + |mids| &&
    forall e | e in mids ::
      0 <= e.0 <= e.1 < base && base <= mids[e] < |vertices| && vertices[mids[e]] == Midpoint(e.0, e.1)
  }

  /** How `mapnewinds` relates to the midpoints created so far. */
  ghost predicate Registry(keys: map<nat, int>, mids: map<(int, int), int>, vertices: seq<Vertex>, base: nat) {
    KeysMatch(keys, mids, base) && MidsRecorded(mids, vertices, base)
  }

  /** Registering a new edge under both of its directed keys. */
  lemma KeysMatchInsert(keys: map<nat, int>, mids: map<(int, int), int>, base: nat, a: nat, b: nat, index: int)
    requires base <= Two32 && a < base && b < base
    requires KeysMatch(keys, mids, base) && EdgeKey(a, b) !in keys
    ensures KeysMatch(keys[EdgeKey(a, b) := index][EdgeKey(b, a) := index], mids[Undirected(a, b) := index], base)
  {
    var keys' := keys[EdgeKey(a, b) := index][EdgeKey(b, a) := index];
    var mids' := mids[Undirected(a, b) := index];
    forall c: nat, d: nat | c < base && d < base
      ensures (EdgeKey(c, d) in keys' <==> Undirected(c, d) in mids') &&
              (EdgeKey(c, d) in keys' ==> keys'[EdgeKey(c, d)] == mids'[Undirected(c, d)])
    {
      EdgeKeyInjective(c, d, a, b);
      EdgeKeyInjective(c, d, b, a);
      UndirectedSame(c, d, a, b);
    }
  }

  lemma MidsRecordedInsert(mids: map<(int, int), int>, vertices: seq<Vertex>, base: nat, a: int, b: int)
    requires MidsRecorded(mids, vertices, base) && 0 <= a < base && 0 <= b < base
    requires Undirected(a, b) !in mids
    ensures var e := Undirected(a, b);
      MidsRecorded(mids[e := |vertices|], vertices + [Midpoint(e.0, e.1)], base)
  {
    var e := Undirected(a, b);
    var v' := vertices + [Midpoint(e.0, e.1)];
    var m' := mids[e := |vertices|];
    assert |m'| == |mids| + 1;
    forall f | f in m'
      ensures 0 <= f.0 <= f.1 < base && base <= m'[f] < |v'| && v'[m'[f]] == Midpoint(f.0, f.1)
    {
      if f != e {
        assert v'[mids[f]] == vertices[mids[f]];
      }
    }
  }

  /** A key found in `mapnewinds` names the midpoint of its edge. */
  lemma RegistryFound(keys: map<nat, int>, mids: map<(int, int), int>, vertices: seq<Vertex>, base: nat, a: nat, b: nat)
    requires Registry(keys, mids, vertices, base) && a < base && b < base && EdgeKey(a, b) in keys
    ensures Undirected(a, b) in mids && keys[EdgeKey(a, b)] == mids[Undirected(a, b)]
    ensures base <= keys[EdgeKey(a, b)] < |vertices|
  {
  }

  /** A key missing from `mapnewinds` is an edge without a midpoint, and
      registering one keeps the registry. */
  lemma RegistryInsert(keys: map<nat, int>, mids: map<(int, int), int>, vertices: seq<Vertex>, base: nat, a: nat, b: nat)
    requires base < Two32 && a < base && b < base
    requires Registry(keys, mids, vertices, base) && EdgeKey(a, b) !in keys
    ensures Undirected(a, b) !in mids
    ensures var e, index := Undirected(a, b), |vertices|;
      Registry(keys[EdgeKey(a, b) := index][SwapKey(EdgeKey(a, b)) := index], mids[e := index],
               vertices + [Midpoint(e.0, e.1)], base)
  {
    SwapKeyReverses(a, b);
    KeysMatchInsert(keys, mids, base, a, b, |vertices|);
    MidsRecordedInsert(mids, vertices, base, a, b);
  }

  /** One pass of the inner `j` loop: look up the key of edge (a, b); when
      absent, push a midpoint vertex and register it under both directed
      keys. */
  method MidpointIndex(vertices: seq<Vertex>, keys: map<nat, int>, ghost mids: map<(int, int), int>, ghost base: nat, a: int, b: int)
    returns (vertices': seq<Vertex>, keys': map<nat, int>, ghost mids': map<(int, int), int>, index: int)
    requires base < Two32 && 0 <= a < base && 0 <= b < base
    requires Registry(keys, mids, vertices, base)
    ensures Registry(keys', mids', vertices', base)
    ensures |vertices'| >= |vertices| && vertices'[..|vertices|] == vertices
    ensures mids'.Keys == mids.Keys + {Undirected(a, b)}
    ensures forall e | e in mids :: mids'[e] == mids[e]
    ensures index == mids'[Undirected(a, b)] && base <= index < |vertices'|
  {
    var key := EdgeKey(a, b);
    if key in keys {
      RegistryFound(keys, mids, vertices, base, a, b);
      return vertices, keys, mids, keys[key];
    }
    vertices', keys', mids', index := RegisterMidpoint(vertices, keys, mids, base, a, b);
  }

  /** The absent-key branch of `MidpointIndex`: the new vertex is pushed at
      the end and both directed keys name it. */
  method RegisterMidpoint(vertices: seq<Vertex>, keys: map<nat, int>, ghost mids: map<(int, int), int>, ghost base: nat, a: nat, b: nat)
    returns (vertices': seq<Vertex>, keys': map<nat, int>, ghost mids': map<(int, int), int>, index: int)
    requires base < Two32 && a < base && b < base
    requires Registry(keys, mids, vertices, base) && EdgeKey(a, b) !in keys
    ensures Registry(keys', mids', vertices', base)
    ensures vertices' == vertices + [Midpoint(Undirected(a, b).0, Undirected(a, b).1)]
    ensures mids' == mids[Undirected(a, b) := |vertices|] && Undirected(a, b) !in mids
    ensures index == |vertices|
  {
    RegistryInsert(keys, mids, vertices, base, a, b);
    index := |vertices|;
    var key := EdgeKey(a, b);
    keys' := keys[key := index][SwapKey(key) := index];
    var e := Undirected(a, b);
    mids' := mids[e := index];
    vertices' := vertices + [Midpoint(e.0, e.1)];
  }

  /** Blocks already written stay split the same way when the index list
      grows and more midpoints are registered. */
  lemma SplitsKept(indices: seq<int>, ni0: seq<int>, ni: seq<int>, mids0: map<(int, int), int>, mids: map<(int, int), int>, n: nat)
    requires 3 * n <= |indices| && 12 * n <= |ni0| <= |ni| && ni[..|ni0|] == ni0
    requires forall e | e in mids0 :: e in mids && mids[e] == mids0[e]
    requires forall t :: 0 <= t < n ==> SplitsInto(indices, ni0, mids0, t)
    ensures forall t :: 0 <= t < n ==> SplitsInto(indices, ni, mids, t)
  {
    forall t | 0 <= t < n
      ensures SplitsInto(indices, ni, mids, t)
    {
      assert SplitsInto(indices, ni0, mids0, t);
      SliceOfPrefix(ni0, ni, 12 * t, 12 * t + 12);
    }
  }

  /** A slice within a prefix is a slice of the whole. */
  lemma SliceOfPrefix<T>(p: seq<T>, s: seq<T>, lo: int, hi: int)
    requires 0 <= lo <= hi <= |p| <= |s| && s[..|p|] == p
    ensures s[lo..hi] == p[lo..hi]
  {
    forall k | lo <= k < hi
      ensures s[k] == p[k]
    {
      assert s[..|p|][k] == s[k];
    }
  }

  /** The edges of the first `t + 1` triangles. */
  lemma EdgesStep(indices: seq<int>, t: nat)
    requires 3 * t + 3 <= |indices|
    ensures Edges(indices[..3 * t + 3]) ==
      Edges(indices[..3 * t]) + TriEdges(indices[3 * t], indices[3 * t + 1], indices[3 * t + 2])
  {
    assert indices[..3 * t + 3][..3 * t] == indices[..3 * t];
  }

  lemma AppendedBlock(x: seq<int>, y: seq<int>)
    ensures (x + y)[|x|..|x| + |y|] == y
  {
  }

  lemma KeysGrow<K>(k0: set<K>, k1: set<K>, k2: set<K>, k3: set<K>, e0: K, e1: K, e2: K)
    requires k1 == k0 + {e0} && k2 == k1 + {e1} && k3 == k2 + {e2}
    ensures k3 == k0 + {e0, e1, e2}
  {
  }

  lemma PrefixOfPrefix<T>(v: seq<T>, v0: seq<T>, v1: seq<T>)
    requires |v| <= |v0| && v0[..|v|] == v
    requires |v0| <= |v1| && v1[..|v0|] == v0
    ensures v1[..|v|] == v
  {
    assert v1[..|v|] == v1[..|v0|][..|v|];
  }

  lemma ChildrenValid(a: int, b: int, c: int, m0: int, m1: int, m2: int, n: int)
    requires 0 <= a < n && 0 <= b < n && 0 <= c < n
    requires 0 <= m0 < n && 0 <= m1 < n && 0 <= m2 < n
    ensures ValidIndices(Children(a, b, c, m0, m1, m2), n)
  {
  }

  lemma ChildrenInRange(ni: seq<int>, children: seq<int>, n0: int, n: int)
    requires ValidIndices(ni, n0) && n0 <= n && ValidIndices(children, n)
    ensures ValidIndices(ni + children, n)
  {
  }

  /** The body of the outer loop for one triangle (a, b, c): find or
      create the three edge midpoints and build the four children. */
  method SplitTriangle(vertices: seq<Vertex>, keys: map<nat, int>, ghost mids: map<(int, int), int>, ghost base: nat, a: int, b: int, c: int)
    returns (vertices': seq<Vertex>, keys': map<nat, int>, ghost mids': map<(int, int), int>, children: seq<int>)
    requires base < Two32 && 0 <= a < base && 0 <= b < base && 0 <= c < base
    requires Registry(keys, mids, vertices, base)
    ensures Registry(keys', mids', vertices', base)
    ensures |vertices'| >= |vertices| && vertices'[..|vertices|] == vertices
    ensures mids'.Keys == mids.Keys + TriEdges(a, b, c)
    ensures forall e | e in mids :: mids'[e] == mids[e]
    ensures children == Children(a, b, c, mids'[Undirected(a, b)], mids'[Undirected(b, c)], mids'[Undirected(c, a)])
    ensures ValidIndices(children, |vertices'|)
  {
    var m0, m1, m2;
    vertices', keys', mids', m0 := MidpointIndex(vertices, keys, mids, base, a, b);
    ghost var v1, k1 := vertices', mids'.Keys;
    vertices', keys', mids', m1 := MidpointIndex(vertices', keys', mids', base, b, c);
    ghost var v2, k2 := vertices', mids'.Keys;
    vertices', keys', mids', m2 := MidpointIndex(vertices', keys', mids', base, c, a);
    KeysGrow(mids.Keys, k1, k2, mids'.Keys, Undirected(a, b), Undirected(b, c), Undirected(c, a));
    PrefixOfPrefix(vertices, v1, v2);
    PrefixOfPrefix(vertices, v2, vertices');
    children := Children(a, b, c, m0, m1, m2);
    ChildrenValid(a, b, c, m0, m1, m2, |vertices'|);
  }

  /** Appending the children of triangle `t` extends the split blocks by one. */
  lemma SplitsStep(indices: seq<int>, ni0: seq<int>, children: seq<int>, mids0: map<(int, int), int>, mids: map<(int, int), int>, t: nat)
    requires 3 * t + 3 <= |indices| && |ni0| == 12 * t
    requires forall e | e in mids0 :: e in mids && mids[e] == mids0[e]
    requires forall u :: 0 <= u < t ==> SplitsInto(indices, ni0, mids0, u)
    requires var a, b, c := indices[3 * t], indices[3 * t + 1], indices[3 * t + 2];
      Undirected(a, b) in mids && Undirected(b, c) in mids && Undirected(c, a) in mids &&
      children == Children(a, b, c, mids[Undirected(a, b)], mids[Undirected(b, c)], mids[Undirected(c, a)])
    ensures forall u :: 0 <= u < t + 1 ==> SplitsInto(indices, ni0 + children, mids, u)
  {
    var ni := ni0 + children;
    SplitsKept(indices, ni0, ni, mids0, mids, t);
    AppendedBlock(ni0, children);
    assert SplitsInto(indices, ni, mids, t);
  }

  /** The loop invariant of `Subdivide` after `t` triangles. */
  ghost predicate Progress(vertices: seq<Vertex>, indices: seq<int>, t: nat, keys: map<nat, int>,
                           mids: map<(int, int), int>, nv: seq<Vertex>, ni: seq<int>) {
    3 * t <= |indices| &&
    Registry(keys, mids, nv, |vertices|) &&
    |vertices| <= |nv| && nv[..|vertices|] == vertices &&
    mids.Keys == Edges(indices[..3 * t]) &&
    |ni| == 12 * t && ValidIndices(ni, |nv|) &&
    forall u :: 0 <= u < t ==> SplitsInto(indices, ni, mids, u)
  }

  /** Splitting triangle `t` (the effect of `SplitTriangle`) keeps the
      invariant. */
  lemma ProgressStep(vertices: seq<Vertex>, indices: seq<int>, t: nat,
                     keys0: map<nat, int>, mids0: map<(int, int), int>, nv0: seq<Vertex>, ni0: seq<int>,
                     keys: map<nat, int>, mids: map<(int, int), int>, nv: seq<Vertex>, children: seq<int>)
    requires 3 * t + 3 <= |indices|
    requires Progress(vertices, indices, t, keys0, mids0, nv0, ni0)
    requires Registry(keys, mids, nv, |vertices|)
    requires |nv| >= |nv0| && nv[..|nv0|] == nv0
    requires var a, b, c := indices[3 * t], indices[3 * t + 1], indices[3 * t + 2];
      mids.Keys == mids0.Keys + TriEdges(a, b, c) &&
      (forall e | e in mids0 :: mids[e] == mids0[e]) &&
      children == Children(a, b, c, mids[Undirected(a, b)], mids[Undirected(b, c)], mids[Undirected(c, a)]) &&
      ValidIndices(children, |nv|)
    ensures Progress(vertices, indices, t + 1, keys, mids, nv, ni0 + children)
  {
    PrefixOfPrefix(vertices, nv0, nv);
    EdgesStep(indices, t);
    SplitsStep(indices, ni0, children, mids0, mids, t);
    ChildrenInRange(ni0, children, |nv0|, |nv|);
  }

  /** One level of `GenerateSphereTriangulation`: `mids` is the ghost
      record of which new vertex became the midpoint of each edge. */
  method Subdivide(vertices: seq<Vertex>, indices: seq<int>) returns (next: TriMesh, ghost mids: map<(int, int), int>)
    requires |indices| % 3 == 0 && ValidIndices(indices, |vertices|) && |vertices| < Two32
    ensures |next.vertices| == |vertices| + |Edges(indices)|
    ensures next.vertices[..|vertices|] == vertices
    ensures |next.indices| == 4 * |indices|
    ensures ValidIndices(next.indices, |next.vertices|)
    ensures mids.Keys == Edges(indices)
    ensures forall e | e in mids ::
      |vertices| <= mids[e] < |next.vertices| && next.vertices[mids[e]] == Midpoint(e.0, e.1)
    ensures forall t :: 0 <= t < |indices| / 3 ==> SplitsInto(indices, next.indices, mids, t)
  {
    var nv := vertices;
    var ni: seq<int> := [];
    var keys: map<nat, int> := map[];
    mids := map[];
    var n := |indices| / 3;
    var i, t := 0, 0;
    while t < n
      invariant t <= n && i == 3 * t
      invariant Progress(vertices, indices, t, keys, mids, nv, ni)
    {
      var a, b, c := indices[i], indices[i + 1], indices[i + 2];
      ghost var keys0, mids0, nv0, ni0 := keys, mids, nv, ni;
      var children;
      nv, keys, mids, children := SplitTriangle(nv, keys, mids, |vertices|, a, b, c);
      ni := ni + children;
      ProgressStep(vertices, indices, t, keys0, mids0, nv0, ni0, keys, mids, nv, children);
      i, t := i + 3, t + 1;
    }
    assert indices[..i] == indices;
    next := TriMesh(nv, ni);
  }

  // ---------------------------------------------------------------------
  // The whole triangulation

  /** The twelve icosahedron corners. */
  const Corners: seq<Vertex> := [
    Corner(0), Corner(1), Corner(2), Corner(3), Corner(4), Corner(5),
    Corner(6), Corner(7), Corner(8), Corner(9), Corner(10), Corner(11)]

  /** The 20 icosahedron triangles, in the order of the source's
      `indices` array (split in two halves of ten triangles). */
  const IcosahedronIndices: seq<int> := IcosahedronFirstHalf + IcosahedronSecondHalf

  const IcosahedronFirstHalf: seq<int> := [
    0, 1, 2,   1, 3, 4,   3, 5, 6,   2, 4, 7,   5, 6, 8,
    2, 7, 9,   0, 5, 8,   7, 9, 10,  0, 1, 5,   7, 10, 11]

  const IcosahedronSecondHalf: seq<int> := [
    1, 3, 5,   6, 10, 11, 3, 6, 11,  9, 10, 8,  3, 4, 11,
    6, 8, 10,  4, 7, 11,  1, 2, 4,   0, 8, 9,   0, 2, 9]

  /** Every icosahedron index names one of the twelve corners. */
  lemma IcosahedronInRange()
    ensures |IcosahedronIndices| == 60 && ValidIndices(IcosahedronIndices, 12)
  {
    FirstHalfInRange();
    SecondHalfInRange();
    ValidIndicesAppend(IcosahedronFirstHalf, IcosahedronSecondHalf, 12);
  }

  lemma FirstHalfInRange()
    ensures |IcosahedronFirstHalf| == 30 && ValidIndices(IcosahedronFirstHalf, 12)
  {
  }

  lemma SecondHalfInRange()
    ensures |IcosahedronSecondHalf| == 30 && ValidIndices(IcosahedronSecondHalf, 12)
  {
  }

  lemma ValidIndicesAppend(a: seq<int>, b: seq<int>, n: int)
    requires ValidIndices(a, n) && ValidIndices(b, n)
    ensures ValidIndices(a + b, n)
  {
    forall k | 0 <= k < |a + b|
      ensures 0 <= (a + b)[k] < n
    {
      if k >= |a| {
        assert (a + b)[k] == b[k - |a|];
      }
    }
  }

  function Pow4(k: nat): (p: nat)
    ensures p >= 1
  {
    if k == 0 then 1 else 4 * Pow4(k - 1)
  }

  lemma {:induction false} Pow4Monotonic(k: nat, n: nat)
    requires k <= n
    ensures Pow4(k) <= Pow4(n)
    decreases n
  {
    if k < n {
      Pow4Monotonic(k, n - 1);
    }
  }

  lemma Pow4Thirteen()
    ensures Pow4(13) == 0x400_0000
  {
  }

  /** One level multiplies the index count by four and adds at most one
      vertex per index, which keeps the vertex-count bound. */
  lemma LevelBounds(d: nat, nv: nat, ni: nat, ne: nat)
    requires ni == 60 * Pow4(d) && nv <= 12 + 20 * (Pow4(d) - 1) && ne <= ni
    ensures 4 * ni == 60 * Pow4(d + 1) && nv + ne <= 12 + 20 * (Pow4(d + 1) - 1)
  {
  }

  /** The mesh before the first level: the twelve corners and the 20
      icosahedron triangles after the orientation pass. */
  method InitialMesh(flips: seq<bool>) returns (mesh: TriMesh)
    requires |flips| == 20
    ensures mesh == TriMesh(Corners, Oriented(IcosahedronIndices, flips))
    ensures |mesh.indices| == 60 && ValidIndices(mesh.indices, 12)
  {
    var a := new int[60](i requires 0 <= i < 60 => IcosahedronIndices[i]);
    assert a[..] == IcosahedronIndices;
    IcosahedronInRange();
    OrientTriangles(a, flips);
    OrientedKeepsRange(IcosahedronIndices, flips, 12);
    mesh := TriMesh(Corners, a[..]);
  }

  /** The mesh after `done` levels. */
  ghost predicate LevelMesh(mesh: TriMesh, done: nat) {
    |mesh.indices| == 60 * Pow4(done) && |mesh.vertices| <= 12 + 20 * (Pow4(done) - 1) &&
    ValidIndices(mesh.indices, |mesh.vertices|) &&
    |mesh.vertices| >= 12 && mesh.vertices[..12] == Corners
  }

  /** The body of the level loop: one subdivision, which fits the source's
      `int` indices while at most 13 levels are made. */
  method NextLevel(cur: TriMesh, ghost done: nat) returns (next: TriMesh)
    requires done < 13 && LevelMesh(cur, done)
    ensures LevelMesh(next, done + 1)
  {
    Pow4Monotonic(done, 12);
    Pow4Thirteen();
    EdgesBound(cur.indices);
    ghost var mids;
    next, mids := Subdivide(cur.vertices, cur.indices);
    LevelBounds(done, |cur.vertices|, |cur.indices|, |Edges(cur.indices)|);
    PrefixOfPrefix(Corners, cur.vertices, next.vertices);
  }

  /** `GenerateSphereTriangulation(tri, levels)`. `flips` are the outcomes
      of the counter-clockwise test on the 20 icosahedron triangles.
      Beyond 13 levels the vertex count no longer fits in the source's
      `int` indices. */
  method GenerateSphereTriangulation(levels: int, flips: seq<bool>) returns (mesh: TriMesh)
    requires |flips| == 20 && levels <= 13
    ensures var l := if levels > 0 then levels else 0;
      |mesh.indices| == 60 * Pow4(l) && |mesh.vertices| <= 12 + 20 * (Pow4(l) - 1)
    ensures |mesh.vertices| < 0x8000_0000
    ensures ValidIndices(mesh.indices, |mesh.vertices|)
    ensures |mesh.vertices| >= 12 && mesh.vertices[..12] == Corners
  {
    var cur := InitialMesh(flips);
    assert cur.vertices[..12] == Corners;
    var done := 0;
    var remaining := levels;
    while remaining > 0
      invariant levels <= 0 ==> done == 0 && remaining == levels
      invariant levels > 0 ==> 0 <= remaining && done == levels - remaining
      invariant 0 <= done <= 13
      invariant LevelMesh(cur, done)
    {
      remaining := remaining - 1;
      cur := NextLevel(cur, done);
      done := done + 1;
    }
    Pow4Monotonic(done, 13);
    Pow4Thirteen();
    mesh := cur;
  }
}
