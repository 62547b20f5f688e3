/** The face list that `_ComputeConvexHull` builds from qhull's facets, and
    the two walks `ConvexHull` makes over it: counting triangles and
    emitting one triangle fan per face. qhull itself and the angle sort
    that orders a face's vertices are not modelled: the facets and the
    sorted orders are inputs. */
module HullFaces {
  import opened Options

  /** What qhull reports for one facet: its vertex ids (when it has a
      vertex set), and its normal and offset (when it has a normal). */
  datatype Facet = Facet(vertices: Option<seq<int>>, normal: Option<seq<real>>, offset: real)

  /** One run of qhull on `dim`-dimensional points: a non-zero exit code,
      or the facets of the hull and its total volume. */
  datatype HullRun = QhullFailed(exitcode: int) | Hull(facets: seq<Facet>, volume: real)

  /** What the model assumes of qhull: it only succeeds on points of
      dimension at least 2, and gives every normal that dimension. */
  ghost predicate QhullContract(qhull: (seq<real>, int) -> HullRun) {
    forall points, dim :: qhull(points, dim).Hull? ==> dim >= 2 && NormalsHaveDim(qhull(points, dim).facets, dim)
  }

  // ---------------------------------------------------------------------
  // The face-list format

  /** One face record: the vertex count, then the vertex ids. */
  function Record(face: seq<int>): seq<int> {
    [|face|] + face
  }

  function Records(faces: seq<seq<int>>): seq<int>
    decreases |faces|
  {
    if |faces| == 0 then [] else Record(faces[0]) + Records(faces[1..])
  }

  /** The whole list: the number of faces, then one record per face. */
  function EncodeFaces(faces: seq<seq<int>>): (r: seq<int>)
    ensures |r| >= 1 && r[0] == |faces|
  {
    [|faces|] + Records(faces)
  }

  /** Reads records until the list is used up; `None` when a count is
      negative or runs past the end of the list. */
  function DecodeRecords(list: seq<int>): Option<seq<seq<int>>>
    decreases |list|
  {
    if |list| == 0 then Some([])
    else if list[0] < 0 || |list| - 1 < list[0] then None
    else match DecodeRecords(list[1 + list[0]..])
      case None => None
      case Some(rest) => Some([list[1..1 + list[0]]] + rest)
  }

  /** Reads a face list; `None` unless the records parse and their number
      is the leading count. */
  function DecodeFaces(list: seq<int>): Option<seq<seq<int>>> {
    if |list| == 0 then None
    else match DecodeRecords(list[1..])
      case Some(faces) => if list[0] == |faces| then Some(faces) else None
      case None => None
  }

  lemma {:induction false} DecodeRecordsOfRecords(faces: seq<seq<int>>)
    ensures DecodeRecords(Records(faces)) == Some(faces)
    decreases |faces|
  {
    if |faces| > 0 {
      var list := Records(faces);
      DecodeRecordsOfRecords(faces[1..]);
      assert list[1 + |faces[0]|..] == Records(faces[1..]);
      assert list[1..1 + |faces[0]|] == faces[0];
      assert faces == [faces[0]] + faces[1..];
    }
  }

  lemma {:induction false} RecordsOfDecodeRecords(list: seq<int>, faces: seq<seq<int>>)
    requires DecodeRecords(list) == Some(faces)
    ensures Records(faces) == list
    decreases |list|
  {
    if |list| > 0 {
      var n := list[0];
      var rest := DecodeRecords(list[1 + n..]).value;
      RecordsOfDecodeRecords(list[1 + n..], rest);
      assert faces[0] == list[1..1 + n] && faces[1..] == rest;
      assert list == [n] + list[1..1 + n] + list[1 + n..];
    }
  }

  /** Decoding an encoded list gives the faces back. */
  lemma DecodeEncode(faces: seq<seq<int>>)
    ensures DecodeFaces(EncodeFaces(faces)) == Some(faces)
  {
    DecodeRecordsOfRecords(faces);
    assert EncodeFaces(faces)[1..] == Records(faces);
  }

  /** A list that decodes is the encoding of what it decodes to. */
  lemma EncodeDecode(list: seq<int>)
    requires DecodeFaces(list).Some?
    ensures EncodeFaces(DecodeFaces(list).value) == list
  {
    RecordsOfDecodeRecords(list[1..], DecodeFaces(list).value);
    assert list == [list[0]] + list[1..];
  }

  lemma {:induction false} RecordsAppend(a: seq<seq<int>>, b: seq<seq<int>>)
    ensures Records(a + b) == Records(a) + Records(b)
    decreases |a|
  {
    if |a| > 0 {
      RecordsAppend(a[1..], b);
      assert (a + b)[1..] == a[1..] + b;
    } else {
      assert a + b == b;
    }
  }

  // ---------------------------------------------------------------------
  // Building the lists from qhull's facets

  /** The faces of the facets that have a vertex set, in facet order. */
  function FacesOf(facets: seq<Facet>): seq<seq<int>>
    decreases |facets|
  {
    if |facets| == 0 then []
    else
      var last := facets[|facets| - 1];
      FacesOf(facets[..|facets| - 1]) + (if last.vertices.Some? then [last.vertices.value] else [])
  }

  /** qhull gives every normal `dim` coordinates. */
  predicate NormalsHaveDim(facets: seq<Facet>, dim: int) {
    forall k :: 0 <= k < |facets| && facets[k].normal.Some? ==> |facets[k].normal.value| == dim
  }

  /** The planes of the facets that have a normal: the normal's `dim`
      coordinates followed by the offset, in facet order. */
  function PlanesOf(facets: seq<Facet>): seq<real>
    decreases |facets|
  {
    if |facets| == 0 then []
    else
      var last := facets[|facets| - 1];
      PlanesOf(facets[..|facets| - 1]) + (if last.normal.Some? then last.normal.value + [last.offset] else [])
  }

  /** The number of facets that have a normal. */
  function NormalCount(facets: seq<Facet>): nat
    decreases |facets|
  {
    if |facets| == 0 then 0
    else NormalCount(facets[..|facets| - 1]) + (if facets[|facets| - 1].normal.Some? then 1 else 0)
  }

  /** Each facet with a normal contributes one plane of `dim + 1` values. */
  lemma {:induction false} PlanesOfLength(facets: seq<Facet>, dim: int)
    requires NormalsHaveDim(facets, dim)
    ensures |PlanesOf(facets)| == NormalCount(facets) * (dim + 1)
    decreases |facets|
  {
    if |facets| > 0 {
      var n := |facets| - 1;
      assert NormalsHaveDim(facets[..n], dim);
      PlanesOfLength(facets[..n], dim);
      if facets[n].normal.Some? {
        assert |facets[n].normal.value| == dim;
      }
    }
  }

  /** The `FORALLfacets` loop of `_ComputeConvexHull` after a successful
      qhull run: `wantFaces` says whether a face vector was passed in. */
  method BuildHullLists(facets: seq<Facet>, dim: int, wantFaces: bool) returns (planes: seq<real>, faces: Option<seq<int>>)
    requires NormalsHaveDim(facets, dim)
    ensures planes == PlanesOf(facets)
    ensures faces == if wantFaces then Some(EncodeFaces(FacesOf(facets))) else None
  {
    planes := [];
    var list: seq<int> := [];
    if wantFaces {
      list := [0];
    }
    var k := 0;
    while k < |facets|
      invariant 0 <= k <= |facets|
      invariant planes == PlanesOf(facets[..k])
      invariant list == if wantFaces then EncodeFaces(FacesOf(facets[..k])) else []
    {
      var f := facets[k];
      FacetStep(facets, k);
      if wantFaces && f.vertices.Some? {
        ghost var before := list;
        var start := |list|;
        list := list + [0];
        var ids := f.vertices.value;
        var j := 0;
        while j < |ids|
          invariant 0 <= j <= |ids| && list == before + [0] + ids[..j]
        {
          list := list + [ids[j]];
          j := j + 1;
        }
        assert ids[..j] == ids;
        list := list[start := |list| - start - 1];
        list := list[0 := list[0] + 1];
        AppendRecord(FacesOf(facets[..k]), ids, before, list);
        assert list == EncodeFaces(FacesOf(facets[..k + 1]));
      } else if wantFaces {
        assert FacesOf(facets[..k + 1]) == FacesOf(facets[..k]);
      }
      if f.normal.Some? {
        var normal := f.normal.value;
        assert |normal| == dim;
        ghost var before := planes;
        var i := 0;
        while i < dim
          invariant 0 <= i <= dim && planes == before + normal[..i]
        {
          planes := planes + [normal[i]];
          i := i + 1;
        }
        planes := planes + [f.offset];
      }
      k := k + 1;
    }
    assert facets[..k] == facets;
    faces := if wantFaces then Some(list) else None;
  }

  lemma FacetStep(facets: seq<Facet>, k: nat)
    requires k < |facets|
    ensures FacesOf(facets[..k + 1]) ==
      FacesOf(facets[..k]) + (if facets[k].vertices.Some? then [facets[k].vertices.value] else [])
    ensures PlanesOf(facets[..k + 1]) ==
      PlanesOf(facets[..k]) + (if facets[k].normal.Some? then facets[k].normal.value + [facets[k].offset] else [])
  {
    assert facets[..k + 1][..k] == facets[..k];
  }

  /** Pushing one record and bumping the count gives the encoding of one
      more face. */
  lemma AppendRecord(faces: seq<seq<int>>, ids: seq<int>, before: seq<int>, after: seq<int>)
    requires before == EncodeFaces(faces)
    requires after == (before + [0] + ids)[|before| := |ids|][0 := |faces| + 1]
    ensures after == EncodeFaces(faces + [ids])
  {
    RecordsAppend(faces, [ids]);
    assert Records([ids]) == Record(ids);
  }

  // ---------------------------------------------------------------------
  // Counting triangles

  /** Faces `0..k` counted at n - 2 triangles for a face of n vertices. */
  function TrianglesUpTo(faces: seq<seq<int>>, k: nat): int
    requires k <= |faces|
  {
    if k == 0 then 0 else TrianglesUpTo(faces, k - 1) + |faces[k - 1]| - 2
  }

  function TriangleTotal(faces: seq<seq<int>>): int {
    TrianglesUpTo(faces, |faces|)
  }

  /** The first `faceindex` walk of `ConvexHull`, over a face list as
      `_ComputeConvexHull` produces it. */
  method CountTriangles(list: seq<int>) returns (count: int)
    requires DecodeFaces(list).Some?
    ensures count == TriangleTotal(DecodeFaces(list).value)
  {
    ghost var faces := DecodeFaces(list).value;
    var faceindex := 1;
    ghost var k := 0;
    count := 0;
    while faceindex < |list|
      invariant 1 <= faceindex <= |list| && 0 <= k <= |faces|
      invariant DecodeRecords(list[faceindex..]) == Some(faces[k..])
      invariant count == TrianglesUpTo(faces, k)
      decreases |list| - faceindex
    {
      DecodeStep(list, faceindex, faces, k);
      count := count + list[faceindex] - 2;
      faceindex := faceindex + list[faceindex] + 1;
      k := k + 1;
    }
    DecodedAll(list, faceindex, faces, k);
  }

  /** The record at `faceindex` is face `k`, and the records after it are
      the faces after `k`. */
  lemma DecodeStep(list: seq<int>, faceindex: nat, faces: seq<seq<int>>, k: nat)
    requires faceindex < |list| && k <= |faces| && DecodeRecords(list[faceindex..]) == Some(faces[k..])
    ensures k < |faces| && 0 <= list[faceindex] && faceindex + 1 + list[faceindex] <= |list|
    ensures faces[k] == list[faceindex + 1..faceindex + 1 + list[faceindex]]
    ensures DecodeRecords(list[faceindex + 1 + list[faceindex]..]) == Some(faces[k + 1..])
  {
    assert list[faceindex..][0] == list[faceindex];
    assert list[faceindex..][1 + list[faceindex]..] == list[faceindex + 1 + list[faceindex]..];
    assert |faces[k..]| > 0;
    assert faces[k..][1..] == faces[k + 1..];
  }

  /** Once the walk reaches the end of the list, every face was visited. */
  lemma DecodedAll(list: seq<int>, faceindex: nat, faces: seq<seq<int>>, k: nat)
    requires faceindex == |list| && k <= |faces| && DecodeRecords(list[faceindex..]) == Some(faces[k..])
    ensures k == |faces|
  {
    assert list[faceindex..] == [];
  }

  // ---------------------------------------------------------------------
  // Fans

  /** The result of sorting a face's vertices by angle: positions into the
      face, each position appearing. */
  predicate IsOrder(order: seq<int>, n: int) {
    |order| == n &&
    (forall i :: 0 <= i < |order| ==> 0 <= order[i] < n) &&
    (forall j :: 0 <= j < n ==> j in order)
  }

  /** The triangles `(ids[order[0]], ids[order[i-1]], ids[order[i]])` for
      `2 <= i < m`. */
  function FanPrefix(ids: seq<int>, order: seq<int>, m: nat): seq<int>
    requires m <= |order| && forall i :: 0 <= i < |order| ==> 0 <= order[i] < |ids|
    decreases m
  {
    if m < 3 then []
    else FanPrefix(ids, order, m - 1) + [ids[order[0]], ids[order[m - 2]], ids[order[m - 1]]]
  }

  /** The fan triangulation of one face. */
  function Fan(ids: seq<int>, order: seq<int>): seq<int>
    requires IsOrder(order, |ids|)
  {
    FanPrefix(ids, order, |order|)
  }

  /** A fan over m sorted vertices has m - 2 triangles. */
  lemma {:induction false} FanPrefixLength(ids: seq<int>, order: seq<int>, m: nat)
    requires m <= |order| && forall i :: 0 <= i < |order| ==> 0 <= order[i] < |ids|
    ensures |FanPrefix(ids, order, m)| == if m < 2 then 0 else 3 * (m - 2)
    decreases m
  {
    if m >= 3 {
      FanPrefixLength(ids, order, m - 1);
    }
  }

  /** Triangle t of a fan is the apex `ids[order[0]]` followed by the
      consecutive sorted vertices t + 1 and t + 2. */
  lemma {:induction false} FanPrefixTriangle(ids: seq<int>, order: seq<int>, m: nat, t: nat)
    requires m <= |order| && forall i :: 0 <= i < |order| ==> 0 <= order[i] < |ids|
    requires 3 * t + 2 < |FanPrefix(ids, order, m)|
    ensures t + 2 < m
    ensures FanPrefix(ids, order, m)[3 * t] == ids[order[0]]
    ensures FanPrefix(ids, order, m)[3 * t + 1] == ids[order[t + 1]]
    ensures FanPrefix(ids, order, m)[3 * t + 2] == ids[order[t + 2]]
    decreases m
  {
    FanPrefixLength(ids, order, m);
    FanPrefixLength(ids, order, m - 1);
    if t + 3 < m {
      FanPrefixTriangle(ids, order, m - 1, t);
    }
  }

  /** Every vertex of a face with at least three vertices is a corner of
      one of its fan's triangles, and the fan uses no other ids. */
  lemma FanCoversFace(ids: seq<int>, order: seq<int>)
    requires IsOrder(order, |ids|) && |ids| >= 3
    ensures forall x :: x in Fan(ids, order) <==> x in ids
  {
    var r := Fan(ids, order);
    FanPrefixLength(ids, order, |order|);
    forall x | x in ids
      ensures x in r
    {
      var j :| 0 <= j < |ids| && ids[j] == x;
      assert j in order;
      var i :| 0 <= i < |order| && order[i] == j;
      if i < 2 {
        FanPrefixTriangle(ids, order, |order|, 0);
      } else {
        FanPrefixTriangle(ids, order, |order|, i - 2);
      }
    }
    forall x | x in r
      ensures x in ids
    {
      var k :| 0 <= k < |r| && r[k] == x;
      FanPrefixTriangle(ids, order, |order|, k / 3);
    }
  }

  /** Consecutive triangles of a fan share the edge from the apex. */
  lemma FanNeighboursShareEdge(ids: seq<int>, order: seq<int>, t: nat)
    requires IsOrder(order, |ids|) && 3 * t + 5 < |Fan(ids, order)|
    ensures Fan(ids, order)[3 * t] == Fan(ids, order)[3 * t + 3]
    ensures Fan(ids, order)[3 * t + 2] == Fan(ids, order)[3 * t + 4]
  {
    FanPrefixTriangle(ids, order, |order|, t);
    FanPrefixTriangle(ids, order, |order|, t + 1);
  }

  /** Every face has a sorted order of its own size. */
  predicate OrdersFit(faces: seq<seq<int>>, orders: seq<seq<int>>) {
    |orders| == |faces| && forall k :: 0 <= k < |faces| ==> IsOrder(orders[k], |faces[k]|)
  }

  /** The fans of faces `0..k`, in face order. */
  function FansUpTo(faces: seq<seq<int>>, orders: seq<seq<int>>, k: nat): seq<int>
    requires OrdersFit(faces, orders) && k <= |faces|
  {
    if k == 0 then [] else FansUpTo(faces, orders, k - 1) + Fan(faces[k - 1], orders[k - 1])
  }

  /** The fans of all faces, in face order. */
  function Fans(faces: seq<seq<int>>, orders: seq<seq<int>>): seq<int>
    requires OrdersFit(faces, orders)
  {
    FansUpTo(faces, orders, |faces|)
  }

  /** When every face has at least two vertices, the fans hold exactly the
      number of triangles the count announces. */
  lemma FansMatchCount(faces: seq<seq<int>>, orders: seq<seq<int>>)
    requires OrdersFit(faces, orders)
    requires forall k :: 0 <= k < |faces| ==> |faces[k]| >= 2
    ensures |Fans(faces, orders)| == 3 * TriangleTotal(faces)
  {
    FansUpToMatchCount(faces, orders, |faces|);
  }

  lemma {:induction false} FansUpToMatchCount(faces: seq<seq<int>>, orders: seq<seq<int>>, k: nat)
    requires OrdersFit(faces, orders) && k <= |faces|
    requires forall j :: 0 <= j < |faces| ==> |faces[j]| >= 2
    ensures |FansUpTo(faces, orders, k)| == 3 * TrianglesUpTo(faces, k)
  {
    if k > 0 {
      FanPrefixLength(faces[k - 1], orders[k - 1], |orders[k - 1]|);
      FansUpToMatchCount(faces, orders, k - 1);
    }
  }

  /** The inner loop of the second walk: the fan of the face whose ids
      are `list[start..start + n]`, read through `at()`. */
  method EmitFan(list: seq<int>, start: nat, n: nat, order: seq<int>) returns (fan: seq<int>)
    requires start + n <= |list| && IsOrder(order, n)
    ensures fan == Fan(list[start..start + n], order)
  {
    ghost var ids := list[start..start + n];
    fan := [];
    var i := 2;
    while i < n
      invariant 2 <= i && (n >= 2 ==> i <= n)
      invariant fan == FanPrefix(ids, order, if n < 2 then n else i)
    {
      assert list[start + order[0]] == ids[order[0]];
      assert list[start + order[i - 1]] == ids[order[i - 1]];
      assert list[start + order[i]] == ids[order[i]];
      fan := fan + [list[start + order[0]], list[start + order[i - 1]], list[start + order[i]]];
      i := i + 1;
    }
  }

  /** The second `faceindex` walk of `ConvexHull`: for each face, the fan
      over its vertices in the sorted order `orders[k]`. */
  method TriangulateFaces(list: seq<int>, orders: seq<seq<int>>) returns (tris: seq<int>)
    requires DecodeFaces(list).Some?
    requires OrdersFit(DecodeFaces(list).value, orders)
    ensures tris == Fans(DecodeFaces(list).value, orders)
  {
    ghost var faces := DecodeFaces(list).value;
    tris := [];
    var faceindex := 1;
    var k := 0;
    while faceindex < |list|
      invariant 1 <= faceindex <= |list| && 0 <= k <= |faces|
      invariant DecodeRecords(list[faceindex..]) == Some(faces[k..])
      invariant tris == FansUpTo(faces, orders, k)
      decreases |list| - faceindex
    {
      var numpoints := list[faceindex];
      DecodeStep(list, faceindex, faces, k);
      var fan := EmitFan(list, faceindex + 1, numpoints, orders[k]);
      tris := tris + fan;
      faceindex := faceindex + numpoints + 1;
      k := k + 1;
    }
    DecodedAll(list, faceindex, faces, k);
  }
}
