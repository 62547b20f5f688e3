/** The `ConvexHull` command of the grasper plug-in: parse the points, run
    qhull, then write the planes, the face list and the fan triangulation
    of every face. qhull is a parameter, and so is the angle sort that
    orders each face's vertices before the fan is emitted. */
module ConvexHullCommand {
  import opened Errors
  import opened Options
  import opened Streams
  import opened HullFaces
  import opened GrasperParsers
  import Arith

  /** One value written to the output stream. */
  datatype Token = IntToken(i: int) | RealToken(r: real)

  /** What a command gives back: its boolean result and what it wrote. */
  datatype Reply = Reply(success: bool, output: seq<Token>)

  function Ints(xs: seq<int>): (r: seq<Token>)
    ensures |r| == |xs| && forall i :: 0 <= i < |xs| ==> r[i] == IntToken(xs[i])
  {
    seq(|xs|, i requires 0 <= i < |xs| => IntToken(xs[i]))
  }

  function Reals(xs: seq<real>): (r: seq<Token>)
    ensures |r| == |xs| && forall i :: 0 <= i < |xs| ==> r[i] == RealToken(xs[i])
  {
    seq(|xs|, i requires 0 <= i < |xs| => RealToken(xs[i]))
  }

  /** The angle sort always yields an order of the face's own vertices. */
  ghost predicate SortsFaces(angleOrder: seq<int> -> seq<int>) {
    forall ids :: IsOrder(angleOrder(ids), |ids|)
  }

  /** The sorted order of every face. */
  function AngleOrders(faces: seq<seq<int>>, angleOrder: seq<int> -> seq<int>): (orders: seq<seq<int>>)
    requires SortsFaces(angleOrder)
    ensures OrdersFit(faces, orders)
  {
    seq(|faces|, k requires 0 <= k < |faces| => angleOrder(faces[k]))
  }

  /** The options `ConvexHull` runs with, or how its parse ended. */
  ghost function ParseHull(ts: seq<string>): Parsed<HullOptions> {
    HullConsumes();
    ParseSpec(ts, HullStart, HullStep)
  }

  /** What `ConvexHull` writes after a successful qhull run, up to (and
      without) the triangles: the plane count and the planes, then the
      face list, each when asked for. */
  function HullListing(o: HullOptions, facets: seq<Facet>): seq<Token>
    requires o.dim >= 0
  {
    var planes := PlanesOf(facets);
    (if o.returnPlanes then [IntToken(|planes| / (o.dim + 1))] + Reals(planes) else []) +
    (if o.returnFaces then Ints(EncodeFaces(FacesOf(facets))) else [])
  }

  /** The triangle count, then the fan of every face in its sorted order. */
  function TriangleListing(facets: seq<Facet>, angleOrder: seq<int> -> seq<int>): seq<Token>
    requires SortsFaces(angleOrder)
  {
    var faces := FacesOf(facets);
    [IntToken(TriangleTotal(faces))] + Ints(Fans(faces, AngleOrders(faces, angleOrder)))
  }

  /** The command after its parse. A rejected parse answers `false` with no
      output; a negative point count throws `length_error`; a dimension of 0
      divides by zero when the point count is computed for qhull; qhull's
      failure throws; a hull of volume 0 answers `false`. Then the listing
      is written and, when triangles are asked for, a dimension other than
      3 answers `false`; otherwise the triangles follow. */
  function HullReply(parsed: Parsed<HullOptions>, qhull: (seq<real>, int) -> HullRun, angleOrder: seq<int> -> seq<int>): Outcome<Reply>
    requires QhullContract(qhull) && SortsFaces(angleOrder)
  {
    match parsed
    case Rejected => Return(Reply(false, []))
    case Aborted => Throw(LengthError)
    case Accepted(o) =>
      if o.dim == 0 then Throw(DivideByZero)
      else match qhull(o.points, o.dim)
        case QhullFailed(_) => Throw(Failed)
        case Hull(facets, volume) =>
          if volume == 0.0 then Return(Reply(false, []))
          else
            var listing := HullListing(o, facets);
            if !o.returnTriangles then Return(Reply(true, listing))
            else if o.dim != 3 then Return(Reply(false, listing))
            else Return(Reply(true, listing + TriangleListing(facets, angleOrder)))
  }

  /** The two walks over the face list that write the triangles. */
  method WriteTriangles(list: seq<int>, ghost facets: seq<Facet>, angleOrder: seq<int> -> seq<int>) returns (out: seq<Token>)
    requires list == EncodeFaces(FacesOf(facets)) && SortsFaces(angleOrder)
    ensures out == TriangleListing(facets, angleOrder)
  {
    DecodeEncode(FacesOf(facets));
    var count := CountTriangles(list);
    var orders := AngleOrders(DecodeFaces(list).value, angleOrder);
    var tris := TriangulateFaces(list, orders);
    out := [IntToken(count)] + Ints(tris);
  }

  /** `ConvexHull` as the source runs it: the parse, then the run. */
  method ConvexHull(ts: seq<string>, qhull: (seq<real>, int) -> HullRun, angleOrder: seq<int> -> seq<int>) returns (r: Outcome<Reply>)
    requires QhullContract(qhull) && SortsFaces(angleOrder)
    ensures r == HullReply(ParseHull(ts), qhull, angleOrder)
  {
    HullConsumes();
    var parsed := ParseKeywords(ts, HullStart, HullStep);
    assert parsed == ParseHull(ts);
    match parsed {
      case Rejected => r := Return(Reply(false, []));
      case Aborted => r := Throw(LengthError);
      case Accepted(o) => r := RunHull(o, qhull, angleOrder);
    }
  }

  /** The part of `ConvexHull` after a successful parse. */
  method RunHull(o: HullOptions, qhull: (seq<real>, int) -> HullRun, angleOrder: seq<int> -> seq<int>) returns (r: Outcome<Reply>)
    requires QhullContract(qhull) && SortsFaces(angleOrder)
    ensures r == HullReply(Accepted(o), qhull, angleOrder)
  {
    if o.dim == 0 {
      return Throw(DivideByZero);
    }
    var run := qhull(o.points, o.dim);
    if run.QhullFailed? {
      return Throw(Failed);
    }
    var planes, faces := BuildHullLists(run.facets, o.dim, o.returnFaces || o.returnTriangles);
    if run.volume == 0.0 {
      return Return(Reply(false, []));
    }
    var planeOut: seq<Token> := [];
    if o.returnPlanes {
      planeOut := [IntToken(|planes| / (o.dim + 1))] + Reals(planes);
    }
    var faceOut: seq<Token> := [];
    if o.returnFaces {
      faceOut := Ints(faces.value);
    }
    var out := planeOut + faceOut;
    if o.returnTriangles {
      if o.dim != 3 {
        return Return(Reply(false, out));
      }
      var tris := WriteTriangles(faces.value, run.facets, angleOrder);
      out := out + tris;
    }
    return Return(Reply(true, out));
  }

  /** Whatever the switches, a hull whose points are not three-dimensional
      is never reported as triangulated. */
  lemma OnlyThreeDimensionsTriangulate(ts: seq<string>, qhull: (seq<real>, int) -> HullRun, angleOrder: seq<int> -> seq<int>)
    requires QhullContract(qhull) && SortsFaces(angleOrder)
    requires ParseHull(ts).Accepted? && ParseHull(ts).opts.dim != 3
    ensures !(HullReply(ParseHull(ts), qhull, angleOrder).Return? && HullReply(ParseHull(ts), qhull, angleOrder).value.success)
  {
    ParsedHullTriangulates(ts);
  }

  /** The plane count written first is the number of facets that have a
      normal. */
  lemma PlaneCountIsFacetCount(o: HullOptions, facets: seq<Facet>)
    requires o.dim >= 2 && o.returnPlanes && NormalsHaveDim(facets, o.dim)
    ensures HullListing(o, facets)[0] == IntToken(NormalCount(facets))
    ensures HullListing(o, facets)[1..1 + |PlanesOf(facets)|] == Reals(PlanesOf(facets))
  {
    var planes := PlanesOf(facets);
    var n := NormalCount(facets);
    var d := o.dim + 1;
    PlanesOfLength(facets, o.dim);
    assert |planes| == n * d + 0;
    Arith.DivModUnique(|planes|, d, n, 0);
    var head := [IntToken(|planes| / d)] + Reals(planes);
    assert HullListing(o, facets) == head + (if o.returnFaces then Ints(EncodeFaces(FacesOf(facets))) else []);
    assert head[1..] == Reals(planes);
  }

  /** A successful run on three-dimensional points ends with the triangle
      count and exactly three vertex ids per counted triangle, when every
      face has at least two vertices. */
  lemma TrianglesFollowListing(ts: seq<string>, qhull: (seq<real>, int) -> HullRun, angleOrder: seq<int> -> seq<int>)
    requires QhullContract(qhull) && SortsFaces(angleOrder)
    requires ParseHull(ts).Accepted? && ParseHull(ts).opts.dim == 3
    requires qhull(ParseHull(ts).opts.points, 3).Hull? && qhull(ParseHull(ts).opts.points, 3).volume != 0.0
    requires forall face :: face in FacesOf(qhull(ParseHull(ts).opts.points, 3).facets) ==> |face| >= 2
    ensures var facets := qhull(ParseHull(ts).opts.points, 3).facets;
      var faces := FacesOf(facets);
      var listing := HullListing(ParseHull(ts).opts, facets);
      HullReply(ParseHull(ts), qhull, angleOrder) == Return(Reply(true, listing + TriangleListing(facets, angleOrder))) &&
      |TriangleListing(facets, angleOrder)| == 1 + 3 * TriangleTotal(faces) &&
      TriangleListing(facets, angleOrder)[0] == IntToken(TriangleTotal(faces))
  {
    ParsedHullTriangulates(ts);
    var facets := qhull(ParseHull(ts).opts.points, 3).facets;
    var faces := FacesOf(facets);
    FansMatchCount(faces, AngleOrders(faces, angleOrder));
  }
}
