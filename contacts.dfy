/** The contact reasoning of the grasper plug-in: the friction-cone test
    `_GetStableContacts` applies to every contact, and the force-closure
    measure `_AnalyzeContacts3D` reads off the convex hull of the contact
    wrenches. The collision queries and Jacobians that produce the contacts,
    and qhull, are inputs. */
module Contacts {
  import opened Geometry
  import opened Errors
  import opened HullFaces

  /** `CollisionReport::CONTACT`: a point, its normal and its depth. */
  datatype Contact = Contact(pos: Vec3, norm: Vec3, depth: real)

  // ---------------------------------------------------------------------
  // The friction-cone test

  /** `bstable` on the two numbers it is computed from:
      `fcos > 0 && fsin2 <= fcos*fcos*mu*mu`. */
  predicate ConeTest(fcos: real, fsin2: real, mu: real) {
    fcos > 0.0 && fsin2 <= fcos * fcos * mu * mu
  }

  /** The test of `_GetStableContacts`: `fcos` is the dot product of the
      contact normal and the squeeze direction `delta`, `fsin2` the squared
      length of their cross product. */
  predicate IsStable(norm: Vec3, delta: Vec3, mu: real) {
    ConeTest(Dot(norm, delta), LengthSqr(Cross(norm, delta)), mu)
  }

  lemma ConeByLength(c: real, s: real, p: real, mu: real)
    requires s + c * c == p
    ensures ConeTest(c, s, mu) <==> c > 0.0 && p <= c * c * (1.0 + mu * mu)
  {
    assert c * c * (1.0 + mu * mu) == c * c + c * c * mu * mu;
  }

  /** The test is the friction cone: the squeeze direction is within the
      angle `atan(mu)` of the normal, i.e. `cos^2 >= 1 / (1 + mu^2)` for the
      angle between them, stated without division. */
  lemma StableIsFrictionCone(norm: Vec3, delta: Vec3, mu: real)
    ensures IsStable(norm, delta, mu) <==>
      Dot(norm, delta) > 0.0 &&
      LengthSqr(norm) * LengthSqr(delta) <= Dot(norm, delta) * Dot(norm, delta) * (1.0 + mu * mu)
  {
    Lagrange(norm, delta);
    ConeByLength(Dot(norm, delta), LengthSqr(Cross(norm, delta)), LengthSqr(norm) * LengthSqr(delta), mu);
  }

  lemma PositiveSquareTimes(k: real, d: real)
    requires k > 0.0 && d > 0.0
    ensures k * k * d > 0.0
  {
  }

  lemma CancelSquare(k: real, x: real, y: real)
    requires k > 0.0
    ensures k * k * x <= k * k * y <==> x <= y
  {
    if x < y {
      PositiveSquareTimes(k, y - x);
      assert k * k * y - k * k * x == k * k * (y - x);
    }
    if y < x {
      PositiveSquareTimes(k, x - y);
      assert k * k * x - k * k * y == k * k * (x - y);
    }
  }

  lemma ScaledCone(c: real, s: real, mu: real, k: real)
    requires k > 0.0
    ensures ConeTest(k * c, k * k * s, mu) <==> ConeTest(c, s, mu)
  {
    assert (k * c) * (k * c) * mu * mu == k * k * (c * c * mu * mu);
    CancelSquare(k, s, c * c * mu * mu);
  }

  /** Scaling the squeeze direction by a positive factor changes nothing,
      so the `normalize3` applied before the test does not matter. */
  lemma StableIgnoresLength(norm: Vec3, delta: Vec3, mu: real, k: real)
    requires k > 0.0
    ensures IsStable(norm, Scale(k, delta), mu) <==> IsStable(norm, delta, mu)
  {
    DotScale(norm, delta, k);
    CrossScale(norm, delta, k);
    LengthScale(Cross(norm, delta), k);
    ScaledCone(Dot(norm, delta), LengthSqr(Cross(norm, delta)), mu, k);
  }

  lemma ConeMonotone(c: real, s: real, mu1: real, mu2: real)
    requires 0.0 <= mu1 <= mu2 && ConeTest(c, s, mu1)
    ensures ConeTest(c, s, mu2)
  {
    assert mu1 * mu1 <= mu2 * mu2;
    assert c * c * mu1 * mu1 <= c * c * mu2 * mu2;
  }

  /** A contact stable at friction `mu1` stays stable at any larger `mu2`. */
  lemma StableMonotoneInFriction(norm: Vec3, delta: Vec3, mu1: real, mu2: real)
    requires 0.0 <= mu1 <= mu2 && IsStable(norm, delta, mu1)
    ensures IsStable(norm, delta, mu2)
  {
    ConeMonotone(Dot(norm, delta), LengthSqr(Cross(norm, delta)), mu1, mu2);
  }

  // ---------------------------------------------------------------------
  // Selecting the stable contacts

  /** One contact of a link's collision report, with what the collision
      checker and the robot model say about it: whether the report lists
      this link first (otherwise its normal points the other way), whether
      the link is the robot's first link or the manipulator's base, and the
      Jacobian image of the closing direction at the contact point. */
  datatype LinkContact = LinkContact(contact: Contact, link: int, reportedFirst: bool, onBase: bool, jacobianDelta: Vec3)

  /** A contact that passed the test, with the index of its link. */
  datatype StableContact = StableContact(contact: Contact, link: int)

  /** `1e-7f`, the squared length below which the Jacobian direction counts
      as degenerate. */
  const DegenerateLength: real := 0.0000001

  function Neg(v: Vec3): Vec3 {
    Vec3(-v.x, -v.y, -v.z)
  }

  /** The contact with its normal pointing out of the link. */
  function Facing(lc: LinkContact): Contact {
    if lc.reportedFirst then lc.contact
    else lc.contact.(norm := Neg(lc.contact.norm))
  }

  /** The squeeze direction at the contact: the given direction on the base
      link, the Jacobian image elsewhere, and the given direction again when
      that image is degenerate. */
  function SqueezeDirection(lc: LinkContact, direction: Vec3): Vec3 {
    var d := if lc.onBase then direction else lc.jacobianDelta;
    if LengthSqr(d) < DegenerateLength then direction else d
  }

  predicate IsKept(lc: LinkContact, direction: Vec3, mu: real) {
    IsStable(Facing(lc).norm, SqueezeDirection(lc, direction), mu)
  }

  /** The contacts `_GetStableContacts` keeps, in report order. */
  function StableContacts(lcs: seq<LinkContact>, direction: Vec3, mu: real): seq<StableContact>
    decreases |lcs|
  {
    if |lcs| == 0 then []
    else
      var last := lcs[|lcs| - 1];
      StableContacts(lcs[..|lcs| - 1], direction, mu) +
        (if IsKept(last, direction, mu) then [StableContact(Facing(last), last.link)] else [])
  }

  /** A contact is kept exactly when one of the reported contacts, turned
      to face out of its link, passes the friction-cone test. */
  lemma {:induction false} StableContactsMembers(lcs: seq<LinkContact>, direction: Vec3, mu: real, s: StableContact)
    ensures s in StableContacts(lcs, direction, mu) <==>
      exists k :: 0 <= k < |lcs| && IsKept(lcs[k], direction, mu) && s == StableContact(Facing(lcs[k]), lcs[k].link)
    ensures |StableContacts(lcs, direction, mu)| <= |lcs|
    decreases |lcs|
  {
    if |lcs| > 0 {
      var n := |lcs| - 1;
      StableContactsMembers(lcs[..n], direction, mu, s);
      if s in StableContacts(lcs, direction, mu) && s !in StableContacts(lcs[..n], direction, mu) {
        assert IsKept(lcs[n], direction, mu) && s == StableContact(Facing(lcs[n]), lcs[n].link);
      }
      if exists k :: 0 <= k < |lcs| && IsKept(lcs[k], direction, mu) && s == StableContact(Facing(lcs[k]), lcs[k].link) {
        var k :| 0 <= k < |lcs| && IsKept(lcs[k], direction, mu) && s == StableContact(Facing(lcs[k]), lcs[k].link);
        if k < n {
          assert lcs[..n][k] == lcs[k];
        }
      }
    }
  }

  /** The test loop of `_GetStableContacts` over the contacts of the links
      in collision; `mu > 0` is the assertion the source opens with. */
  method SelectStableContacts(lcs: seq<LinkContact>, direction: Vec3, mu: real) returns (kept: seq<StableContact>)
    requires mu > 0.0
    ensures kept == StableContacts(lcs, direction, mu)
  {
    kept := [];
    for i := 0 to |lcs|
      invariant kept == StableContacts(lcs[..i], direction, mu)
    {
      assert lcs[..i + 1][..i] == lcs[..i];
      var contact, stable := TestContact(lcs[i], direction, mu);
      if stable {
        kept := kept + [StableContact(contact, lcs[i].link)];
      }
    }
    assert lcs[..|lcs|] == lcs;
  }

  /** The body of the test loop for one reported contact. */
  method TestContact(lc: LinkContact, direction: Vec3, mu: real) returns (contact: Contact, stable: bool)
    ensures contact == Facing(lc) && stable == IsKept(lc, direction, mu)
  {
    contact := lc.contact;
    if !lc.reportedFirst {
      contact := contact.(norm := Neg(contact.norm));
    }
    var delta := if lc.onBase then direction else lc.jacobianDelta;
    if LengthSqr(delta) < DegenerateLength {
      delta := direction;
    }
    assert contact == Facing(lc) && delta == SqueezeDirection(lc, direction);
    var fsin2 := LengthSqr(Cross(contact.norm, delta));
    var fcos := Dot(contact.norm, delta);
    stable := ConeTest(fcos, fsin2, mu);
  }

  // ---------------------------------------------------------------------
  // Force closure

  /** The wrench of a contact: the normal, then the torque `pos x norm`. */
  function Wrench(c: Contact): (w: seq<real>)
    ensures |w| == 6
  {
    var t := Cross(c.pos, c.norm);
    [c.norm.x, c.norm.y, c.norm.z, t.x, t.y, t.z]
  }

  /** The wrenches of all contacts, six values each, in contact order. */
  function Wrenches(cs: seq<Contact>): (w: seq<real>)
    decreases |cs|
  {
    if |cs| == 0 then [] else Wrenches(cs[..|cs| - 1]) + Wrench(cs[|cs| - 1])
  }

  /** Six values per contact. */
  lemma {:induction false} WrenchesLength(cs: seq<Contact>)
    ensures |Wrenches(cs)| == 6 * |cs|
    decreases |cs|
  {
    if |cs| > 0 {
      WrenchesLength(cs[..|cs| - 1]);
    }
  }

  /** Contact `k`'s wrench occupies entries `6k .. 6k+5`. */
  lemma {:induction false} WrenchesLayout(cs: seq<Contact>, k: nat)
    requires k < |cs|
    ensures |Wrenches(cs)| == 6 * |cs|
    ensures Wrenches(cs)[6 * k..6 * k + 6] == Wrench(cs[k])
    decreases |cs|
  {
    var n := |cs| - 1;
    var front := cs[..n];
    var w0, last := Wrenches(front), Wrench(cs[n]);
    assert Wrenches(cs) == w0 + last;
    WrenchesLength(front);
    WrenchesLength(cs);
    if k < n {
      WrenchesLayout(front, k);
      assert front[k] == cs[k];
      assert (w0 + last)[6 * k..6 * k + 6] == w0[6 * k..6 * k + 6];
    } else {
      assert (w0 + last)[6 * k..6 * k + 6] == last;
    }
  }

  /** The wrench-filling loop of `_AnalyzeContacts3D`. */
  method ContactWrenches(cs: seq<Contact>) returns (points: seq<real>)
    ensures points == Wrenches(cs)
  {
    points := [];
    for i := 0 to |cs|
      invariant points == Wrenches(cs[..i])
    {
      assert cs[..i + 1][..i] == cs[..i];
      var c := cs[i];
      var v := Cross(c.pos, c.norm);
      points := points + [c.norm.x, c.norm.y, c.norm.z, v.x, v.y, v.z];
    }
    assert cs[..|cs|] == cs;
  }

  /** `1e30`, where the minimum starts. */
  const Unbounded: real := 1000000000000000000000000000000.0

  /** `1e-15`, the offset below which a plane counts as passing through
      the origin. */
  const OnPlane: real := 0.000000000000001

  function Abs(x: real): real {
    if x < 0.0 then -x else x
  }

  function Min(a: real, b: real): real {
    if a <= b then a else b
  }

  /** A plane offset that leaves the origin outside or on the hull. */
  predicate OriginNotInside(offset: real) {
    offset > 0.0 || Abs(offset) < OnPlane
  }

  /** The offsets of the whole 7-value planes in a plane list. */
  function Offsets(planes: seq<real>): seq<real>
    decreases |planes|
  {
    if |planes| < 7 then [] else [planes[6]] + Offsets(planes[7..])
  }

  /** The `mindist` loop: planes of seven values are visited in order; an
      `at()` past the end throws, a plane with the origin not strictly
      inside ends the loop leaving `mindist` at its default 0, and otherwise
      the distance is the least `-offset`, starting from `best`. */
  function Margin(planes: seq<real>, best: real): Outcome<real>
    decreases |planes|
  {
    if |planes| == 0 then Return(best)
    else if |planes| < 7 then Throw(OutOfRange)
    else if OriginNotInside(planes[6]) then Return(0.0)
    else Margin(planes[7..], Min(best, -planes[6]))
  }

  /** One plane whose offset does not put the origin strictly inside makes
      the distance 0, whatever else the list holds. */
  lemma {:induction false} MarginZeroWhenOriginOutside(planes: seq<real>, best: real)
    requires exists o :: o in Offsets(planes) && OriginNotInside(o)
    ensures Margin(planes, best) == Return(0.0)
    decreases |planes|
  {
    if !OriginNotInside(planes[6]) {
      var o :| o in Offsets(planes) && OriginNotInside(o);
      assert o in Offsets(planes[7..]);
      MarginZeroWhenOriginOutside(planes[7..], Min(best, -planes[6]));
    }
  }

  /** When the list is whole planes and every offset puts the origin
      strictly inside, the distance is the least `-offset` (or `best` when
      that is smaller): a lower bound that some plane or `best` attains. */
  lemma {:induction false} MarginIsLeastDistance(planes: seq<real>, best: real, count: nat)
    requires |planes| == 7 * count
    requires forall o :: o in Offsets(planes) ==> !OriginNotInside(o)
    ensures Margin(planes, best).Return?
    ensures Margin(planes, best).value <= best
    ensures forall o :: o in Offsets(planes) ==> Margin(planes, best).value <= -o
    ensures Margin(planes, best).value == best || -Margin(planes, best).value in Offsets(planes)
    decreases |planes|
  {
    if |planes| > 0 {
      var next := Min(best, -planes[6]);
      assert forall o :: o in Offsets(planes[7..]) ==> o in Offsets(planes);
      MarginIsLeastDistance(planes[7..], next, count - 1);
    }
  }

  /** Starting from a positive bound, the distance is never negative, and
      it is 0 only when some plane leaves the origin outside or on the
      hull. */
  lemma {:induction false} MarginNonNegative(planes: seq<real>, best: real)
    requires best > 0.0
    ensures Margin(planes, best).Return? ==> Margin(planes, best).value >= 0.0
    ensures Margin(planes, best) == Return(0.0) ==> exists o :: o in Offsets(planes) && OriginNotInside(o)
    decreases |planes|
  {
    if |planes| >= 7 && !OriginNotInside(planes[6]) {
      MarginNonNegative(planes[7..], Min(best, -planes[6]));
      if Margin(planes, best) == Return(0.0) {
        var o :| o in Offsets(planes[7..]) && OriginNotInside(o);
        assert o in Offsets(planes);
      }
    }
  }

  /** A list of whole planes never makes the loop read past its end. */
  lemma {:induction false} MarginWithinBounds(planes: seq<real>, best: real, count: nat)
    requires |planes| == 7 * count
    ensures Margin(planes, best).Return?
    decreases |planes|
  {
    if |planes| > 0 && !OriginNotInside(planes[6]) {
      MarginWithinBounds(planes[7..], Min(best, -planes[6]), count - 1);
    }
  }

  /** The `for(i = 0; i < size; i += 7)` loop itself. */
  method MinDistance(planes: seq<real>) returns (r: Outcome<real>)
    ensures r == Margin(planes, Unbounded)
  {
    var mindist := Unbounded;
    var i := 0;
    while i < |planes|
      invariant i <= |planes|
      invariant Margin(planes[i..], mindist) == Margin(planes, Unbounded)
      decreases |planes| - i
    {
      if i + 6 >= |planes| {
        return Throw(OutOfRange);
      }
      assert planes[i..][6] == planes[i + 6];
      if planes[i + 6] > 0.0 || Abs(planes[i + 6]) < OnPlane {
        return Return(0.0);
      }
      assert planes[i..][7..] == planes[i + 7..];
      mindist := Min(mindist, -planes[i + 6]);
      i := i + 7;
    }
    return Return(mindist);
  }

  /** `GRASPANALYSIS`: the force-closure distance and the hull volume. */
  datatype Analysis = Analysis(mindist: real, volume: real)

  /** `_AnalyzeContacts3D(contacts)`: at least seven contacts are needed; the
      hull of their wrenches in six dimensions gives the volume, and its
      plane offsets the distance. qhull's failure is an exception. */
  function AnalysisOf(contacts: seq<Contact>, qhull: (seq<real>, int) -> HullRun): Outcome<Analysis> {
    if |contacts| < 7 then Throw(Failed)
    else match qhull(Wrenches(contacts), 6)
      case QhullFailed(_) => Throw(Failed)
      case Hull(facets, volume) =>
        match Margin(PlanesOf(facets), Unbounded)
        case Throw(e) => Throw(e)
        case Return(m) => Return(Analysis(m, volume))
  }

  /** The analysis fails exactly when there are fewer than seven contacts or
      qhull fails; a six-dimensional hull never makes the distance loop read
      past its planes, and the distance it gives is never negative. */
  lemma AnalysisOutcome(contacts: seq<Contact>, qhull: (seq<real>, int) -> HullRun)
    requires QhullContract(qhull)
    ensures AnalysisOf(contacts, qhull).Throw? <==> |contacts| < 7 || qhull(Wrenches(contacts), 6).QhullFailed?
    ensures AnalysisOf(contacts, qhull).Throw? ==> AnalysisOf(contacts, qhull).error == Failed
    ensures AnalysisOf(contacts, qhull).Return? ==> AnalysisOf(contacts, qhull).value.mindist >= 0.0
  {
    if |contacts| >= 7 && qhull(Wrenches(contacts), 6).Hull? {
      var facets := qhull(Wrenches(contacts), 6).facets;
      var count := NormalCount(facets);
      PlanesOfLength(facets, 6);
      assert |PlanesOf(facets)| == 7 * count;
      MarginWithinBounds(PlanesOf(facets), Unbounded, count);
      MarginNonNegative(PlanesOf(facets), Unbounded);
    }
  }

  /** `_AnalyzeContacts3D(contacts)` as the source runs it. */
  method AnalyzeContacts(contacts: seq<Contact>, qhull: (seq<real>, int) -> HullRun) returns (r: Outcome<Analysis>)
    requires QhullContract(qhull)
    ensures r == AnalysisOf(contacts, qhull)
  {
    if |contacts| < 7 {
      return Throw(Failed);
    }
    var points := ContactWrenches(contacts);
    var run := qhull(points, 6);
    if run.QhullFailed? {
      return Throw(Failed);
    }
    var planes, _ := BuildHullLists(run.facets, 6, false);
    var d := MinDistance(planes);
    match d
    case Throw(e) =>
      return Throw(e);
    case Return(m) =>
      return Return(Analysis(m, run.volume));
  }
}
