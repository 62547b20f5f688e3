/** Writing commanded joint values into a robot's full DOF vector.
    `IdealController::_SetDOFValues` copies the robot's DOF values and
    velocities, writes `values[i]` at position `dofindices[i]` with checked
    `at()` accesses, zeroes the velocity there, and then runs a limit check
    that only warns. */
module DofScatter {

  /** Every index addresses an element of a vector of length `n`. */
  predicate InRange(indices: seq<int>, n: int) {
    forall k :: 0 <= k < |indices| ==> 0 <= indices[k] < n
  }

  /** All checked accesses of the scatter loop succeed: `curvalues.at`,
      `values.at` and `curvel.at`. */
  predicate CanScatter(nValues: int, nVelocities: int, indices: seq<int>, nGiven: int) {
    |indices| <= nGiven && InRange(indices, nValues) && InRange(indices, nVelocities)
  }

  /** `s` after writing `values[i]` at `indices[i]` for i = 0, 1, ... in order,
      so a repeated index keeps the value written last. */
  function Scatter(s: seq<real>, indices: seq<int>, values: seq<real>): (r: seq<real>)
    requires |indices| <= |values| && InRange(indices, |s|)
    ensures |r| == |s|
    decreases |indices|
  {
    if |indices| == 0 then s
    else
      var n := |indices| - 1;
      Scatter(s, indices[..n], values)[indices[n] := values[n]]
  }

  /** `s` with a zero at every listed position. */
  function ZeroAt(s: seq<real>, indices: seq<int>): seq<real> {
    seq(|s|, k requires 0 <= k < |s| => if k in indices then 0.0 else s[k])
  }

  /** The position of the last occurrence of `x` in `indices`. */
  function LastIndexOf(indices: seq<int>, x: int): (j: nat)
    requires x in indices
    ensures j < |indices| && indices[j] == x
    ensures forall j' :: j < j' < |indices| ==> indices[j'] != x
    decreases |indices|
  {
    var n := |indices| - 1;
    if indices[n] == x then n else LastIndexOf(indices[..n], x)
  }

  /** Pointwise meaning of `Scatter`: a listed position holds the value
      written there last; every other position keeps its old value. */
  lemma {:induction false} ScatterAt(s: seq<real>, indices: seq<int>, values: seq<real>, k: int)
    requires |indices| <= |values| && InRange(indices, |s|)
    requires 0 <= k < |s|
    ensures k in indices ==> Scatter(s, indices, values)[k] == values[LastIndexOf(indices, k)]
    ensures k !in indices ==> Scatter(s, indices, values)[k] == s[k]
    decreases |indices|
  {
    if |indices| > 0 {
      var n := |indices| - 1;
      assert indices == indices[..n] + [indices[n]];
      ScatterAt(s, indices[..n], values, k);
    }
  }

  /** The values found at the listed positions. */
  function Gather(s: seq<real>, indices: seq<int>): (r: seq<real>)
    requires InRange(indices, |s|)
    ensures |r| == |indices|
  {
    seq(|indices|, i requires 0 <= i < |indices| => s[indices[i]])
  }

  predicate Distinct(indices: seq<int>) {
    forall i, j :: 0 <= i < j < |indices| ==> indices[i] != indices[j]
  }

  /** Reading back the positions just written gives the commanded values,
      when no position is listed twice. */
  lemma GatherAfterScatter(s: seq<real>, indices: seq<int>, values: seq<real>)
    requires |indices| <= |values| && InRange(indices, |s|) && Distinct(indices)
    ensures Gather(Scatter(s, indices, values), indices) == values[..|indices|]
  {
    var r := Scatter(s, indices, values);
    forall i | 0 <= i < |indices|
      ensures r[indices[i]] == values[i]
    {
      ScatterAt(s, indices, values, indices[i]);
      assert LastIndexOf(indices, indices[i]) == i;
    }
  }

  /** Writing back the values already present changes nothing, even with
      repeated positions. */
  lemma ScatterGatherIdentity(s: seq<real>, indices: seq<int>)
    requires InRange(indices, |s|)
    ensures Scatter(s, indices, Gather(s, indices)) == s
  {
    var g := Gather(s, indices);
    var r := Scatter(s, indices, g);
    forall k | 0 <= k < |s|
      ensures r[k] == s[k]
    {
      ScatterAt(s, indices, g, k);
    }
  }

  /** Writing the same values twice leaves what one write leaves. */
  lemma ScatterTwice(s: seq<real>, indices: seq<int>, values: seq<real>)
    requires |indices| <= |values| && InRange(indices, |s|)
    ensures Scatter(Scatter(s, indices, values), indices, values) == Scatter(s, indices, values)
  {
    var once := Scatter(s, indices, values);
    var twice := Scatter(once, indices, values);
    forall k | 0 <= k < |s|
      ensures twice[k] == once[k]
    {
      ScatterAt(s, indices, values, k);
      ScatterAt(once, indices, values, k);
    }
  }

  /** Zeroing the velocities touches exactly the listed positions. */
  lemma ZeroAtMeaning(s: seq<real>, indices: seq<int>, k: int)
    requires 0 <= k < |s|
    ensures |ZeroAt(s, indices)| == |s|
    ensures ZeroAt(s, indices)[k] == (if k in indices then 0.0 else s[k])
  {
  }

  /** The scatter loop of `_SetDOFValues`, run in place on the two copies.
      `ok` is false when one of the checked accesses would throw; the copies
      are then discarded by the caller. */
  method ScatterInto(curvalues: array<real>, curvel: array<real>, indices: seq<int>, values: seq<real>)
    returns (ok: bool)
    requires curvalues != curvel
    modifies curvalues, curvel
    ensures ok == CanScatter(curvalues.Length, curvel.Length, indices, |values|)
    ensures ok ==> curvalues[..] == Scatter(old(curvalues[..]), indices, values)
    ensures ok ==> curvel[..] == ZeroAt(old(curvel[..]), indices)
  {
    var i := 0;
    while i < |indices|
      invariant 0 <= i <= |indices|
      invariant CanScatter(curvalues.Length, curvel.Length, indices[..i], |values|)
      invariant curvalues[..] == Scatter(old(curvalues[..]), indices[..i], values)
      invariant curvel[..] == ZeroAt(old(curvel[..]), indices[..i])
    {
      var idx := indices[i];
      if !(0 <= idx < curvalues.Length) || i >= |values| || idx >= curvel.Length {
        return false;
      }
      assert indices[..i + 1] == indices[..i] + [idx];
      curvalues[idx] := values[i];
      curvel[idx] := 0.0;
      i := i + 1;
    }
    assert indices[..i] == indices;
    return true;
  }

  /** The allowed slack of the limit check (`5e-5f`). */
  const LimitTolerance: real := 0.00005

  /** One warning of `_CheckLimits`. */
  datatype LimitWarning =
    | BelowLower(dof: nat, limit: real, value: real)
    | AboveUpper(dof: nat, limit: real, value: real)

  /** The warnings `_CheckLimits` logs for DOFs 0 .. n-1, in order. */
  function LimitWarnings(values: seq<real>, lower: seq<real>, upper: seq<real>, n: nat): (w: seq<LimitWarning>)
    requires n <= |values| && n <= |lower| && |lower| == |upper|
    decreases n
  {
    if n == 0 then []
    else
      var i := n - 1;
      LimitWarnings(values, lower, upper, i)
        + (if values[i] < lower[i] - LimitTolerance then [BelowLower(i, lower[i], values[i])] else [])
        + (if values[i] > upper[i] + LimitTolerance then [AboveUpper(i, upper[i], values[i])] else [])
  }

  /** A warning is logged only for a DOF outside its limits by more than
      the tolerance, and it reports that DOF's value and limit. */
  lemma {:induction false} WarningsAreViolations(values: seq<real>, lower: seq<real>, upper: seq<real>, n: nat)
    requires n <= |values| && n <= |lower| && |lower| == |upper|
    ensures forall w | w in LimitWarnings(values, lower, upper, n) ::
      w.dof < n && w.value == values[w.dof] &&
      (w.BelowLower? ==> w.limit == lower[w.dof] && w.value < w.limit - LimitTolerance) &&
      (w.AboveUpper? ==> w.limit == upper[w.dof] && w.value > w.limit + LimitTolerance)
    decreases n
  {
    if n > 0 {
      WarningsAreViolations(values, lower, upper, n - 1);
    }
  }

  /** Values within the limits (with the tolerance) produce no warning. */
  lemma {:induction false} NoWarningsWithinLimits(values: seq<real>, lower: seq<real>, upper: seq<real>, n: nat)
    requires n <= |values| && n <= |lower| && |lower| == |upper|
    requires forall i :: 0 <= i < n ==> lower[i] - LimitTolerance <= values[i] <= upper[i] + LimitTolerance
    ensures LimitWarnings(values, lower, upper, n) == []
    decreases n
  {
    if n > 0 {
      NoWarningsWithinLimits(values, lower, upper, n - 1);
    }
  }
}
