/** Force accumulation on the list of points a system owns.

    Springs and attractions refer to their two endpoints by index into this
    list. A force element only ever adds to or subtracts from the `force` of
    an endpoint that is not fixed; this module states what such a change
    touches and how it moves the total force on the list. */
module Accumulation {
  import opened Vectors
  import opened Points

  /** `points[i].force.addSelf(f)`, skipped for a fixed point. */
  function PushForce(ps: seq<Point>, i: nat, f: Vec2): (r: seq<Point>)
    requires i < |ps|
    ensures |r| == |ps|
    ensures forall j :: 0 <= j < |ps| && j != i ==> r[j] == ps[j]
  {
    if ps[i].fixed then ps else ps[i := ps[i].(force := AddSelf(ps[i].force, f))]
  }

  /** `points[i].force.subSelf(f)`, skipped for a fixed point. */
  function PullForce(ps: seq<Point>, i: nat, f: Vec2): (r: seq<Point>)
    requires i < |ps|
    ensures |r| == |ps|
    ensures forall j :: 0 <= j < |ps| && j != i ==> r[j] == ps[j]
  {
    if ps[i].fixed then ps else ps[i := ps[i].(force := SubSelf(ps[i].force, f))]
  }

  /** `r` is `ps` with, at most, other force accumulators: positions,
      velocities, masses, flags and ages are all kept. */
  predicate OnlyForces(ps: seq<Point>, r: seq<Point>) {
    |r| == |ps| && forall i :: 0 <= i < |ps| ==> r[i] == ps[i].(force := r[i].force)
  }

  /** Every fixed point of `ps` is left exactly as it was. */
  predicate FixedKept(ps: seq<Point>, r: seq<Point>)
    requires |r| == |ps|
  {
    forall i :: 0 <= i < |ps| && ps[i].fixed ==> r[i] == ps[i]
  }

  /** The sum of the force accumulators of all points. */
  function TotalForce(ps: seq<Point>): Vec2 {
    if |ps| == 0 then Zero else AddSelf(ps[0].force, TotalForce(ps[1..]))
  }

  /** `ps` with no fixed point. */
  predicate AllFree(ps: seq<Point>) {
    forall i :: 0 <= i < |ps| ==> !ps[i].fixed
  }

  // ---------------------------------------------------------------------
  // Laws

  lemma OnlyForcesTransitive(ps: seq<Point>, qs: seq<Point>, rs: seq<Point>)
    requires OnlyForces(ps, qs) && OnlyForces(qs, rs)
    ensures OnlyForces(ps, rs)
  {
    forall i | 0 <= i < |ps|
      ensures rs[i] == ps[i].(force := rs[i].force)
    {
      assert qs[i] == ps[i].(force := qs[i].force);
    }
  }

  lemma FixedKeptTransitive(ps: seq<Point>, qs: seq<Point>, rs: seq<Point>)
    requires OnlyForces(ps, qs) && OnlyForces(qs, rs)
    requires FixedKept(ps, qs) && FixedKept(qs, rs)
    ensures FixedKept(ps, rs)
  {
    forall i | 0 <= i < |ps| && ps[i].fixed
      ensures rs[i] == ps[i]
    {
      assert qs[i] == ps[i];
    }
  }

  /** Pushing or pulling a force changes only a free point's accumulator. */
  lemma PushPullOnlyForces(ps: seq<Point>, i: nat, f: Vec2)
    requires i < |ps|
    ensures OnlyForces(ps, PushForce(ps, i, f)) && FixedKept(ps, PushForce(ps, i, f))
    ensures OnlyForces(ps, PullForce(ps, i, f)) && FixedKept(ps, PullForce(ps, i, f))
  {
  }

  /** Pushing or pulling the zero vector changes nothing. */
  lemma PushPullZero(ps: seq<Point>, i: nat)
    requires i < |ps|
    ensures PushForce(ps, i, Zero) == ps && PullForce(ps, i, Zero) == ps
  {
    assert AddSelf(ps[i].force, Zero) == ps[i].force;
    assert SubSelf(ps[i].force, Zero) == ps[i].force;
  }

  /** Replacing one accumulator by `g` moves the total by `g` minus the
      accumulator it replaces. */
  lemma {:induction false} TotalForceReplace(ps: seq<Point>, i: nat, g: Vec2)
    requires i < |ps|
    ensures TotalForce(ps[i := ps[i].(force := g)]) == AddSelf(SubSelf(TotalForce(ps), ps[i].force), g)
  {
    var qs := ps[i := ps[i].(force := g)];
    if i == 0 {
      assert qs[1..] == ps[1..];
    } else {
      assert qs[1..] == ps[1..][i - 1 := ps[1..][i - 1].(force := g)];
      TotalForceReplace(ps[1..], i - 1, g);
    }
  }

  /** Pushing `f` onto a free point adds `f` to the total; pulling subtracts it. */
  lemma TotalForcePushPull(ps: seq<Point>, i: nat, f: Vec2)
    requires i < |ps| && !ps[i].fixed
    ensures TotalForce(PushForce(ps, i, f)) == AddSelf(TotalForce(ps), f)
    ensures TotalForce(PullForce(ps, i, f)) == SubSelf(TotalForce(ps), f)
  {
    TotalForceReplace(ps, i, AddSelf(ps[i].force, f));
    TotalForceReplace(ps, i, SubSelf(ps[i].force, f));
  }

  /** Newton's third law on the list: pushing `f` onto one free point and
      pulling it from another (or the same) free point leaves the total force
      unchanged, in either order. */
  lemma EqualAndOpposite(ps: seq<Point>, i: nat, j: nat, f: Vec2)
    requires i < |ps| && j < |ps|
    requires !ps[i].fixed && !ps[j].fixed
    ensures TotalForce(PullForce(PushForce(ps, i, f), j, f)) == TotalForce(ps)
    ensures TotalForce(PushForce(PullForce(ps, i, f), j, f)) == TotalForce(ps)
  {
    var qs := PushForce(ps, i, f);
    TotalForcePushPull(ps, i, f);
    assert !qs[j].fixed;
    TotalForcePushPull(qs, j, f);
    var ws := PullForce(ps, i, f);
    assert !ws[j].fixed;
    TotalForcePushPull(ws, j, f);
  }

  /** The two-body step of a spring: push `f` onto `i`, then pull it from
      `j`. */
  function PushThenPull(ps: seq<Point>, i: nat, j: nat, f: Vec2): (r: seq<Point>)
    requires i < |ps| && j < |ps|
    ensures OnlyForces(ps, r) && FixedKept(ps, r)
    ensures forall k :: 0 <= k < |ps| && k != i && k != j ==> r[k] == ps[k]
    ensures !ps[i].fixed && !ps[j].fixed ==> TotalForce(r) == TotalForce(ps)
    ensures f == Zero ==> r == ps
  {
    var qs := PushForce(ps, i, f);
    var r := PullForce(qs, j, f);
    PushPullOnlyForces(ps, i, f);
    PushPullOnlyForces(qs, j, f);
    OnlyForcesTransitive(ps, qs, r);
    FixedKeptTransitive(ps, qs, r);
    assert !ps[i].fixed && !ps[j].fixed ==> TotalForce(r) == TotalForce(ps) by {
      if !ps[i].fixed && !ps[j].fixed {
        EqualAndOpposite(ps, i, j, f);
      }
    }
    assert f == Zero ==> r == ps by {
      if f == Zero {
        PushPullZero(ps, i);
        PushPullZero(qs, j);
      }
    }
    r
  }

  /** The two-body step of an attraction: pull `f` from `i`, then push it
      onto `j`. */
  function PullThenPush(ps: seq<Point>, i: nat, j: nat, f: Vec2): (r: seq<Point>)
    requires i < |ps| && j < |ps|
    ensures OnlyForces(ps, r) && FixedKept(ps, r)
    ensures forall k :: 0 <= k < |ps| && k != i && k != j ==> r[k] == ps[k]
    ensures !ps[i].fixed && !ps[j].fixed ==> TotalForce(r) == TotalForce(ps)
    ensures f == Zero ==> r == ps
  {
    var qs := PullForce(ps, i, f);
    var r := PushForce(qs, j, f);
    PushPullOnlyForces(ps, i, f);
    PushPullOnlyForces(qs, j, f);
    OnlyForcesTransitive(ps, qs, r);
    FixedKeptTransitive(ps, qs, r);
    assert !ps[i].fixed && !ps[j].fixed ==> TotalForce(r) == TotalForce(ps) by {
      if !ps[i].fixed && !ps[j].fixed {
        EqualAndOpposite(ps, i, j, f);
      }
    }
    assert f == Zero ==> r == ps by {
      if f == Zero {
        PushPullZero(ps, i);
        PushPullZero(qs, j);
      }
    }
    r
  }

  /** Between two distinct free points, each two-body step adds `f` to one
      accumulator and subtracts it from the other. */
  lemma TwoBodyForces(ps: seq<Point>, i: nat, j: nat, f: Vec2)
    requires i < |ps| && j < |ps| && i != j
    requires !ps[i].fixed && !ps[j].fixed
    ensures PushThenPull(ps, i, j, f)[i].force == AddSelf(ps[i].force, f)
    ensures PushThenPull(ps, i, j, f)[j].force == SubSelf(ps[j].force, f)
    ensures PullThenPush(ps, i, j, f)[i].force == SubSelf(ps[i].force, f)
    ensures PullThenPush(ps, i, j, f)[j].force == AddSelf(ps[j].force, f)
  {
  }

  /** Lists with no fixed point stay so while only forces change. */
  lemma AllFreeKept(ps: seq<Point>, r: seq<Point>)
    requires OnlyForces(ps, r) && AllFree(ps)
    ensures AllFree(r)
  {
    forall i | 0 <= i < |r|
      ensures !r[i].fixed
    {
      assert r[i] == ps[i].(force := r[i].force);
    }
  }
}
