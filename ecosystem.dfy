/**
 * `MushMushEcosystem`: the ordered, capped collection of mushrooms that the
 * driver loop ticks and the click handler grows. Every method is proved to
 * have exactly the effect of its value-level counterpart in `EcosystemSpec`.
 */
module MushMush {
  import opened Roots
  import opened Mushrooms
  import opened EcosystemSpec

  /**
   * One inner loop of `mergeNetworks`: every segment of the network has its
   * velocity nudged toward (tx, ty).
   */
  method PullNetwork(net: RootNetwork, tx: real, ty: real, influence: real, hypot: (real, real) -> real)
    requires net.Valid()
    modifies net.Repr
    ensures net.Valid() && net.Repr == old(net.Repr) && net.segments == old(net.segments)
    ensures net.Model() == PullAll(old(net.Model()), tx, ty, influence, hypot)
  {
    ghost var before := net.Model();
    var i := 0;
    while i < |net.segments|
      invariant 0 <= i <= |net.segments|
      invariant net.segments == old(net.segments) && net.Repr == old(net.Repr) && net.Valid()
      invariant forall k :: 0 <= k < i ==> net.segments[k].View() == Pull(before[k], tx, ty, influence, hypot)
      invariant forall k :: i <= k < |net.segments| ==> net.segments[k].View() == before[k]
    {
      PullSegment(net.segments[i], tx, ty, influence, hypot);
      i := i + 1;
    }
    assert net.Model() == PullAll(before, tx, ty, influence, hypot);
  }

  /** The body of that loop: one segment's velocity nudged toward (tx, ty). */
  method PullSegment(segment: RootSegment, tx: real, ty: real, influence: real, hypot: (real, real) -> real)
    modifies segment
    ensures segment.View() == Pull(old(segment.View()), tx, ty, influence, hypot)
  {
    var dirX := tx - segment.x;
    var dirY := ty - segment.y;
    var dist := hypot(dirX, dirY);
    if dist > 0.0 {
      segment.vx := segment.vx + dirX / dist * influence * Gain;
      segment.vy := segment.vy + dirY / dist * influence * Gain;
    }
  }

  /** `PullNetwork` on a mushroom's own network keeps the mushroom valid. */
  method PullRoots(m: Mushroom, tx: real, ty: real, influence: real, hypot: (real, real) -> real)
    requires m.Valid()
    modifies m.Repr
    ensures m.Valid() && m.Repr == old(m.Repr)
    ensures m.Model() == old(m.Model()).(roots := PullAll(old(m.Model()).roots, tx, ty, influence, hypot))
  {
    ghost var before := m.rootNetwork.Model();
    PullNetwork(m.rootNetwork, tx, ty, influence, hypot);
    PullAllShape(before, tx, ty, influence, hypot);
    AgesTrackIgnoresVelocity(before, m.rootNetwork.Model(), m.age);
  }

  /** Picking xs at the positions idx, then at k, is picking xs at idx + [k]. */
  lemma PickSnoc<T>(xs: seq<T>, kept: seq<T>, idx: seq<nat>, k: nat)
    requires |kept| == |idx| && k < |xs|
    requires forall t :: 0 <= t < |kept| ==> idx[t] < |xs| && kept[t] == xs[idx[t]]
    ensures forall t :: 0 <= t < |kept| + 1 ==> (idx + [k])[t] < |xs| && (kept + [xs[k]])[t] == xs[(idx + [k])[t]]
  {
    forall t | 0 <= t < |kept| + 1
      ensures (idx + [k])[t] < |xs| && (kept + [xs[k]])[t] == xs[(idx + [k])[t]]
    {
      if t < |kept| {
        assert (idx + [k])[t] == idx[t] && (kept + [xs[k]])[t] == kept[t];
      }
    }
  }

  class MushMushEcosystem {
    var mushrooms: seq<Mushroom>
    ghost var Repr: set<object>

    /** The structure: every mushroom valid, owned, and disjoint from the others; the cap holds. */
    ghost predicate Sound()
      reads this, Repr
    {
      && this in Repr
      && |mushrooms| <= MaxMushrooms
      && (forall k :: 0 <= k < |mushrooms| ==>
            && mushrooms[k] in Repr
            && mushrooms[k].Repr <= Repr
            && this !in mushrooms[k].Repr
            && mushrooms[k].Valid())
      && (forall k, l :: 0 <= k < l < |mushrooms| ==> mushrooms[k].Repr !! mushrooms[l].Repr)
    }

    /** Between calls, every mushroom is also alive. */
    ghost predicate Valid()
      reads this, Repr
    {
      Sound() && forall k :: 0 <= k < |mushrooms| ==> mushrooms[k].IsAlive()
    }

    ghost function Model(): (r: seq<Organism>)
      requires Sound()
      reads this, Repr
      ensures |r| == |mushrooms|
      ensures forall k :: 0 <= k < |mushrooms| ==> r[k] == mushrooms[k].Model()
    {
      seq(|mushrooms|, k requires 0 <= k < |mushrooms| && Sound() reads this, Repr => mushrooms[k].Model())
    }

    /**
     * Changing one mushroom inside its own footprint (which may grow by
     * fresh objects) keeps the ecosystem sound and every other mushroom as
     * it was.
     */
    twostate lemma OthersKept(i: nat)
      requires old(Sound()) && mushrooms == old(mushrooms) && i < |mushrooms|
      requires old(Repr) <= Repr && mushrooms[i].Repr <= Repr && this in Repr
      requires mushrooms[i].Valid() && this !in mushrooms[i].Repr
      requires fresh(mushrooms[i].Repr - old(mushrooms[i].Repr))
      requires unchanged(old(Repr) - old(mushrooms[i].Repr) - {this})
      ensures Sound()
      ensures forall k :: 0 <= k < |mushrooms| && k != i ==> mushrooms[k].Model() == old(mushrooms[k].Model())
    {
      forall k | 0 <= k < |mushrooms| && k != i
        ensures mushrooms[k].Repr == old(mushrooms[k].Repr)
        ensures mushrooms[k].Valid() && mushrooms[k].Model() == old(mushrooms[k].Model())
        ensures mushrooms[k].Repr !! mushrooms[i].Repr
      {
        var m := mushrooms[k];
        assert m.Repr == old(m.Repr);
        assert old(m.Repr) !! old(mushrooms[i].Repr);
      }
    }

    constructor ()
      ensures Valid() && fresh(Repr)
      ensures Model() == []
    {
      mushrooms := [];
      Repr := {this};
    }

    method AddMushroom(x: real, y: real, s: Spawn)
      requires Valid() && SpawnOk(s)
      modifies this
      ensures Valid() && fresh(Repr - old(Repr))
      ensures Model() == AddStep(old(Model()), x, y, s)
    {
      ghost var m0 := Model();
      if |mushrooms| < MaxMushrooms {
        label Before:
        var m := new Mushroom(x, y, s);
        mushrooms := mushrooms + [m];
        Repr := Repr + m.Repr;
        Appended@Before(m);
        assert Model() == m0 + [Newborn(x, y, s)];
      }
    }

    /** Appending a fresh, valid, living mushroom keeps the others as they were. */
    twostate lemma Appended(new m: Mushroom)
      requires old(Valid()) && unchanged(old(Repr) - {this})
      requires mushrooms == old(mushrooms) + [m] && Repr == old(Repr) + m.Repr
      requires m.Valid() && m.IsAlive() && fresh(m.Repr) && |mushrooms| <= MaxMushrooms
      ensures Valid()
      ensures Model() == old(Model()) + [m.Model()]
    {
      forall k | 0 <= k < |old(mushrooms)|
        ensures mushrooms[k].Repr == old(mushrooms[k].Repr)
        ensures mushrooms[k].Valid() && mushrooms[k].Model() == old(mushrooms[k].Model())
        ensures mushrooms[k].IsAlive() && mushrooms[k].Repr !! m.Repr
      {
        var o := mushrooms[k];
        assert o == old(mushrooms)[k];
        assert o.Repr == old(o.Repr);
      }
    }

    /** `update`: every mushroom updated, then `checkForMerge`, then the dead removed. */
    method Update(draws: seq<Draws>, hypot: (real, real) -> real)
      requires Valid() && DrawsFit(Model(), draws)
      modifies Repr
      ensures Valid() && fresh(Repr - old(Repr))
      ensures Model() == EcoStep(old(Model()), draws, hypot)
    {
      UpdateAll(draws);
      CheckForMerge(hypot);
      RemoveDead();
    }

    /** The `forEach` of `update` that advances every mushroom one tick. */
    method UpdateAll(draws: seq<Draws>)
      requires Sound() && DrawsFit(Model(), draws)
      modifies Repr
      ensures Sound() && fresh(Repr - old(Repr)) && mushrooms == old(mushrooms)
      ensures Model() == Grow(old(Model()), draws)
    {
      ghost var m0 := Model();
      GrownEnds(m0, draws, |m0|);
      var i := 0;
      while i < |mushrooms|
        invariant 0 <= i <= |mushrooms| == |m0| && mushrooms == old(mushrooms)
        invariant Sound() && fresh(Repr - old(Repr))
        invariant Model() == GrownUpTo(m0, draws, i)
      {
        var next := i + 1;
        GrownStep(m0, draws, i, next);
        UpdateOne(i, draws[i]);
        i := next;
      }
    }

    /** `mushroom.update()` on mushroom i of the array. */
    method UpdateOne(i: nat, d: Draws)
      requires Sound() && i < |mushrooms| && Fits(d, |Model()[i].roots|)
      modifies Repr
      ensures Sound() && fresh(Repr - old(Repr)) && mushrooms == old(mushrooms)
      ensures Model() == old(Model())[i := OrganismStep(old(Model())[i], d)]
    {
      mushrooms[i].Update(d);
      Repr := Repr + mushrooms[i].Repr;
      OthersKept(i);
    }

    /** `this.mushrooms = this.mushrooms.filter(m => m.isAlive())`. */
    method RemoveDead()
      requires Sound()
      modifies this
      ensures Valid() && Repr == old(Repr)
      ensures Model() == KeepAlive(old(Model()))
    {
      label Before:
      ghost var m0 := Model();
      var kept, idx := Survivors(m0);
      mushrooms := kept;
      SurvivorsIncrease(m0);
      Filtered@Before(idx);
      ghost var now := Model();
      assert forall t :: 0 <= t < |idx| ==> now[t] == mushrooms[t].Model() == m0[idx[t]];
      KeepAliveIs(m0, idx, now);
    }

    /**
     * Replacing the array by a subsequence of it, taken at increasing
     * positions, keeps the ecosystem sound and every kept mushroom as it
     * was.
     */
    twostate lemma Filtered(idx: seq<nat>)
      requires old(Sound()) && Repr == old(Repr) && unchanged(old(Repr) - {this})
      requires |mushrooms| == |idx| <= |old(mushrooms)|
      requires forall t :: 0 <= t < |idx| ==> idx[t] < |old(mushrooms)| && mushrooms[t] == old(mushrooms)[idx[t]]
      requires forall s, t :: 0 <= s < t < |idx| ==> idx[s] < idx[t]
      ensures Sound()
      ensures forall t :: 0 <= t < |idx| ==> mushrooms[t].Model() == old(Model())[idx[t]]
    {
      forall t | 0 <= t < |idx|
        ensures mushrooms[t].Repr == old(mushrooms[idx[t]].Repr)
        ensures mushrooms[t].Valid() && mushrooms[t].Model() == old(Model())[idx[t]]
      {
        var m := mushrooms[t];
        assert m == old(mushrooms)[idx[t]];
        assert m.Repr == old(m.Repr);
      }
    }

    /** The living mushrooms, in order, with their positions in the array. */
    method Survivors(ghost m0: seq<Organism>) returns (kept: seq<Mushroom>, ghost idx: seq<nat>)
      requires Sound() && |m0| == |mushrooms|
      requires forall k :: 0 <= k < |m0| ==> mushrooms[k].IsAlive() == Alive(m0[k])
      ensures idx == SurvivorIndices(m0)
      ensures |kept| == |idx|
      ensures forall t :: 0 <= t < |kept| ==> kept[t] == mushrooms[idx[t]]
    {
      kept := [];
      idx := [];
      var k := 0;
      while k < |mushrooms|
        invariant 0 <= k <= |mushrooms|
        invariant idx == SurvivorIndices(m0[..k])
        invariant |kept| == |idx|
        invariant forall t :: 0 <= t < |kept| ==> kept[t] == mushrooms[idx[t]]
      {
        var next := k + 1;
        SurvivorSnoc(m0, k, next);
        var m := mushrooms[k];
        if m.IsAlive() {
          PickSnoc(mushrooms, kept, idx, k);
          kept := kept + [m];
          idx := idx + [k];
        }
        k := next;
      }
      SurvivorWhole(m0, k);
    }

    method CheckForMerge(hypot: (real, real) -> real)
      requires Sound()
      modifies Repr
      ensures Sound() && Repr == old(Repr) && mushrooms == old(mushrooms)
      ensures Model() == MergeScan(old(Model()), hypot)
    {
      ghost var m0 := Model();
      if |mushrooms| < 2 {
        FewerThanTwoSelectNone(m0, hypot);
        return;
      }
      var i := 0;
      while i < |mushrooms|
        invariant 0 <= i <= |mushrooms| == |m0|
        invariant Sound() && Repr == old(Repr) && mushrooms == old(mushrooms)
        invariant Model() == ApplyMerges(m0, RowsBefore(m0, i, hypot), hypot)
      {
        var next := i + 1;
        ScanRow(m0, i, next, hypot);
        i := next;
      }
    }

    /**
     * One iteration of the outer loop of `checkForMerge`: row i against every
     * later mushroom. `next` is i + 1, passed in as the step lemmas of
     * `EcosystemSpec` take it, so that the caller's `i := next` matches it.
     */
    method ScanRow(ghost m0: seq<Organism>, i: nat, next: nat, hypot: (real, real) -> real)
      requires Sound() && i < |mushrooms| == |m0| && next == i + 1
      requires Model() == ApplyMerges(m0, RowsBefore(m0, i, hypot), hypot)
      modifies Repr
      ensures Sound() && Repr == old(Repr) && mushrooms == old(mushrooms)
      ensures Model() == ApplyMerges(m0, RowsBefore(m0, next, hypot), hypot)
    {
      RowStart(m0, i, next, hypot);
      var j := next;
      while j < |mushrooms|
        invariant i + 1 <= j <= |mushrooms|
        invariant Sound() && Repr == old(Repr) && mushrooms == old(mushrooms)
        invariant Model() == ApplyMerges(m0, Scanned(m0, i, j, hypot), hypot)
      {
        var after := j + 1;
        ScanStep(i, j, hypot);
        ScanAdvance(m0, i, j, after, hypot);
        j := after;
      }
      RowEnd(m0, i, j, next, hypot);
    }

    /** One iteration of the inner loop of `checkForMerge`. */
    method ScanStep(i: nat, j: nat, hypot: (real, real) -> real)
      requires Sound() && i < j < |mushrooms|
      modifies Repr
      ensures Sound() && Repr == old(Repr) && mushrooms == old(mushrooms)
      ensures Model() == ScanPair(old(Model()), i, j, hypot)
    {
      var m1 := mushrooms[i];
      var m2 := mushrooms[j];
      var distance := hypot(m1.x - m2.x, m1.y - m2.y);
      ghost var cur := Model();
      DistanceOf(cur, i, j, hypot, m1.x, m1.y, m2.x, m2.y);
      if distance < AttractionRange && distance > MergeThreshold {
        MergeNetworks(i, j, distance, hypot);
      }
    }

    /** `mergeNetworks(mushrooms[i], mushrooms[j], distance)`. */
    method MergeNetworks(i: nat, j: nat, distance: real, hypot: (real, real) -> real)
      requires Sound() && i < j < |mushrooms|
      requires distance == hypot(mushrooms[i].x - mushrooms[j].x, mushrooms[i].y - mushrooms[j].y)
      modifies Repr
      ensures Sound() && Repr == old(Repr) && mushrooms == old(mushrooms)
      ensures Model() == MergePair(old(Model()), i, j, hypot)
    {
      var m1 := mushrooms[i];
      var m2 := mushrooms[j];
      ghost var ms := Model();
      DistanceOf(ms, i, j, hypot, m1.x, m1.y, m2.x, m2.y);
      var mergeInfluence := MergeInfluence(distance);
      MergePairSteps(ms, i, j, hypot, mergeInfluence, m1.x, m1.y, m2.x, m2.y);
      PullOne(i, m2.x, m2.y, mergeInfluence, hypot);
      PullOne(j, m1.x, m1.y, mergeInfluence, hypot);
    }

    /** One of the two loops of `mergeNetworks`, on mushroom k. */
    method PullOne(k: nat, tx: real, ty: real, influence: real, hypot: (real, real) -> real)
      requires Sound() && k < |mushrooms|
      modifies Repr
      ensures Sound() && Repr == old(Repr) && mushrooms == old(mushrooms)
      ensures Model() == old(Model())[k := old(Model())[k].(roots := PullAll(old(Model())[k].roots, tx, ty, influence, hypot))]
    {
      PullRoots(mushrooms[k], tx, ty, influence, hypot);
      OthersKept(k);
    }
  }
}
