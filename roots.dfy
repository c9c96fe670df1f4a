/**
 * Root segments and the root network of one mushroom.
 *
 * Value view: a `Segment` is what a `RootSegment` object holds; a network's
 * view is the sequence of its segments' views. `SegmentStep` and
 * `NetworkStep` say what one tick does to them, and the classes are proved
 * to implement exactly those steps.
 *
 * Randomness is supplied by the caller: every `Math.random()` of a tick
 * becomes a field of `Draws`, every one of construction a field of `Seed`.
 * `cos`/`sin` of a heading become the unit vector `(dirX, dirY)`.
 */
module Roots {
  import Fading

  /** `this.maxSegments`: the network stops branching at this count. */
  const MaxSegments: nat := 150
  /** Segments planted when a network is constructed. */
  const InitialSegments: nat := 5
  /** `RootSegment.maxAge`: only the fade uses it. */
  const SegmentMaxAge: nat := 200
  /** `Math.PI * 2` as a double: initial headings lie in [0, Tau). */
  const Tau: real := 6.283185307179586

  datatype Segment = Segment(x: real, y: real, angle: real, vx: real, vy: real, age: int, length: real)

  /** Random inputs for creating one of the initial segments. */
  datatype Seed = Seed(angle: real, length: real, dirX: real, dirY: real)

  /** Random inputs for one tick of a network. */
  datatype Draws = Draws(
    jitters: seq<real>,   // per segment: (Math.random() - 0.5) * 0.2
    branch: bool,         // Math.random() < branchChance
    pick: nat,            // Math.floor(Math.random() * segments.length)
    spread: real,         // (Math.random() - 0.5) * 0.4
    length: real,         // Math.random() * 15 + 5
    dirX: real,           // cos of the new heading
    dirY: real)           // sin of the new heading

  predicate IsJitter(j: real) { -0.1 <= j < 0.1 }
  predicate IsLength(l: real) { 5.0 <= l < 20.0 }
  /** `(cos a, sin a)` for some heading `a`. */
  predicate IsHeading(dx: real, dy: real) { dx * dx + dy * dy == 1.0 }

  predicate SeedOk(s: Seed) {
    0.0 <= s.angle < Tau && IsLength(s.length) && IsHeading(s.dirX, s.dirY)
  }

  /** The draws of a tick fit a network of `n` segments. */
  predicate Fits(d: Draws, n: nat) {
    && |d.jitters| == n
    && (forall k :: 0 <= k < n ==> IsJitter(d.jitters[k]))
    && d.pick < n
    && -0.2 <= d.spread < 0.2
    && IsLength(d.length)
    && IsHeading(d.dirX, d.dirY)
  }

  /** A segment as the constructor creates it: at rest age, moving along its heading. */
  function NewSegment(x: real, y: real, angle: real, length: real, dirX: real, dirY: real): Segment {
    Segment(x, y, angle, dirX, dirY, 0, length)
  }

  /** `RootSegment.update`: move by the velocity, age, fall, jitter sideways. */
  function SegmentStep(s: Segment, jitter: real): (r: Segment)
    ensures r.age == s.age + 1 && r.angle == s.angle && r.length == s.length
  {
    Segment(s.x + s.vx, s.y + s.vy, s.angle, s.vx + jitter, s.vy + 0.1, s.age + 1, s.length)
  }

  /** The segment a branch adds: at the parent's position, heading spread from the parent's. */
  function Sprout(parent: Segment, d: Draws): (r: Segment)
    ensures r.x == parent.x && r.y == parent.y && r.age == 0
  {
    NewSegment(parent.x, parent.y, parent.angle + d.spread, d.length, d.dirX, d.dirY)
  }

  /** The five segments of a new network, all at the network's origin. */
  function Seedlings(x: real, y: real, seeds: seq<Seed>): (r: seq<Segment>)
    ensures |r| == |seeds|
    ensures forall k :: 0 <= k < |r| ==> r[k].age == 0 && r[k].x == x && r[k].y == y
  {
    seq(|seeds|, k requires 0 <= k < |seeds| =>
      NewSegment(x, y, seeds[k].angle, seeds[k].length, seeds[k].dirX, seeds[k].dirY))
  }

  /** Every segment aged by one tick, in place. */
  function AgeAll(segs: seq<Segment>, jitters: seq<real>): (r: seq<Segment>)
    requires |jitters| == |segs|
    ensures |r| == |segs|
  {
    seq(|segs|, k requires 0 <= k < |segs| => SegmentStep(segs[k], jitters[k]))
  }

  /** `RootNetwork.update` on the view. */
  function NetworkStep(segs: seq<Segment>, d: Draws): (r: seq<Segment>)
    requires Fits(d, |segs|)
    // the count grows by one exactly when the network was below the cap and branched
    ensures |r| == if |segs| < MaxSegments && d.branch then |segs| + 1 else |segs|
    ensures |segs| <= MaxSegments ==> |r| <= MaxSegments
    // every existing segment aged by exactly one; heading and length untouched
    ensures forall k :: 0 <= k < |segs| ==>
      r[k].age == segs[k].age + 1 && r[k].angle == segs[k].angle && r[k].length == segs[k].length
    // the new segment is last, at the parent's post-update position, at age 0
    ensures |r| > |segs| ==>
      r[|segs|].x == r[d.pick].x && r[|segs|].y == r[d.pick].y && r[|segs|].age == 0
  {
    var aged := AgeAll(segs, d.jitters);
    if |segs| < MaxSegments && d.branch then aged + [Sprout(aged[d.pick], d)] else aged
  }

  /**
   * Ages inside one mushroom's network: the first five segments are as old
   * as the mushroom, every segment is between 0 and the mushroom's age, and
   * segments are in order of decreasing age (later ones are younger).
   */
  ghost predicate AgesTrack(segs: seq<Segment>, age: int) {
    && |segs| >= InitialSegments
    && (forall k :: 0 <= k < InitialSegments ==> segs[k].age == age)
    && (forall k :: 0 <= k < |segs| ==> 0 <= segs[k].age <= age)
    && (forall k, l :: 0 <= k < l < |segs| ==> segs[k].age >= segs[l].age)
  }

  lemma SeedlingsTrack(x: real, y: real, seeds: seq<Seed>)
    requires |seeds| == InitialSegments
    ensures AgesTrack(Seedlings(x, y, seeds), 0)
  {
  }

  /** A tick of the network alongside one tick of its mushroom keeps the ages in step. */
  lemma NetworkStepTracks(segs: seq<Segment>, age: int, d: Draws)
    requires Fits(d, |segs|) && AgesTrack(segs, age)
    ensures AgesTrack(NetworkStep(segs, d), age + 1)
  {
  }

  /** `RootSegment.draw`'s alpha: never negative, fully faded from age 286 on. */
  function SegmentAlpha(age: int): (a: real)
    ensures 0.0 <= a
    ensures age >= 0 ==> a <= 1.0
    ensures a == 0.0 <==> age >= 286
  {
    Fading.AgeFade(age, SegmentMaxAge, 0.7)
  }

  class RootSegment {
    var x: real
    var y: real
    const angle: real
    /** Only the constructor sets it; the network always passes null. */
    const parent: RootSegment?
    const length: real
    var age: int
    var vx: real
    var vy: real

    ghost function View(): Segment
      reads this
    {
      Segment(x, y, angle, vx, vy, age, length)
    }

    constructor (x0: real, y0: real, angle0: real, parent0: RootSegment?, length0: real, dirX: real, dirY: real)
      requires IsLength(length0) && IsHeading(dirX, dirY)
      ensures View() == NewSegment(x0, y0, angle0, length0, dirX, dirY)
      ensures parent == parent0
    {
      x, y, angle, parent := x0, y0, angle0, parent0;
      length := length0;
      age := 0;
      vx, vy := dirX, dirY;
    }

    method Update(jitter: real)
      requires IsJitter(jitter)
      modifies this
      ensures View() == SegmentStep(old(View()), jitter)
    {
      x := x + vx;
      y := y + vy;
      age := age + 1;
      vy := vy + 0.1;
      vx := vx + jitter;
    }
  }

  class RootNetwork {
    const startX: real
    const startY: real
    var segments: seq<RootSegment>
    ghost var Repr: set<object>

    ghost predicate Valid()
      reads this, Repr
    {
      && this in Repr
      && (forall k :: 0 <= k < |segments| ==> segments[k] in Repr)
      && (forall k, l :: 0 <= k < l < |segments| ==> segments[k] != segments[l])
      && (forall k :: 0 <= k < |segments| ==> segments[k].parent == null)
      && InitialSegments <= |segments| <= MaxSegments
    }

    ghost function Model(): (r: seq<Segment>)
      requires Valid()
      reads this, Repr
      ensures |r| == |segments|
    {
      seq(|segments|, k requires 0 <= k < |segments| reads this, segments => segments[k].View())
    }

    constructor (x: real, y: real, seeds: seq<Seed>)
      requires |seeds| == InitialSegments
      requires forall k :: 0 <= k < |seeds| ==> SeedOk(seeds[k])
      ensures Valid() && fresh(Repr)
      ensures startX == x && startY == y
      ensures Model() == Seedlings(x, y, seeds)
    {
      startX, startY := x, y;
      segments := [];
      Repr := {this};
      new;
      var i := 0;
      while i < InitialSegments
        invariant 0 <= i <= InitialSegments && |segments| == i
        invariant this in Repr && fresh(Repr)
        invariant forall k :: 0 <= k < i ==> segments[k] in Repr && segments[k].parent == null
        invariant forall k, l :: 0 <= k < l < i ==> segments[k] != segments[l]
        invariant forall k :: 0 <= k < i ==> segments[k].View() == Seedlings(x, y, seeds)[k]
      {
        var s := new RootSegment(x, y, seeds[i].angle, null, seeds[i].length, seeds[i].dirX, seeds[i].dirY);
        segments := segments + [s];
        Repr := Repr + {s};
        i := i + 1;
      }
    }

    method Update(d: Draws)
      requires Valid() && Fits(d, |segments|)
      modifies Repr
      ensures Valid() && fresh(Repr - old(Repr))
      ensures Model() == NetworkStep(old(Model()), d)
    {
      AgeSegments(d.jitters);
      ghost var aged := Model();
      if |segments| < MaxSegments && d.branch {
        var parent := segments[d.pick];
        assert parent.View() == aged[d.pick];
        var s := new RootSegment(parent.x, parent.y, parent.angle + d.spread, null, d.length, d.dirX, d.dirY);
        AddSegment(s);
        assert s.View() == Sprout(aged[d.pick], d);
      }
    }

    /** The `forEach` of `update`: every segment one tick older, in place. */
    method AgeSegments(jitters: seq<real>)
      requires Valid() && |jitters| == |segments|
      requires forall k :: 0 <= k < |jitters| ==> IsJitter(jitters[k])
      modifies Repr
      ensures Valid() && Repr == old(Repr) && segments == old(segments)
      ensures Model() == AgeAll(old(Model()), jitters)
    {
      ghost var before := Model();
      var i := 0;
      while i < |segments|
        invariant 0 <= i <= |segments|
        invariant segments == old(segments) && Repr == old(Repr) && Valid()
        invariant forall k :: 0 <= k < i ==> segments[k].View() == SegmentStep(before[k], jitters[k])
        invariant forall k :: i <= k < |segments| ==> segments[k].View() == before[k]
      {
        segments[i].Update(jitters[i]);
        i := i + 1;
      }
    }

    /** `this.segments.push(newSegment)`. */
    method AddSegment(s: RootSegment)
      requires Valid() && s !in Repr && s.parent == null && |segments| < MaxSegments
      modifies this
      ensures Valid() && Repr == old(Repr) + {s} && segments == old(segments) + [s]
      ensures Model() == old(Model()) + [s.View()]
    {
      segments := segments + [s];
      Repr := Repr + {s};
    }
  }
}
