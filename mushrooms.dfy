/**
 * A mushroom: a fixed position and appearance, an age that counts ticks,
 * and the root network it owns.
 */
module Mushrooms {
  import Fading
  import opened Roots

  /** `Mushroom.maxAge`: a mushroom is alive while its age is below this. */
  const MushroomMaxAge: nat := 300

  datatype Rgb = Rgb(r: int, g: int, b: int)

  /** The five cap colours `generateCapColor` picks from. */
  const Palette: seq<Rgb> := [
    Rgb(255, 120, 80),   // rusty red
    Rgb(200, 100, 120),  // pinkish
    Rgb(220, 130, 60),   // orange-brown
    Rgb(180, 90, 100),   // mauve
    Rgb(240, 140, 100)   // peachy
  ]

  /** Value view of a `Mushroom` object and of the network it owns. */
  datatype Organism = Organism(x: real, y: real, age: int, size: real, color: Rgb, roots: seq<Segment>)

  /** `isAlive`. */
  predicate Alive(m: Organism) {
    m.age < MushroomMaxAge
  }

  /** Random inputs for creating a mushroom. */
  datatype Spawn = Spawn(
    size: real,          // Math.random() * 30 + 20
    colorIndex: nat,     // Math.floor(Math.random() * colors.length)
    seeds: seq<Seed>)    // one per initial root segment

  predicate SpawnOk(s: Spawn) {
    && 20.0 <= s.size < 50.0
    && s.colorIndex < |Palette|
    && |s.seeds| == InitialSegments
    && (forall k :: 0 <= k < |s.seeds| ==> SeedOk(s.seeds[k]))
  }

  /** A mushroom as its constructor leaves it. */
  function Newborn(x: real, y: real, s: Spawn): (m: Organism)
    requires SpawnOk(s)
    ensures m.age == 0 && Alive(m) && |m.roots| == InitialSegments
    ensures m.color in Palette
    ensures forall k :: 0 <= k < |m.roots| ==> m.roots[k].age == 0 && m.roots[k].x == x && m.roots[k].y == y
  {
    Organism(x, y, 0, s.size, Palette[s.colorIndex], Seedlings(x, y, s.seeds))
  }

  /** `Mushroom.update`: one tick older, and one tick of the roots. */
  function OrganismStep(m: Organism, d: Draws): (r: Organism)
    requires Fits(d, |m.roots|)
    ensures r.x == m.x && r.y == m.y && r.size == m.size && r.color == m.color
    ensures r.age == m.age + 1 && Alive(r) == (m.age + 1 < MushroomMaxAge)
    ensures |m.roots| <= |r.roots| <= |m.roots| + 1
  {
    m.(age := m.age + 1, roots := NetworkStep(m.roots, d))
  }

  /** `Mushroom.draw`'s alpha: never negative, and above one half while alive. */
  function MushroomAlpha(age: int): (a: real)
    ensures 0.0 <= a
    ensures age >= 0 ==> a <= 1.0
    ensures 0 <= age < MushroomMaxAge ==> a > 0.5
  {
    Fading.AgeFade(age, MushroomMaxAge, 0.5)
  }

  class Mushroom {
    const x: real
    const y: real
    var age: int
    const rootNetwork: RootNetwork
    const size: real
    const capColor: Rgb
    ghost var Repr: set<object>

    ghost predicate Valid()
      reads this, Repr
    {
      && this in Repr
      && rootNetwork in Repr
      && rootNetwork.Repr <= Repr
      && this !in rootNetwork.Repr
      && rootNetwork.Valid()
      && AgesTrack(rootNetwork.Model(), age)
    }

    ghost function Model(): Organism
      requires Valid()
      reads this, Repr
    {
      Organism(x, y, age, size, capColor, rootNetwork.Model())
    }

    constructor (x0: real, y0: real, s: Spawn)
      requires SpawnOk(s)
      ensures Valid() && fresh(Repr)
      ensures Model() == Newborn(x0, y0, s)
    {
      x, y := x0, y0;
      age := 0;
      var net := new RootNetwork(x0, y0, s.seeds);
      rootNetwork := net;
      size := s.size;
      capColor := Palette[s.colorIndex];
      Repr := {this} + net.Repr;
      new;
      SeedlingsTrack(x0, y0, s.seeds);
    }

    method Update(d: Draws)
      requires Valid() && Fits(d, |rootNetwork.segments|)
      modifies Repr
      ensures Valid() && fresh(Repr - old(Repr))
      ensures Model() == OrganismStep(old(Model()), d)
    {
      ghost var roots := rootNetwork.Model();
      NetworkStepTracks(roots, age, d);
      age := age + 1;
      assert rootNetwork.Valid() && rootNetwork.Model() == roots;
      rootNetwork.Update(d);
      Repr := Repr + rootNetwork.Repr;
      assert rootNetwork.Model() == NetworkStep(roots, d);
    }

    predicate IsAlive()
      requires Valid()
      reads this, Repr
      ensures IsAlive() == Alive(Model())
    {
      age < MushroomMaxAge
    }
  }
}
