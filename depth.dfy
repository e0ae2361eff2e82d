/** The depth buffer's per-pixel rule. Every cell starts at `float('inf')` and a fragment
    of depth `z` is skipped only when `z > zbuffer[y][x]`: equal depth overwrites. */
module DepthBuffer {
  import opened Numbers

  /** A stored depth: infinity ("nothing drawn yet") or a finite value. */
  datatype Depth = Infinity | Finite(value: real)

  /** The skip test of the render loop, `z > zbuffer[y][x]`. */
  predicate Farther(z: real, stored: Depth)
  {
    stored.Finite? && z > stored.value
  }

  /** `a <= b` on depths, infinity being the largest. */
  predicate NoFarther(a: Depth, b: Depth)
  {
    b.Infinity? || (a.Finite? && a.value <= b.value)
  }

  /** The stored depth after testing a fragment of depth `z`: replaced by `z` unless
      `z` is strictly farther than what is stored. */
  function Update(stored: Depth, z: real): (r: Depth)
    ensures NoFarther(r, stored)
    ensures NoFarther(r, Finite(z))
    ensures r == Finite(z) <==> !Farther(z, stored)
    ensures r != Finite(z) ==> r == stored
  {
    if Farther(z, stored) then stored else Finite(z)
  }

  /** A fragment at exactly the stored depth replaces it. */
  lemma TieOverwrites(z: real)
    ensures !Farther(z, Finite(z)) && Update(Finite(z), z) == Finite(z)
  {
  }

  /** Testing the same depth twice is testing it once. */
  lemma UpdateIdempotent(stored: Depth, z: real)
    ensures Update(Update(stored, z), z) == Update(stored, z)
  {
  }

  /** The stored depth after a sequence of fragments at one pixel, in order. */
  function UpdateAll(stored: Depth, zs: seq<real>): Depth
  {
    if zs == [] then stored else Update(UpdateAll(stored, zs[..|zs| - 1]), zs[|zs| - 1])
  }

  /** `min(zs)`. */
  function MinOf(zs: seq<real>): (m: real)
    requires zs != []
    ensures forall i :: 0 <= i < |zs| ==> m <= zs[i]
    ensures exists i :: 0 <= i < |zs| && m == zs[i]
  {
    if |zs| == 1 then zs[0]
    else
      var m := MinReal(MinOf(zs[..|zs| - 1]), zs[|zs| - 1]);
      assert forall i :: 0 <= i < |zs| - 1 ==> zs[..|zs| - 1][i] == zs[i];
      m
  }

  /** Starting from an empty cell, the stored depth is the least of the depths tested. */
  lemma {:induction false} UpdateAllIsMin(zs: seq<real>)
    requires zs != []
    ensures UpdateAll(Infinity, zs) == Finite(MinOf(zs))
  {
    if |zs| > 1 {
      UpdateAllIsMin(zs[..|zs| - 1]);
    }
  }

  /** A fragment in the sequence is drawn exactly when it is no farther than every
      earlier one: the running minimum does not increase at that index. */
  lemma {:induction false} DrawnIffNoFartherThanEarlier(zs: seq<real>, i: nat)
    requires i < |zs|
    ensures !Farther(zs[i], UpdateAll(Infinity, zs[..i]))
        <==> (forall j :: 0 <= j < i ==> zs[i] <= zs[j])
  {
    if i > 0 {
      UpdateAllIsMin(zs[..i]);
      var m := MinOf(zs[..i]);
      assert forall j :: 0 <= j < i ==> zs[..i][j] == zs[j];
    } else {
      assert zs[..i] == [];
    }
  }
}
