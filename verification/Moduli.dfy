/** The server's stock of group moduli by bit length, and the choice of one for a client's range. */
module Moduli {
  import opened Bytes
  import opened Drawing

  datatype Reason = BelowRequirements | WrongLength

  datatype Pick = Picked(generator: int, modulus: int, left: seq<bytes>) | Empty | StillRolling

  /** How far a bit length lies outside a range. */
  function Outside(b: int, min: int, max: int): (d: nat)
    ensures min <= max ==> (d == 0 <==> min <= b <= max) && (b < min ==> b + d == min) && (b > max ==> b - d == max)
  {
    if b < min then min - b else if b > max then b - max else 0
  }

  ghost predicate Within(sizes: seq<nat>, low: int, high: int) {
    exists b :: b in sizes && low <= b <= high
  }

  /**
   * The least size from the preferred one up to the maximum; else the greatest within the range; else, if some size is
   * below the range, the greatest of all, and if none is, the least of all.
   */
  ghost predicate Chosen(sizes: seq<nat>, min: int, prefer: int, max: int, good: int) {
    && good in sizes
    && if Within(sizes, prefer, max) then
         prefer <= good <= max && forall b :: b in sizes && prefer <= b <= max ==> good <= b
       else if Within(sizes, min, max) then
         min <= good <= max && forall b :: b in sizes && min <= b <= max ==> b <= good
       else if exists b :: b in sizes && b < min then
         forall b :: b in sizes ==> b <= good
       else
         forall b :: b in sizes ==> good <= b
  }

  ghost predicate Closest(sizes: seq<nat>, min: int, max: int, good: int) {
    forall b :: b in sizes ==> Outside(good, min, max) <= Outside(b, min, max)
  }

  ghost predicate Ascending(sizes: seq<nat>) {
    forall i, j :: 0 <= i < j < |sizes| ==> sizes[i] < sizes[j]
  }

  /** The two passes over the sorted sizes and the fallback; `good` is -1 until something fits. */
  method PickSize(sizes: seq<nat>, min: int, prefer: int, max: int) returns (good: int)
    requires sizes != [] && Ascending(sizes)
    ensures Chosen(sizes, min, prefer, max, good)
  {
    good := FirstPass(sizes, prefer, max);
    if good == -1 {
      good := SecondPass(sizes, min, max);
    }
    if good == -1 {
      good := sizes[0];
      if min > good {
        good := sizes[|sizes| - 1];
        assert sizes[0] in sizes;
      }
    }
  }

  method FirstPass(sizes: seq<nat>, prefer: int, max: int) returns (good: int)
    ensures good == -1 <==> !Within(sizes, prefer, max)
    ensures good != -1 ==> good in sizes && prefer <= good <= max
    ensures good != -1 ==> forall b :: b in sizes && prefer <= b <= max ==> good <= b
  {
    good := -1;
    for i := 0 to |sizes|
      invariant good == -1 <==> forall k :: 0 <= k < i ==> !(prefer <= sizes[k] <= max)
      invariant good != -1 ==> good in sizes && prefer <= good <= max
      invariant good != -1 ==> forall k :: 0 <= k < i && prefer <= sizes[k] <= max ==> good <= sizes[k]
    {
      var b := sizes[i];
      if b >= prefer && b <= max && (b < good || good == -1) {
        good := b;
      }
    }
  }

  method SecondPass(sizes: seq<nat>, min: int, max: int) returns (good: int)
    ensures good == -1 <==> !Within(sizes, min, max)
    ensures good != -1 ==> good in sizes && min <= good <= max
    ensures good != -1 ==> forall b :: b in sizes && min <= b <= max ==> b <= good
  {
    good := -1;
    for i := 0 to |sizes|
      invariant good == -1 <==> forall k :: 0 <= k < i ==> !(min <= sizes[k] <= max)
      invariant good != -1 ==> good in sizes && min <= good <= max
      invariant good != -1 ==> forall k :: 0 <= k < i && min <= sizes[k] <= max ==> sizes[k] <= good
    {
      var b := sizes[i];
      if b >= min && b <= max && b > good {
        good := b;
      }
    }
  }

  /** A single size is above the range, all others are below it, and none of them is nearer to it. */
  ghost predicate OneAboveAndNearest(sizes: seq<nat>, min: int, max: int) {
    exists g :: g in sizes && g > max && forall b :: b in sizes && b != g ==> b < min && g - max <= min - b
  }

  /**
   * When nothing is within the range, the choice is a closest size exactly when nothing is below the range, or nothing
   * is above it, or a single size is above it and no size below lies closer; a farther one is picked otherwise.
   */
  lemma ClosestUnlessStraddled(sizes: seq<nat>, min: int, prefer: int, max: int, good: int)
    requires min <= prefer <= max && Chosen(sizes, min, prefer, max, good) && !Within(sizes, min, max)
    ensures Closest(sizes, min, max, good) <==>
              || (forall b :: b in sizes ==> b > max)
              || (forall b :: b in sizes ==> b < min)
              || OneAboveAndNearest(sizes, min, max)
  {
    assert forall b :: b in sizes ==> b < min || b > max;
    assert !Within(sizes, prefer, max);
  }

  /** With moduli of 1024 and 4096 bits, a client that wants 2000 to 3000 gets the one that is farther away. */
  lemma StraddledPickIsFarther()
    ensures Chosen([1024, 4096], 2000, 2500, 3000, 4096) && !Closest([1024, 4096], 2000, 3000, 4096)
  {
    assert 1024 in [1024, 4096] && 4096 in [1024, 4096];
  }

  /** The group that the rolls pick among those of the chosen size. */
  ghost predicate Stocked(pack: map<nat, seq<(int, int)>>, sizes: seq<nat>, min: int, prefer: int, max: int,
                          rolls: seq<bytes>, generator: int, modulus: int) {
    exists good :: Chosen(sizes, min, prefer, max, good) && good in pack
        && PickedAt(pack[good], rolls, generator, modulus)
  }

  ghost predicate PickedAt(groups: seq<(int, int)>, rolls: seq<bytes>, generator: int, modulus: int) {
    var d := FirstBelow(|groups|, rolls);
    d.Drawn? && groups[d.x] == (generator, modulus)
  }

  /** No roll falls below the number of groups of the chosen size. */
  ghost predicate NeverRolls(pack: map<nat, seq<(int, int)>>, sizes: seq<nat>, min: int, prefer: int, max: int,
                             rolls: seq<bytes>) {
    exists good :: Chosen(sizes, min, prefer, max, good) && good in pack && !FirstBelow(|pack[good]|, rolls).Drawn?
  }

  class ModulusPack {
    var pack: map<nat, seq<(int, int)>>
    var discarded: seq<(int, Reason)>

    /** Every bit length listed has a modulus, and each modulus is listed under its own bit length. */
    ghost predicate Valid()
      reads this
    {
      forall b :: b in pack ==> pack[b] != [] && forall i :: 0 <= i < |pack[b]| ==> BitLength(pack[b][i].1) == b
    }

    constructor ()
      ensures Valid() && pack == map[] && discarded == []
    {
      pack, discarded := map[], [];
    }

    /** One line of the moduli file, its numbers already read. */
    method ParseModulus(modType: int, tests: int, tries: int, size: int, generator: int, modulus: int)
      requires Valid()
      modifies this
      ensures Valid()
      ensures var fits := modType >= 2 && tests >= 4 && !(And(tests, 4) != 0 && tests < 8 && tries < 100);
              var bl := BitLength(modulus);
              if !fits then pack == old(pack) && discarded == old(discarded) + [(modulus, BelowRequirements)]
              else if bl != size && bl != size + 1 then pack == old(pack)
                  && discarded == old(discarded) + [(modulus, WrongLength)]
              else
                && discarded == old(discarded)
                && pack == old(pack)[bl := (if bl in old(pack) then old(pack)[bl] else [])
                   + [(if generator == 0 then 2 else generator, modulus)]]
    {
      if modType < 2 || tests < 4 || (And(tests, 4) != 0 && tests < 8 && tries < 100) {
        discarded := discarded + [(modulus, BelowRequirements)];
        return;
      }
      var g := if generator == 0 then 2 else generator;
      var bl := BitLength(modulus);
      if bl != size && bl != size + 1 {
        discarded := discarded + [(modulus, WrongLength)];
        return;
      }
      var had := if bl in pack then pack[bl] else [];
      pack := pack[bl := had + [(g, modulus)]];
    }

    /** What rolling for one of the moduli of size `good` gives. */
    ghost predicate RolledFrom(r: Pick, good: nat, rolls: seq<bytes>)
      reads this
    {
      && good in pack
      && match FirstBelow(|pack[good]|, rolls)
         case Drawn(i, left) => r == Picked(pack[good][i].0, pack[good][i].1, left)
         case _ => r == StillRolling
    }

    /**
     * `sizes` are the keys in order. One of the moduli of the chosen size is rolled for, and that size is its own bit
     * length.
     */
    method GetModulus(sizes: seq<nat>, min: int, prefer: int, max: int, rolls: seq<bytes>) returns (r: Pick)
      requires Valid() && Ascending(sizes) && forall b :: b in sizes <==> b in pack
      ensures r == Empty <==> pack == map[]
      ensures r.Picked? ==> Chosen(sizes, min, prefer, max, BitLength(r.modulus))
      ensures r.Picked? ==> Stocked(pack, sizes, min, prefer, max, rolls, r.generator, r.modulus)
      ensures r == StillRolling ==> NeverRolls(pack, sizes, min, prefer, max, rolls)
      ensures r != Empty ==>
                exists good :: Chosen(sizes, min, prefer, max, good) && good >= 0 && RolledFrom(r, good, rolls)
    {
      if sizes == [] {
        assert pack.Keys == {};
        return Empty;
      }
      assert sizes[0] in pack;
      var good := PickSize(sizes, min, prefer, max);
      assert good in pack;
      var n := RollRandom(|pack[good]|, rolls);
      match n {
        case Drawn(i, left) =>
          var pair := pack[good][i];
          r := Picked(pair.0, pair.1, left);
        case _ =>
          r := StillRolling;
      }
    }
  }
}
