// The ant spawning loop of `setup` in src/main.rs: ten ants, each placed and sized from
// three successive draws of the global generator.
//
// The generator's internals are not modelled: it is an object whose successive u32 outputs
// are an arbitrary stream, and each draw advances its position.
module Game {
  import opened Math

  const ANT_COUNT: nat := 10

  /** `u as i32`: the same 32 bits read as two's complement. */
  function AsI32(u: U32): (r: int)
    ensures -0x8000_0000 <= r < 0x8000_0000
    ensures (r - u as int) % 0x1_0000_0000 == 0
    ensures r >= 0 <==> u < 0x8000_0000
  {
    if u < 0x8000_0000 then u as int else u as int - 0x1_0000_0000
  }

  /** Rust's `%` on integers: the remainder of division truncated toward zero,
      which takes the sign of the dividend. */
  function TruncRem(a: int, m: int): (r: int)
    requires m > 0
    ensures -m < r < m
    ensures a >= 0 ==> r >= 0
    ensures a <= 0 ==> r <= 0
    ensures exists q :: a == q * m + r
  {
    if a >= 0 then
      assert a - a % m == (a / m) * m;
      a % m
    else
      assert a + (-a) % m == -((-a) / m) * m;
      -((-a) % m)
  }

  /** The mass drawn from `u`: `(u as i32) % 200 + 15`. */
  function Mass(u: U32): (mass: int)
    ensures -184 <= mass <= 214
    ensures u < 0x8000_0000 ==> 15 <= mass <= 214
    ensures u >= 0x8000_0000 ==> -184 <= mass <= 15
  {
    TruncRem(AsI32(u), 200) + 15
  }

  /** A spawn coordinate drawn from `v`: `(v as i32) % 5000`. */
  function SpawnCoord(v: U32): (c: int)
    ensures -4999 <= c <= 4999
    ensures v < 0x8000_0000 ==> c >= 0
    ensures v >= 0x8000_0000 ==> c <= 0
  {
    TruncRem(AsI32(v), 5000)
  }

  /** The transform of an ant spawned from the draws for its mass, x and y. */
  function SpawnedTransform(massDraw: U32, xDraw: U32, yDraw: U32): Transform
  {
    var mass := Mass(massDraw) as real;
    FromTranslationScale(Vec3(SpawnCoord(xDraw) as real, SpawnCoord(yDraw) as real, 1.0), Vec3(mass, mass, 0.0))
  }

  /** Every spawned ant sits at depth 1 within 4999 of the origin, with equal x and y scales and no z scale. */
  lemma SpawnedTransformShape(massDraw: U32, xDraw: U32, yDraw: U32)
    ensures var t := SpawnedTransform(massDraw, xDraw, yDraw);
      && t.translation.z == 1.0
      && -4999.0 <= t.translation.x <= 4999.0 && -4999.0 <= t.translation.y <= 4999.0
      && t.scale.x == t.scale.y == Mass(massDraw) as real
      && t.scale.z == 0.0
      && -184.0 <= t.scale.x <= 214.0
  {
  }

  /** The mass can be negative: a draw whose signed reading is -199 gives -184. */
  lemma MassCanBeNegative()
    ensures AsI32(0xffff_ff39) == -199
    ensures Mass(0xffff_ff39) == -184
  {
  }

  /** The global generator: a stream of u32 outputs and how many have been drawn. */
  class Rng {
    const stream: nat -> U32
    var drawn: nat

    constructor (stream0: nat -> U32)
      ensures stream == stream0 && drawn == 0
    {
      stream := stream0;
      drawn := 0;
    }

    /** next_u32 */
    method NextU32() returns (v: U32)
      modifies this
      ensures v == stream(old(drawn))
      ensures drawn == old(drawn) + 1
    {
      v := stream(drawn);
      drawn := drawn + 1;
    }
  }

  /** The ant-spawning loop of setup: returns the transforms of the spawned ants in spawn order. */
  method Setup(rng: Rng) returns (ants: seq<Transform>)
    modifies rng
    ensures rng.drawn == old(rng.drawn) + 3 * ANT_COUNT
    ensures |ants| == ANT_COUNT
    ensures forall i :: 0 <= i < |ants| ==>
      var base := old(rng.drawn) + 3 * i;
      ants[i] == SpawnedTransform(rng.stream(base), rng.stream(base + 1), rng.stream(base + 2))
  {
    ants := [];
    for i := 0 to ANT_COUNT
      invariant rng.drawn == old(rng.drawn) + 3 * i
      invariant |ants| == i
      invariant forall j :: 0 <= j < i ==>
        var base := old(rng.drawn) + 3 * j;
        ants[j] == SpawnedTransform(rng.stream(base), rng.stream(base + 1), rng.stream(base + 2))
    {
      var massDraw := rng.NextU32();
      var mass := (TruncRem(AsI32(massDraw), 200) + 15) as real;
      var xDraw := rng.NextU32();
      var yDraw := rng.NextU32();
      var transform := FromTranslationScale(
        Vec3(TruncRem(AsI32(xDraw), 5000) as real, TruncRem(AsI32(yDraw), 5000) as real, 1.0),
        Vec3(mass, mass, 0.0));
      ants := ants + [transform];
    }
  }
}
