// rand_uniform_f32 of src/util.rs: the low 32 bits of a 64-bit draw mapped onto about [-1, 1].
//
// The division is modelled exactly over the reals; the rounding of the f64 division and of
// the final cast to f32 is not modelled.
module Util {
  import opened Math

  /** `word & 0xffffffff` */
  function LowBits(word: U64): (r: nat)
    ensures r < 0x1_0000_0000
    ensures word < 0x1_0000_0000 ==> r == word as nat
    ensures (word as nat - r) % 0x1_0000_0000 == 0
  {
    word as nat % 0x1_0000_0000
  }

  /** `0x7fffffff as f64` */
  const HALF_RANGE: real := 2147483647.0

  /** The exact quotient before the cast to f32. After the cast, low bits up to about 64
      also round to -1.0 and 0xffffffff rounds to 1.0. */
  function RandUniform(word: U64): (r: real)
    ensures -1.0 <= r
    ensures LowBits(word) <= 0xffff_fffe ==> r <= 1.0
    ensures r == -1.0 <==> LowBits(word) == 0
  {
    LowBits(word) as real / HALF_RANGE - 1.0
  }

  /** The high 32 bits of the draw never matter. */
  lemma {:induction false} RandUniformIgnoresHighBits(word: U64, high: nat)
    requires high < 0x1_0000_0000
    ensures (high * 0x1_0000_0000 + LowBits(word)) < 0x1_0000_0000_0000_0000
    ensures RandUniform((high * 0x1_0000_0000 + LowBits(word)) as U64) == RandUniform(word)
  {
    var low := LowBits(word);
    var other := high * 0x1_0000_0000 + low;
    assert other < 0x1_0000_0000_0000_0000 by {
      assert high * 0x1_0000_0000 <= 0xffff_ffff * 0x1_0000_0000;
    }
    assert other % 0x1_0000_0000 == low;
    assert LowBits(other as U64) == low;
  }

  /** The landmark values of the exact quotient, before the cast to f32: 0 gives -1,
      0x7fffffff gives 0, 0xfffffffe gives 1, and 0xffffffff overshoots 1 by 1/(2^31 - 1),
      an excess the cast to f32 rounds away to 1.0. */
  lemma RandUniformLandmarks(word: U64)
    ensures LowBits(word) == 0 ==> RandUniform(word) == -1.0
    ensures LowBits(word) == 0x7fff_ffff ==> RandUniform(word) == 0.0
    ensures LowBits(word) == 0xffff_fffe ==> RandUniform(word) == 1.0
    ensures LowBits(word) == 0xffff_ffff ==> RandUniform(word) == 1.0 + 1.0 / HALF_RANGE > 1.0
  {
  }

  /** A larger low half never gives a smaller result. */
  lemma RandUniformMonotone(a: U64, b: U64)
    requires LowBits(a) <= LowBits(b)
    ensures RandUniform(a) <= RandUniform(b)
  {
  }
}
