/**
 The program draws every random choice from a std::mt19937_64 engine through a
 std::uniform_int_distribution. Neither the engine nor the distribution is
 modelled: a generator is the (arbitrary) sequence of raw values it will hand
 out, and one draw over [lo, hi] takes the next raw value and folds it into the
 range. Because the stream is arbitrary, every value of the range is a possible
 draw (UniformReaches), which is all the model relies on.
 */
module Random {

  /** A generator: the raw values it delivers, in order, and how many are used. */
  datatype Prng = Prng(stream: nat -> nat, pos: nat)

  /** One draw of `std::uniform_int_distribution(lo, hi)(prng)`. */
  function Uniform(g: Prng, lo: int, hi: int): (res: (int, Prng))
    requires lo <= hi
    ensures lo <= res.0 <= hi
    ensures res.1.stream == g.stream && res.1.pos == g.pos + 1
  {
    (lo + g.stream(g.pos) % (hi - lo + 1), Prng(g.stream, g.pos + 1))
  }

  /** The generator after `n` more draws. */
  function Advance(g: Prng, n: nat): (g': Prng)
    ensures g'.stream == g.stream && g'.pos == g.pos + n
  {
    Prng(g.stream, g.pos + n)
  }

  /** No value of the range is out of reach of a draw. */
  lemma UniformReaches(g: Prng, lo: int, hi: int, v: int)
    requires lo <= v <= hi
    requires g.stream(g.pos) == v - lo
    ensures Uniform(g, lo, hi).0 == v
  {
  }
}
