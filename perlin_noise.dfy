/**
 * The integer part of the Perlin noise generator: the 512-entry permutation
 * table (a seeded shuffle of 0..255, stored twice), the lattice hash that
 * indexes it, and the choice of one of eight gradient directions. The seeded
 * shuffle is a library routine outside this model: it is a given function from
 * a sequence and a seed to a rearrangement of that sequence.
 */
module Perlin {

  newtype uint8 = x: int | 0 <= x < 256

  /** A seeded shuffle: any function that only rearranges its input. */
  type Shuffler = (seq<uint8>, nat) -> seq<uint8>

  ghost predicate IsShuffle(shuffle: Shuffler) {
    forall s: seq<uint8>, seed: nat :: multiset(shuffle(s, seed)) == multiset(s)
  }

  /** 0, 1, .., 255 */
  function Iota(): (r: seq<uint8>)
    ensures |r| == 256
    ensures forall i :: 0 <= i < 256 ==> r[i] as int == i
  {
    seq(256, i requires 0 <= i < 256 => i as uint8)
  }

  /** The table initPermutation builds for a given seed: the shuffled 0..255, then the same again. */
  function Table(shuffle: Shuffler, seed: nat): seq<uint8> {
    var permutation := shuffle(Iota(), seed);
    permutation + permutation
  }

  /** The first half of the table is a permutation of 0..255 and the second half repeats it. */
  lemma TableShape(shuffle: Shuffler, seed: nat)
    requires IsShuffle(shuffle)
    ensures |Table(shuffle, seed)| == 512
    ensures multiset(Table(shuffle, seed)[..256]) == multiset(Iota())
    ensures forall i :: 0 <= i < 256 ==> Table(shuffle, seed)[i + 256] == Table(shuffle, seed)[i]
  {
    var permutation := shuffle(Iota(), seed);
    assert multiset(permutation) == multiset(Iota());
    assert |permutation| == |multiset(permutation)| == 256;
    assert Table(shuffle, seed)[..256] == permutation;
  }

  /** Which of the eight gradients a hash selects: its low four bits, then the low three of those. */
  function GradientCase(h: uint8): (c: int)
    ensures 0 <= c < 8
    ensures c == h as int % 8
  {
    LowThreeBits(h as int);
    (h as int % 16) % 8
  }

  /** Keeping the low four bits, then the low three of those, keeps the low three bits. */
  lemma LowThreeBits(x: int)
    ensures (x % 16) % 8 == x % 8
  {
    var q, r := x / 16, x % 16;
    assert x == 8 * (2 * q + r / 8) + r % 8;
  }

  /** The gradient direction of each case: four diagonals, then the four axis directions. */
  function Direction(c: int): (int, int)
    requires 0 <= c < 8
  {
    [(1, 1), (1, -1), (-1, 1), (-1, -1), (1, 0), (-1, 0), (0, 1), (0, -1)][c]
  }

  class PerlinNoise {
    /** `p`: the permutation, duplicated so that an index up to 511 needs no wrap-around. */
    const p: array<uint8>

    ghost predicate Valid()
      reads this, p
    {
      && p.Length == 512
      && multiset(p[..256]) == multiset(Iota())
      && forall i :: 0 <= i < 256 ==> p[i + 256] == p[i]
    }

    /** The table of a given seed; the same seed always gives the same table. */
    constructor(seed: nat, shuffle: Shuffler)
      requires IsShuffle(shuffle)
      ensures Valid()
      ensures p[..] == Table(shuffle, seed)
    {
      p := new uint8[512];
      new;
      InitPermutation(seed, shuffle);
    }

    /** initPermutation: 0..255 shuffled by the seed, copied into both halves of `p`. */
    method InitPermutation(seed: nat, shuffle: Shuffler)
      requires p.Length == 512 && IsShuffle(shuffle)
      modifies p
      ensures Valid()
      ensures p[..] == Table(shuffle, seed)
    {
      var permutation := shuffle(Iota(), seed);
      TableShape(shuffle, seed);
      for i := 0 to 256
        invariant forall k :: 0 <= k < i ==> p[k] == permutation[k] && p[k + 256] == permutation[k]
      {
        p[i] := permutation[i];
        p[i + 256] := permutation[i];
      }
      assert p[..] == Table(shuffle, seed);
      assert p[..256] == permutation;
    }

    /** `p[ix & 255] + (iy & 255)`: below 512, so the outer lookup is in bounds. */
    function InnerIndex(ix: int, iy: int): (i: int)
      requires Valid()
      reads this, p
      ensures 0 <= i < 511
    {
      p[ix % 256] as int + iy % 256
    }

    /**
     * hash: two table lookups. `& 255` on a two's-complement coordinate is its
     * remainder modulo 256, non-negative for negative coordinates as well.
     */
    function Hash(ix: int, iy: int): uint8
      requires Valid()
      reads this, p
    {
      p[InnerIndex(ix, iy)]
    }

    /** grad: the dot product of (dx, dy) with the gradient the hash selects; the default case is unreachable. */
    function Grad(ix: int, iy: int, dx: real, dy: real): real
      requires Valid()
      reads this, p
    {
      var h := Hash(ix, iy);
      var c := GradientCase(h);
      if c == 0 then dx + dy
      else if c == 1 then dx - dy
      else if c == 2 then -dx + dy
      else if c == 3 then -dx - dy
      else if c == 4 then dx
      else if c == 5 then -dx
      else if c == 6 then dy
      else -dy  // c == 7: GradientCase never leaves 0..7, so the switch's default is unreachable
    }
  }

  /** The hash repeats every 256 lattice cells in each direction, negative coordinates included. */
  lemma HashPeriodic(noise: PerlinNoise, ix: int, iy: int)
    requires noise.Valid()
    ensures noise.Hash(ix + 256, iy) == noise.Hash(ix, iy)
    ensures noise.Hash(ix, iy + 256) == noise.Hash(ix, iy)
    ensures noise.Hash(ix - 256, iy) == noise.Hash(ix, iy)
  {
  }

  /** Only a coordinate's low eight bits matter: -1 hashes like 255. */
  lemma HashOfNegative(noise: PerlinNoise, iy: int)
    requires noise.Valid()
    ensures noise.Hash(-1, iy) == noise.Hash(255, iy)
  {
  }

  /** grad is the dot product of (dx, dy) with the direction of the selected case. */
  lemma GradIsDotProduct(noise: PerlinNoise, ix: int, iy: int, dx: real, dy: real)
    requires noise.Valid()
    ensures var d := Direction(GradientCase(noise.Hash(ix, iy)));
            noise.Grad(ix, iy, dx, dy) == d.0 as real * dx + d.1 as real * dy
  {
  }

  /** The outer lookup always reads the table's first copy shifted by at most 255: every index is in 0..510. */
  lemma HashReadsTable(noise: PerlinNoise, ix: int, iy: int)
    requires noise.Valid()
    ensures noise.Hash(ix, iy) == noise.p[noise.p[ix % 256] as int + iy % 256]
  {
  }
}
