/**
 * The Perlin lattice tables (src/perlin.rs): 256 random floats and three shuffled permutations of `0..256`, and the
 * `noise` lookup. Every random draw is an input with the range `random` promises.
 */
module PerlinNoise {
  import opened Vectors
  import opened Weekend

  /** `Perlin::POINT_COUNT`. */
  const PointCount: int := 256

  /** The table `perlin_generate_perm` fills before shuffling: `p[i] == i`. */
  function Identity(n: nat): (s: seq<int>)
    ensures |s| == n
    ensures forall i :: 0 <= i < n ==> s[i] == i
  {
    seq(n, i => i)
  }

  lemma IdentityFilled(s: seq<int>)
    requires |s| == PointCount && forall k :: 0 <= k < |s| ==> s[k] == k
    ensures s == Identity(PointCount)
  {
  }

  /** `s` holds each of `0..n` exactly once. */
  ghost predicate IsPermutation(s: seq<int>, n: nat) {
    multiset(s) == multiset(Identity(n))
  }

  /** One step of `permute`: the entries at `i` and `j` trade places. */
  function Swap(s: seq<int>, i: int, j: int): (r: seq<int>)
    requires 0 <= i < |s| && 0 <= j < |s|
    ensures |r| == |s| && r[i] == s[j] && r[j] == s[i]
    ensures forall k :: 0 <= k < |s| && k != i && k != j ==> r[k] == s[k]
    ensures multiset(r) == multiset(s)
  {
    s[i := s[j]][j := s[i]]
  }

  /** The draws `targets[i] = random(0, i)` that `permute` makes for `i` from `top` down to 1. */
  predicate TargetsFit(targets: seq<int>, top: int) {
    top < |targets| && forall i :: 1 <= i <= top ==> 0 <= targets[i] < i
  }

  /** The table after `permute`'s loop has swapped `p[i]` with `p[targets[i]]` for `i` running from `top` down to 1. */
  function Shuffled(s: seq<int>, top: int, targets: seq<int>): (r: seq<int>)
    requires top < |s| && TargetsFit(targets, top)
    ensures |r| == |s|
    decreases top
  {
    if top < 1 then s else Shuffled(Swap(s, top, targets[top]), top - 1, targets)
  }

  /** `permute` only moves entries around, so a permutation of `0..n` stays one. */
  lemma {:induction false} ShuffledPermutes(s: seq<int>, top: int, targets: seq<int>)
    requires top < |s| && TargetsFit(targets, top)
    ensures multiset(Shuffled(s, top, targets)) == multiset(s)
    decreases top
  {
    if top >= 1 {
      var swapped := Swap(s, top, targets[top]);
      assert Shuffled(s, top, targets) == Shuffled(swapped, top - 1, targets);
      ShuffledPermutes(swapped, top - 1, targets);
      assert multiset(swapped) == multiset(s);
    }
  }

  /** Every swap exchanges `p[i]` with a strictly lower `p[target]`, so no entry above `top` ever moves. */
  lemma {:induction false} ShuffledKeepsTail(s: seq<int>, top: int, targets: seq<int>, k: int)
    requires top < |s| && TargetsFit(targets, top)
    requires 0 <= k && top < k < |s|
    ensures Shuffled(s, top, targets)[k] == s[k]
    decreases top
  {
    if top >= 1 {
      ShuffledKeepsTail(Swap(s, top, targets[top]), top - 1, targets, k);
    }
  }

  /** Every entry of a permutation of `0..n` is a valid index below `n`. */
  lemma PermutationBounds(s: seq<int>, n: nat, k: int)
    requires IsPermutation(s, n) && 0 <= k < |s|
    ensures 0 <= s[k] < n
  {
    assert s[k] in multiset(s);
    assert s[k] in multiset(Identity(n));
    assert s[k] in Identity(n);
  }

  /** The permutation tables `perlin_generate_perm` builds: a shuffled permutation of `0..256` ending in 255. */
  lemma GeneratedPermutation(targets: seq<int>)
    requires TargetsFit(targets, PointCount - 2)
    ensures IsPermutation(Shuffled(Identity(PointCount), PointCount - 2, targets), PointCount)
    ensures Shuffled(Identity(PointCount), PointCount - 2, targets)[PointCount - 1] == PointCount - 1
  {
    ShuffledPermutes(Identity(PointCount), PointCount - 2, targets);
    ShuffledKeepsTail(Identity(PointCount), PointCount - 2, targets, PointCount - 1);
  }

  /** `(4.0 * c) as i32 & 255`; on a two's-complement `i32`, masking with 255 keeps the Euclidean remainder mod 256. */
  function LatticeIndex(c: real): (i: int)
    ensures 0 <= i <= 255
  {
    TruncI32(4.0 * c) % 256
  }

  /** `a ^ b ^ c` on three table entries that lie in `0..256`. */
  function Xor3(a: int, b: int, c: int): (r: int)
    requires 0 <= a < 256 && 0 <= b < 256 && 0 <= c < 256
    ensures 0 <= r < 256
  {
    ((a as bv8) ^ (b as bv8) ^ (c as bv8)) as int
  }

  /** The draws `Perlin::new` makes for `ran_float`: `random(0.0, 1.0)` for each of the 256 slots. */
  predicate FloatsFit(floats: seq<real>) {
    |floats| == PointCount && forall i :: 0 <= i < |floats| ==> RandomRange(floats[i], 0.0, 1.0)
  }

  class Perlin {
    const ranFloat: array<real>
    const permX: array<int>
    const permY: array<int>
    const permZ: array<int>

    /** The tables have 256 entries, the floats lie in `[0, 1)` and each `perm` table is a permutation of `0..256`. */
    ghost predicate Valid()
      reads ranFloat, permX, permY, permZ
    {
      && ranFloat.Length == PointCount
      && (forall i :: 0 <= i < ranFloat.Length ==> 0.0 <= ranFloat[i] < 1.0)
      && permX.Length == PointCount && IsPermutation(permX[..], PointCount)
      && permY.Length == PointCount && IsPermutation(permY[..], PointCount)
      && permZ.Length == PointCount && IsPermutation(permZ[..], PointCount)
    }

    /** `perlin_generate_perm`: fill `p[i] = i`, then `permute(p, 256)`. */
    static method GeneratePerm(targets: seq<int>) returns (p: array<int>)
      requires TargetsFit(targets, PointCount - 2)
      ensures fresh(p)
      ensures p.Length == PointCount
      ensures p[..] == Shuffled(Identity(PointCount), PointCount - 2, targets)
      ensures IsPermutation(p[..], PointCount)
    {
      p := new int[PointCount];
      for i := 0 to PointCount
        invariant forall k :: 0 <= k < i ==> p[k] == k
      {
        p[i] := i;
      }
      IdentityFilled(p[..]);
      Permute(p, PointCount, targets);
      GeneratedPermutation(targets);
    }

    /** The table of draws `ran_float`, filled entry by entry. */
    static method FloatTable(floats: seq<real>) returns (t: array<real>)
      requires FloatsFit(floats)
      ensures fresh(t)
      ensures t.Length == PointCount && t[..] == floats
      ensures forall i :: 0 <= i < t.Length ==> 0.0 <= t[i] < 1.0
    {
      t := new real[PointCount];
      for i := 0 to PointCount
        invariant forall k :: 0 <= k < i ==> t[k] == floats[k]
      {
        t[i] := floats[i];
      }
      assert t[..] == floats;
    }

    /** `permute(p, n)`: for `i` from `n - 2` down to 1, swap `p[i]` with `p[random(0, i)]`. */
    static method Permute(p: array<int>, n: int, targets: seq<int>)
      requires n - 2 < p.Length && TargetsFit(targets, n - 2)
      modifies p
      ensures p[..] == Shuffled(old(p[..]), n - 2, targets)
    {
      var i := n - 2;
      while i >= 1
        invariant i <= n - 2
        invariant Shuffled(p[..], i, targets) == Shuffled(old(p[..]), n - 2, targets)
      {
        var target := targets[i];
        var temp := p[i];
        p[i] := p[target];
        p[target] := temp;
        i := i - 1;
      }
    }

    /** `Perlin::new`: the table of 256 draws from `[0, 1)` and three independently shuffled permutations. */
    constructor (floats: seq<real>, targetsX: seq<int>, targetsY: seq<int>, targetsZ: seq<int>)
      requires FloatsFit(floats)
      requires TargetsFit(targetsX, PointCount - 2)
      requires TargetsFit(targetsY, PointCount - 2)
      requires TargetsFit(targetsZ, PointCount - 2)
      ensures Valid()
      ensures ranFloat[..] == floats
      ensures permX[..] == Shuffled(Identity(PointCount), PointCount - 2, targetsX)
      ensures permY[..] == Shuffled(Identity(PointCount), PointCount - 2, targetsY)
      ensures permZ[..] == Shuffled(Identity(PointCount), PointCount - 2, targetsZ)
    {
      var floatTable := FloatTable(floats);
      var x := GeneratePerm(targetsX);
      var y := GeneratePerm(targetsY);
      var z := GeneratePerm(targetsZ);
      ranFloat, permX, permY, permZ := floatTable, x, y, z;
    }

    /** `noise`: the three lattice indices pick one entry of each permutation; their XOR picks the float. */
    function Noise(point: Point3): (r: real)
      reads ranFloat, permX, permY, permZ
      requires Valid()
      ensures 0.0 <= r < 1.0
      ensures exists k :: 0 <= k < ranFloat.Length && r == ranFloat[k]
    {
      var i, j, k := LatticeIndex(point.x), LatticeIndex(point.y), LatticeIndex(point.z);
      PermutationBounds(permX[..], PointCount, i);
      PermutationBounds(permY[..], PointCount, j);
      PermutationBounds(permZ[..], PointCount, k);
      ranFloat[Xor3(permX[i], permY[j], permZ[k])]
    }
  }
}
