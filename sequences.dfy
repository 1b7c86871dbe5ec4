/**
 * The fixed auxiliary sequences that `go` in index.js adds to the render
 * scope: the page-ender indices, the point tokens and the chains
 * loop1 .. loop40. Each is built by counted loops that append to an array;
 * each builder is proved equal to a closed-form definition.
 */
module Sequences {

  // ---------------------------------------------------------------- page enders

  /**
   * Position `k` of the page enders in closed form: the k / 3-th multiple
   * of 9 from 9 upwards, minus k % 3 (each triple descends).
   */
  function PageEnderAt(k: nat): int
  {
    9 * (k / 3 + 1) - k % 3
  }

  /** The page enders: eleven descending triples (9m, 9m-1, 9m-2), m = 1 .. 11. */
  function PageEndersSpec(): (s: seq<int>)
    ensures |s| == 33
  {
    seq(33, k requires 0 <= k => PageEnderAt(k))
  }

  /** The triple at position 3m + t of the page enders. */
  lemma PageEnderAtTriple(m: nat, t: nat)
    requires t < 3
    ensures PageEnderAt(3 * m + t) == 9 * (m + 1) - t
  {
    assert (3 * m + t) / 3 == m && (3 * m + t) % 3 == t;
  }

  /**
   * The builder: for i from 7 through 100, each multiple of 9 appends
   * i, i - 1, i - 2.
   */
  method PageEnders() returns (s: seq<int>)
    ensures s == PageEndersSpec()
  {
    s := [];
    var i := 7;
    while i <= 100
      invariant 7 <= i <= 101
      invariant |s| == 3 * ((i - 1) / 9)
      invariant forall k :: 0 <= k < |s| ==> s[k] == PageEnderAt(k)
    {
      if i % 9 == 0 {
        var m := (i - 1) / 9;
        assert i == 9 * (m + 1);
        PageEnderAtTriple(m, 0);
        PageEnderAtTriple(m, 1);
        PageEnderAtTriple(m, 2);
        s := s + [i, i - 1, i - 2];
      }
      i := i + 1;
    }
  }

  /** The residues modulo 9 that page enders have: 0, 8 and 7. */
  predicate EnderResidue(x: int) {
    x % 9 == 0 || x % 9 == 8 || x % 9 == 7
  }

  /** Each page ender lies in [7, 99] and has an ender residue. */
  lemma PageEnderAtRange(k: nat)
    requires k < 33
    ensures 7 <= PageEnderAt(k) <= 99 && EnderResidue(PageEnderAt(k))
  {
    var m, t := k / 3, k % 3;
    assert k == 3 * m + t;
    PageEnderAtTriple(m, t);
    var x := 9 * (m + 1) - t;
    assert x + t == 9 * (m + 1);
  }

  /** Each value in [7, 99] with an ender residue is at some position. */
  lemma PageEnderWitness(x: int) returns (k: nat)
    requires 7 <= x <= 99 && EnderResidue(x)
    ensures k < 33 && PageEnderAt(k) == x
  {
    var t := if x % 9 == 0 then 0 else 9 - x % 9;
    var m := (x + t) / 9 - 1;
    assert x + t == 9 * (m + 1);
    PageEnderAtTriple(m, t);
    k := 3 * m + t;
  }

  /**
   * A value is a page ender exactly when it lies in [7, 99] and is a
   * multiple of 9 or one or two below one.
   */
  lemma PageEndersMembership(x: int)
    ensures x in PageEndersSpec() <==> 7 <= x <= 99 && EnderResidue(x)
  {
    var s := PageEndersSpec();
    if x in s {
      var k :| 0 <= k < 33 && s[k] == x;
      PageEnderAtRange(k);
    }
    if 7 <= x <= 99 && EnderResidue(x) {
      var k := PageEnderWitness(x);
      assert s[k] == x;
    }
  }

  /** The page enders start 9, 8, 7, end 99, 98, 97, and triples ascend. */
  lemma PageEndersShape()
    ensures PageEndersSpec()[..3] == [9, 8, 7]
    ensures PageEndersSpec()[30..] == [99, 98, 97]
    ensures forall k :: 0 <= k < 30 ==> PageEndersSpec()[k + 3] == PageEndersSpec()[k] + 9
  {
    forall k | 0 <= k < 30
      ensures PageEndersSpec()[k + 3] == PageEndersSpec()[k] + 9
    {
      PageEnderAtTriple(k / 3, k % 3);
      PageEnderAtTriple(k / 3 + 1, k % 3);
      assert 3 * (k / 3) + k % 3 == k;
    }
  }

  // ---------------------------------------------------------------- point tokens

  /** `n` copies of the value `v`. */
  function Repeat(v: int, n: nat): (r: seq<int>)
  {
    seq(n, _ => v)
  }

  /** Appending one more v to a run of v's. */
  lemma AppendRepeat(p: seq<int>, v: int, n: nat)
    ensures p + Repeat(v, n) + [v] == p + Repeat(v, n + 1)
  {
    assert Repeat(v, n) + [v] == Repeat(v, n + 1);
  }

  /** As a multiset, Repeat(v, n) is v taken n times. */
  lemma {:induction false} RepeatMultiset(v: int, n: nat)
    ensures multiset(Repeat(v, n)) == multiset{}[v := n]
  {
    if n > 0 {
      RepeatMultiset(v, n - 1);
      assert Repeat(v, n) == Repeat(v, n - 1) + [v];
      assert multiset(Repeat(v, n)) == multiset(Repeat(v, n - 1)) + multiset{v};
      assert multiset{}[v := n - 1] + multiset{v} == multiset{}[v := n];
    }
  }

  /** The point tokens: thirty 1s, then ten 3s, then twenty 5s. */
  function PointTokensSpec(): seq<int>
  {
    Repeat(1, 30) + Repeat(3, 10) + Repeat(5, 20)
  }

  /** The builder: three counted loops appending 1, 3 and 5. */
  method PointTokens() returns (s: seq<int>)
    ensures s == PointTokensSpec()
  {
    s := [];
    var i := 1;
    while i <= 30
      invariant 1 <= i <= 31 && s == Repeat(1, i - 1)
    {
      s := s + [1];
      i := i + 1;
    }
    ghost var ones := s;
    i := 1;
    while i <= 10
      invariant 1 <= i <= 11 && s == ones + Repeat(3, i - 1)
    {
      AppendRepeat(ones, 3, i - 1);
      s := s + [3];
      i := i + 1;
    }
    ghost var onesThrees := s;
    i := 1;
    while i <= 20
      invariant 1 <= i <= 21 && s == onesThrees + Repeat(5, i - 1)
    {
      AppendRepeat(onesThrees, 5, i - 1);
      s := s + [5];
      i := i + 1;
    }
  }

  /** Positionally: 60 tokens, 1 at 0 .. 29, 3 at 30 .. 39, 5 at 40 .. 59. */
  lemma PointTokensLayout()
    ensures |PointTokensSpec()| == 60
    ensures forall k :: 0 <= k < 30 ==> PointTokensSpec()[k] == 1
    ensures forall k :: 30 <= k < 40 ==> PointTokensSpec()[k] == 3
    ensures forall k :: 40 <= k < 60 ==> PointTokensSpec()[k] == 5
  {
  }

  /** As a multiset: thirty 1-point, ten 3-point and twenty 5-point tokens, nothing else. */
  lemma PointTokensDenominations()
    ensures multiset(PointTokensSpec()) == multiset{}[1 := 30][3 := 10][5 := 20]
  {
    RepeatMultiset(1, 30);
    RepeatMultiset(3, 10);
    RepeatMultiset(5, 20);
  }

  // ---------------------------------------------------------------- loop chains

  /** [1, 2, .., k]. */
  function Iota(k: nat): (r: seq<int>)
  {
    seq(k, j requires 0 <= j => j + 1)
  }

  /** Each chain extends the previous one by its own index. */
  lemma IotaStep(k: nat)
    requires k >= 1
    ensures Iota(k) == Iota(k - 1) + [k]
  {
    assert forall j :: 0 <= j < k ==> Iota(k)[j] == (Iota(k - 1) + [k])[j];
  }

  /**
   * The builder: loop1 = [1], then loop_i = loop_(i-1).concat(i) for
   * i = 2 .. 40. The chains are keyed by i (the source keys them by the
   * property name 'loop' + i).
   */
  method LoopChains() returns (chains: map<int, seq<int>>)
    ensures forall k :: k in chains <==> 1 <= k <= 40
    ensures forall k :: 1 <= k <= 40 ==> chains[k] == Iota(k)
  {
    chains := map[1 := [1]];
    assert Iota(1) == [1];
    var i := 2;
    while i <= 40
      invariant 2 <= i <= 41
      invariant forall k :: k in chains <==> 1 <= k < i
      invariant forall k :: 1 <= k < i ==> chains[k] == Iota(k)
    {
      IotaStep(i);
      chains := chains[i := chains[i - 1] + [i]];
      i := i + 1;
    }
  }

  /** loop5 is [1, 2, 3, 4, 5]; loop40 has 40 elements and ends in 40. */
  lemma LoopChainExamples()
    ensures Iota(5) == [1, 2, 3, 4, 5]
    ensures |Iota(40)| == 40 && Iota(40)[39] == 40
  {
  }
}
