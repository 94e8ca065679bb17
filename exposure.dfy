/** Combination of a household's or a coalition's individual exposure
    probabilities into the probability that at least one exposure happens,
    by inclusion-exclusion over every subset of the values (overall_exposure). */
module Exposure {

  /** Python's built-in sum over a list of probabilities. */
  function Sum(ps: seq<real>): real
  {
    if ps == [] then 0.0 else ps[0] + Sum(ps[1..])
  }

  /** The product of one combination, reduce(lambda x, y: x*y, comb). */
  function Product(comb: seq<real>): real
  {
    if comb == [] then 1.0 else comb[0] * Product(comb[1..])
  }

  /** p * x, kept behind a name so that the solver matches products of sums by their factors. */
  function Scale(p: real, x: real): real
  {
    p * x
  }

  /** Probability that none of the independent events happens: the product of (1 - p). */
  function ComplementProduct(ps: seq<real>): real
  {
    if ps == [] then 1.0 else Scale(1.0 - ps[0], ComplementProduct(ps[1..]))
  }

  /** pow(-1, i) * x. */
  function Signed(i: nat, x: real): real
  {
    if i % 2 == 0 then x else -x
  }

  function Prepend(p: real, combs: seq<seq<real>>): seq<seq<real>>
  {
    seq(|combs|, i requires 0 <= i < |combs| => [p] + combs[i])
  }

  /** The k-element combinations of ps, in the order itertools.combinations
      yields them: those holding ps[0] first, then those without it. */
  function Combinations(ps: seq<real>, k: nat): (r: seq<seq<real>>)
    ensures k > |ps| ==> r == []
    decreases |ps|
  {
    if k == 0 then [[]]
    else if ps == [] then []
    else Prepend(ps[0], Combinations(ps[1..], k - 1)) + Combinations(ps[1..], k)
  }

  /** The running total the inner loop of overall_exposure adds up, one product per combination. */
  function SumOfProducts(combs: seq<seq<real>>): real
  {
    if combs == [] then 0.0
    else SumOfProducts(combs[..|combs| - 1]) + Product(combs[|combs| - 1])
  }

  /** Sum of the products of all k-subsets of ps, split by whether a subset
      holds the first value (the elementary symmetric polynomial of degree k). */
  function SubsetProducts(ps: seq<real>, k: nat): real
    decreases |ps|
  {
    if k == 0 then 1.0
    else if ps == [] then 0.0
    else Scale(ps[0], SubsetProducts(ps[1..], k - 1)) + SubsetProducts(ps[1..], k)
  }

  /** The correction terms the outer loop adds for i = 1 .. upper - 1:
      pow(-1, i) times the sum of products of every (i + 1)-subset. */
  function Corrections(ps: seq<real>, upper: nat): real
  {
    if upper <= 1 then 0.0
    else Corrections(ps, upper - 1) + Signed(upper - 1, SubsetProducts(ps, upper))
  }

  /** overall_exposure as the source computes it: a single value is returned
      unchanged; otherwise the sum of the values plus the alternating sums of
      products of subsets of size 2 .. |ps|. An empty list gives 0. */
  function InclusionExclusion(ps: seq<real>): real
  {
    if |ps| == 1 then ps[0] else Sum(ps) + Corrections(ps, |ps|)
  }

  /** overall_exposure: the outer loop over subset sizes 2 .. |ps|. */
  method OverallExposure(ps: seq<real>) returns (r: real)
    ensures r == InclusionExclusion(ps)
    ensures r == 1.0 - ComplementProduct(ps)
  {
    InclusionExclusionIsUnion(ps);
    if |ps| == 1 {
      return ps[0];
    }
    r := Sum(ps);
    var i := 1;
    while i < |ps|
      invariant 1 <= i
      invariant i <= |ps| || i == 1
      invariant r == Sum(ps) + Corrections(ps, i)
    {
      var combos := Combinations(ps, i + 1);
      CorrectionsStep(ps, i);
      r := AddCombinationTerms(r, combos, i);
      i := i + 1;
    }
    if ps == [] {
      assert Corrections(ps, i) == Corrections(ps, |ps|);
    }
  }

  /** One pass of the outer loop adds the next correction term. */
  lemma CorrectionsStep(ps: seq<real>, i: nat)
    requires i >= 1
    ensures Corrections(ps, i + 1) == Corrections(ps, i) + Signed(i, SumOfProducts(Combinations(ps, i + 1)))
  {
    CombinationsSum(ps, i + 1);
  }

  /** The inner loop of overall_exposure: adds pow(-1, i) times the product
      of each combination to the running total. */
  method AddCombinationTerms(start: real, combos: seq<seq<real>>, i: nat) returns (r: real)
    ensures r == start + Signed(i, SumOfProducts(combos))
  {
    r := start;
    var j := 0;
    while j < |combos|
      invariant 0 <= j <= |combos|
      invariant r == start + Signed(i, SumOfProducts(combos[..j]))
    {
      assert combos[..j + 1][..j] == combos[..j];
      r := r + Signed(i, Product(combos[j]));
      j := j + 1;
    }
    assert combos[..j] == combos;
  }

  lemma {:induction false} SumOfProductsAppend(a: seq<seq<real>>, b: seq<seq<real>>)
    ensures SumOfProducts(a + b) == SumOfProducts(a) + SumOfProducts(b)
    decreases |b|
  {
    if b != [] {
      var b' := b[..|b| - 1];
      assert (a + b)[..|a + b| - 1] == a + b';
      SumOfProductsAppend(a, b');
    } else {
      assert a + b == a;
    }
  }

  lemma ScaleAdd(p: real, x: real, y: real, z: real)
    requires z == x + y
    ensures Scale(p, z) == Scale(p, x) + p * y
  {
  }

  lemma {:induction false} SumOfProductsPrepend(p: real, combs: seq<seq<real>>)
    ensures SumOfProducts(Prepend(p, combs)) == Scale(p, SumOfProducts(combs))
    decreases |combs|
  {
    if combs != [] {
      var n := |combs|;
      assert Prepend(p, combs)[..n - 1] == Prepend(p, combs[..n - 1]);
      assert ([p] + combs[n - 1])[1..] == combs[n - 1];
      SumOfProductsPrepend(p, combs[..n - 1]);
      ScaleAdd(p, SumOfProducts(combs[..n - 1]), Product(combs[n - 1]), SumOfProducts(combs));
    }
  }

  lemma CombinationsSplit(ps: seq<real>, k: nat)
    requires ps != [] && k >= 1
    ensures SumOfProducts(Combinations(ps, k))
         == SumOfProducts(Prepend(ps[0], Combinations(ps[1..], k - 1))) + SumOfProducts(Combinations(ps[1..], k))
  {
    SumOfProductsAppend(Prepend(ps[0], Combinations(ps[1..], k - 1)), Combinations(ps[1..], k));
  }

  /** Adding up the products of the combinations itertools enumerates gives
      the sum of products of all k-subsets. */
  lemma {:induction false} CombinationsSum(ps: seq<real>, k: nat)
    ensures SumOfProducts(Combinations(ps, k)) == SubsetProducts(ps, k)
    decreases |ps|
  {
    if k == 0 {
      var one: seq<seq<real>> := [[]];
      assert Combinations(ps, k) == one && one[..0] == [];
    } else if ps != [] {
      var p, rest := ps[0], ps[1..];
      var with, without := Combinations(rest, k - 1), Combinations(rest, k);
      calc {
        SumOfProducts(Combinations(ps, k));
        { CombinationsSplit(ps, k); }
        SumOfProducts(Prepend(p, with)) + SumOfProducts(without);
        { SumOfProductsPrepend(p, with); }
        Scale(p, SumOfProducts(with)) + SumOfProducts(without);
        { CombinationsSum(rest, k - 1); CombinationsSum(rest, k); }
        Scale(p, SubsetProducts(rest, k - 1)) + SubsetProducts(rest, k);
      }
    }
  }

  /** Alternating sum of the subset-product sums of sizes 0 .. m. */
  function AlternatingSum(ps: seq<real>, m: nat): real
  {
    if m == 0 then 1.0 else AlternatingSum(ps, m - 1) + Signed(m, SubsetProducts(ps, m))
  }

  lemma {:induction false} SubsetProductsOne(ps: seq<real>)
    ensures SubsetProducts(ps, 1) == Sum(ps)
    decreases |ps|
  {
    if ps != [] {
      SubsetProductsOne(ps[1..]);
    }
  }

  lemma {:induction false} SubsetProductsBeyond(ps: seq<real>, k: nat)
    requires k > |ps|
    ensures SubsetProducts(ps, k) == 0.0
    decreases |ps|
  {
    if ps != [] {
      SubsetProductsBeyond(ps[1..], k - 1);
      SubsetProductsBeyond(ps[1..], k);
    }
  }

  lemma ScaleSigned(p: real, a: real, e: real, m: nat)
    requires m >= 1
    ensures Scale(p, a + Signed(m - 1, e)) == Scale(p, a) - Signed(m, Scale(p, e))
  {
  }

  lemma {:induction false} AlternatingSumCons(ps: seq<real>, m: nat)
    requires ps != [] && m >= 1
    ensures AlternatingSum(ps, m) == AlternatingSum(ps[1..], m) - Scale(ps[0], AlternatingSum(ps[1..], m - 1))
  {
    var p, rest := ps[0], ps[1..];
    var with, without := SubsetProducts(rest, m - 1), SubsetProducts(rest, m);
    assert SubsetProducts(ps, m) == Scale(p, with) + without;
    if m == 1 {
      assert AlternatingSum(ps, 1) == 1.0 - (Scale(p, 1.0) + without);
    } else {
      var before := AlternatingSum(rest, m - 2);
      calc {
        AlternatingSum(ps, m);
        AlternatingSum(ps, m - 1) + Signed(m, Scale(p, with) + without);
        { AlternatingSumCons(ps, m - 1); }
        AlternatingSum(rest, m - 1) - Scale(p, before) + Signed(m, Scale(p, with) + without);
        AlternatingSum(rest, m) - (Scale(p, before) - Signed(m, Scale(p, with)));
        { ScaleSigned(p, before, with, m); }
        AlternatingSum(rest, m) - Scale(p, before + Signed(m - 1, with));
      }
    }
  }

  lemma ScaleComplement(p: real, x: real)
    ensures x - Scale(p, x) == Scale(1.0 - p, x)
  {
  }

  /** The alternating sum over all subset sizes is the probability that no event happens. */
  lemma {:induction false} AlternatingSumComplete(ps: seq<real>)
    ensures AlternatingSum(ps, |ps|) == ComplementProduct(ps)
    decreases |ps|
  {
    if ps != [] {
      var rest := ps[1..];
      var n := |ps|;
      AlternatingSumCons(ps, n);
      SubsetProductsBeyond(rest, n);
      AlternatingSumComplete(rest);
      ScaleComplement(ps[0], ComplementProduct(rest));
    }
  }

  lemma {:induction false} CorrectionsAlternate(ps: seq<real>, m: nat)
    requires m >= 1
    ensures AlternatingSum(ps, m) == 1.0 - Sum(ps) - Corrections(ps, m)
  {
    if m == 1 {
      SubsetProductsOne(ps);
    } else {
      CorrectionsAlternate(ps, m - 1);
    }
  }

  /** Inclusion-exclusion over independent events is the probability of
      their union: 1 - (1 - p1)(1 - p2)...(1 - pn), for every length. */
  lemma InclusionExclusionIsUnion(ps: seq<real>)
    ensures InclusionExclusion(ps) == 1.0 - ComplementProduct(ps)
  {
    if |ps| >= 2 {
      CorrectionsAlternate(ps, |ps|);
      AlternatingSumComplete(ps);
    }
  }

  /** A single probability is returned unchanged. */
  lemma SingleExposure(p: real)
    ensures InclusionExclusion([p]) == p
  {
  }

  /** The two checks the source asserts on overall_exposure hold exactly over the reals. */
  lemma SourceExamples()
    ensures InclusionExclusion([0.5, 0.2]) == 0.6
    ensures InclusionExclusion([0.5, 0.2, 0.3]) == 0.72
  {
    InclusionExclusionIsUnion([0.5, 0.2]);
    InclusionExclusionIsUnion([0.5, 0.2, 0.3]);
  }

  predicate AllProbabilities(ps: seq<real>)
  {
    forall i :: 0 <= i < |ps| ==> 0.0 <= ps[i] <= 1.0
  }

  lemma ProductNonNegative(a: real, x: real)
    requires 0.0 <= a && 0.0 <= x
    ensures 0.0 <= a * x
  {
  }

  lemma ProductShrinks(a: real, x: real)
    requires 0.0 <= a <= 1.0 && 0.0 <= x
    ensures a * x <= x
  {
  }

  lemma ScaleBounds(a: real, x: real)
    requires 0.0 <= a <= 1.0 && 0.0 <= x <= 1.0
    ensures 0.0 <= Scale(a, x) <= x
  {
    ProductNonNegative(a, x);
    ProductShrinks(a, x);
  }

  lemma {:induction false} ComplementProductBounds(ps: seq<real>)
    requires AllProbabilities(ps)
    ensures 0.0 <= ComplementProduct(ps) <= 1.0
    decreases |ps|
  {
    if ps != [] {
      ComplementProductBounds(ps[1..]);
      ScaleBounds(1.0 - ps[0], ComplementProduct(ps[1..]));
    }
  }

  /** Combining probabilities yields a probability. */
  lemma ExposureIsProbability(ps: seq<real>)
    requires AllProbabilities(ps)
    ensures 0.0 <= InclusionExclusion(ps) <= 1.0
  {
    InclusionExclusionIsUnion(ps);
    ComplementProductBounds(ps);
  }

  lemma ScaleAssociates(c: real, x: real, y: real)
    ensures Scale(c, Scale(x, y)) == Scale(Scale(c, x), y)
  {
  }

  lemma {:induction false} ComplementProductConcat(a: seq<real>, b: seq<real>)
    ensures ComplementProduct(a + b) == Scale(ComplementProduct(a), ComplementProduct(b))
    decreases |a|
  {
    if a != [] {
      assert (a + b)[1..] == a[1..] + b;
      ComplementProductConcat(a[1..], b);
      ScaleAssociates(1.0 - a[0], ComplementProduct(a[1..]), ComplementProduct(b));
    } else {
      assert a + b == b;
    }
  }

  lemma Rearrange(l: real, q: real, r: real)
    ensures Scale(Scale(l, Scale(q, 1.0)), r) == Scale(q, Scale(l, r))
  {
  }

  lemma ComplementProductSplit(left: seq<real>, q: real, right: seq<real>)
    ensures ComplementProduct(left + [q] + right)
         == Scale(Scale(ComplementProduct(left), Scale(1.0 - q, 1.0)), ComplementProduct(right))
  {
    ComplementProductConcat(left + [q], right);
    ComplementProductConcat(left, [q]);
  }

  /** Taking one value out of the product. */
  lemma ComplementProductOut(left: seq<real>, q: real, right: seq<real>)
    ensures ComplementProduct(left + [q] + right) == Scale(1.0 - q, ComplementProduct(left + right))
  {
    var l, r := ComplementProduct(left), ComplementProduct(right);
    ComplementProductSplit(left, q, right);
    Rearrange(l, 1.0 - q, r);
    ComplementProductConcat(left, right);
  }

  lemma MultisetWithout<T>(ps: seq<T>, qs: seq<T>, i: nat)
    requires multiset(ps) == multiset(qs) && ps != [] && i < |qs| && qs[i] == ps[0]
    ensures multiset(ps[1..]) == multiset(qs[..i] + qs[i + 1..])
  {
    var p, left, right := ps[0], qs[..i], qs[i + 1..];
    assert qs == left + [p] + right;
    assert ps == [p] + ps[1..];
    assert multiset(left + right) == multiset(left) + multiset(right);
    calc {
      multiset(ps[1..]);
      multiset(ps) - multiset{p};
      multiset(qs) - multiset{p};
      multiset(left + right);
    }
  }

  lemma {:induction false} ComplementProductPermutation(ps: seq<real>, qs: seq<real>)
    requires multiset(ps) == multiset(qs)
    ensures ComplementProduct(ps) == ComplementProduct(qs)
    decreases |ps|
  {
    if ps != [] {
      assert ps[0] in multiset(qs);
      var i :| 0 <= i < |qs| && qs[i] == ps[0];
      var left, right := qs[..i], qs[i + 1..];
      assert qs == left + [ps[0]] + right;
      MultisetWithout(ps, qs, i);
      ComplementProductPermutation(ps[1..], left + right);
      ComplementProductOut(left, ps[0], right);
    } else {
      assert |qs| == |multiset(qs)| == 0;
    }
  }

  /** The combined exposure does not depend on the order of the values, so
      the unspecified iteration order of a Python set does not matter. */
  lemma ExposureOrderIrrelevant(ps: seq<real>, qs: seq<real>)
    requires multiset(ps) == multiset(qs)
    ensures InclusionExclusion(ps) == InclusionExclusion(qs)
  {
    ComplementProductPermutation(ps, qs);
    InclusionExclusionIsUnion(ps);
    InclusionExclusionIsUnion(qs);
  }
}
