/** The optional result of a lookup or a step that can fail. */
module Wrappers {
  datatype Option<T> = None | Some(value: T)
}

/** A household agent: its fixed traits and its payoff for joining a coalition. */
module Households {
  import opened Exposure

  /** Traits fixed when the household is created; `sources` is the number of
      occupation exposure values that were combined into exposureChance. */
  datatype Household = Household(socialEagerness: real, riskFactor: real, exposureChance: real, sources: nat)

  /** Household.__init__: the exposure chance combines the exposure values of
      the household's occupations. */
  function NewHousehold(s: real, r: real, o: seq<real>): (h: Household)
    ensures h.socialEagerness == s && h.riskFactor == r && h.sources == |o|
    ensures h.exposureChance == 1.0 - ComplementProduct(o)
  {
    InclusionExclusionIsUnion(o);
    Household(s, r, InclusionExclusion(o), |o|)
  }

  /** The exposure chance of a household built from probabilities is a probability. */
  lemma NewHouseholdExposure(s: real, r: real, o: seq<real>)
    requires AllProbabilities(o)
    ensures 0.0 <= NewHousehold(s, r, o).exposureChance <= 1.0
  {
    ComplementProductBounds(o);
  }

  /** Household.value: the payoff of staying alone, a fixed baseline. */
  function Value(h: Household): real
  {
    0.0
  }

  /** Households are addressed by their index in the world's agent list. */
  predicate ValidIds(ids: seq<nat>, n: nat)
  {
    forall x :: x in ids ==> x < n
  }

  /** No agent id occurs twice. */
  ghost predicate NoDup(s: seq<nat>)
  {
    forall x :: multiset(s)[x] <= 1
  }

  /** set().union(members, [self]) listed out: every id once, at its first occurrence. */
  function Dedup(s: seq<nat>): (r: seq<nat>)
    ensures NoDup(r)
    ensures forall x :: x in r <==> x in s
  {
    if s == [] then []
    else
      var rest, last := Dedup(s[..|s| - 1]), s[|s| - 1];
      assert s == s[..|s| - 1] + [last];
      if last in rest then rest
      else
        assert multiset(rest + [last]) == multiset(rest) + multiset{last};
        rest + [last]
  }

  function Exposures(agents: seq<Household>, ids: seq<nat>): (r: seq<real>)
    requires ValidIds(ids, |agents|)
    ensures |r| == |ids|
  {
    seq(|ids|, i requires 0 <= i < |ids| => assert ids[i] in ids; agents[ids[i]].exposureChance)
  }

  /** The payoff lost to exposure: coalition_exposure * risk_factor * factor
      (grouped to the right, which over the reals is the same product). */
  function Penalty(exposure: real, risk: real, factor: real): real
  {
    exposure * (risk * factor)
  }

  /** Household.coalition_payoff with decay() * infection() passed in as `factor`. */
  function CoalitionPayoff(agents: seq<Household>, self: nat, members: seq<nat>, factor: real): (r: real)
    requires self < |agents| && ValidIds(members, |agents|)
    ensures members == [self] ==> r == Value(agents[self])
    ensures members != [self] ==>
      r == agents[self].socialEagerness
           - Penalty(1.0 - ComplementProduct(Exposures(agents, Dedup(members + [self]))), agents[self].riskFactor, factor)
  {
    if |members| == 1 && members[0] == self then Value(agents[self])
    else
      var h, group := agents[self], Dedup(members + [self]);
      InclusionExclusionIsUnion(Exposures(agents, group));
      h.socialEagerness - Penalty(InclusionExclusion(Exposures(agents, group)), h.riskFactor, factor)
  }

  /** A coalition holding only the household itself is worth the baseline,
      0, whatever its eagerness and risk. */
  lemma SoloPayoffIsBaseline(agents: seq<Household>, self: nat, factor: real)
    requires self < |agents|
    ensures CoalitionPayoff(agents, self, [self], factor) == 0.0
  {
  }

  /** The household joining a coalition is counted exactly once among the
      exposures, and so is every member. */
  lemma JoinedCountsEachOnce(members: seq<nat>, self: nat, x: nat)
    ensures multiset(Dedup(members + [self]))[x] == if x in members || x == self then 1 else 0
  {
    var group := Dedup(members + [self]);
    assert x in group <==> x in members + [self];
  }

  lemma NoDupSameElements(u: seq<nat>, d: seq<nat>)
    requires NoDup(u) && NoDup(d)
    requires forall x :: x in u <==> x in d
    ensures multiset(u) == multiset(d)
  {
    forall x ensures multiset(u)[x] == multiset(d)[x] {
      assert x in u <==> x in multiset(u);
      assert x in d <==> x in multiset(d);
    }
  }

  lemma ExposuresConcat(agents: seq<Household>, a: seq<nat>, b: seq<nat>)
    requires ValidIds(a, |agents|) && ValidIds(b, |agents|)
    ensures ValidIds(a + b, |agents|)
    ensures Exposures(agents, a + b) == Exposures(agents, a) + Exposures(agents, b)
  {
  }

  lemma SameElementsValid(u: seq<nat>, d: seq<nat>, n: nat)
    requires ValidIds(u, n) && multiset(u) == multiset(d)
    ensures ValidIds(d, n)
  {
    forall x | x in d ensures x < n {
      assert x in multiset(u);
      assert x in u;
    }
  }

  /** The exposures of a list with the id at position i taken out. */
  lemma ExposuresWithout(agents: seq<Household>, d: seq<nat>, i: nat)
    requires ValidIds(d, |agents|) && i < |d|
    ensures d[i] < |agents| && ValidIds(d[..i] + d[i + 1..], |agents|)
    ensures multiset(Exposures(agents, d))
         == multiset(Exposures(agents, d[..i] + d[i + 1..])) + multiset{agents[d[i]].exposureChance}
  {
    var left, right := d[..i], d[i + 1..];
    assert d == left + [d[i]] + right;
    assert d[i] in d && forall y :: y in left || y in right ==> y in d;
    ExposuresConcat(agents, left, [d[i]]);
    ExposuresConcat(agents, left + [d[i]], right);
    ExposuresConcat(agents, left, right);
    var l, r := Exposures(agents, left), Exposures(agents, right);
    assert Exposures(agents, d) == l + [agents[d[i]].exposureChance] + r;
  }

  lemma {:induction false} ExposuresPermutation(agents: seq<Household>, u: seq<nat>, d: seq<nat>)
    requires ValidIds(u, |agents|) && multiset(u) == multiset(d)
    ensures ValidIds(d, |agents|)
    ensures multiset(Exposures(agents, u)) == multiset(Exposures(agents, d))
    decreases |u|
  {
    SameElementsValid(u, d, |agents|);
    if u != [] {
      assert u[0] in multiset(d);
      var i :| 0 <= i < |d| && d[i] == u[0];
      MultisetWithout(u, d, i);
      ExposuresWithout(agents, u, 0);
      assert u[..0] + u[1..] == u[1..];
      ExposuresWithout(agents, d, i);
      ExposuresPermutation(agents, u[1..], d[..i] + d[i + 1..]);
    } else {
      assert |d| == |multiset(d)| == 0;
    }
  }

  /** The payoff is the same whichever order the members of the union are
      listed in, so the iteration order of the Python set is immaterial. */
  lemma PayoffOrderIrrelevant(agents: seq<Household>, self: nat, members: seq<nat>, factor: real, order: seq<nat>)
    requires self < |agents| && ValidIds(members, |agents|) && members != [self]
    requires NoDup(order) && forall x :: x in order <==> x in members || x == self
    ensures ValidIds(order, |agents|)
    ensures CoalitionPayoff(agents, self, members, factor)
         == agents[self].socialEagerness - Penalty(InclusionExclusion(Exposures(agents, order)), agents[self].riskFactor, factor)
  {
    var group := Dedup(members + [self]);
    NoDupSameElements(group, order);
    ExposuresPermutation(agents, group, order);
    ExposureOrderIrrelevant(Exposures(agents, group), Exposures(agents, order));
    InclusionExclusionIsUnion(Exposures(agents, group));
  }

  predicate ProbabilityTraits(agents: seq<Household>)
  {
    forall i :: 0 <= i < |agents| ==> 0.0 <= agents[i].exposureChance <= 1.0 && agents[i].riskFactor >= 0.0
  }

  lemma PenaltyBounds(e: real, risk: real, factor: real)
    requires 0.0 <= e <= 1.0 && risk >= 0.0 && factor >= 0.0
    ensures 0.0 <= Penalty(e, risk, factor) <= risk * factor
  {
    var rf := risk * factor;
    ProductNonNegative(risk, factor);
    assert Penalty(e, risk, factor) == e * rf;
    ProductNonNegative(e, rf);
    ProductShrinks(e, rf);
  }

  /** Joining others never pays more than the eagerness and never costs more
      than risk_factor * factor below it. */
  lemma PayoffBounds(agents: seq<Household>, self: nat, members: seq<nat>, factor: real)
    requires self < |agents| && ValidIds(members, |agents|) && members != [self]
    requires ProbabilityTraits(agents) && factor >= 0.0
    ensures agents[self].socialEagerness - agents[self].riskFactor * factor
         <= CoalitionPayoff(agents, self, members, factor)
         <= agents[self].socialEagerness
  {
    var group := Dedup(members + [self]);
    var ps := Exposures(agents, group);
    forall i | 0 <= i < |ps| ensures 0.0 <= ps[i] <= 1.0 {
      assert group[i] in group;
    }
    ExposureIsProbability(ps);
    PenaltyBounds(InclusionExclusion(ps), agents[self].riskFactor, factor);
  }

  /** Two independent exposures of 0.5: neither happens with probability 0.25. */
  lemma TwoHalvesExposure()
    ensures ComplementProduct([0.5, 0.5]) == 0.25
  {
    assert ComplementProduct([0.5]) == 0.5 by {
      assert [0.5][1..] == [];
      assert Scale(0.5, 1.0) == 0.5;
    }
    assert [0.5, 0.5][1..] == [0.5];
    assert Scale(0.5, 0.5) == 0.25;
  }

  /** The union of a pair with its second member lists the pair once. */
  lemma PairUnion()
    ensures Dedup([1] + [0]) == [1, 0]
    ensures Dedup([0, 1] + [0]) == [0, 1]
  {
    var single, pair, triple: seq<nat> := [1], [1, 0], [0, 1, 0];
    assert single[..0] == [] && pair[..1] == single;
    assert [1] + [0] == pair;
    var first, twice: seq<nat> := [0], [0, 1];
    assert first[..0] == [] && twice[..1] == first && triple[..2] == twice;
    assert [0, 1] + [0] == triple;
  }

  /** The exposures of a pair of households, in the order listed. */
  lemma PairExposures(agents: seq<Household>, x: nat, y: nat)
    requires x < |agents| && y < |agents|
    ensures ValidIds([x, y], |agents|)
    ensures Exposures(agents, [x, y]) == [agents[x].exposureChance, agents[y].exposureChance]
  {
  }

  /** Two households of exposure 0.5, risk 1 and eagerness 1 at a factor of 1:
      joining pays 1 - 0.75. */
  lemma PairPayoffExample()
    ensures CoalitionPayoff([Household(1.0, 1.0, 0.5, 1), Household(1.0, 1.0, 0.5, 1)], 0, [1], 1.0) == 0.25
  {
    var agents := [Household(1.0, 1.0, 0.5, 1), Household(1.0, 1.0, 0.5, 1)];
    PairUnion();
    PairExposures(agents, 1, 0);
    TwoHalvesExposure();
    assert Penalty(0.75, 1.0, 1.0) == 0.75;
  }
}
