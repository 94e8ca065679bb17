/** The World object: the households, the order in which a sweep visits them,
    and the fixed pool of coalitions whose member lists change in place. */
module Worlds {
  import opened Wrappers
  import opened TimeContext
  import opened Households
  import opened Coalitions

  /** A visiting order of n households: every id once (what random.shuffle
      leaves in agent_set). */
  ghost predicate IsOrdering(order: seq<nat>, n: nat)
  {
    |order| == n && ValidIds(order, n) && NoDup(order)
  }

  /** The households in creation order. */
  function Identity(n: nat): (r: seq<nat>)
    ensures IsOrdering(r, n)
    ensures forall i :: 0 <= i < n ==> r[i] == i
  {
    if n == 0 then []
    else
      var prefix := Identity(n - 1);
      assert n - 1 !in prefix;
      prefix + [n - 1]
  }

  class World {
    /** The households; coalitions refer to them by index. */
    const agents: seq<Household>
    /** agent_set as a visiting order of household ids. */
    var agentSet: seq<nat>
    /** coalition_set: entry c holds the members of the coalition with idnum c. */
    const coalitions: array<seq<nat>>

    ghost predicate Valid()
      reads this, coalitions
    {
      && coalitions.Length == |agents|
      && IsPartition(coalitions[..], |agents|)
      && IsOrdering(agentSet, |agents|)
    }

    /** World.__init__ for given households: coalition i holds household i. */
    constructor (households: seq<Household>)
      ensures agents == households && agentSet == Identity(|households|)
      ensures coalitions[..] == Singletons(|households|)
      ensures fresh(coalitions)
      ensures Valid()
    {
      var n := |households|;
      agents := households;
      agentSet := Identity(n);
      var cs := new seq<nat>[n];
      for i := 0 to n
        invariant forall c :: 0 <= c < i ==> cs[c] == [c]
      {
        cs[i] := [i];
      }
      coalitions := cs;
      SingletonsPartition(n);
      assert cs[..] == Singletons(n);
    }

    /** move_to: append a to coalition id unless it is there, and remove it
        from every other coalition that holds it. */
    method MoveTo(a: nat, id: int)
      modifies coalitions
      ensures coalitions[..] == AfterMove(old(coalitions[..]), a, id)
      ensures old(Valid()) && a < |agents| && 0 <= id < coalitions.Length ==> Valid()
    {
      ghost var before := coalitions[..];
      for c := 0 to coalitions.Length
        invariant forall k :: 0 <= k < c ==> coalitions[k] == Moved(before[k], a, k == id)
        invariant forall k :: c <= k < coalitions.Length ==> coalitions[k] == before[k]
      {
        var members := coalitions[c];
        if c == id {
          if a !in members {
            coalitions[c] := members + [a];
          }
        } else if a in members {
          coalitions[c] := Remove(members, a);
        }
      }
      AfterMoveEach(before, a, id);
      assert coalitions[..] == AfterMove(before, a, id);
      if old(Valid()) && a < |agents| && 0 <= id < coalitions.Length {
        MoveToPreservesPartition(before, |agents|, a, id);
      }
    }

    /** current_coalition(a).idnum: the first coalition holding a, -1 for None. */
    method CurrentCoalition(a: nat) returns (r: int)
      ensures r == OwnerOf(coalitions[..], a)
      ensures r == -1 <==> forall c :: 0 <= c < coalitions.Length ==> a !in coalitions[c]
    {
      for c := 0 to coalitions.Length
        invariant forall k :: 0 <= k < c ==> a !in coalitions[k]
      {
        if a in coalitions[c] {
          OwnerFromSkips(coalitions[..], a, c);
          return c;
        }
      }
      OwnerFromSkips(coalitions[..], a, coalitions.Length);
      return -1;
    }

    /** The first loop of best_coalition: the idnums of the non-empty
        coalitions, in pool order. */
    method ActiveCoalitions() returns (active: seq<nat>)
      ensures active == Active(coalitions[..])
      ensures forall c :: c in active <==> 0 <= c < coalitions.Length && coalitions[c] != []
    {
      active := [];
      for c := 0 to coalitions.Length
        invariant active == Active(coalitions[..c])
      {
        assert coalitions[..c + 1][..c] == coalitions[..c];
        if coalitions[c] != [] {
          active := active + [c];
        }
      }
      assert coalitions[..coalitions.Length] == coalitions[..];
      ActiveSpec(coalitions[..]);
    }

    /** a.coalition_payoff(c) for the coalition with idnum c. */
    method PayoffFor(a: nat, c: nat, factor: real) returns (p: real)
      requires a < |agents| && c < coalitions.Length && WellFormed(coalitions[..], |agents|)
      ensures p == PayoffTable(agents, coalitions[..], a, factor)[c]
    {
      p := CoalitionPayoff(agents, a, coalitions[c], factor);
      PayoffTableAt(agents, coalitions[..], a, factor, c);
    }

    /** best_coalition(a).idnum, -1 for the sentinel: collect the non-empty
        coalitions, then keep the first of strictly highest payoff above -1. */
    method BestCoalition(a: nat, factor: real) returns (best: int)
      requires a < |agents| && WellFormed(coalitions[..], |agents|)
      ensures best == BestOf(agents, coalitions[..], a, factor)
    {
      var active := ActiveCoalitions();
      var cs := coalitions[..];
      ghost var pays := Pick(PayoffTable(agents, cs, a, factor), active);
      best := -1;
      var maxPayoff := -1.0;
      for j := 0 to |active|
        invariant Choice(best, maxPayoff) == Scan(active[..j], pays[..j])
      {
        ScanExtend(active, pays, j);
        var payoff := PayoffFor(a, active[j], factor);
        if payoff > maxPayoff {
          best := active[j];
          maxPayoff := payoff;
        }
      }
      assert active[..|active|] == active && pays[..|pays|] == pays;
    }

    /** The body of simulate's inner loop for household a: move it to its
        best coalition when that differs from its current one; false where
        `.idnum` raises the exception (best_coalition gave -1 or
        current_coalition gave None), with the pool untouched. */
    method Visit(a: nat, factor: real) returns (ok: bool)
      requires a < |agents| && coalitions.Length == |agents| && WellFormed(coalitions[..], |agents|)
      modifies coalitions
      ensures var step := Step(agents, old(coalitions[..]), a, factor);
        && ok == step.Some?
        && coalitions[..] == if ok then step.value else old(coalitions[..])
    {
      var best := BestCoalition(a, factor);
      if best == -1 {
        return false;
      }
      var cur := CurrentCoalition(a);
      if cur == -1 {
        return false;
      }
      if best != cur {
        MoveTo(a, best);
      }
      return true;
    }

    /** simulate's inner loop over agent_set; the result names the
        household whose visit raised the exception. */
    method VisitAll(factor: real) returns (crashed: Option<nat>)
      requires coalitions.Length == |agents| && WellFormed(coalitions[..], |agents|)
      requires ValidIds(agentSet, |agents|)
      modifies coalitions
      ensures var out := Sweep(agents, old(coalitions[..]), agentSet, 0, factor);
        && coalitions[..] == out.pool
        && (crashed.None? <==> out.Running?)
        && (crashed.Some? ==> crashed.value == out.agent)
    {
      ghost var final := Sweep(agents, coalitions[..], agentSet, 0, factor);
      for k := 0 to |agentSet|
        invariant WellFormed(coalitions[..], |agents|)
        invariant Sweep(agents, coalitions[..], agentSet, k, factor) == final
      {
        var a := agentSet[k];
        assert a in agentSet;
        var ok := Visit(a, factor);
        if !ok {
          return Some(a);
        }
      }
      return None;
    }

    /** One pass of simulate's outer loop: agent_set becomes the visiting
        order (the in-place shuffle), then every household in it is visited. */
    method SweepOnce(order: seq<nat>, factor: real) returns (crashed: Option<nat>)
      requires coalitions.Length == |agents| && WellFormed(coalitions[..], |agents|)
      requires ValidIds(order, |agents|)
      modifies this, coalitions
      ensures agentSet == order
      ensures var out := Sweep(agents, old(coalitions[..]), order, 0, factor);
        && coalitions[..] == out.pool
        && (crashed.None? <==> out.Running?)
        && (crashed.Some? ==> crashed.value == out.agent)
    {
      agentSet := order;
      crashed := VisitAll(factor);
    }

    /** simulate: one sweep per visiting order (the shuffles of agent_set),
        stopping at the first exception. `factor` stands for
        RoundFactor(decay, time).value of the current round, which every
        payoff of the call reads. agent_set keeps the order of the last
        sweep started, as random.shuffle reorders it in place. */
    method Simulate(orders: seq<seq<nat>>, factor: real) returns (crashed: Option<nat>)
      requires Valid()
      requires |orders| == MaxTimesteps
      requires forall t :: 0 <= t < |orders| ==> |orders[t]| == |agents| && ValidIds(orders[t], |agents|) && NoDup(orders[t])
      modifies this, coalitions
      ensures Valid()
      ensures crashed.None? ==> agentSet == orders[|orders| - 1]
      ensures crashed.Some? ==> agentSet in orders
      ensures var out := Run(agents, old(coalitions[..]), orders, 0, factor);
        && coalitions[..] == out.pool
        && (crashed.None? <==> out.Running?)
        && (crashed.Some? ==> crashed.value == out.agent)
    {
      ghost var final := Run(agents, coalitions[..], orders, 0, factor);
      RunPreservesPartition(agents, coalitions[..], orders, 0, factor);
      for t := 0 to |orders|
        invariant coalitions.Length == |agents| && WellFormed(coalitions[..], |agents|)
        invariant if t == 0 then agentSet == old(agentSet) else agentSet == orders[t - 1]
        invariant Run(agents, coalitions[..], orders, t, factor) == final
      {
        crashed := SweepOnce(orders[t], factor);
        if crashed.Some? {
          assert IsOrdering(orders[t], |agents|);
          return;
        }
      }
      assert IsOrdering(orders[|orders| - 1], |agents|);
      crashed := None;
    }
  }

  /** current_coalition skips the coalitions before the first one holding a. */
  lemma OwnerFromSkips(cs: Pool, a: nat, c: nat)
    requires c <= |cs| && forall k :: 0 <= k < c ==> a !in cs[k]
    ensures OwnerOf(cs, a) == OwnerFrom(cs, a, c)
  {
  }
}
