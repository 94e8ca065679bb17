/** The coalition pool of a World as a value: coalition `c` is the member list
    of the Coalition whose idnum is c, and members are household ids. These
    functions specify what the World methods do to the pool. */
module Coalitions {
  import opened Wrappers
  import opened Households
  import opened Exposure

  type Pool = seq<seq<nat>>

  /** Every member id names one of the n households. */
  predicate WellFormed(cs: Pool, n: nat)
  {
    forall c :: 0 <= c < |cs| ==> ValidIds(cs[c], n)
  }

  /** The pool built by World.__init__: coalition i holds household i alone. */
  function Singletons(n: nat): (r: Pool)
    ensures |r| == n
    ensures forall c :: 0 <= c < n ==> r[c] == [c]
  {
    seq(n, i => [i])
  }

  /** current_coalition, scanning from coalition k on: the first coalition
      holding a, or -1 where the source returns None. */
  function OwnerFrom(cs: Pool, a: nat, k: nat): (r: int)
    requires k <= |cs|
    ensures r == -1 <==> forall c :: k <= c < |cs| ==> a !in cs[c]
    ensures r != -1 ==> k <= r < |cs| && a in cs[r] && forall c :: k <= c < r ==> a !in cs[c]
    decreases |cs| - k
  {
    if k == |cs| then -1
    else if a in cs[k] then k
    else OwnerFrom(cs, a, k + 1)
  }

  function OwnerOf(cs: Pool, a: nat): int
  {
    OwnerFrom(cs, a, 0)
  }

  /** Every household sits in exactly one coalition, at most once. */
  ghost predicate IsPartition(cs: Pool, n: nat)
  {
    && WellFormed(cs, n)
    && (forall c :: 0 <= c < |cs| ==> NoDup(cs[c]))
    && (forall a :: 0 <= a < n ==> OwnerOf(cs, a) != -1)
    && (forall c, a :: 0 <= c < |cs| && a in cs[c] ==> OwnerOf(cs, a) == c)
  }

  /** Under a partition, the coalition current_coalition finds is the only
      one holding the household. */
  lemma OwnerIsUnique(cs: Pool, n: nat, a: nat)
    requires IsPartition(cs, n) && a < n
    ensures 0 <= OwnerOf(cs, a) < |cs|
    ensures forall c :: 0 <= c < |cs| ==> (a in cs[c] <==> c == OwnerOf(cs, a))
  {
  }

  /** World.__init__ makes a partition. */
  lemma SingletonsPartition(n: nat)
    ensures IsPartition(Singletons(n), n)
  {
    var cs := Singletons(n);
    forall c | 0 <= c < n ensures NoDup(cs[c]) {
      assert cs[c] == [c];
    }
    forall a | 0 <= a < n ensures OwnerOf(cs, a) != -1 {
      assert a in cs[a];
    }
  }

  /** list.remove: drops the first occurrence of x. */
  function Remove(s: seq<nat>, x: nat): (r: seq<nat>)
    requires x in s
    ensures |r| == |s| - 1
    ensures multiset(r) == multiset(s) - multiset{x}
  {
    assert s == [s[0]] + s[1..];
    if s[0] == x then s[1..] else [s[0]] + Remove(s[1..], x)
  }

  /** The members of one coalition after the body of move_to's loop visits
      it; `target` says whether its idnum is the requested one. */
  function Moved(members: seq<nat>, a: nat, target: bool): seq<nat>
  {
    if target then
      if a in members then members else members + [a]
    else if a in members then Remove(members, a)
    else members
  }

  /** The target coalition holds a afterwards, any other coalition that held
      it at most once no longer does, no other household's count changes,
      and no duplicate appears. */
  lemma MovedSpec(members: seq<nat>, a: nat, target: bool)
    ensures var r := Moved(members, a, target);
      && (target ==> a in r)
      && (!target && multiset(members)[a] <= 1 ==> a !in r)
      && (forall b :: b != a ==> multiset(r)[b] == multiset(members)[b])
      && (NoDup(members) ==> NoDup(r))
  {
    if target && a !in members {
      assert multiset(members)[a] == 0;
      assert multiset(members + [a]) == multiset(members) + multiset{a};
    }
  }

  /** The pool after move_to(a, id). */
  function AfterMove(cs: Pool, a: nat, id: int): (r: Pool)
    ensures |r| == |cs|
    decreases |cs|
  {
    if cs == [] then []
    else
      var n := |cs| - 1;
      AfterMove(cs[..n], a, id) + [Moved(cs[n], a, n == id)]
  }

  /** Coalition c after move_to is what the loop body makes of it. */
  lemma {:induction false} AfterMoveAt(cs: Pool, a: nat, id: int, c: nat)
    requires c < |cs|
    ensures AfterMove(cs, a, id)[c] == Moved(cs[c], a, c == id)
    decreases |cs|
  {
    var n := |cs| - 1;
    if c < n {
      AfterMoveAt(cs[..n], a, id, c);
    }
  }

  lemma AfterMoveEach(cs: Pool, a: nat, id: int)
    ensures forall c :: 0 <= c < |cs| ==> AfterMove(cs, a, id)[c] == Moved(cs[c], a, c == id)
  {
    forall c | 0 <= c < |cs| ensures AfterMove(cs, a, id)[c] == Moved(cs[c], a, c == id) {
      AfterMoveAt(cs, a, id, c);
    }
  }

  lemma MovedMembers(members: seq<nat>, a: nat, target: bool, b: nat)
    ensures b in Moved(members, a, target) ==> b in members || b == a
  {
    var r := Moved(members, a, target);
    MovedSpec(members, a, target);
    if b in r && b != a {
      assert b in multiset(r);
    }
  }

  /** After move_to(a, id) the household is in coalition id and in no other,
      provided no coalition held it twice. */
  lemma MoveToPlaces(cs: Pool, a: nat, id: nat)
    requires id < |cs|
    requires forall c :: 0 <= c < |cs| ==> multiset(cs[c])[a] <= 1
    ensures a in AfterMove(cs, a, id)[id]
    ensures forall c :: 0 <= c < |cs| && c != id ==> a !in AfterMove(cs, a, id)[c]
  {
    forall c | 0 <= c < |cs| ensures var r := AfterMove(cs, a, id)[c]; (c == id ==> a in r) && (c != id ==> a !in r) {
      AfterMoveAt(cs, a, id, c);
      MovedSpec(cs[c], a, c == id);
    }
  }

  /** move_to leaves every other household's membership of every coalition
      as it was, and adds no second copy of a to the target. */
  lemma MoveToOthersUnchanged(cs: Pool, a: nat, id: int)
    ensures forall c, b :: 0 <= c < |cs| && b != a ==>
      multiset(AfterMove(cs, a, id)[c])[b] == multiset(cs[c])[b]
    ensures forall c :: 0 <= c < |cs| && NoDup(cs[c]) ==> NoDup(AfterMove(cs, a, id)[c])
  {
    forall c | 0 <= c < |cs|
      ensures (forall b :: b != a ==> multiset(AfterMove(cs, a, id)[c])[b] == multiset(cs[c])[b])
      ensures NoDup(cs[c]) ==> NoDup(AfterMove(cs, a, id)[c])
    {
      AfterMoveAt(cs, a, id, c);
      MovedSpec(cs[c], a, c == id);
    }
  }

  /** move_to keeps the partition. */
  lemma MoveToPreservesPartition(cs: Pool, n: nat, a: nat, id: nat)
    requires IsPartition(cs, n) && a < n && id < |cs|
    ensures IsPartition(AfterMove(cs, a, id), n)
  {
    AfterMoveEach(cs, a, id);
    MoveToOthersUnchanged(cs, a, id);
    var r := AfterMove(cs, a, id);
    forall c | 0 <= c < |r| ensures ValidIds(r[c], n) {
      forall b | b in r[c] ensures b < n {
        MovedMembers(cs[c], a, c == id, b);
      }
    }
    MoveToPlaces(cs, a, id);
    forall b | 0 <= b < n ensures OwnerOf(r, b) != -1 {
      if b == a {
        assert b in r[id];
      } else {
        var o := OwnerOf(cs, b);
        assert b in multiset(cs[o]);
        assert b in multiset(r[o]);
      }
    }
    forall c, b | 0 <= c < |r| && b in r[c] ensures OwnerOf(r, b) == c {
      MoveToKeepsOwners(cs, n, a, id, c, b);
    }
  }

  lemma MoveToKeepsOwners(cs: Pool, n: nat, a: nat, id: nat, c: nat, b: nat)
    requires IsPartition(cs, n) && a < n && id < |cs| && c < |cs| && b in AfterMove(cs, a, id)[c]
    ensures OwnerOf(AfterMove(cs, a, id), b) == c
  {
    var r := AfterMove(cs, a, id);
    var o := OwnerOf(r, b);
    assert 0 <= o < |r| && b in r[o];
    if b == a {
      forall k | 0 <= k < |cs| ensures multiset(cs[k])[a] <= 1 {
        assert NoDup(cs[k]);
      }
      MoveToPlaces(cs, a, id);
      assert c == id && o == id;
    } else {
      AfterMoveAt(cs, a, id, c);
      AfterMoveAt(cs, a, id, o);
      MovedMembers(cs[c], a, c == id, b);
      MovedMembers(cs[o], a, o == id, b);
      assert b in cs[c] && b in cs[o];
      assert OwnerOf(cs, b) == c && OwnerOf(cs, b) == o;
    }
  }

  /** A second identical move_to changes nothing. */
  lemma MoveToIdempotent(cs: Pool, a: nat, id: int)
    requires forall c :: 0 <= c < |cs| ==> multiset(cs[c])[a] <= 1
    ensures AfterMove(AfterMove(cs, a, id), a, id) == AfterMove(cs, a, id)
  {
    AfterMoveEach(cs, a, id);
    AfterMoveEach(AfterMove(cs, a, id), a, id);
    var r := AfterMove(cs, a, id);
    forall c | 0 <= c < |cs| ensures Moved(r[c], a, c == id) == r[c] {
      MovedSpec(cs[c], a, c == id);
      if c == id {
        assert a in r[c];
      } else {
        assert a !in r[c];
      }
    }
  }

  /** move_to of a household already alone in its target's membership is a no-op. */
  lemma MoveToNoop(cs: Pool, a: nat, id: nat)
    requires id < |cs| && a in cs[id]
    requires forall c :: 0 <= c < |cs| && c != id ==> a !in cs[c]
    ensures AfterMove(cs, a, id) == cs
  {
    AfterMoveEach(cs, a, id);
  }

  /** The ids of the non-empty coalitions, in pool order (active_coalitions). */
  function Active(cs: Pool): (r: seq<nat>)
    ensures forall i :: 0 <= i < |r| ==> r[i] < |cs|
  {
    if cs == [] then []
    else
      var n := |cs| - 1;
      var rest := Active(cs[..n]);
      if cs[n] != [] then rest + [n] else rest
  }

  /** The active list holds exactly the non-empty coalitions, in increasing order. */
  lemma {:induction false} ActiveSpec(cs: Pool)
    ensures forall i :: 0 <= i < |Active(cs)| ==> cs[Active(cs)[i]] != []
    ensures forall c :: 0 <= c < |cs| && cs[c] != [] ==> c in Active(cs)
    ensures forall i, j :: 0 <= i < j < |Active(cs)| ==> Active(cs)[i] < Active(cs)[j]
  {
    if cs != [] {
      var n := |cs| - 1;
      var init := cs[..n];
      ActiveSpec(init);
      assert forall c :: 0 <= c < n ==> init[c] == cs[c];
    }
  }

  /** best_c and max_payoff of best_coalition. */
  datatype Choice = Choice(best: int, payoff: real)

  /** The loop of best_coalition over candidates `ids` with payoffs `pays`,
      starting from the sentinels -1 and -1 and replacing on a strictly
      larger payoff. */
  function Scan(ids: seq<nat>, pays: seq<real>): Choice
    requires |ids| == |pays|
  {
    if ids == [] then Choice(-1, -1.0)
    else
      var n := |ids| - 1;
      var prev := Scan(ids[..n], pays[..n]);
      if pays[n] > prev.payoff then Choice(ids[n], pays[n]) else prev
  }

  /** One more candidate: the scan of a longer prefix takes it exactly on a
      strictly larger payoff. */
  lemma ScanExtend(ids: seq<nat>, pays: seq<real>, j: nat)
    requires |ids| == |pays| && j < |ids|
    ensures var prev := Scan(ids[..j], pays[..j]);
      Scan(ids[..j + 1], pays[..j + 1]) == if pays[j] > prev.payoff then Choice(ids[j], pays[j]) else prev
  {
    assert ids[..j + 1][..j] == ids[..j] && pays[..j + 1][..j] == pays[..j];
  }

  /** The scan keeps the sentinel exactly when no payoff exceeds -1, and its
      payoff bounds every candidate's. */
  lemma {:induction false} ScanBounds(ids: seq<nat>, pays: seq<real>)
    requires |ids| == |pays|
    ensures var r := Scan(ids, pays);
      && (r.best == -1 <==> forall j :: 0 <= j < |pays| ==> pays[j] <= -1.0)
      && (r.best == -1 ==> r.payoff == -1.0)
      && (forall j :: 0 <= j < |pays| ==> pays[j] <= r.payoff)
  {
    if ids != [] {
      var n := |ids| - 1;
      ScanBounds(ids[..n], pays[..n]);
      assert forall j :: 0 <= j < n ==> pays[..n][j] == pays[j];
    }
  }

  /** The scan's choice is the first candidate reaching its payoff: strict
      `>` keeps the earliest on ties. */
  lemma {:induction false} ScanWinner(ids: seq<nat>, pays: seq<real>) returns (k: nat)
    requires |ids| == |pays| && Scan(ids, pays).best != -1
    ensures k < |ids| && ids[k] == Scan(ids, pays).best && pays[k] == Scan(ids, pays).payoff
    ensures forall j :: 0 <= j < k ==> pays[j] < Scan(ids, pays).payoff
  {
    var n := |ids| - 1;
    var prev := Scan(ids[..n], pays[..n]);
    ScanBounds(ids[..n], pays[..n]);
    assert forall j :: 0 <= j < n ==> pays[..n][j] == pays[j];
    if pays[n] > prev.payoff {
      k := n;
    } else {
      k := ScanWinner(ids[..n], pays[..n]);
    }
  }

  /** coalition_payoff of household a for every coalition of the pool, by idnum. */
  function PayoffTable(agents: seq<Household>, cs: Pool, a: nat, factor: real): (r: seq<real>)
    requires a < |agents| && WellFormed(cs, |agents|)
    ensures |r| == |cs|
    decreases |cs|
  {
    if cs == [] then []
    else
      var n := |cs| - 1;
      assert forall c :: 0 <= c < n ==> cs[..n][c] == cs[c];
      PayoffTable(agents, cs[..n], a, factor) + [CoalitionPayoff(agents, a, cs[n], factor)]
  }

  /** Entry c of the table is household a's payoff for coalition c. */
  lemma {:induction false} PayoffTableAt(agents: seq<Household>, cs: Pool, a: nat, factor: real, c: nat)
    requires a < |agents| && WellFormed(cs, |agents|) && c < |cs|
    ensures PayoffTable(agents, cs, a, factor)[c] == CoalitionPayoff(agents, a, cs[c], factor)
    decreases |cs|
  {
    var n := |cs| - 1;
    assert forall k :: 0 <= k < n ==> cs[..n][k] == cs[k];
    if c < n {
      PayoffTableAt(agents, cs[..n], a, factor, c);
    }
  }

  /** The entries of `vals` at the listed positions. */
  function Pick(vals: seq<real>, ids: seq<nat>): (r: seq<real>)
    requires forall i :: 0 <= i < |ids| ==> ids[i] < |vals|
    ensures |r| == |ids|
    ensures forall i :: 0 <= i < |ids| ==> r[i] == vals[ids[i]]
  {
    seq(|ids|, i requires 0 <= i < |ids| => vals[ids[i]])
  }

  /** best_coalition(a).idnum, or -1 for the sentinel. */
  function BestOf(agents: seq<Household>, cs: Pool, a: nat, factor: real): int
    requires a < |agents| && WellFormed(cs, |agents|)
  {
    var act := Active(cs);
    Scan(act, Pick(PayoffTable(agents, cs, a, factor), act)).best
  }

  lemma ActivePosition(cs: Pool, c: nat) returns (j: nat)
    requires c < |cs| && cs[c] != []
    ensures j < |Active(cs)| && Active(cs)[j] == c
  {
    ActiveSpec(cs);
    assert c in Active(cs);
    j :| 0 <= j < |Active(cs)| && Active(cs)[j] == c;
  }

  /** Positions in the active list follow coalition order. */
  lemma ActiveOrder(cs: Pool, i: nat, j: nat)
    requires i < |Active(cs)| && j < |Active(cs)| && Active(cs)[i] < Active(cs)[j]
    ensures i < j
  {
    ActiveSpec(cs);
  }

  lemma ScanActiveSentinel(cs: Pool, vals: seq<real>)
    requires |vals| == |cs|
    ensures Scan(Active(cs), Pick(vals, Active(cs))).best == -1
        <==> forall c :: 0 <= c < |cs| && cs[c] != [] ==> vals[c] <= -1.0
  {
    ActiveSpec(cs);
    var act := Active(cs);
    var pays := Pick(vals, act);
    ScanBounds(act, pays);
    if Scan(act, pays).best == -1 {
      forall c | 0 <= c < |cs| && cs[c] != [] ensures vals[c] <= -1.0 {
        var j := ActivePosition(cs, c);
      }
    }
  }

  lemma ScanActiveBest(cs: Pool, vals: seq<real>)
    requires |vals| == |cs|
    ensures var b := Scan(Active(cs), Pick(vals, Active(cs))).best;
      b != -1 ==>
        && 0 <= b < |cs| && cs[b] != [] && vals[b] > -1.0
        && (forall c :: 0 <= c < |cs| && cs[c] != [] ==> vals[c] <= vals[b])
        && (forall c :: 0 <= c < b && cs[c] != [] ==> vals[c] < vals[b])
  {
    ActiveSpec(cs);
    var act := Active(cs);
    var pays := Pick(vals, act);
    var r := Scan(act, pays);
    ScanBounds(act, pays);
    if r.best != -1 {
      var k := ScanWinner(act, pays);
      forall c | 0 <= c < |cs| && cs[c] != [] ensures vals[c] <= r.payoff {
        var j := ActivePosition(cs, c);
      }
      forall c | 0 <= c < r.best && cs[c] != [] ensures vals[c] < r.payoff {
        var j := ActivePosition(cs, c);
        ActiveOrder(cs, j, k);
      }
    }
  }

  /** The scan of best_coalition over the non-empty coalitions, for any
      payoff per coalition: the sentinel exactly when no non-empty coalition
      pays more than -1, otherwise the earliest non-empty coalition of
      maximal payoff. */
  lemma ScanActiveIsArgmax(cs: Pool, vals: seq<real>)
    requires |vals| == |cs|
    ensures var b := Scan(Active(cs), Pick(vals, Active(cs))).best;
      && (b == -1 <==> forall c :: 0 <= c < |cs| && cs[c] != [] ==> vals[c] <= -1.0)
      && (b != -1 ==>
            && 0 <= b < |cs| && cs[b] != [] && vals[b] > -1.0
            && (forall c :: 0 <= c < |cs| && cs[c] != [] ==> vals[c] <= vals[b])
            && (forall c :: 0 <= c < b && cs[c] != [] ==> vals[c] < vals[b]))
  {
    ScanActiveSentinel(cs, vals);
    ScanActiveBest(cs, vals);
  }

  /** best_coalition is the sentinel exactly when no non-empty coalition pays
      more than -1; otherwise it is a non-empty coalition paying at least as
      much as every non-empty coalition and strictly more than every earlier one. */
  lemma BestOfIsArgmax(agents: seq<Household>, cs: Pool, a: nat, factor: real)
    requires a < |agents| && WellFormed(cs, |agents|)
    ensures var b := BestOf(agents, cs, a, factor);
      && (b == -1 <==> forall c :: 0 <= c < |cs| && cs[c] != [] ==> CoalitionPayoff(agents, a, cs[c], factor) <= -1.0)
      && (b != -1 ==>
            && 0 <= b < |cs| && cs[b] != [] && CoalitionPayoff(agents, a, cs[b], factor) > -1.0
            && (forall c :: 0 <= c < |cs| && cs[c] != [] ==>
                  CoalitionPayoff(agents, a, cs[c], factor) <= CoalitionPayoff(agents, a, cs[b], factor))
            && (forall c :: 0 <= c < b && cs[c] != [] ==>
                  CoalitionPayoff(agents, a, cs[c], factor) < CoalitionPayoff(agents, a, cs[b], factor)))
  {
    var vals := PayoffTable(agents, cs, a, factor);
    ScanActiveIsArgmax(cs, vals);
    forall c | 0 <= c < |cs| ensures vals[c] == CoalitionPayoff(agents, a, cs[c], factor) {
      PayoffTableAt(agents, cs, a, factor, c);
    }
  }

  /** A household's best coalition, when there is one, is a non-empty coalition of the pool. */
  lemma BestOfInPool(agents: seq<Household>, cs: Pool, a: nat, factor: real)
    requires a < |agents| && WellFormed(cs, |agents|)
    ensures var b := BestOf(agents, cs, a, factor);
      b != -1 ==> 0 <= b < |cs| && cs[b] != []
  {
    ScanActiveBest(cs, PayoffTable(agents, cs, a, factor));
  }

  /** One visit of household a in simulate's inner loop: None is the
      AttributeError raised when best_coalition returns -1 or
      current_coalition returns None. */
  function Step(agents: seq<Household>, cs: Pool, a: nat, factor: real): (r: Option<Pool>)
    requires a < |agents| && WellFormed(cs, |agents|)
    ensures r.Some? ==> |r.value| == |cs| && WellFormed(r.value, |agents|)
  {
    var best := BestOf(agents, cs, a, factor);
    if best == -1 then None
    else
      var cur := OwnerOf(cs, a);
      if cur == -1 then None
      else if best != cur then
        var r := AfterMove(cs, a, best);
        assert WellFormed(r, |agents|) by {
          AfterMoveEach(cs, a, best);
          forall c, b | 0 <= c < |r| && b in r[c] ensures b < |agents| {
            MovedMembers(cs[c], a, c == best, b);
          }
        }
        Some(r)
      else Some(cs)
  }

  /** A step keeps the partition. */
  lemma StepPreservesPartition(agents: seq<Household>, cs: Pool, a: nat, factor: real)
    requires a < |agents| && IsPartition(cs, |agents|)
    ensures Step(agents, cs, a, factor).Some? ==> IsPartition(Step(agents, cs, a, factor).value, |agents|)
  {
    var best := BestOf(agents, cs, a, factor);
    if best != -1 {
      BestOfInPool(agents, cs, a, factor);
      MoveToPreservesPartition(cs, |agents|, a, best);
    }
  }

  /** Under a partition a step only fails on the sentinel; after it the
      household sits in its best coalition alone among the coalitions, no
      other household's membership changed, and the pool changed only if the
      best coalition differed from the current one. */
  lemma StepJoinsBest(agents: seq<Household>, cs: Pool, a: nat, factor: real)
    requires a < |agents| && IsPartition(cs, |agents|)
    ensures var best := BestOf(agents, cs, a, factor);
      && (Step(agents, cs, a, factor).None? <==> best == -1)
      && (best != -1 ==>
            var r := Step(agents, cs, a, factor).value;
            && 0 <= best < |r| && a in r[best]
            && (forall c :: 0 <= c < |r| && c != best ==> a !in r[c])
            && (forall c, b :: 0 <= c < |r| && b != a ==> multiset(r[c])[b] == multiset(cs[c])[b])
            && (OwnerOf(cs, a) == best <==> r == cs))
  {
    var best := BestOf(agents, cs, a, factor);
    OwnerIsUnique(cs, |agents|, a);
    if best != -1 {
      BestOfInPool(agents, cs, a, factor);
      var cur := OwnerOf(cs, a);
      forall c | 0 <= c < |cs| ensures multiset(cs[c])[a] <= 1 {
        assert NoDup(cs[c]);
      }
      MoveToPlaces(cs, a, best);
      MoveToOthersUnchanged(cs, a, best);
      if cur != best {
        AfterMoveAt(cs, a, best, cur);
        assert a in cs[cur] && a !in AfterMove(cs, a, best)[cur];
      }
    }
  }

  /** A household that is alone in its coalition is never left with the
      sentinel: its own coalition pays value(), 0, which beats -1. */
  lemma SoloNeverCrashes(agents: seq<Household>, cs: Pool, a: nat, factor: real, own: nat)
    requires a < |agents| && IsPartition(cs, |agents|)
    requires own < |cs| && cs[own] == [a]
    ensures Step(agents, cs, a, factor).Some?
  {
    assert a in cs[own];
    BestOfIsArgmax(agents, cs, a, factor);
    StepJoinsBest(agents, cs, a, factor);
    SoloPayoffIsBaseline(agents, a, factor);
  }

  /** The state simulate reaches: still running, or stopped by the exception
      raised while visiting `agent`, with the pool as it was at that moment. */
  datatype Outcome = Running(pool: Pool) | Crashed(pool: Pool, agent: nat)

  /** One sweep of simulate over the visiting order `order`, from position k on. */
  function Sweep(agents: seq<Household>, cs: Pool, order: seq<nat>, k: nat, factor: real): (r: Outcome)
    requires WellFormed(cs, |agents|) && ValidIds(order, |agents|) && k <= |order|
    ensures |r.pool| == |cs| && WellFormed(r.pool, |agents|)
    ensures r.Crashed? ==> r.agent in order[k..]
    decreases |order| - k
  {
    if k == |order| then Running(cs)
    else
      assert order[k] in order;
      var step := Step(agents, cs, order[k], factor);
      if step.None? then Crashed(cs, order[k])
      else
        Sweep(agents, step.value, order, k + 1, factor)
  }

  /** The sweeps of simulate from sweep t on, one visiting order each,
      stopping at an exception. */
  function Run(agents: seq<Household>, cs: Pool, orders: seq<seq<nat>>, t: nat, factor: real): (r: Outcome)
    requires WellFormed(cs, |agents|) && t <= |orders|
    requires forall i :: 0 <= i < |orders| ==> ValidIds(orders[i], |agents|)
    ensures |r.pool| == |cs| && WellFormed(r.pool, |agents|)
    decreases |orders| - t
  {
    if t == |orders| then Running(cs)
    else
      match Sweep(agents, cs, orders[t], 0, factor)
      case Crashed(p, x) => Crashed(p, x)
      case Running(p) => Run(agents, p, orders, t + 1, factor)
  }

  /** One visit of a sweep: the sweep stops at an exception or goes on from the new pool. */
  lemma SweepVisit(agents: seq<Household>, cs: Pool, order: seq<nat>, k: nat, factor: real) returns (step: Option<Pool>)
    requires WellFormed(cs, |agents|) && ValidIds(order, |agents|) && k < |order|
    ensures order[k] < |agents| && step == Step(agents, cs, order[k], factor)
    ensures step.None? ==> Sweep(agents, cs, order, k, factor) == Crashed(cs, order[k])
    ensures step.Some? ==> Sweep(agents, cs, order, k, factor) == Sweep(agents, step.value, order, k + 1, factor)
  {
    assert order[k] in order;
    step := Step(agents, cs, order[k], factor);
  }

  lemma {:induction false} SweepPreservesPartition(agents: seq<Household>, cs: Pool, order: seq<nat>, k: nat, factor: real)
    requires IsPartition(cs, |agents|) && ValidIds(order, |agents|) && k <= |order|
    ensures IsPartition(Sweep(agents, cs, order, k, factor).pool, |agents|)
    decreases |order| - k
  {
    if k < |order| {
      var step := SweepVisit(agents, cs, order, k, factor);
      StepPreservesPartition(agents, cs, order[k], factor);
      if step.Some? {
        SweepPreservesPartition(agents, step.value, order, k + 1, factor);
      }
    }
  }

  /** simulate keeps the partition through every sweep, whatever the
      visiting orders, and also at the moment of an exception. */
  lemma {:induction false} RunPreservesPartition(agents: seq<Household>, cs: Pool, orders: seq<seq<nat>>, t: nat, factor: real)
    requires IsPartition(cs, |agents|) && t <= |orders|
    requires forall i :: 0 <= i < |orders| ==> ValidIds(orders[i], |agents|)
    ensures IsPartition(Run(agents, cs, orders, t, factor).pool, |agents|)
    decreases |orders| - t
  {
    if t < |orders| {
      SweepPreservesPartition(agents, cs, orders[t], 0, factor);
      match Sweep(agents, cs, orders[t], 0, factor)
      case Crashed(p, x) =>
      case Running(p) => RunPreservesPartition(agents, p, orders, t + 1, factor);
    }
  }

  /** A household of eagerness 0, risk 1 and exposure 0.5 sharing a
      coalition with another such household, at a factor of 4, gets
      0 - 0.75 * 4. */
  lemma CrowdedPairPayoff()
    ensures CoalitionPayoff([Household(0.0, 1.0, 0.5, 1), Household(0.0, 1.0, 0.5, 1)], 0, [0, 1], 4.0) == -3.0
  {
    var agents := [Household(0.0, 1.0, 0.5, 1), Household(0.0, 1.0, 0.5, 1)];
    PairUnion();
    PairExposures(agents, 0, 1);
    TwoHalvesExposure();
    assert Penalty(0.75, 1.0, 4.0) == 3.0;
  }

  /** The sentinel is reachable: when every coalition the household could
      join costs it more than 1, best_coalition returns -1 and the visit
      raises the exception. */
  lemma CrashExample()
    ensures Step([Household(0.0, 1.0, 0.5, 1), Household(0.0, 1.0, 0.5, 1)], [[0, 1], []], 0, 4.0).None?
  {
    var agents := [Household(0.0, 1.0, 0.5, 1), Household(0.0, 1.0, 0.5, 1)];
    var cs: Pool := [[0, 1], []];
    CrowdedPairPayoff();
    BestOfIsArgmax(agents, cs, 0, 4.0);
  }
}
