# Coalition formation in the lockdown model, in Dafny

`lockdown-model.py` simulates households that decide, sweep after sweep,
which coalition of households to join during a lockdown. Each household has
a social eagerness, a risk factor and an exposure chance. It weighs what it
gains from company against the chance that somebody in the group is
exposed. This project models the coalition-formation core of that program
and proves its properties.

- **Exposure combination** (`exposure.dfy`, module `Exposure`).
  - `overall_exposure` is the method `OverallExposure`, with both of its
    loops. The inner loop is `AddCombinationTerms`.
  - Both are proved equal to the inclusion–exclusion sum `InclusionExclusion`.
  - That sum is proved equal to `1 - Π(1 - p)`.
  - A helper, `Combinations`, enumerates subsets in the order
    `itertools.combinations` uses.
- **Households** (`households.dfy`, modules `Wrappers` and `Households`;
  `timecontext.dfy`, module `TimeContext`).
  - The traits of a household are a datatype, built by `NewHousehold`.
  - `value()` is the baseline 0.
  - `coalition_payoff` takes `decay() * infection()` as one explicit
    `factor`.
  - `infection()` is a table lookup that fails past the end of the table.
  - The set union of the members with the household itself is `Dedup`.
  - A lemma shows that the order in which the union is listed does not
    change the payoff.
- **The coalition pool as a value** (`coalitions.dfy`, module `Coalitions`).
  - Coalition `c` is the member list of the coalition whose `idnum` is `c`.
  - Households are ids: their index in the world's household list.
  - Functions state what each `World` method does to the pool: `AfterMove`,
    `OwnerOf`, `Active`/`Scan`/`BestOf`, `Step`, `Sweep`, `Run`.
  - The lemmas prove the partition invariant (every household in exactly
    one coalition, at most once) for construction, for `move_to`, for one
    visit, for one sweep and for the whole of `simulate`.
  - The lemmas prove that `best_coalition` is the earliest argmax over the
    non-empty coalitions, with the sentinel -1 when nothing pays more
    than -1.
- **The World object** (`world.dfy`, module `Worlds`).
  - A class with the households, the visiting order `agentSet`, and the pool
    as an `array<seq<nat>>` whose entries the methods update in place.
  - `MoveTo`, `CurrentCoalition`, `BestCoalition` and `Simulate` each run the
    source's loops, and each is proved to produce the pool function above.

The sentinel is part of the behaviour, not an accident of the model.
- When no non-empty coalition pays a household more than -1,
  `best_coalition` returns the integer -1.
- `simulate` then reads `.idnum` on it and raises an exception.
- The model records this as the `Crashed` outcome. The pool is left as it
  was at that moment.
- `CrashExample` exhibits a pool where it happens.
- `SoloNeverCrashes` shows that a household alone in its coalition never
  meets the sentinel.

## Model

| member | source | states |
|---|---|---|
| Exposure.OverallExposure | lockdown-model.py:21-31 | the value computed by both loops is the inclusion–exclusion sum (a single value unchanged, 0 for an empty list) and equals 1 - Π(1 - p) |
| Exposure.AddCombinationTerms | lockdown-model.py:28-29 | the inner loop adds pow(-1, i) times the product of every given combination to the running total |
| Exposure.CombinationsSum | lockdown-model.py:27-29 | the products of the k-combinations, in itertools order, add up to the sum over all k-subsets of their products |
| Exposure.CorrectionsStep | lockdown-model.py:26-29 | one pass of the outer loop adds exactly the next alternating correction term |
| Exposure.InclusionExclusionIsUnion | lockdown-model.py:21-31 | for every length, the inclusion–exclusion sum equals 1 - Π(1 - p), the probability that at least one independent exposure happens |
| Exposure.SingleExposure | lockdown-model.py:23-24 | a one-element list is returned unchanged |
| Exposure.SourceExamples | lockdown-model.py:159-160 | the two asserted examples give exactly 0.6 and 0.72 |
| Exposure.ExposureIsProbability | lockdown-model.py:21-31 | values in [0, 1] combine to a value in [0, 1] |
| Exposure.ExposureOrderIrrelevant | lockdown-model.py:21-31 | any reordering of the values gives the same combined exposure |
| TimeContext.Infection | lockdown-model.py:155-156 | the rate exists exactly for time indices inside the eight-entry table, and every rate is positive |
| TimeContext.RoundFactor | lockdown-model.py:59 | decay() * infection() exists exactly when infection() does, and is non-negative for a non-negative decay |
| TimeContext.RoundsCovered | lockdown-model.py:166-168 | every round index the driver uses has an infection rate |
| Households.NewHousehold | lockdown-model.py:39-43 | eagerness and risk are copied, the exposure chance is 1 - Π(1 - o) over the occupation values, and n counts them |
| Households.NewHouseholdExposure | lockdown-model.py:39-43 | occupation values that are probabilities give an exposure chance in [0, 1] |
| Households.Dedup | lockdown-model.py:54 | the union lists every id once and holds exactly the ids of its input |
| Households.CoalitionPayoff | lockdown-model.py:49-59 | the coalition [self] pays value(); any other pays eagerness minus (1 - Π(1 - exposure)) over the union of the members and self, times risk and factor |
| Households.SoloPayoffIsBaseline | lockdown-model.py:45-52 | a coalition holding only the household pays 0, whatever its traits |
| Households.JoinedCountsEachOnce | lockdown-model.py:54 | in the union, every member and the household itself occur exactly once, and nobody else occurs |
| Households.ExposuresPermutation | lockdown-model.py:54 | two listings of the same ids give the same exposures up to order |
| Households.PayoffOrderIrrelevant | lockdown-model.py:54-59 | whatever order the set union is listed in, the payoff is the same |
| Households.PayoffBounds | lockdown-model.py:54-59 | with probabilities, a non-negative risk and a non-negative factor, joining pays between eagerness - risk * factor and eagerness |
| Households.PairPayoffExample | lockdown-model.py:49-59 | two households of exposure 0.5, eagerness 1 and risk 1 at factor 1: joining the other pays 0.25 |
| Coalitions.Singletons | lockdown-model.py:86-87 | construction makes n coalitions, coalition i holding household i alone |
| Coalitions.SingletonsPartition | lockdown-model.py:86-87 | the constructed pool is a partition |
| Coalitions.OwnerFrom | lockdown-model.py:98-102 | the search returns the first coalition holding the household, and -1 (None) exactly when no coalition holds it |
| Coalitions.OwnerIsUnique | lockdown-model.py:98-102 | under a partition, the coalition found is the only one holding the household |
| Coalitions.Remove | lockdown-model.py:95 | list.remove drops exactly one occurrence |
| Coalitions.MovedSpec | lockdown-model.py:91-95 | the target holds the household afterwards; another coalition that held it at most once no longer does; no other household's count changes; no duplicate appears |
| Coalitions.AfterMoveAt | lockdown-model.py:89-96 | after move_to every coalition is what the loop body makes of it |
| Coalitions.MoveToPlaces | lockdown-model.py:89-96 | after move_to(a, id) household a is in coalition id and in no other |
| Coalitions.MoveToOthersUnchanged | lockdown-model.py:89-96 | every other household's membership of every coalition is unchanged, and no duplicate appears |
| Coalitions.MoveToPreservesPartition | lockdown-model.py:89-96 | move_to of a household to a coalition of the pool keeps the partition |
| Coalitions.MoveToKeepsOwners | lockdown-model.py:89-96 | after move_to, each household's owner is the coalition that holds it |
| Coalitions.MoveToIdempotent | lockdown-model.py:89-96 | a second identical move_to changes nothing |
| Coalitions.MoveToNoop | lockdown-model.py:92-95 | move_to a coalition that is already the only one holding the household changes nothing |
| Coalitions.ActiveSpec | lockdown-model.py:105-108 | the active list holds exactly the non-empty coalitions, in increasing order |
| Coalitions.ScanBounds | lockdown-model.py:109-116 | the scan keeps the sentinel exactly when no payoff exceeds -1, and its payoff bounds every candidate's |
| Coalitions.ScanWinner | lockdown-model.py:109-116 | a chosen candidate reaches the scan's payoff, and every earlier candidate pays strictly less |
| Coalitions.PayoffTableAt | lockdown-model.py:111-112 | entry c of the payoff table is the household's payoff for coalition c |
| Coalitions.ScanActiveIsArgmax | lockdown-model.py:104-118 | for any payoffs, scanning the active coalitions gives the sentinel exactly when none pays more than -1, else the earliest non-empty coalition of maximal payoff |
| Coalitions.BestOfIsArgmax | lockdown-model.py:104-118 | best_coalition is -1 exactly when every non-empty coalition pays at most -1; otherwise it is a non-empty coalition paying more than -1, at least every other one's payoff, and strictly more than every earlier one |
| Coalitions.BestOfInPool | lockdown-model.py:104-118 | a best coalition other than the sentinel is a non-empty coalition of the pool |
| Coalitions.Step | lockdown-model.py:140-143 | a visit that does not raise leaves a pool of the same size whose members are households |
| Coalitions.StepPreservesPartition | lockdown-model.py:140-143 | a visit keeps the partition |
| Coalitions.StepJoinsBest | lockdown-model.py:140-143 | under a partition a visit raises only on the sentinel; otherwise the household ends up in its best coalition and in no other, nobody else moves, and the pool changes exactly when best differs from current |
| Coalitions.SoloNeverCrashes | lockdown-model.py:104-118 | a household alone in its coalition always gets a best coalition, since its own pays 0 > -1 |
| Coalitions.Sweep | lockdown-model.py:139-145 | a sweep keeps the pool size and the member ids, and a household it stops at is one it visits |
| Coalitions.Run | lockdown-model.py:136-145 | the sweeps keep the pool size and the member ids |
| Coalitions.SweepPreservesPartition | lockdown-model.py:139-145 | a sweep keeps the partition, for any visiting order |
| Coalitions.RunPreservesPartition | lockdown-model.py:134-145 | simulate keeps the partition through every sweep, for any visiting orders, including when it stops at an exception |
| Coalitions.CrowdedPairPayoff | lockdown-model.py:49-59 | two households of exposure 0.5, eagerness 0 and risk 1 sharing a coalition at factor 4: staying pays -3 |
| Coalitions.CrashExample | lockdown-model.py:104-118 | the sentinel is reachable: in that shared coalition the visit raises |
| Worlds.Identity | lockdown-model.py:81-84 | after construction agent_set lists every household once, in creation order |
| Worlds.World.constructor | lockdown-model.py:85-87 | the pool is the singleton pool, and the world satisfies its invariant (partition, agent_set an ordering) |
| Worlds.World.MoveTo | lockdown-model.py:89-96 | the array afterwards holds the pool AfterMove gives, and the invariant is kept for a valid household and idnum |
| Worlds.World.CurrentCoalition | lockdown-model.py:98-102 | returns the first coalition holding the household, -1 for None exactly when none holds it |
| Worlds.World.ActiveCoalitions | lockdown-model.py:105-108 | collects exactly the non-empty coalitions, in pool order |
| Worlds.World.PayoffFor | lockdown-model.py:112 | the payoff computed is the table entry for that coalition |
| Worlds.World.BestCoalition | lockdown-model.py:104-118 | the scan with strict > from the sentinels returns BestOf, the earliest argmax or -1 |
| Worlds.World.Visit | lockdown-model.py:140-145 | one visit raises exactly when Step does, leaving the pool untouched, and otherwise leaves Step's pool |
| Worlds.World.VisitAll | lockdown-model.py:139-145 | one pass over agent_set leaves Sweep's pool and reports the household it stopped at |
| Worlds.World.SweepOnce | lockdown-model.py:138-145 | agent_set becomes the given visiting order, and the pass over it leaves Sweep's pool and reports the household it stopped at |
| Worlds.World.Simulate | lockdown-model.py:134-145 | the MAX_TIMESTEPS sweeps leave Run's pool, report a raising household if any, and keep the partition; agent_set ends as the last visiting order, or as the order of the sweep that raised |

## Left out

- Random population generation with `np.random.normal`, `np.random.choice` and `random.randint` (lockdown-model.py:82-84). The constructor takes the households as given.
- `random.shuffle` (lockdown-model.py:138). `Simulate` takes one visiting order per sweep, and `SweepOnce` stores it in `agentSet` as the shuffle does in place. Each order must list every household once, which is what a shuffle of `agent_set` produces.
- `decay()` (lockdown-model.py:152-153) uses `math.exp` and `math.sqrt`. Its value is a parameter of `RoundFactor`, and the payoff takes `decay() * infection()` as one `factor`. The `factor` of `Simulate` stands for `RoundFactor(decay, time).value` of the round in which it is called.
- Floating point. All arithmetic is over exact reals, so the exact asserts at lines 159-160 are proved over reals and say nothing about IEEE rounding. `list(map(float, ...))` is not modelled.
- The global `TIME` and the driver loop with its printing (lockdown-model.py:13, 164-170). Time is an explicit parameter of `Infection` and `RoundFactor`.
- The `__str__` methods (lockdown-model.py:61-62, 72-73, 120-132), which only format text.
- The `move_count` counter (lockdown-model.py:135, 145), which does not affect behaviour.
- Object identity.
  - Households are ids, their index in the household list.
  - A `Coalition` object is the pool entry whose index is its `idnum`, since the constructor creates coalition i at position i.
  - The class-level defaults of `Coalition` (lines 64-70) are not modelled separately.
- Households.CoalitionPayoff: the source multiplies `((exposure * risk) * decay) * infection`; the model writes `exposure * (risk * factor)`. Over the reals this is the same product.
- Households.Dedup: Python's set iteration order is unspecified. `Dedup` fixes one order, the first occurrences. `PayoffOrderIrrelevant` shows that every order gives the same payoff.
- The `AttributeError` that `.idnum` raises on -1 or `None` (lockdown-model.py:140-141).
  - It becomes the `Crashed` outcome, with the pool at that moment.
  - Its propagation out of `simulate` and the driver is not modelled.
- Other variants of `best_coalition` and of the exposure combination, which are not in this code:
  - a fallback to an empty or to the current coalition when the best payoff is negative;
  - an arithmetic-mean exposure.

  The model follows `lockdown-model.py:104-118` and `lockdown-model.py:21-31` as written.
