/** The time context of a round: the infection-rate table the payoff reads. */
module TimeContext {
  import opened Wrappers

  /** Sweeps per call of World.simulate. */
  const MaxTimesteps: nat := 10
  /** Number of rounds the driver runs, one time index each. */
  const Rounds: nat := 8
  /** Per-round infection multipliers. */
  const InfectionRates: seq<real> := [0.9, 1.0, 1.5, 2.0, 4.0, 1.2, 1.1, 2.0]

  /** infection(): the rate of the given round; a time index past the table is an IndexError. */
  function Infection(time: nat): (r: Option<real>)
    ensures r.Some? <==> time < |InfectionRates|
    ensures r.Some? ==> r.value > 0.0
  {
    if time < |InfectionRates| then Some(InfectionRates[time]) else None
  }

  /** decay() * infection(): the multiplier of the exposure penalty in round `time`,
      given the decay value of that round. */
  function RoundFactor(decay: real, time: nat): (r: Option<real>)
    ensures r.Some? <==> time < |InfectionRates|
    ensures r.Some? && decay >= 0.0 ==> r.value >= 0.0
  {
    match Infection(time)
    case None => None
    case Some(rate) => Some(decay * rate)
  }

  /** Every round the driver runs has an infection rate. */
  lemma RoundsCovered(time: nat)
    requires time < Rounds
    ensures Infection(time).Some?
  {
  }
}
