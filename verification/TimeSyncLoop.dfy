/**
 * The closed loop: the clock that the steps of a run correct is the one its evaluations see.
 * An error is the true time less what the clock shows.
 */
module TimeSyncLoop {
  import opened Words
  import opened MeshTimeSync
  import opened TimeSyncVote
  import opened TimeSyncRuns

  // How far from the truth an honest majority's consensus can lie, and how far off the clock
  // can then be in band.
  const WORST_MID := 390
  const WORST_IN_BAND := STEP_TRIGGER_SECS + WORST_MID - 1

  predicate Evaluates(p: Policy, e: Event) {
    e.RunTick? && 0 < p.nextEval <= e.up
  }

  /** What an event adds to the clock. */
  function AppliedStep(s: TimeSyncState, e: Event): int {
    if !e.RunTick? then 0
    else
      var t := Ticked(s, e.local, e.up);
      if Applies(t.policy, t.verdict, e.local) then t.verdict.delta else 0
  }

  /** Quorum, and more than half of the eligible senders within their radius of the true offset. */
  ghost predicate HonestMajority(s: TimeSyncState, local: u32, up: u32, error: int) {
    var eligible := CountEligible(s.slots, up, false);
    s.policy.quorum <= eligible < 2 * CountAgreeing(s.slots, local, up, false, error)
  }

  /** The clock shows the true time less the error, which steps take off and a trusted sync does not make worse. */
  ghost predicate LoopGoes(s: TimeSyncState, e: Event, start: int, error: int, error': int) {
    && (e.RunTick? ==> e.local == start + e.up - error)
    && (Evaluates(s.policy, e) ==> s.policy.buildEpoch <= e.local && HonestMajority(s, e.local, e.up, error))
    && if e.TrustedSync? then Abs(error') <= Abs(error) else error' == error - AppliedStep(s, e)
  }

  /** A run whose clock keeps the true rate between steps; start is the true time at uptime 0. */
  ghost predicate IsLoop(states: seq<TimeSyncState>, events: seq<Event>, start: int, errors: seq<int>) {
    && IsRun(states, events) && |errors| == |states| == |events| + 1
    && forall k :: 0 <= k < |events| ==> LoopGoes(states[k], events[k], start, errors[k], errors[k + 1])
  }

  /** How many steps were applied from the a-th event to the b-th. */
  function Steps(states: seq<TimeSyncState>, events: seq<Event>, a: nat, b: nat): nat
    requires a <= b <= |events| < |states|
    decreases b
  {
    if a == b then 0
    else Steps(states, events, a, b - 1) + if AppliedStep(states[b - 1], events[b - 1]) != 0 then 1 else 0
  }

  /** Nothing but the band keeps this evaluation from a step towards the truth. */
  predicate GatesOpen(p: Policy, local: u32, up: u32, error: int) {
    && !IsSuppressed(p, up) && !IsRateLimited(p, up)
    && (p.pedigree ==> Abs(error) + WORST_MID <= Envelope(p, up))
    && (p.forwardOnly ==> 0 <= error)
    && STEP_CAP_SECS < local < U32_RANGE - STEP_CAP_SECS
  }

  predicate OpenEval(s: TimeSyncState, e: Event, error: int) {
    Evaluates(s.policy, e) && GatesOpen(s.policy, e.local, e.up, error)
  }

  function OpenEvals(states: seq<TimeSyncState>, events: seq<Event>, errors: seq<int>, a: nat, b: nat): nat
    requires a <= b <= |events| < |states| == |errors|
    decreases b
  {
    if a == b then 0
    else OpenEvals(states, events, errors, a, b - 1) + if OpenEval(states[b - 1], events[b - 1], errors[b - 1]) then 1 else 0
  }

  /** A step brings the clock within reach of the truth or takes off a whole hour; a gate that is open lets it through. */
  lemma {:induction false} StepHelps(s: TimeSyncState, e: Event, error: int)
    requires TableOk(s.slots) && e.RunTick? && Evaluates(s.policy, e)
    requires s.policy.buildEpoch <= e.local && HonestMajority(s, e.local, e.up, error)
    ensures var step := AppliedStep(s, e);
            && (step != 0 ==> Abs(error - step) <= WORST_MID || Abs(error - step) == Abs(error) - STEP_CAP_SECS)
            && (step == 0 && GatesOpen(s.policy, e.local, e.up, error) ==> Abs(error) <= WORST_IN_BAND)
  {
    hide TableOk, Votes, ConsensusOf, CountEligible, CountAgreeing, Envelope, IsSuppressed, IsRateLimited;
    HonestMajorityStep(s.policy, s.slots, e.local, e.up, error);
    HonestMajorityBound(s.slots, e.local, e.up, false, error);
    assert Ticked(s, e.local, e.up).verdict == Evaluate(s.policy, s.slots, e.local, e.up);
  }

  lemma {:induction false} OtherwiseNoStep(s: TimeSyncState, e: Event)
    requires !Evaluates(s.policy, e)
    ensures AppliedStep(s, e) == 0
  {
    hide Evaluate;
  }

  lemma {:induction false} RunUpTo(states: seq<TimeSyncState>, events: seq<Event>, k: nat)
    requires IsRun(states, events) && k <= |events|
    ensures |states| == |events| + 1 && IsRun(states[..k + 1], events[..k])
  {
    hide Next, Initial;
  }

  lemma {:induction false} TableStaysOk(states: seq<TimeSyncState>, events: seq<Event>, k: nat)
    requires IsRun(states, events) && k <= |events|
    ensures |states| == |events| + 1 && TableOk(states[k].slots)
  {
    hide IsRun, TableOk;
    RunUpTo(states, events, k);
    RunsKeepTable(states[..k + 1], events[..k]);
  }

  /** What one event of a loop does to the error. */
  lemma {:induction false} LoopStep(states: seq<TimeSyncState>, events: seq<Event>, start: int, errors: seq<int>, k: nat)
    requires IsLoop(states, events, start, errors) && k < |events|
    ensures k + 1 < |states| == |errors|
    ensures if AppliedStep(states[k], events[k]) != 0
            then Abs(errors[k + 1]) <= Max(WORST_MID, Abs(errors[k]) - STEP_CAP_SECS)
            else Abs(errors[k + 1]) <= Abs(errors[k]) && (OpenEval(states[k], events[k], errors[k]) ==> Abs(errors[k]) <= WORST_IN_BAND)
  {
    hide IsRun, AppliedStep, HonestMajority, GatesOpen, TableOk;
    var s, e := states[k], events[k];
    TableStaysOk(states, events, k);
    assert LoopGoes(s, e, start, errors[k], errors[k + 1]);
    if Evaluates(s.policy, e) {
      StepHelps(s, e, errors[k]);
    } else {
      OtherwiseNoStep(s, e);
    }
  }

  lemma {:induction false} LoopLength(states: seq<TimeSyncState>, events: seq<Event>, start: int, errors: seq<int>)
    requires IsLoop(states, events, start, errors)
    ensures |errors| == |states| == |events| + 1
  {
    hide IsRun, LoopGoes;
  }

  /**
   * In every run with an honest majority at its evaluations, whoever the voters are at each: the
   * error falls by an hour a step until it is within 390 s, and no step takes it out of that again.
   */
  lemma {:induction false} EveryStepHelps(states: seq<TimeSyncState>, events: seq<Event>, start: int, errors: seq<int>, a: nat, b: nat)
    requires IsLoop(states, events, start, errors) && a <= b <= |events|
    ensures |errors| == |states| == |events| + 1
    ensures Abs(errors[b]) <= Max(Abs(errors[a]), WORST_MID)
    ensures 0 < Steps(states, events, a, b) ==>
              Abs(errors[b]) <= Max(WORST_MID, Abs(errors[a]) - STEP_CAP_SECS * Steps(states, events, a, b))
    decreases b
  {
    hide IsLoop, AppliedStep;
    LoopLength(states, events, start, errors);
    if a < b {
      EveryStepHelps(states, events, start, errors, a, b - 1);
      LoopStep(states, events, start, errors, b - 1);
    }
  }

  /**
   * Every evaluation that no gate holds back either steps or shows the clock in band: after enough
   * of them the clock is and stays less than 990 s off.
   */
  lemma {:induction false} ErrorSettles(states: seq<TimeSyncState>, events: seq<Event>, start: int, errors: seq<int>, a: nat, b: nat)
    requires IsLoop(states, events, start, errors) && a <= b <= |events|
    ensures |errors| == |states| == |events| + 1
    ensures Abs(errors[b]) <= Max(WORST_IN_BAND, Abs(errors[a]) - STEP_CAP_SECS * OpenEvals(states, events, errors, a, b))
    decreases b
  {
    hide IsLoop, AppliedStep, OpenEval;
    LoopLength(states, events, start, errors);
    if a < b {
      ErrorSettles(states, events, start, errors, a, b - 1);
      LoopStep(states, events, start, errors, b - 1);
    }
  }
}
