/**
 * The mesh clock consensus: the table of signed clock samples, the vote over
 * them, and the policy that decides whether the local clock is stepped.
 */
module MeshTimeSync {
  import opened Words
  import opened Marzullo

  const HOP_CAP := 3
  const RADIUS_BASE_SECS := 150
  const RADIUS_PER_HOP_SECS := 15
  const TENURE_SECS := 3600
  const TENURE_MIN_ADVERTS := 2
  const MAX_SAMPLE_AGE_SECS := 5 * 24 * 3600
  const MATURE_SILENT_EVICT_SECS := 24 * 3600
  const CONSISTENCY_BASE_SECS := 45
  const CONSISTENCY_PPM := 150
  const EVAL_INTERVAL_SECS := 15 * 60
  const STEP_TRIGGER_SECS := 10 * 60
  const STEP_CAP_SECS := 3600
  const STEP_INTERVAL_SECS := 6 * 3600
  const SUPPRESS_SECS := 7 * 24 * 3600
  const PEDIGREE_PPM := 300
  const PEDIGREE_BASE_SECS := 10 * 60
  const BOOTSTRAP_QUORUM := 3

  type Prefix = seq<u8>

  datatype Slot = Slot(
    prefix: Prefix,
    advertTs: u32,
    arrivalUptime: u32,
    firstUptime: u32,
    count: u16,
    hops: u8,
    used: bool)

  const EMPTY_SLOT := Slot([], 0, 0, 0, 0, 0, false)

  // ---- Reading one slot ----------------------------------------------------

  predicate SlotTenured(s: Slot, up: u32) {
    Sub32(up, s.firstUptime) >= TENURE_SECS && s.count >= TENURE_MIN_ADVERTS
  }

  predicate SlotEligible(s: Slot, up: u32, bootstrap: bool) {
    s.used && Sub32(up, s.arrivalUptime) <= MAX_SAMPLE_AGE_SECS && (bootstrap || SlotTenured(s, up))
  }

  function SlotSkew(s: Slot, local: u32, up: u32): int {
    s.advertTs + Sub32(up, s.arrivalUptime) - local
  }

  function SlotRadius(s: Slot): nat {
    RADIUS_BASE_SECS + RADIUS_PER_HOP_SECS * s.hops
  }

  function SlotVote(s: Slot, local: u32, up: u32): Interval {
    var skew := SlotSkew(s, local, up);
    Interval(skew - SlotRadius(s), skew + SlotRadius(s))
  }

  /** The votes of the eligible slots, in table order. */
  function Votes(slots: seq<Slot>, local: u32, up: u32, bootstrap: bool): (votes: seq<Interval>)
    ensures Proper(votes)
    ensures |votes| <= |slots|
  {
    if slots == [] then []
    else
      var front, s := Votes(slots[..|slots| - 1], local, up, bootstrap), slots[|slots| - 1];
      if SlotEligible(s, up, bootstrap) then front + [SlotVote(s, local, up)] else front
  }

  lemma {:induction false} VotesAppend(slots: seq<Slot>, i: nat, local: u32, up: u32, bootstrap: bool)
    requires i < |slots|
    ensures Votes(slots[..i + 1], local, up, bootstrap) ==
            if SlotEligible(slots[i], up, bootstrap) then Votes(slots[..i], local, up, bootstrap) + [SlotVote(slots[i], local, up)]
            else Votes(slots[..i], local, up, bootstrap)
  {
    assert slots[..i + 1][..i] == slots[..i];
  }

  // ---- The consensus -------------------------------------------------------

  datatype Consensus = Consensus(
    valid: bool,
    eligible: nat,
    votesFor: nat,
    votesAgainst: nat,
    mid: int,
    radius: int)

  function ConsensusOf(votes: seq<Interval>): Consensus
    requires Proper(votes)
  {
    if votes == [] then Consensus(false, 0, 0, 0, 0, 0)
    else
      IntersectIsDeepest(votes);
      var o := Intersect(votes);
      Consensus(true, |votes|, o.count, |votes| - o.count, HalfTowardZero(o.lo + o.hi), (o.hi - o.lo) / 2)
  }

  // ---- The policy ----------------------------------------------------------

  datatype VerdictKind = NoVerdict | Abstain | Step
  datatype Reason = NoReason | InBand | NoData | NoQuorum | NoMajority | Suppressed | RateLimited | PedigreeVeto

  datatype Verdict = Verdict(kind: VerdictKind, reason: Reason, delta: int, bootstrap: bool, consensus: Consensus)

  datatype Policy = Policy(
    buildEpoch: u32,
    forwardOnly: bool,
    quorum: nat,
    nextEval: u32,
    suppressUptime: u32,
    suppressed: bool,
    pedigreeUptime: u32,
    pedigree: bool,
    lastStepUptime: u32,
    steppedOnce: bool,
    lastStepDelta: int)

  predicate IsSuppressed(p: Policy, up: u32) {
    p.suppressed && Sub32(up, p.suppressUptime) < SUPPRESS_SECS
  }

  predicate IsRateLimited(p: Policy, up: u32) {
    p.steppedOnce && Sub32(up, p.lastStepUptime) < STEP_INTERVAL_SECS
  }

  function Envelope(p: Policy, up: u32): nat {
    Sub32(up, p.pedigreeUptime) * PEDIGREE_PPM / 1_000_000 + PEDIGREE_BASE_SECS
  }

  function Capped(mid: int): int {
    if mid > STEP_CAP_SECS then STEP_CAP_SECS
    else if mid < -STEP_CAP_SECS then -STEP_CAP_SECS
    else mid
  }

  /** The policy's decision once the votes are counted. */
  function Decide(p: Policy, c: Consensus, bootstrap: bool, up: u32): Verdict {
    if !c.valid then Verdict(Abstain, NoData, 0, bootstrap, c)
    else if bootstrap then
      if c.votesFor < BOOTSTRAP_QUORUM then Verdict(Abstain, NoQuorum, 0, bootstrap, c)
      else
        var delta := c.mid - RADIUS_BASE_SECS;
        if delta < STEP_TRIGGER_SECS then Verdict(NoVerdict, InBand, 0, bootstrap, c)
        else if IsSuppressed(p, up) then Verdict(NoVerdict, Suppressed, 0, bootstrap, c)
        else if IsRateLimited(p, up) then Verdict(NoVerdict, RateLimited, 0, bootstrap, c)
        else Verdict(Step, NoReason, delta, bootstrap, c)
    else if c.eligible < p.quorum then Verdict(Abstain, NoQuorum, 0, bootstrap, c)
    else if c.votesFor * 2 <= c.eligible then Verdict(Abstain, NoMajority, 0, bootstrap, c)
    else if Abs(c.mid) < STEP_TRIGGER_SECS then Verdict(NoVerdict, InBand, 0, bootstrap, c)
    else if IsSuppressed(p, up) then Verdict(NoVerdict, Suppressed, 0, bootstrap, c)
    else if IsRateLimited(p, up) then Verdict(NoVerdict, RateLimited, 0, bootstrap, c)
    else if p.pedigree && Abs(c.mid) > Envelope(p, up) then Verdict(Abstain, PedigreeVeto, 0, bootstrap, c)
    else Verdict(Step, NoReason, Capped(c.mid), bootstrap, c)
  }

  function Evaluate(p: Policy, slots: seq<Slot>, local: u32, up: u32): Verdict {
    var bootstrap := local < p.buildEpoch;
    Decide(p, ConsensusOf(Votes(slots, local, up, bootstrap)), bootstrap, up)
  }

  // ---- Hearing an advert ---------------------------------------------------

  /** First slot held by the sender, or |slots|. */
  function FindSlot(slots: seq<Slot>, prefix: Prefix): (i: nat)
    ensures i <= |slots|
    ensures i < |slots| ==> slots[i].used && slots[i].prefix == prefix
    ensures forall k :: 0 <= k < i ==> !(slots[k].used && slots[k].prefix == prefix)
  {
    if slots == [] then 0
    else
      var i := FindSlot(slots[..|slots| - 1], prefix);
      if i < |slots| - 1 || (slots[i].used && slots[i].prefix == prefix) then i else |slots|
  }

  /** First unused slot, or |slots|. */
  function FirstFree(slots: seq<Slot>): (i: nat)
    ensures i <= |slots|
    ensures i < |slots| ==> !slots[i].used
    ensures forall k :: 0 <= k < i ==> slots[k].used
  {
    if slots == [] then 0
    else
      var i := FirstFree(slots[..|slots| - 1]);
      if i < |slots| - 1 || !slots[i].used then i else |slots|
  }

  predicate Silent(s: Slot, up: u32) {
    Sub32(up, s.arrivalUptime) > MATURE_SILENT_EVICT_SECS
  }

  /** A newcomer at the given distance may take this slot. */
  predicate Displaceable(s: Slot, hops: u8, up: u32) {
    (!SlotTenured(s, up) || Silent(s, up)) && s.hops > hops
  }

  /** Evict farthest first, then lowest count, then stalest. */
  predicate EvictBefore(c: Slot, s: Slot) {
    || c.hops > s.hops
    || (c.hops == s.hops && c.count < s.count)
    || (c.hops == s.hops && c.count == s.count && c.arrivalUptime < s.arrivalUptime)
  }

  /** The slot the eviction scan settles on, or |slots| when every slot is protected. */
  ghost predicate IsVictim(slots: seq<Slot>, hops: u8, up: u32, v: nat) {
    if v < |slots| then
      && Displaceable(slots[v], hops, up)
      && (forall k :: 0 <= k < |slots| && Displaceable(slots[k], hops, up) ==> !EvictBefore(slots[k], slots[v]))
      && (forall k :: 0 <= k < v && Displaceable(slots[k], hops, up) ==> EvictBefore(slots[v], slots[k]))
    else
      v == |slots| && forall k :: 0 <= k < |slots| ==> !Displaceable(slots[k], hops, up)
  }

  predicate Consistent(s: Slot, ts: u32, up: u32) {
    var elapsed := Sub32(up, s.arrivalUptime);
    var err := Sub32(ts, s.advertTs) - elapsed;
    var tol := CONSISTENCY_BASE_SECS + elapsed * CONSISTENCY_PPM / 1_000_000;
    -tol <= err <= tol
  }

  /** A known sender's slot after a newer advert: tenure restarts if its clock jumped. */
  function Refreshed(s: Slot, ts: u32, hops: u8, up: u32): Slot {
    var t := if Consistent(s, ts, up)
             then (if s.count < 0xFFFF then s.(count := s.count + 1) else s)
             else s.(firstUptime := up, count := 1);
    t.(advertTs := ts, arrivalUptime := up, hops := hops)
  }

  function Admitted(prefix: Prefix, ts: u32, hops: u8, up: u32): Slot {
    Slot(prefix, ts, up, up, 1, hops, true)
  }

  /** How the table may change when an advert is heard. */
  ghost predicate HeardAdvert(before: seq<Slot>, prefix: Prefix, ts: u32, hops: u8, up: u32, after: seq<Slot>) {
    var known, free := FindSlot(before, prefix), FirstFree(before);
    if hops > HOP_CAP then after == before
    else if known < |before| then
      if ts <= before[known].advertTs then after == before
      else after == before[known := Refreshed(before[known], ts, hops, up)]
    else if free < |before| then after == before[free := Admitted(prefix, ts, hops, up)]
    else
      exists v: nat :: IsVictim(before, hops, up, v)
             && after == if v < |before| then before[v := Admitted(prefix, ts, hops, up)] else before
  }

  /** What every advert keeps true of the table. */
  ghost predicate TableOk(slots: seq<Slot>) {
    && (forall i :: 0 <= i < |slots| ==> slots[i].hops <= HOP_CAP)
    && (forall i, j :: 0 <= i < j < |slots| && slots[i].used && slots[j].used ==> slots[i].prefix != slots[j].prefix)
  }

  // ---- The object ------------------------------------------------------------

  class RTCClock {
    var now: u32

    constructor (t: u32)
      ensures now == t
    {
      now := t;
    }
  }

  datatype TimeSyncState = TimeSyncState(slots: seq<Slot>, policy: Policy)

  datatype TickResult = TickResult(verdict: Verdict, policy: Policy)

  const QUIET := Verdict(NoVerdict, NoReason, 0, false, Consensus(false, 0, 0, 0, 0, 0))

  /** The paced evaluation: the first call only arms the timer, later calls wait for it. */
  function Ticked(s: TimeSyncState, local: u32, up: u32): TickResult {
    var p := s.policy;
    if p.nextEval == 0 then TickResult(QUIET, p.(nextEval := Add32(up, EVAL_INTERVAL_SECS)))
    else if up < p.nextEval then TickResult(QUIET, p)
    else TickResult(Evaluate(p, s.slots, local, up), p.(nextEval := Add32(up, EVAL_INTERVAL_SECS)))
  }

  /** Whether a verdict leads to a clock write, given the role and the clock's range. */
  predicate Applies(p: Policy, v: Verdict, local: u32) {
    && v.kind == Step
    && !(p.forwardOnly && v.delta < 0)
    && 0 < local + v.delta < U32_RANGE
  }

  class MeshTimeSync {
    const slots: array<Slot>
    const buildEpoch: u32
    const forwardOnly: bool
    const quorum: nat
    var nextEvalUptime: u32
    var suppressUptime: u32
    var suppressed: bool
    var pedigreeUptime: u32
    var pedigree: bool
    var lastStepUptime: u32
    var steppedOnce: bool
    var lastStepDelta: int
    var evals: u32
    var abstains: u32
    var steps: u32
    var bootstrapSteps: u32
    var backwardSkips: u32

    ghost predicate Valid()
      reads this, slots
    {
      8 <= slots.Length <= 64 && 3 <= quorum <= 32 && TableOk(slots[..])
    }

    ghost function ThePolicy(): Policy
      reads this
    {
      Policy(buildEpoch, forwardOnly, quorum, nextEvalUptime, suppressUptime, suppressed,
             pedigreeUptime, pedigree, lastStepUptime, steppedOnce, lastStepDelta)
    }

    ghost function State(): TimeSyncState
      reads this, slots
    {
      TimeSyncState(slots[..], ThePolicy())
    }

    constructor (tableSize: nat, quorum: nat, buildEpoch: u32, forwardOnly: bool)
      requires 8 <= tableSize <= 64 && 3 <= quorum <= 32
      ensures Valid() && fresh(slots)
      ensures slots[..] == seq(tableSize, _ => EMPTY_SLOT)
      ensures ThePolicy() == Policy(buildEpoch, forwardOnly, quorum, 0, 0, false, 0, false, 0, false, 0)
    {
      slots := new Slot[tableSize](_ => EMPTY_SLOT);
      this.buildEpoch, this.forwardOnly, this.quorum := buildEpoch, forwardOnly, quorum;
      nextEvalUptime, suppressUptime, suppressed := 0, 0, false;
      pedigreeUptime, pedigree := 0, false;
      lastStepUptime, steppedOnce, lastStepDelta := 0, false, 0;
      evals, abstains, steps, bootstrapSteps, backwardSkips := 0, 0, 0, 0, 0;
    }

    method OnAdvertHeard(prefix: Prefix, ts: u32, hops: u8, up: u32)
      requires Valid()
      modifies slots
      ensures Valid()
      ensures HeardAdvert(old(slots[..]), prefix, ts, hops, up, slots[..])
    {
      if hops > HOP_CAP { return; }
      var n := slots.Length;
      var i := 0;
      while i < n && !(slots[i].used && slots[i].prefix == prefix)
        invariant i <= n
        invariant forall k :: 0 <= k < i ==> !(slots[k].used && slots[k].prefix == prefix)
      {
        i := i + 1;
      }
      ghost var was := slots[..];
      assert FindSlot(was, prefix) == i;
      if i < n {
        if slots[i].advertTs < ts {
          slots[i] := Refreshed(slots[i], ts, hops, up);
          assert slots[..] == was[i := Refreshed(was[i], ts, hops, up)];
        }
        return;
      }
      i := 0;
      while i < n && slots[i].used
        invariant i <= n
        invariant forall k :: 0 <= k < i ==> slots[k].used
      {
        i := i + 1;
      }
      assert FirstFree(was) == i;
      if i == n {
        i := FindVictim(hops, up);
        if i == n { return; }
      }
      slots[i] := Admitted(prefix, ts, hops, up);
      assert slots[..] == was[i := Admitted(prefix, ts, hops, up)];
    }

    method FindVictim(hops: u8, up: u32) returns (v: nat)
      ensures IsVictim(slots[..], hops, up, v)
    {
      v := slots.Length;
      for i := 0 to slots.Length
        invariant v == slots.Length ==> forall k :: 0 <= k < i ==> !Displaceable(slots[k], hops, up)
        invariant v != slots.Length ==>
                    && v < i
                    && Displaceable(slots[v], hops, up)
                    && (forall k :: 0 <= k < i && Displaceable(slots[k], hops, up) ==> !EvictBefore(slots[k], slots[v]))
                    && (forall k :: 0 <= k < v && Displaceable(slots[k], hops, up) ==> EvictBefore(slots[v], slots[k]))
      {
        if Displaceable(slots[i], hops, up) && (v == slots.Length || EvictBefore(slots[i], slots[v])) {
          v := i;
        }
      }
    }

    method ComputeConsensus(local: u32, up: u32, bootstrap: bool) returns (c: Consensus)
      requires Valid()
      ensures c == ConsensusOf(Votes(slots[..], local, up, bootstrap))
    {
      var val, typ := new int[2 * slots.Length], new int[2 * slots.Length];
      ghost var votes := Votes(slots[..], local, up, bootstrap);
      var n := CollectVotes(local, up, bootstrap, val, typ);
      if n == 0 {
        return Consensus(false, 0, 0, 0, 0, 0);
      }
      SortEndpoints(val, typ, 2 * n, Endpoints(votes));
      var best, lo, hi := Sweep(val, typ, 2 * n, votes);
      c := Consensus(true, n, best, n - best, HalfTowardZero(lo + hi), (hi - lo) / 2);
    }

    /** Writes the endpoints of every eligible vote to the front of the two arrays. */
    method CollectVotes(local: u32, up: u32, bootstrap: bool, val: array<int>, typ: array<int>) returns (n: nat)
      requires val != typ && val.Length == typ.Length == 2 * slots.Length
      modifies val, typ
      ensures slots[..] == old(slots[..])
      ensures var votes := Votes(slots[..], local, up, bootstrap);
              n == |votes| && Holds(val, typ, Endpoints(votes))
    {
      hide SlotEligible, SlotVote, Votes, Endpoints, Holds;
      n := 0;
      ghost var all := slots[..];
      assert all[..0] == [];
      HoldsNothing(val, typ, local, up, bootstrap);
      for i := 0 to slots.Length
        invariant forall k :: 0 <= k < slots.Length ==> slots[k] == all[k]
        invariant n == |Votes(all[..i], local, up, bootstrap)| <= i
        invariant Holds(val, typ, Endpoints(Votes(all[..i], local, up, bootstrap)))
      {
        VotesAppend(all, i, local, up, bootstrap);
        n := CollectSlot(slots[i], local, up, bootstrap, val, typ, n, Votes(all[..i], local, up, bootstrap));
      }
      assert all[..slots.Length] == all && slots[..] == all;
    }

    method EvaluateNow(local: u32, up: u32) returns (v: Verdict)
      requires Valid()
      ensures v == Evaluate(ThePolicy(), slots[..], local, up)
    {
      var bootstrap := local < buildEpoch;
      var c := ComputeConsensus(local, up, bootstrap);
      v := Decide(Policy(buildEpoch, forwardOnly, quorum, nextEvalUptime, suppressUptime, suppressed,
                         pedigreeUptime, pedigree, lastStepUptime, steppedOnce, lastStepDelta), c, bootstrap, up);
    }

    method Tick(local: u32, up: u32) returns (v: Verdict)
      requires Valid()
      modifies this`nextEvalUptime, this`evals, this`abstains
      ensures Valid()
      ensures TickResult(v, ThePolicy()) == Ticked(old(State()), local, up)
      ensures evals == if old(nextEvalUptime) == 0 || up < old(nextEvalUptime) then old(evals) else Add32(old(evals), 1)
      ensures abstains == if v.kind == Abstain then Add32(old(abstains), 1) else old(abstains)
    {
      if nextEvalUptime == 0 || up < nextEvalUptime {
        if nextEvalUptime == 0 {
          nextEvalUptime := Add32(up, EVAL_INTERVAL_SECS);
        }
        return QUIET;
      }
      v := EvaluateNow(local, up);
      nextEvalUptime := Add32(up, EVAL_INTERVAL_SECS);
      evals := Add32(evals, 1);
      if v.kind == Abstain {
        abstains := Add32(abstains, 1);
      }
    }

    method RunTick(rtc: RTCClock, up: u32) returns (stepped: bool)
      requires Valid()
      modifies this, rtc
      ensures Valid() && slots[..] == old(slots[..])
      ensures var t := Ticked(old(State()), old(rtc.now), up);
              && stepped == Applies(t.policy, t.verdict, old(rtc.now))
              && rtc.now == old(rtc.now) + (if stepped then t.verdict.delta else 0)
              && ThePolicy() == if stepped then StepNoted(t.policy, t.verdict.delta, up) else t.policy
      ensures stepped ==> lastStepDelta == rtc.now - old(rtc.now)
      ensures var v := Ticked(old(State()), old(rtc.now), up).verdict;
              && steps == (if stepped then Add32(old(steps), 1) else old(steps))
              && bootstrapSteps == (if stepped && v.bootstrap then Add32(old(bootstrapSteps), 1) else old(bootstrapSteps))
              && backwardSkips == if v.kind == Step && forwardOnly && v.delta < 0 then Add32(old(backwardSkips), 1) else old(backwardSkips)
    {
      var now := rtc.now;
      var v := Tick(now, up);
      if v.kind != Step {
        return false;
      }
      if forwardOnly && v.delta < 0 {
        backwardSkips := Add32(backwardSkips, 1);
        return false;
      }
      var nt := now + v.delta;
      if nt <= 0 || nt >= U32_RANGE {
        return false;
      }
      rtc.now := nt;
      NoteStepApplied(v.delta, up, v.bootstrap);
      return true;
    }

    method NoteStepApplied(delta: int, up: u32, bootstrap: bool)
      modifies this`lastStepUptime, this`steppedOnce, this`lastStepDelta, this`steps, this`bootstrapSteps
      ensures ThePolicy() == StepNoted(old(ThePolicy()), delta, up)
      ensures steps == Add32(old(steps), 1)
      ensures bootstrapSteps == if bootstrap then Add32(old(bootstrapSteps), 1) else old(bootstrapSteps)
    {
      lastStepUptime := up;
      steppedOnce := true;
      steps := Add32(steps, 1);
      if bootstrap {
        bootstrapSteps := Add32(bootstrapSteps, 1);
      }
      lastStepDelta := delta;
    }

    /** A manual or GPS clock set: both arm the hold and the drift envelope alike. */
    method NoteTrustedSync(up: u32)
      modifies this
      ensures ThePolicy() == SyncNoted(old(ThePolicy()), up)
    {
      suppressUptime := up;
      suppressed := true;
      pedigreeUptime := up;
      pedigree := true;
    }

    /** Milliseconds until Tick would next evaluate; 0 when it would act now. */
    function MsUntilNextEval(up: u32): u32
      reads this
    {
      EvalWait(nextEvalUptime, up)
    }
  }

  function EvalWait(nextEval: u32, up: u32): u32 {
    if nextEval == 0 || up >= nextEval then 0
    else (nextEval - up) * 1000 % U32_RANGE
  }

  function StepNoted(p: Policy, delta: int, up: u32): Policy {
    p.(lastStepUptime := up, steppedOnce := true, lastStepDelta := delta)
  }

  function SyncNoted(p: Policy, up: u32): Policy {
    p.(suppressUptime := up, suppressed := true, pedigreeUptime := up, pedigree := true)
  }

  // ---- The endpoint arrays ---------------------------------------------------

  /** The front of the two parallel arrays, read as one list of endpoints. */
  ghost predicate Holds(val: array<int>, typ: array<int>, es: seq<Endpoint>)
    reads val, typ
  {
    && |es| <= val.Length && |es| <= typ.Length
    && forall k :: 0 <= k < |es| ==> val[k] == es[k].val && typ[k] == es[k].typ
  }

  lemma {:induction false} HoldsNothing(val: array<int>, typ: array<int>, local: u32, up: u32, bootstrap: bool)
    ensures Votes([], local, up, bootstrap) == [] && Holds(val, typ, Endpoints([]))
  {
  }

  method CollectSlot(s: Slot, local: u32, up: u32, bootstrap: bool, val: array<int>, typ: array<int>, n: nat, ghost votes: seq<Interval>)
    returns (n': nat)
    requires val != typ && n == |votes| && 2 * n + 2 <= val.Length && 2 * n + 2 <= typ.Length
    requires Holds(val, typ, Endpoints(votes))
    modifies val, typ
    ensures if SlotEligible(s, up, bootstrap) then n' == n + 1 && Holds(val, typ, Endpoints(votes + [SlotVote(s, local, up)]))
            else n' == n && Holds(val, typ, Endpoints(votes))
  {
    hide Holds, Endpoints;
    n' := n;
    if SlotEligible(s, up, bootstrap) {
      var skew := SlotSkew(s, local, up);
      var r := RADIUS_BASE_SECS + RADIUS_PER_HOP_SECS * s.hops;
      AppendVote(val, typ, 2 * n, skew, r, votes);
      n' := n + 1;
    }
  }

  method AppendVote(val: array<int>, typ: array<int>, m: nat, skew: int, r: nat, ghost votes: seq<Interval>)
    requires val != typ && m == 2 * |votes| && m + 2 <= val.Length && m + 2 <= typ.Length
    requires Holds(val, typ, Endpoints(votes))
    modifies val, typ
    ensures Holds(val, typ, Endpoints(votes + [Interval(skew - r, skew + r)]))
  {
    assert (votes + [Interval(skew - r, skew + r)])[..|votes|] == votes;
    val[m], typ[m] := skew - r, 1;
    val[m + 1], typ[m + 1] := skew + r, -1;
  }

  /** The in-place insertion sort over both arrays. */
  method SortEndpoints(val: array<int>, typ: array<int>, m: nat, ghost es: seq<Endpoint>)
    requires val != typ && |es| == m && Holds(val, typ, es)
    modifies val, typ
    ensures Holds(val, typ, Sort(es))
  {
    var i := 0;
    assert Partly(es, 0) == es && es[..m] == es && Partly(es, m) == Sort(es);
    hide Sort, Insert, Holds, Partly;
    while i < m
      invariant 0 <= i <= m
      invariant Holds(val, typ, Partly(es, i))
    {
      SortStep(es, i);
      InsertEndpoint(val, typ, i, Partly(es, i));
      i := i + 1;
    }
  }

  /** The first i endpoints sorted, the others as they were. */
  function Partly(es: seq<Endpoint>, i: nat): (r: seq<Endpoint>)
    requires i <= |es|
    ensures |r| == |es|
  {
    Sort(es[..i]) + es[i..]
  }

  lemma {:induction false} SortStep(es: seq<Endpoint>, i: nat)
    requires i < |es|
    ensures Insert(Partly(es, i)[..i], Partly(es, i)[i]) + Partly(es, i)[i + 1..] == Partly(es, i + 1)
  {
    assert es[..i + 1][..i] == es[..i];
    hide Insert;
    var cur := Partly(es, i);
    assert cur[..i] == Sort(es[..i]) && cur[i] == es[i] && cur[i + 1..] == es[i + 1..];
  }

  /** One round of the sort: shift the greater endpoints up and drop entry i into the gap. */
  method InsertEndpoint(val: array<int>, typ: array<int>, i: nat, ghost es: seq<Endpoint>)
    requires val != typ && i < |es| && Holds(val, typ, es)
    modifies val, typ
    ensures Holds(val, typ, Insert(es[..i], es[i]) + es[i + 1..])
  {
    hide Insert, Shifting, Holds;
    ShiftStart(val, typ, es, i);
    var v, t := val[i], typ[i];
    ghost var cur := es;
    var j := i - 1;
    while 0 <= j && (val[j] > v || (val[j] == v && typ[j] < t))
      invariant -1 <= j < i && |cur| == |es| <= val.Length && |es| <= typ.Length
      invariant Holds(val, typ, cur)
      invariant Shifting(es, cur, i, j)
    {
      cur := ShiftEndpoint(val, typ, i, j, es, cur);
      j := j - 1;
    }
    DropEndpoint(val, typ, i, j, v, t, es, cur);
  }

  lemma {:induction false} ShiftStart(val: array<int>, typ: array<int>, es: seq<Endpoint>, i: nat)
    requires i < |es| && Holds(val, typ, es)
    ensures |es| <= val.Length && |es| <= typ.Length && es[i] == Endpoint(val[i], typ[i])
    ensures Shifting(es, es, i, i - 1)
  {
    assert es[..i][..i] == es[..i];
  }

  method ShiftEndpoint(val: array<int>, typ: array<int>, i: nat, j: nat, ghost es: seq<Endpoint>, ghost cur: seq<Endpoint>)
    returns (ghost cur': seq<Endpoint>)
    requires val != typ && j < i < |es| == |cur| <= val.Length && |es| <= typ.Length
    requires Holds(val, typ, cur) && Shifting(es, cur, i, j)
    requires After(Endpoint(val[j], typ[j]), es[i])
    modifies val, typ
    ensures |cur'| == |es| && Holds(val, typ, cur') && Shifting(es, cur', i, j - 1)
  {
    ShiftOne(es, cur, i, j);
    hide Shifting, Insert;
    val[j + 1] := val[j];
    typ[j + 1] := typ[j];
    cur' := cur[j + 1 := cur[j]];
  }

  method DropEndpoint(val: array<int>, typ: array<int>, i: nat, j: int, v: int, t: int, ghost es: seq<Endpoint>, ghost cur: seq<Endpoint>)
    requires val != typ && -1 <= j < i < |es| == |cur| <= val.Length && |es| <= typ.Length
    requires Holds(val, typ, cur) && Shifting(es, cur, i, j) && es[i] == Endpoint(v, t)
    requires 0 <= j ==> !After(Endpoint(val[j], typ[j]), es[i])
    modifies val, typ
    ensures Holds(val, typ, Insert(es[..i], es[i]) + es[i + 1..])
  {
    ShiftDone(es, cur, i, j);
    hide Shifting, Insert;
    val[j + 1] := v;
    typ[j + 1] := t;
  }

  /** Mid-insertion: entries j+1..i-1 have moved up by one, and inserting before them is still to do. */
  ghost predicate Shifting(es: seq<Endpoint>, cur: seq<Endpoint>, i: nat, j: int)
    requires -1 <= j < i < |es|
  {
    && |cur| == |es|
    && (forall k :: 0 <= k <= j ==> cur[k] == es[k])
    && (forall k :: j + 1 < k <= i ==> cur[k] == es[k - 1])
    && (forall k :: i < k < |es| ==> cur[k] == es[k])
    && Insert(es[..i], es[i]) == Insert(es[..j + 1], es[i]) + es[j + 1..i]
  }

  lemma {:induction false} ShiftOne(es: seq<Endpoint>, cur: seq<Endpoint>, i: nat, j: nat)
    requires j < i < |es| && Shifting(es, cur, i, j) && |cur| == |es| && After(cur[j], es[i])
    ensures Shifting(es, cur[j + 1 := cur[j]], i, j - 1)
  {
    assert es[..j + 1][..j] == es[..j];
    assert es[j..i] == [es[j]] + es[j + 1..i];
  }

  lemma {:induction false} ShiftDone(es: seq<Endpoint>, cur: seq<Endpoint>, i: nat, j: int)
    requires -1 <= j < i < |es| && Shifting(es, cur, i, j)
    requires |cur| == |es| && (0 <= j ==> !After(cur[j], es[i]))
    ensures cur[j + 1 := es[i]] == Insert(es[..i], es[i]) + es[i + 1..]
  {
    assert Insert(es[..j + 1], es[i]) == es[..j + 1] + [es[i]];
  }

  /** The sweep: the deepest running count, the start that reaches it first and the endpoint after that. */
  method Sweep(val: array<int>, typ: array<int>, m: nat, ghost votes: seq<Interval>) returns (best: nat, lo: int, hi: int)
    requires Proper(votes) && votes != [] && m == |Endpoints(votes)|
    requires Holds(val, typ, Sort(Endpoints(votes)))
    ensures Intersect(votes) == Overlap(lo, hi, best) && best <= |votes|
  {
    hide Sort, Endpoints, Best, Sum, Holds, Intersect, Proper;
    ghost var es := Sort(Endpoints(votes));
    var cur, bestIdx := 0, 0;
    best := 0;
    NothingSweptYet(es);
    for i := 0 to m
      invariant cur == Sum(es[..i])
      invariant (best, bestIdx) == Best(es, i)
    {
      HoldsAt(val, typ, es, i);
      SweepsOne(es, i);
      cur := cur + typ[i];
      if typ[i] > 0 && cur > best {
        best := cur;
        bestIdx := i;
      }
    }
    SweepEnds(votes, best, bestIdx);
    HoldsAt(val, typ, es, bestIdx);
    HoldsAt(val, typ, es, bestIdx + 1);
    lo, hi := val[bestIdx], val[bestIdx + 1];
  }

  lemma {:induction false} HoldsAt(val: array<int>, typ: array<int>, es: seq<Endpoint>, k: nat)
    requires Holds(val, typ, es) && k < |es|
    ensures k < val.Length && k < typ.Length && es[k] == Endpoint(val[k], typ[k])
  {
  }

  /** Where the whole sweep ends up is the deepest overlap. */
  lemma {:induction false} SweepEnds(votes: seq<Interval>, best: nat, idx: nat)
    requires Proper(votes) && votes != [] && (best, idx) == Best(Sort(Endpoints(votes)), |Endpoints(votes)|)
    ensures var es := Sort(Endpoints(votes));
            idx + 1 < |es| && Intersect(votes) == Overlap(es[idx].val, es[idx + 1].val, best) && best <= |votes|
  {
    SweepStopsBeforeAnEnd(votes);
    IntersectIsDeepest(votes);
  }
}
