/** Whole runs of the time-sync policy: what holds over any sequence of adverts, clock sets and ticks. */
module TimeSyncRuns {
  import opened Words
  import opened MeshTimeSync
  import opened TimeSyncVote

  datatype Event =
    | Advert(up: u32, prefix: Prefix, ts: u32, hops: u8)
    | TrustedSync(up: u32)
    | RunTick(up: u32, local: u32)

  // The history: clock sets by a trusted source, and steps the policy applied.
  datatype Entry = Synced(up: u32) | Stepped(up: u32, delta: int, bootstrap: bool)

  /** One event, as the methods of the class do it; local is whatever the clock shows. */
  ghost predicate Next(s: TimeSyncState, e: Event, s': TimeSyncState) {
    match e
    case Advert(up, prefix, ts, hops) =>
      HeardAdvert(s.slots, prefix, ts, hops, up, s'.slots) && s'.policy == s.policy
    case TrustedSync(up) =>
      s' == s.(policy := SyncNoted(s.policy, up))
    case RunTick(up, local) =>
      var t := Ticked(s, local, up);
      s' == s.(policy := if Applies(t.policy, t.verdict, local) then StepNoted(t.policy, t.verdict.delta, up) else t.policy)
  }

  ghost function Recorded(s: TimeSyncState, e: Event): seq<Entry> {
    match e
    case Advert(_, _, _, _) => []
    case TrustedSync(up) => [Synced(up)]
    case RunTick(up, local) =>
      var t := Ticked(s, local, up);
      if Applies(t.policy, t.verdict, local) then [Stepped(up, t.verdict.delta, t.verdict.bootstrap)] else []
  }

  ghost predicate Initial(s: TimeSyncState) {
    !s.policy.steppedOnce && !s.policy.suppressed && !s.policy.pedigree && s.policy.nextEval == 0
    && forall i :: 0 <= i < |s.slots| ==> s.slots[i] == EMPTY_SLOT
  }

  /** A run: states[i] goes to states[i+1] by events[i], and uptime never goes back. */
  ghost predicate IsRun(states: seq<TimeSyncState>, events: seq<Event>) {
    && |states| == |events| + 1
    && Initial(states[0])
    && (forall i :: 0 <= i < |events| ==> Next(states[i], events[i], states[i + 1]))
    && (forall i :: 0 <= i < |events| - 1 ==> events[i].up <= events[i + 1].up)
  }

  ghost function History(states: seq<TimeSyncState>, events: seq<Event>): seq<Entry>
    requires |states| == |events| + 1
  {
    if events == [] then []
    else
      var n := |events| - 1;
      History(states[..n + 1], events[..n]) + Recorded(states[n], events[n])
  }

  // ---- Safety ----------------------------------------------------------------

  predicate StepsApart(a: Entry, b: Entry) {
    a.Stepped? && b.Stepped? ==> a.up + STEP_INTERVAL_SECS <= b.up
  }

  predicate SyncRespected(a: Entry, b: Entry) {
    a.Synced? && b.Stepped? ==>
      && a.up + SUPPRESS_SECS <= b.up
      && (!b.bootstrap ==> Abs(b.delta) <= (b.up - a.up) * PEDIGREE_PPM / 1_000_000 + PEDIGREE_BASE_SECS)
  }

  predicate StepBounded(b: Entry, forwardOnly: bool) {
    b.Stepped? ==>
      && (if b.bootstrap then STEP_TRIGGER_SECS <= b.delta else STEP_TRIGGER_SECS <= Abs(b.delta) <= STEP_CAP_SECS)
      && (forwardOnly ==> 0 < b.delta)
  }

  ghost predicate Safe(log: seq<Entry>, forwardOnly: bool) {
    && (forall i, j :: 0 <= i < j < |log| ==> StepsApart(log[i], log[j]))
    && (forall i, j :: 0 <= i < j < |log| ==> SyncRespected(log[i], log[j]))
    && (forall j :: 0 <= j < |log| ==> StepBounded(log[j], forwardOnly))
  }

  /** What the policy fields remember of the history. */
  ghost predicate Remembers(p: Policy, log: seq<Entry>, now: u32) {
    && (forall i :: 0 <= i < |log| ==> log[i].up <= now)
    && (forall i :: 0 <= i < |log| && log[i].Stepped? ==> p.steppedOnce && log[i].up <= p.lastStepUptime <= now)
    && (forall i :: 0 <= i < |log| && log[i].Synced? ==>
          && p.suppressed && log[i].up <= p.suppressUptime <= now
          && p.pedigree && log[i].up <= p.pedigreeUptime <= now)
  }

  /** What every gate of Decide guarantees about a step that gets through. */
  lemma {:induction false} StepPassedGates(p: Policy, c: Consensus, bootstrap: bool, up: u32)
    requires Decide(p, c, bootstrap, up).kind == Step
    ensures var v := Decide(p, c, bootstrap, up);
            && v.bootstrap == bootstrap
            && !IsSuppressed(p, up) && !IsRateLimited(p, up)
            && (if bootstrap then STEP_TRIGGER_SECS <= v.delta
                else STEP_TRIGGER_SECS <= Abs(v.delta) <= STEP_CAP_SECS && (p.pedigree ==> Abs(v.delta) <= Envelope(p, up)))
  {
  }

  lemma {:induction false} NextIsSafe(s: TimeSyncState, e: Event, s': TimeSyncState, log: seq<Entry>, now: u32)
    requires Next(s, e, s') && now <= e.up
    requires Remembers(s.policy, log, now) && Safe(log, s.policy.forwardOnly)
    ensures s'.policy.forwardOnly == s.policy.forwardOnly
    ensures Remembers(s'.policy, log + Recorded(s, e), e.up)
    ensures Safe(log + Recorded(s, e), s.policy.forwardOnly)
  {
    assert s'.policy.forwardOnly == s.policy.forwardOnly && Remembers(s'.policy, log + Recorded(s, e), e.up) by {
      NextRemembers(s, e, s', log, now);
    }
    hide Next, Remembers, Safe;
    if e.RunTick? && Recorded(s, e) != [] {
      StepIsSafe(s, e, log, now);
    }
    if Recorded(s, e) != [] {
      SafeAppends(log, Recorded(s, e)[0], s.policy.forwardOnly);
      assert log + Recorded(s, e) == log + [Recorded(s, e)[0]];
    } else {
      assert log + Recorded(s, e) == log;
    }
  }

  lemma {:induction false} NextRemembers(s: TimeSyncState, e: Event, s': TimeSyncState, log: seq<Entry>, now: u32)
    requires Next(s, e, s') && now <= e.up && Remembers(s.policy, log, now)
    ensures s'.policy.forwardOnly == s.policy.forwardOnly
    ensures Remembers(s'.policy, log + Recorded(s, e), e.up)
  {
    hide Evaluate, HeardAdvert, Remembers, Ticked, Recorded;
    PolicyKeepsMemory(s, e, s');
    if Recorded(s, e) == [] {
      assert log + [] == log;
      RemembersLater(s.policy, s'.policy, log, now, e.up);
    } else {
      assert Recorded(s, e) == [Recorded(s, e)[0]];
      RemembersOneMore(s.policy, s'.policy, log, Recorded(s, e)[0], now);
    }
  }

  /** What one event may change of the policy's memory. */
  ghost predicate Noted(p: Policy, entry: Entry, p': Policy) {
    if entry.Synced? then
      && p'.suppressed && p'.suppressUptime == entry.up && p'.pedigree && p'.pedigreeUptime == entry.up
      && p'.steppedOnce == p.steppedOnce && p'.lastStepUptime == p.lastStepUptime
    else
      && p'.steppedOnce && p'.lastStepUptime == entry.up
      && SameSyncs(p, p')
  }

  ghost predicate SameSyncs(p: Policy, p': Policy) {
    && p'.suppressed == p.suppressed && p'.suppressUptime == p.suppressUptime
    && p'.pedigree == p.pedigree && p'.pedigreeUptime == p.pedigreeUptime
  }

  lemma {:induction false} PolicyKeepsMemory(s: TimeSyncState, e: Event, s': TimeSyncState)
    requires Next(s, e, s')
    ensures s'.policy.forwardOnly == s.policy.forwardOnly
    ensures |Recorded(s, e)| <= 1
    ensures Recorded(s, e) == [] ==>
              SameSyncs(s.policy, s'.policy) && s'.policy.steppedOnce == s.policy.steppedOnce && s'.policy.lastStepUptime == s.policy.lastStepUptime
    ensures Recorded(s, e) != [] ==> Recorded(s, e)[0].up == e.up && Noted(s.policy, Recorded(s, e)[0], s'.policy)
  {
    hide Evaluate, HeardAdvert;
  }

  lemma {:induction false} RemembersLater(p: Policy, p': Policy, log: seq<Entry>, now: u32, later: u32)
    requires Remembers(p, log, now) && now <= later
    requires SameSyncs(p, p') && p'.steppedOnce == p.steppedOnce && p'.lastStepUptime == p.lastStepUptime
    ensures Remembers(p', log, later)
  {
  }

  lemma {:induction false} RemembersOneMore(p: Policy, p': Policy, log: seq<Entry>, entry: Entry, now: u32)
    requires Remembers(p, log, now) && now <= entry.up && Noted(p, entry, p')
    ensures Remembers(p', log + [entry], entry.up)
  {
    assert forall i :: 0 <= i < |log| ==> log[i].up <= now;
  }

  lemma {:induction false} SafeAppends(log: seq<Entry>, e: Entry, forwardOnly: bool)
    requires Safe(log, forwardOnly) && StepBounded(e, forwardOnly)
    requires forall i :: 0 <= i < |log| ==> StepsApart(log[i], e) && SyncRespected(log[i], e)
    ensures Safe(log + [e], forwardOnly)
  {
    hide StepsApart, SyncRespected, StepBounded;
  }

  lemma {:induction false} StepIsSafe(s: TimeSyncState, e: Event, log: seq<Entry>, now: u32)
    requires e.RunTick? && Recorded(s, e) != [] && now <= e.up
    requires Remembers(s.policy, log, now)
    ensures var step := Recorded(s, e)[0];
            && StepBounded(step, s.policy.forwardOnly)
            && forall i :: 0 <= i < |log| ==> StepsApart(log[i], step) && SyncRespected(log[i], step)
  {
    var step, p := Recorded(s, e)[0], s.policy;
    var bootstrap := e.local < p.buildEpoch;
    var c := ConsensusOf(Votes(s.slots, e.local, e.up, bootstrap));
    assert Ticked(s, e.local, e.up).verdict == Decide(p, c, bootstrap, e.up);
    StepPassedGates(p, c, bootstrap, e.up);
    forall i | 0 <= i < |log| ensures StepsApart(log[i], step) && SyncRespected(log[i], step) {
      if log[i].Synced? {
        EnvelopeGrows(e.up - p.pedigreeUptime, e.up - log[i].up);
      }
    }
  }

  lemma {:induction false} EnvelopeGrows(a: int, b: int)
    requires 0 <= a <= b
    ensures a * PEDIGREE_PPM / 1_000_000 <= b * PEDIGREE_PPM / 1_000_000
  {
  }

  /**
   * Safety over every run: steps are at least six hours apart, none follows a
   * trusted sync by less than seven days, consensus steps stay within the hour
   * cap and the drift envelope since every earlier sync, and a forward-only
   * role never steps back.
   */
  lemma {:induction false} RunsAreSafe(states: seq<TimeSyncState>, events: seq<Event>)
    requires IsRun(states, events)
    ensures Safe(History(states, events), states[0].policy.forwardOnly)
    ensures states[|events|].policy.forwardOnly == states[0].policy.forwardOnly
    ensures Remembers(states[|events|].policy, History(states, events), if events == [] then 0 else events[|events| - 1].up)
  {
    if events != [] {
      var n := |events| - 1;
      hide Next, Initial, Safe, Remembers, Recorded;
      RunBefore(states, events);
      RunsAreSafe(states[..n + 1], events[..n]);
      NextIsSafe(states[n], events[n], states[n + 1], History(states[..n + 1], events[..n]),
                 if n == 0 then 0 else events[n - 1].up);
    }
  }

  /** A run without its last event is a run that leads to it. */
  lemma {:induction false} RunBefore(states: seq<TimeSyncState>, events: seq<Event>)
    requires IsRun(states, events) && events != []
    ensures var n := |events| - 1;
            && |states| == n + 2 && IsRun(states[..n + 1], events[..n]) && Next(states[n], events[n], states[n + 1])
            && (0 < n ==> events[n - 1].up <= events[n].up)
  {
    hide Next, Initial;
  }

  /** Seconds of consensus displacement, either way, applied at uptimes from a to b. */
  function Displacement(log: seq<Entry>, a: int, b: int): nat {
    if log == [] then 0
    else
      var e := log[|log| - 1];
      Displacement(log[..|log| - 1], a, b)
      + if e.Stepped? && !e.bootstrap && a <= e.up <= b then Abs(e.delta) else 0
  }

  /** One step, and one more for every six hours. */
  function StepsWithin(secs: int): int {
    secs / STEP_INTERVAL_SECS + 1
  }

  /** The damage bound for a safe history, in any window of uptime. */
  lemma {:induction false} DisplacementIsBounded(log: seq<Entry>, forwardOnly: bool, a: int, b: int)
    requires Safe(log, forwardOnly) && a <= b + STEP_INTERVAL_SECS
    ensures Displacement(log, a, b) <= STEP_CAP_SECS * StepsWithin(b - a)
  {
    if log != [] {
      var front, e := log[..|log| - 1], log[|log| - 1];
      SafeBeforeLast(log, forwardOnly);
      if e.Stepped? && a <= e.up <= b {
        EarlierStepsOnly(front, e, a, b);
        hide Safe, StepsApart, StepsWithin;
        DisplacementIsBounded(front, forwardOnly, a, e.up - STEP_INTERVAL_SECS);
        OneMoreInterval(e.up - a, b - a);
      } else {
        DisplacementIsBounded(front, forwardOnly, a, b);
      }
    }
  }

  lemma {:induction false} SafeBeforeLast(log: seq<Entry>, forwardOnly: bool)
    requires Safe(log, forwardOnly) && log != []
    ensures Safe(log[..|log| - 1], forwardOnly) && StepBounded(log[|log| - 1], forwardOnly)
    ensures forall i :: 0 <= i < |log| - 1 ==> StepsApart(log[i], log[|log| - 1])
  {
    hide StepsApart, SyncRespected, StepBounded;
    assert forall i :: 0 <= i < |log| - 1 ==> log[..|log| - 1][i] == log[i];
  }

  lemma {:induction false} OneMoreInterval(u: int, w: int)
    requires u <= w
    ensures StepsWithin(u - STEP_INTERVAL_SECS) + 1 <= StepsWithin(w)
  {
  }

  lemma {:induction false} EarlierStepsOnly(log: seq<Entry>, e: Entry, a: int, b: int)
    requires e.Stepped? && forall i :: 0 <= i < |log| ==> StepsApart(log[i], e)
    requires e.up <= b
    ensures Displacement(log, a, b) == Displacement(log, a, e.up - STEP_INTERVAL_SECS)
  {
    if log != [] {
      EarlierStepsOnly(log[..|log| - 1], e, a, b);
      assert StepsApart(log[|log| - 1], e);
    }
  }

  lemma {:induction false} FirstEvalIsNear(states: seq<TimeSyncState>, events: seq<Event>)
    requires IsRun(states, events)
    ensures states[0].policy.nextEval <= EVAL_INTERVAL_SECS
  {
    hide Next;
  }

  lemma {:induction false} RunLength(states: seq<TimeSyncState>, events: seq<Event>)
    requires IsRun(states, events)
    ensures |states| == |events| + 1
  {
    hide Next, Initial;
  }

  /** Total displacement of a run over any window: one hour per started six hours. */
  lemma {:induction false} RunDisplacement(states: seq<TimeSyncState>, events: seq<Event>, from: nat, secs: nat)
    requires IsRun(states, events)
    ensures Displacement(History(states, events), from, from + secs) <= STEP_CAP_SECS * StepsWithin(secs)
  {
    hide IsRun, Safe, Displacement, History, Remembers, StepsWithin;
    RunLength(states, events);
    RunsAreSafe(states, events);
    var to := from + secs;
    DisplacementIsBounded(History(states, events), states[0].policy.forwardOnly, from, to);
    assert to - from == secs;
  }

  /** The documented damage bound: less than a day apart, steps move the clock by at most four hours. */
  lemma {:induction false} FourHoursPerDay(states: seq<TimeSyncState>, events: seq<Event>, from: nat)
    requires IsRun(states, events)
    ensures Displacement(History(states, events), from, from + 24 * 3600 - 1) <= 4 * 3600
  {
    hide IsRun, Displacement, History;
    RunDisplacement(states, events, from, 24 * 3600 - 1);
  }

  /** Every state of a run keeps the table's invariant, so the honest-majority bound applies throughout. */
  lemma {:induction false} RunsKeepTable(states: seq<TimeSyncState>, events: seq<Event>)
    requires IsRun(states, events)
    ensures TableOk(states[|events|].slots)
  {
    if events != [] {
      var n := |events| - 1;
      hide TableOk, HeardAdvert, Ticked, IsRun;
      RunBefore(states, events);
      RunsKeepTable(states[..n + 1], events[..n]);
      if events[n].Advert? {
        var e := events[n];
        HeardKeepsTable(states[n].slots, e.prefix, e.ts, e.hops, e.up, states[n + 1].slots);
      }
    } else {
      NoSlotsOk(states[0]);
    }
  }

  lemma {:induction false} NoSlotsOk(s: TimeSyncState)
    requires Initial(s)
    ensures TableOk(s.slots)
  {
  }

  // ---- Tenure ----------------------------------------------------------------

  /** Whether event k is an advert that sender p could have been credited for. */
  predicate AdvertFrom(e: Event, p: Prefix) {
    e.Advert? && e.prefix == p && e.hops <= HOP_CAP
  }

  /** The later advert's stamp is newer, and off the earlier one by the time between them within 45 s and 150 ppm. */
  predicate Agrees(a: Event, b: Event) {
    && a.Advert? && b.Advert? && a.ts < b.ts
    && Abs((b.ts - a.ts) - (b.up - a.up)) <= 45 + (b.up - a.up) * 150 / 1_000_000
  }

  /** No advert of this sender between events j and k is newer than the j-th. */
  predicate NoneNewer(events: seq<Event>, p: Prefix, j: nat, k: nat)
    requires j < k <= |events| && events[j].Advert?
  {
    forall n :: j < n < k && AdvertFrom(events[n], p) ==> events[n].ts <= events[j].ts
  }

  /**
   * The adverts of a tenure, by their places in the run: the first started it, the last is the one
   * the slot shows, each agrees with the one before, and none that was newer was passed over.
   */
  ghost predicate Tenure(s: Slot, events: seq<Event>, chain: seq<nat>) {
    && chain != [] && s.count == Min(|chain|, 0xFFFF)
    && (forall m :: 0 <= m < |chain| ==> chain[m] < |events| && AdvertFrom(events[chain[m]], s.prefix))
    && events[chain[0]].up == s.firstUptime
    && Shows(s, events[chain[|chain| - 1]])
    && (forall m :: 0 <= m < |chain| - 1 ==> Linked(events, s.prefix, chain[m], chain[m + 1]))
    && NoneNewer(events, s.prefix, chain[|chain| - 1], |events|)
  }

  predicate Shows(s: Slot, e: Event) {
    e.Advert? && s.advertTs == e.ts && s.arrivalUptime == e.up && s.hops == e.hops
  }

  predicate Linked(events: seq<Event>, p: Prefix, j: nat, k: nat) {
    && j < k < |events| && events[j].Advert? && events[k].Advert?
    && Agrees(events[j], events[k]) && NoneNewer(events, p, j, k)
  }

  ghost predicate Earned(s: Slot, events: seq<Event>) {
    s.used ==> exists chain: seq<nat> :: Tenure(s, events, chain)
  }

  predicate Rising(events: seq<Event>) {
    forall k :: 0 <= k < |events| - 1 ==> events[k].up <= events[k + 1].up
  }

  lemma {:induction false} HeardIsEarned(before: seq<Slot>, e: Event, after: seq<Slot>, past: seq<Event>)
    requires e.Advert? && HeardAdvert(before, e.prefix, e.ts, e.hops, e.up, after) && TableOk(before)
    requires Rising(past + [e]) && forall s :: s in before ==> Earned(s, past)
    ensures forall s :: s in after ==> Earned(s, past + [e])
  {
    hide Earned, TableOk;
    forall s | s in after ensures Earned(s, past + [e]) {
      if s.used {
        var k :| 0 <= k < |after| && after[k] == s;
        HeardTable(before, e, after, k);
        if AdvertFrom(e, e.prefix) && s == Admitted(e.prefix, e.ts, e.hops, e.up) {
          TenureStarts(s, past, e);
        } else if s == before[k] && !(AdvertFrom(e, s.prefix) && s.advertTs < e.ts) {
          EarnedStays(s, past, e);
        } else {
          EarnedGoesOn(before[k], past, e);
        }
      } else {
        UnusedIsEarned(s, past + [e]);
      }
    }
  }

  lemma {:induction false} UnusedIsEarned(s: Slot, events: seq<Event>)
    requires !s.used
    ensures Earned(s, events)
  {
  }

  /** The three things that can be in a slot after an advert. */
  lemma {:induction false} HeardTable(before: seq<Slot>, e: Event, after: seq<Slot>, k: nat)
    requires e.Advert? && HeardAdvert(before, e.prefix, e.ts, e.hops, e.up, after) && TableOk(before) && k < |after|
    ensures |after| == |before|
    ensures || (after[k] == before[k] && (before[k].used && AdvertFrom(e, before[k].prefix) ==> e.ts <= before[k].advertTs))
            || (AdvertFrom(e, e.prefix) && after[k] == Admitted(e.prefix, e.ts, e.hops, e.up))
            || (AdvertFrom(e, before[k].prefix) && before[k].used && before[k].advertTs < e.ts && after[k] == Refreshed(before[k], e.ts, e.hops, e.up))
  {
  }

  lemma {:induction false} TenureStarts(s: Slot, past: seq<Event>, e: Event)
    requires AdvertFrom(e, s.prefix) && s.count == 1 && s.firstUptime == e.up && Shows(s, e)
    ensures Earned(s, past + [e])
  {
    assert Tenure(s, past + [e], [|past|]);
  }

  lemma {:induction false} EarnedStays(s: Slot, past: seq<Event>, e: Event)
    requires Earned(s, past) && (s.used && AdvertFrom(e, s.prefix) ==> e.ts <= s.advertTs)
    ensures Earned(s, past + [e])
  {
    if s.used {
      var chain: seq<nat> :| Tenure(s, past, chain);
      LinksStay(s.prefix, past, e, chain);
      assert Tenure(s, past + [e], chain);
    }
  }

  lemma {:induction false} LinksStay(p: Prefix, past: seq<Event>, e: Event, chain: seq<nat>)
    requires forall m :: 0 <= m < |chain| - 1 ==> Linked(past, p, chain[m], chain[m + 1])
    ensures forall m :: 0 <= m < |chain| - 1 ==> Linked(past + [e], p, chain[m], chain[m + 1])
  {
    hide Agrees;
    forall m | 0 <= m < |chain| - 1 ensures Linked(past + [e], p, chain[m], chain[m + 1]) {
      assert Linked(past, p, chain[m], chain[m + 1]);
    }
  }

  /** A newer advert of a known sender: tenure goes on exactly if it agrees with the one before. */
  lemma {:induction false} EarnedGoesOn(prior: Slot, past: seq<Event>, e: Event)
    requires prior.used && Earned(prior, past) && AdvertFrom(e, prior.prefix) && prior.advertTs < e.ts && Rising(past + [e])
    ensures Earned(Refreshed(prior, e.ts, e.hops, e.up), past + [e])
  {
    hide Rising, Tenure;
    var s, events := Refreshed(prior, e.ts, e.hops, e.up), past + [e];
    var chain: seq<nat> :| Tenure(prior, past, chain);
    var last := TenureShows(prior, past, chain);
    UptimeRises(events, last, |past|);
    ConsistentAgrees(prior, past[last], e);
    if Agrees(past[last], e) {
      TenureGoesOn(prior, s, past, e, chain);
    } else {
      TenureStarts(s, past, e);
    }
  }

  lemma {:induction false} TenureShows(s: Slot, events: seq<Event>, chain: seq<nat>) returns (last: nat)
    requires Tenure(s, events, chain)
    ensures last < |events| && last == chain[|chain| - 1] && Shows(s, events[last])
  {
    last := chain[|chain| - 1];
  }

  lemma {:induction false} ConsistentAgrees(s: Slot, a: Event, b: Event)
    requires Shows(s, a) && b.Advert? && a.ts < b.ts && a.up <= b.up
    ensures Consistent(s, b.ts, b.up) <==> Agrees(a, b)
  {
  }

  lemma {:induction false} TenureGoesOn(prior: Slot, s: Slot, past: seq<Event>, e: Event, chain: seq<nat>)
    requires Tenure(prior, past, chain) && AdvertFrom(e, s.prefix) && Agrees(past[chain[|chain| - 1]], e)
    requires s == prior.(count := Min(prior.count + 1, 0xFFFF), advertTs := e.ts, arrivalUptime := e.up, hops := e.hops)
    ensures Earned(s, past + [e])
  {
    hide Agrees;
    var events, longer := past + [e], chain + [|past|];
    LinksStay(s.prefix, past, e, chain);
    forall m | 0 <= m < |longer| - 1 ensures Linked(events, s.prefix, longer[m], longer[m + 1]) {
      if m < |chain| - 1 { assert Linked(events, s.prefix, chain[m], chain[m + 1]); }
    }
    assert Tenure(s, events, longer);
  }

  /** In every run each slot in use shows a tenure of the run: where it began, and every advert since. */
  lemma {:induction false} RunsEarnTenure(states: seq<TimeSyncState>, events: seq<Event>)
    requires IsRun(states, events)
    ensures forall s :: s in states[|events|].slots ==> Earned(s, events)
  {
    if events != [] {
      var n := |events| - 1;
      hide HeardAdvert, Ticked, IsRun, Earned, TableOk;
      RunBefore(states, events);
      RunsEarnTenure(states[..n + 1], events[..n]);
      RunsKeepTable(states[..n + 1], events[..n]);
      RunRises(states, events);
      assert events == events[..n] + [events[n]];
      var before, after := states[n].slots, states[n + 1].slots;
      if events[n].Advert? {
        HeardIsEarned(before, events[n], after, events[..n]);
      } else {
        forall s | s in after ensures Earned(s, events) {
          EarnedStays(s, events[..n], events[n]);
        }
      }
    }
  }

  lemma {:induction false} RunRises(states: seq<TimeSyncState>, events: seq<Event>)
    requires IsRun(states, events)
    ensures Rising(events)
  {
    hide Next, Initial;
  }

  /**
   * Tenure is earned, never granted: in any state of any run, a sender votes in a normal evaluation
   * if and only if its tenure has two adverts, the first of which is an hour old and the last no
   * more than five days, each in agreement with the one before and none newer left out.
   */
  lemma {:induction false} VotersAreTenured(states: seq<TimeSyncState>, events: seq<Event>, s: Slot, up: u32) returns (chain: seq<nat>)
    requires IsRun(states, events)
    requires s in states[|events|].slots && s.used
    requires events != [] ==> events[|events| - 1].up <= up
    ensures Tenure(s, events, chain)
    ensures SlotEligible(s, up, false) <==>
              && 2 <= |chain|
              && events[chain[0]].up + 3600 <= up <= events[chain[|chain| - 1]].up + 5 * 24 * 3600
    ensures SlotEligible(s, up, true) <==> up <= events[chain[|chain| - 1]].up + 5 * 24 * 3600
  {
    hide IsRun, Rising, Tenure, SlotEligible;
    RunLength(states, events);
    RunsEarnTenure(states, events);
    RunRises(states, events);
    chain :| Tenure(s, events, chain);
    EligibleExactlyWhen(s, events, chain, up);
  }

  lemma {:induction false} EligibleExactlyWhen(s: Slot, events: seq<Event>, chain: seq<nat>, up: u32)
    requires Tenure(s, events, chain) && s.used && Rising(events) && (events != [] ==> events[|events| - 1].up <= up)
    ensures chain != [] && chain[0] < |events| && chain[|chain| - 1] < |events|
    ensures SlotEligible(s, up, true) <==> up <= events[chain[|chain| - 1]].up + 5 * 24 * 3600
    ensures SlotEligible(s, up, false) <==>
              && 2 <= |chain|
              && events[chain[0]].up + 3600 <= up <= events[chain[|chain| - 1]].up + 5 * 24 * 3600
  {
    hide Rising, Linked, NoneNewer;
    var last := chain[|chain| - 1];
    assert AdvertFrom(events[chain[0]], s.prefix) && AdvertFrom(events[last], s.prefix);
    UptimeRises(events, chain[0], |events| - 1);
    UptimeRises(events, last, |events| - 1);
  }

  lemma {:induction false} UptimeRises(events: seq<Event>, i: nat, j: nat)
    requires Rising(events) && i <= j < |events|
    ensures events[i].up <= events[j].up
    decreases j - i
  {
    if i < j {
      UptimeRises(events, i + 1, j);
    }
  }

  // ---- Pacing ------------------------------------------------------------------

  /** In every run the next evaluation is never further off than one interval. */
  lemma {:induction false} RunsPaceEvals(states: seq<TimeSyncState>, events: seq<Event>)
    requires IsRun(states, events)
    ensures states[|events|].policy.nextEval <= (if events == [] then 0 else events[|events| - 1].up) + EVAL_INTERVAL_SECS
  {
    hide Evaluate, HeardAdvert, IsRun;
    RunLength(states, events);
    if events == [] {
      FirstEvalIsNear(states, events);
    } else {
      var n := |events| - 1;
      RunBefore(states, events);
      RunsPaceEvals(states[..n + 1], events[..n]);
    }
  }

  predicate EvaluatesAt(s: TimeSyncState, e: Event) {
    e.RunTick? && Ticked(s, e.local, e.up).verdict != QUIET
  }

  /** In every run: after a tick that armed the timer or evaluated, there is no evaluation for a quarter of an hour. */
  lemma {:induction false} EvalsAreApart(states: seq<TimeSyncState>, events: seq<Event>, i: nat, j: nat)
    requires IsRun(states, events) && i < j < |events| && events[i].RunTick? && events[|events| - 1].up + 900 < U32_RANGE
    requires states[i].policy.nextEval <= events[i].up
    ensures j < |states| && (EvaluatesAt(states[j], events[j]) ==> events[i].up + 900 <= events[j].up)
  {
    hide EvaluatesAt, IsRun, Evaluate;
    RunLength(states, events);
    StaysArmed(states, events, i, j);
    QuietUntil(states[j], events[j]);
  }

  lemma {:induction false} QuietUntil(s: TimeSyncState, e: Event)
    ensures EvaluatesAt(s, e) ==> 0 < s.policy.nextEval <= e.up
  {
  }

  lemma {:induction false} StaysArmed(states: seq<TimeSyncState>, events: seq<Event>, i: nat, k: nat)
    requires IsRun(states, events) && i < k <= |events| && events[i].RunTick? && events[|events| - 1].up + 900 < U32_RANGE
    requires states[i].policy.nextEval <= events[i].up
    ensures k < |states| && events[i].up + 900 <= states[k].policy.nextEval
    decreases k
  {
    hide IsRun, Next;
    RunLength(states, events);
    NextInRun(states, events, k - 1);
    NextArms(states[k - 1], events[k - 1], states[k]);
    RunRises(states, events);
    UptimeRises(events, k - 1, |events| - 1);
    UptimeRises(events, i, k - 1);
    if i < k - 1 {
      StaysArmed(states, events, i, k - 1);
    }
  }

  lemma {:induction false} NextInRun(states: seq<TimeSyncState>, events: seq<Event>, k: nat)
    requires IsRun(states, events) && k < |events|
    ensures |states| == |events| + 1 && Next(states[k], events[k], states[k + 1])
  {
    hide Next, Initial;
  }

  /** A tick arms the timer when it is due, and nothing else touches it. */
  lemma {:induction false} NextArms(s: TimeSyncState, e: Event, s': TimeSyncState)
    requires Next(s, e, s')
    ensures s'.policy.nextEval == if e.RunTick? && s.policy.nextEval <= e.up then (e.up + 900) % U32_RANGE else s.policy.nextEval
  {
    hide Evaluate, HeardAdvert;
  }

  /**
   * In every run the wait never oversleeps: nothing happens before it is over, and the
   * evaluation runs when it is.
   */
  lemma {:induction false} EvalWaitIsExact(states: seq<TimeSyncState>, events: seq<Event>, up: u32, later: u32, local: u32)
    requires IsRun(states, events) && (events != [] ==> events[|events| - 1].up <= up) && up <= later
    ensures var s := states[|events|];
            var w := EvalWait(s.policy.nextEval, up);
            && w % 1000 == 0
            && (later < up + w / 1000 ==> Ticked(s, local, later) == TickResult(QUIET, s.policy))
            && (later == up + w / 1000 && s.policy.nextEval != 0 ==>
                  Ticked(s, local, later).verdict == Evaluate(s.policy, s.slots, local, later))
            && (w == 0 <==> s.policy.nextEval == 0 || s.policy.nextEval <= up)
  {
    hide Evaluate, IsRun, Ticked, EvalWait;
    RunLength(states, events);
    RunsPaceEvals(states, events);
    WaitIsExactAt(states[|events|], up, later, local);
  }

  lemma {:induction false} WaitIsExactAt(s: TimeSyncState, up: u32, later: u32, local: u32)
    requires up <= later && s.policy.nextEval <= up + EVAL_INTERVAL_SECS
    ensures var w := EvalWait(s.policy.nextEval, up);
            && w % 1000 == 0
            && (later < up + w / 1000 ==> Ticked(s, local, later) == TickResult(QUIET, s.policy))
            && (later == up + w / 1000 && s.policy.nextEval != 0 ==>
                  Ticked(s, local, later).verdict == Evaluate(s.policy, s.slots, local, later))
            && (w == 0 <==> s.policy.nextEval == 0 || s.policy.nextEval <= up)
  {
    hide Evaluate, EvalWait;
    WaitInSeconds(s.policy.nextEval, up);
  }

  lemma {:induction false} WaitInSeconds(nextEval: u32, up: u32)
    requires nextEval <= up + EVAL_INTERVAL_SECS
    ensures EvalWait(nextEval, up) == 1000 * if nextEval <= up then 0 else nextEval - up
  {
    var secs := nextEval - up;
    if 0 < secs {
      assert secs * 1000 < U32_RANGE;
    }
  }
}
