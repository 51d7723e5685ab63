/** What the time consensus promises about one evaluation. */
module TimeSyncVote {
  import opened Words
  import opened Marzullo
  import opened MeshTimeSync

  // Twice the widest radius a slot of the table can have.
  const WIDEST_VOTE := 2 * (RADIUS_BASE_SECS + RADIUS_PER_HOP_SECS * HOP_CAP)

  lemma {:induction false} MidIsInside(lo: int, hi: int)
    requires lo <= hi
    ensures lo <= HalfTowardZero(lo + hi) <= hi
  {
  }

  function CountEligible(slots: seq<Slot>, up: u32, bootstrap: bool): nat {
    if slots == [] then 0
    else
      CountEligible(slots[..|slots| - 1], up, bootstrap)
      + if SlotEligible(slots[|slots| - 1], up, bootstrap) then 1 else 0
  }

  /** How many eligible senders' intervals contain the offset t. */
  ghost function CountAgreeing(slots: seq<Slot>, local: u32, up: u32, bootstrap: bool, t: int): nat {
    if slots == [] then 0
    else
      var s := slots[|slots| - 1];
      CountAgreeing(slots[..|slots| - 1], local, up, bootstrap, t)
      + if SlotEligible(s, up, bootstrap) && Abs(SlotSkew(s, local, up) - t) <= SlotRadius(s) then 1 else 0
  }

  lemma {:induction false} VotesCount(slots: seq<Slot>, local: u32, up: u32, bootstrap: bool, t: int)
    ensures var votes := Votes(slots, local, up, bootstrap);
            |votes| == CountEligible(slots, up, bootstrap)
            && Depth(votes, t) == CountAgreeing(slots, local, up, bootstrap, t)
  {
    if slots != [] {
      VotesCount(slots[..|slots| - 1], local, up, bootstrap, t);
      var front, s := Votes(slots[..|slots| - 1], local, up, bootstrap), slots[|slots| - 1];
      assert (front + [SlotVote(s, local, up)])[..|front|] == front;
    }
  }

  lemma {:induction false} VotesAreNarrow(slots: seq<Slot>, local: u32, up: u32, bootstrap: bool)
    requires TableOk(slots)
    ensures forall v :: v in Votes(slots, local, up, bootstrap) ==> v.hi - v.lo <= WIDEST_VOTE
  {
    if slots != [] {
      VotesAreNarrow(slots[..|slots| - 1], local, up, bootstrap);
    }
  }

  /**
   * The reported consensus is the deepest agreement there is: some interval
   * [lo, hi] around mid lies in exactly votesFor eligible intervals at every
   * point, and no offset anywhere is supported by more senders.
   */
  lemma {:induction false} ConsensusIsDeepest(slots: seq<Slot>, local: u32, up: u32, bootstrap: bool) returns (lo: int, hi: int)
    ensures var c := ConsensusOf(Votes(slots, local, up, bootstrap));
            && c.eligible == CountEligible(slots, up, bootstrap)
            && c.votesFor + c.votesAgainst == c.eligible
            && (c.valid <==> 0 < c.eligible)
            && (c.valid ==>
                  && lo <= c.mid <= hi
                  && c.mid == HalfTowardZero(lo + hi) && c.radius == (hi - lo) / 2
                  && 1 <= c.votesFor
                  && (forall t :: lo <= t <= hi ==> CountAgreeing(slots, local, up, bootstrap, t) == c.votesFor)
                  && (forall t :: CountAgreeing(slots, local, up, bootstrap, t) <= c.votesFor))
  {
    var votes := Votes(slots, local, up, bootstrap);
    VotesCount(slots, local, up, bootstrap, 0);
    lo, hi := 0, 0;
    if votes != [] {
      IntersectIsDeepest(votes);
      var o := Intersect(votes);
      lo, hi := o.lo, o.hi;
      MidIsInside(lo, hi);
      forall t ensures CountAgreeing(slots, local, up, bootstrap, t) == Depth(votes, t) {
        VotesCount(slots, local, up, bootstrap, t);
      }
    }
  }

  /**
   * Dishonest minority: when the intervals of more than half of the eligible
   * senders contain the true offset t, the majority test passes and mid is
   * within the width of one interval of t, whatever the others report.
   */
  lemma {:induction false} HonestMajorityBound(slots: seq<Slot>, local: u32, up: u32, bootstrap: bool, t: int)
    requires TableOk(slots)
    requires 2 * CountAgreeing(slots, local, up, bootstrap, t) > CountEligible(slots, up, bootstrap)
    ensures var c := ConsensusOf(Votes(slots, local, up, bootstrap));
            && c.valid && 2 * c.votesFor > c.eligible
            && Abs(c.mid - t) <= 390
            && 0 <= c.radius <= 195
  {
    hide Votes, CountAgreeing, CountEligible, ConsensusOf, TableOk, Depth;
    VotesCount(slots, local, up, bootstrap, t);
    VotesAreNarrow(slots, local, up, bootstrap);
    MajorityBound(Votes(slots, local, up, bootstrap), t);
  }

  lemma {:induction false} MajorityBound(votes: seq<Interval>, t: int)
    requires Proper(votes) && forall v :: v in votes ==> v.hi - v.lo <= WIDEST_VOTE
    requires 2 * Depth(votes, t) > |votes|
    ensures var c := ConsensusOf(votes);
            && c.valid && c.eligible == |votes| && 2 * c.votesFor > c.eligible
            && Abs(c.mid - t) <= 390
            && 0 <= c.radius <= 195
  {
    assert votes != [];
    hide Depth, Intersect;
    IntersectIsDeepest(votes);
    var o := Intersect(votes);
    MidIsInside(o.lo, o.hi);
    assert Depth(votes, t) <= o.count;
    var c := ConsensusOf(votes);
    var i := SharedVote(votes, c.mid, t);
    var j := SharedVote(votes, o.lo, o.hi);
    assert votes[i] in votes && votes[j] in votes;
  }

  lemma {:induction false} EligibleAreCounted(slots: seq<Slot>, local: u32, up: u32)
    ensures ConsensusOf(Votes(slots, local, up, false)).eligible == |Votes(slots, local, up, false)|
  {
  }

  /**
   * The same at the level of the verdict: with quorum and an honest majority,
   * a normal evaluation never abstains for lack of agreement, and any step it
   * asks for leaves the clock within 390 s of the truth or takes exactly one
   * hour off the error.
   */
  lemma {:induction false} HonestMajorityStep(p: Policy, slots: seq<Slot>, local: u32, up: u32, t: int)
    requires TableOk(slots) && local >= p.buildEpoch
    requires CountEligible(slots, up, false) >= p.quorum
    requires 2 * CountAgreeing(slots, local, up, false, t) > CountEligible(slots, up, false)
    ensures var v := Evaluate(p, slots, local, up);
            && v.reason !in {NoData, NoQuorum, NoMajority}
            && (v.kind == Step ==> Abs(t - v.delta) <= 390 || Abs(t - v.delta) == Abs(t) - STEP_CAP_SECS)
            && (v.reason == InBand ==> Abs(t) < STEP_TRIGGER_SECS + 390)
  {
    hide Votes, CountAgreeing, CountEligible, ConsensusOf, TableOk, Envelope, IsSuppressed, IsRateLimited, Depth;
    HonestMajorityBound(slots, local, up, false, t);
    VotesCount(slots, local, up, false, t);
    EligibleAreCounted(slots, local, up);
  }

  lemma {:induction false} InvalidIsEmpty(votes: seq<Interval>)
    requires Proper(votes)
    ensures var c := ConsensusOf(votes); !c.valid ==> c.votesFor == c.eligible == 0
  {
    hide Intersect;
  }

  /** A verdict asks for a step exactly when every gate of the policy is open. */
  lemma {:induction false} StepExactlyWhen(p: Policy, slots: seq<Slot>, local: u32, up: u32)
    ensures var v := Evaluate(p, slots, local, up);
            var c := v.consensus;
            v.kind == Step <==>
              && (p.suppressed ==> 7 * 86400 <= (up - p.suppressUptime) % U32_RANGE)
              && (p.steppedOnce ==> 6 * 3600 <= (up - p.lastStepUptime) % U32_RANGE)
              && if local < p.buildEpoch then
                   3 <= c.votesFor && 150 + 600 <= c.mid
                 else
                   && p.quorum <= c.eligible && c.eligible < 2 * c.votesFor
                   && 600 <= Abs(c.mid)
                   && (p.pedigree ==> Abs(c.mid) <= 600 + (up - p.pedigreeUptime) % U32_RANGE * 300 / 1_000_000)
    ensures var v := Evaluate(p, slots, local, up);
            v.kind == Step ==>
              if v.bootstrap then v.delta == v.consensus.mid - RADIUS_BASE_SECS && v.delta >= STEP_TRIGGER_SECS
              else Abs(v.delta) <= STEP_CAP_SECS && Abs(v.delta) <= Abs(v.consensus.mid)
                   && (v.delta < 0 <==> v.consensus.mid < 0) && STEP_TRIGGER_SECS <= Abs(v.delta)
  {
    hide Votes, ConsensusOf;
    InvalidIsEmpty(Votes(slots, local, up, local < p.buildEpoch));
    assert Sub32(up, p.suppressUptime) == (up - p.suppressUptime) % U32_RANGE;
    assert Sub32(up, p.lastStepUptime) == (up - p.lastStepUptime) % U32_RANGE;
    assert Sub32(up, p.pedigreeUptime) == (up - p.pedigreeUptime) % U32_RANGE;
    hide Sub32;
  }

  // ---- Moving the local clock ------------------------------------------------

  /** The same voters at a later moment, t seconds of uptime on, with the local clock moved by d besides. */
  ghost predicate SameVoters(slots: seq<Slot>, local: u32, up: u32, local': u32, up': u32, bootstrap: bool, d: int) {
    forall s :: s in slots ==>
      && SlotEligible(s, up, bootstrap) == SlotEligible(s, up', bootstrap)
      && (s.used ==> SlotSkew(s, local', up') == SlotSkew(s, local, up) - d)
  }

  /** Sub-second precision is all that uptime adds: moving clock and uptime together changes no skew. */
  lemma {:induction false} UptimeKeepsSkew(s: Slot, local: u32, up: u32, elapsed: nat, d: int)
    requires s.arrivalUptime <= up
    requires up + elapsed < U32_RANGE && 0 <= local + elapsed + d < U32_RANGE
    ensures SlotSkew(s, local + elapsed + d, up + elapsed) == SlotSkew(s, local, up) - d
  {
  }

  lemma {:induction false} VotesShift(slots: seq<Slot>, local: u32, up: u32, local': u32, up': u32, bootstrap: bool, d: int)
    requires SameVoters(slots, local, up, local', up', bootstrap, d)
    ensures Votes(slots, local', up', bootstrap) == ShiftAll(Votes(slots, local, up, bootstrap), -d)
  {
    if slots != [] {
      var front, s := slots[..|slots| - 1], slots[|slots| - 1];
      VotesShift(front, local, up, local', up', bootstrap, d);
      var votes := Votes(front, local, up, bootstrap);
      assert s in slots;
      assert (votes + [SlotVote(s, local, up)])[..|votes|] == votes;
    }
  }

  /** Everything but mid is the same, and mid has moved by -d to within a second. */
  predicate MovedBy(c: Consensus, c': Consensus, d: int) {
    c' == c.(mid := c'.mid) && (c.valid ==> Abs(c'.mid - (c.mid - d)) <= 1)
  }

  lemma {:induction false} ConsensusOfShift(votes: seq<Interval>, d: int)
    requires Proper(votes)
    ensures Proper(ShiftAll(votes, -d))
    ensures var c, c' := ConsensusOf(votes), ConsensusOf(ShiftAll(votes, -d));
            MovedBy(c, c', d)
  {
    ShiftStaysProper(votes, -d);
    if votes != [] {
      IntersectMoves(votes, -d);
      var o := Intersect(votes);
      HalfOfShifted(o.lo + o.hi, d);
    }
  }

  lemma {:induction false} HalfOfShifted(sum: int, d: int)
    ensures Abs(HalfTowardZero(sum - 2 * d) - (HalfTowardZero(sum) - d)) <= 1
  {
  }

  /** Moving the clock by d moves mid by -d, to within the second that C's division drops. */
  lemma {:induction false} ConsensusMoves(slots: seq<Slot>, local: u32, up: u32, local': u32, up': u32, bootstrap: bool, d: int)
    requires SameVoters(slots, local, up, local', up', bootstrap, d)
    ensures var c, c' := ConsensusOf(Votes(slots, local, up, bootstrap)), ConsensusOf(Votes(slots, local', up', bootstrap));
            MovedBy(c, c', d)
  {
    VotesShift(slots, local, up, local', up', bootstrap, d);
    ConsensusOfShift(Votes(slots, local, up, bootstrap), d);
  }

  /** No second is lost if and only if the overlap's endpoints add up to an even number, or their sum keeps its sign. */
  lemma {:induction false} NoSecondLostExactlyWhen(slots: seq<Slot>, local: u32, up: u32, local': u32, up': u32, bootstrap: bool, d: int)
    requires SameVoters(slots, local, up, local', up', bootstrap, d) && Votes(slots, local, up, bootstrap) != []
    ensures var o := Intersect(Votes(slots, local, up, bootstrap));
            var c, c' := ConsensusOf(Votes(slots, local, up, bootstrap)), ConsensusOf(Votes(slots, local', up', bootstrap));
            c'.mid == c.mid - d <==> (o.lo + o.hi) % 2 == 0 || (0 <= o.lo + o.hi <==> 0 <= o.lo + o.hi - 2 * d)
  {
    hide Votes, Intersect, SameVoters;
    VotesShift(slots, local, up, local', up', bootstrap, d);
    var votes := Votes(slots, local, up, bootstrap);
    IntersectMoves(votes, -d);
    var o := Intersect(votes);
    assert ShiftAll(votes, -d) != [];
    HalfKeepsUp(o.lo + o.hi, d);
  }

  lemma {:induction false} HalfKeepsUp(sum: int, d: int)
    ensures HalfTowardZero(sum - 2 * d) == HalfTowardZero(sum) - d <==> sum % 2 == 0 || (0 <= sum <==> 0 <= sum - 2 * d)
  {
  }

  // Two tenured senders, 3 s apart, heard an hour after start-up by a clock that shows A's time.
  const SENDER_A := Slot([1], 1_000_000, 3600, 0, 2, 0, true)
  const SENDER_B := Slot([2], 1_000_003, 3600, 0, 2, 0, true)

  /** For them moving the clock by 2 s moves mid from 1 to 0. */
  lemma {:induction false} MoveCanLoseASecond()
    ensures TableOk([SENDER_A, SENDER_B])
    ensures SameVoters([SENDER_A, SENDER_B], 1_000_000, 3600, 1_000_002, 3600, false, 2)
    ensures var c := ConsensusOf(Votes([SENDER_A, SENDER_B], 1_000_000, 3600, false));
            var c' := ConsensusOf(Votes([SENDER_A, SENDER_B], 1_000_002, 3600, false));
            c.votesFor == 2 && c.mid == 1 && c'.mid == 0
  {
    var slots := [SENDER_A, SENDER_B];
    BothVote();
    hide Votes, ConsensusOf, SameVoters, TableOk;
    VotesShift(slots, 1_000_000, 3600, 1_000_002, 3600, false, 2);
    TwoVotesAgree();
  }

  lemma {:induction false} BothVote()
    ensures TableOk([SENDER_A, SENDER_B]) && SameVoters([SENDER_A, SENDER_B], 1_000_000, 3600, 1_000_002, 3600, false, 2)
    ensures Votes([SENDER_A, SENDER_B], 1_000_000, 3600, false) == [Interval(-150, 150), Interval(-147, 153)]
  {
    hide Votes;
    TwoSendersVote(SENDER_A, SENDER_B, 1_000_000, 3600);
  }

  lemma {:induction false} TwoSendersVote(a: Slot, b: Slot, local: u32, up: u32)
    requires SlotEligible(a, up, false) && SlotEligible(b, up, false)
    ensures Votes([a, b], local, up, false) == [SlotVote(a, local, up), SlotVote(b, local, up)]
  {
    assert [a, b][..1] == [a] && [a][..0] == [];
  }

  lemma {:induction false} TwoVotesAgree()
    ensures Proper([Interval(-150, 150), Interval(-147, 153)])
    ensures Proper(ShiftAll([Interval(-150, 150), Interval(-147, 153)], -2))
    ensures var c := ConsensusOf([Interval(-150, 150), Interval(-147, 153)]); c.votesFor == 2 && c.mid == 1
    ensures ConsensusOf(ShiftAll([Interval(-150, 150), Interval(-147, 153)], -2)).mid == 0
  {
    hide Intersect;
    TwoVotes();
    IntersectMoves([Interval(-150, 150), Interval(-147, 153)], -2);
    assert |ShiftAll([Interval(-150, 150), Interval(-147, 153)], -2)| == 2;
  }

  lemma {:induction false} TwoVotes()
    ensures var votes := [Interval(-150, 150), Interval(-147, 153)];
            Proper(votes) && Intersect(votes) == Overlap(-147, 150, 2)
  {
    hide Sum, Best, Sort, Endpoints;
    var votes := [Interval(-150, 150), Interval(-147, 153)];
    var a, b, c, d := Endpoint(-150, 1), Endpoint(150, -1), Endpoint(-147, 1), Endpoint(153, -1);
    EndpointsOfTwo(votes[0], votes[1]);
    TwoVotesSorted(a, b, c, d);
    var es := [a, c, b, d];
    NothingSweptYet(es);
    SweepsOne(es, 0);
    SweepsOne(es, 1);
    SweepsOne(es, 2);
    SweepsOne(es, 3);
  }

  lemma {:induction false} EndpointsOfTwo(v: Interval, w: Interval)
    ensures Endpoints([v, w]) == [Endpoint(v.lo, 1), Endpoint(v.hi, -1), Endpoint(w.lo, 1), Endpoint(w.hi, -1)]
  {
    assert [v, w][..1] == [v] && [v][..0] == [];
  }

  lemma {:induction false} TwoVotesSorted(a: Endpoint, b: Endpoint, c: Endpoint, d: Endpoint)
    requires a.val < c.val < b.val < d.val
    ensures Sort([a, b, c, d]) == [a, c, b, d]
  {
    var es := [a, b, c, d];
    assert es[..3] == [a, b, c] && es[..3][..2] == [a, b] && es[..3][..2][..1] == [a] && es[..3][..2][..1][..0] == [];
    assert Sort([a]) == [a] && Sort([a, b]) == [a, b];
    assert [a, b][..1] == [a];
    assert Insert([a, b], c) == Insert([a], c) + [b] == [a, c, b];
  }

  /** What one step v leaves for the next verdict v' on the same voters. */
  predicate Settled(v: Verdict, v': Verdict) {
    var mid, mid' := v.consensus.mid, v'.consensus.mid;
    if Abs(mid) <= STEP_CAP_SECS then v'.reason == InBand && Abs(mid') <= 1
    else
      && Abs(mid) - STEP_CAP_SECS - 1 <= Abs(mid') <= Abs(mid) - STEP_CAP_SECS + 1
      && (mid' == 0 || (mid' < 0 <==> mid < 0))
  }

  lemma {:induction false} SettledDecision(p: Policy, p': Policy, c: Consensus, c': Consensus, up: u32, up': u32)
    requires var v := Decide(p, c, false, up);
             v.kind == Step && MovedBy(c, c', v.delta)
    requires p'.quorum == p.quorum
    ensures Settled(Decide(p, c, false, up), Decide(p', c', false, up'))
  {
  }

  /**
   * After a consensus step the same voters find the clock in band when the
   * step was not capped; a capped step takes one hour off the skew and never
   * overshoots.
   */
  lemma {:induction false} StepSettles(p: Policy, p': Policy, slots: seq<Slot>, local: u32, up: u32, local': u32, up': u32)
    requires local >= p.buildEpoch && local' >= p'.buildEpoch && p'.quorum == p.quorum
    requires Evaluate(p, slots, local, up).kind == Step
    requires SameVoters(slots, local, up, local', up', false, Evaluate(p, slots, local, up).delta)
    ensures Settled(Evaluate(p, slots, local, up), Evaluate(p', slots, local', up'))
  {
    var d := Evaluate(p, slots, local, up).delta;
    ConsensusMoves(slots, local, up, local', up', false, d);
    var c, c' := ConsensusOf(Votes(slots, local, up, false)), ConsensusOf(Votes(slots, local', up', false));
    assert Evaluate(p, slots, local, up) == Decide(p, c, false, up);
    assert Evaluate(p', slots, local', up') == Decide(p', c', false, up');
    SettledDecision(p, p', c, c', up, up');
  }

  /** One evaluation: the policy, the clock and the uptime. */
  datatype Moment = Moment(p: Policy, local: u32, up: u32)

  ghost function VerdictAt(slots: seq<Slot>, m: Moment): Verdict {
    Evaluate(m.p, slots, m.local, m.up)
  }

  /** Every evaluation but the last asks for a step, and the next one finds the clock moved by it. */
  ghost predicate Stepping(slots: seq<Slot>, ms: seq<Moment>) {
    && (forall k :: 0 <= k < |ms| ==> ms[k].local >= ms[k].p.buildEpoch)
    && (forall k :: 0 <= k < |ms| - 1 ==> StepsTo(slots, ms[k], ms[k + 1]))
  }

  ghost predicate StepsTo(slots: seq<Slot>, m: Moment, m': Moment) {
    && VerdictAt(slots, m).kind == Step
    && SameVoters(slots, m.local, m.up, m'.local, m'.up, false, VerdictAt(slots, m).delta)
  }

  ghost function MidAt(slots: seq<Slot>, m: Moment): int {
    VerdictAt(slots, m).consensus.mid
  }

  /** One step takes off what it says, to within a second, and so never crosses zero by more than that. */
  lemma {:induction false} StepTakesOff(slots: seq<Slot>, m: Moment, m': Moment)
    requires StepsTo(slots, m, m') && m.local >= m.p.buildEpoch && m'.local >= m'.p.buildEpoch
    ensures var mid, mid' := MidAt(slots, m), MidAt(slots, m');
            && STEP_TRIGGER_SECS <= Abs(mid) && Abs(mid' - (mid - Capped(mid))) <= 1
            && VerdictAt(slots, m).delta == Capped(mid)
            && (0 < mid ==> -1 <= mid') && (mid < 0 ==> mid' <= 1)
  {
    ConsensusMoves(slots, m.local, m.up, m'.local, m'.up, false, VerdictAt(slots, m).delta);
    hide Votes, ConsensusOf, SameVoters, IsSuppressed, IsRateLimited, Envelope;
    DecidedMid(m, ConsensusOf(Votes(slots, m.local, m.up, false)));
    DecidedMid(m', ConsensusOf(Votes(slots, m'.local, m'.up, false)));
  }

  lemma {:induction false} DecidedMid(m: Moment, c: Consensus)
    ensures var v := Decide(m.p, c, false, m.up); v.consensus == c && (v.kind == Step ==> c.valid && STEP_TRIGGER_SECS <= Abs(c.mid) && v.delta == Capped(c.mid))
  {
  }

  /**
   * However often the policy is asked with the same voters, a clock x seconds off is stepped at
   * most x / 3599 + 1 times; each step brings mid nearer and none overshoots by more than a second.
   */
  lemma {:induction false} StepsConverge(slots: seq<Slot>, ms: seq<Moment>)
    requires ms != [] && Stepping(slots, ms)
    ensures |ms| - 1 <= Abs(MidAt(slots, ms[0])) / (STEP_CAP_SECS - 1) + 1
    ensures forall k :: 0 <= k < |ms| - 1 ==> Nearer(MidAt(slots, ms[k]), MidAt(slots, ms[k + 1]))
  {
    hide StepsTo, MidAt;
    if |ms| > 1 {
      assert Stepping(slots, ms[1..]);
      StepsConverge(slots, ms[1..]);
      StepTakesOff(slots, ms[0], ms[1]);
      if |ms| > 2 {
        assert StepsTo(slots, ms[1], ms[2]);
        StepTakesOff(slots, ms[1], ms[2]);
      }
      forall k | 0 <= k < |ms| - 1 ensures Nearer(MidAt(slots, ms[k]), MidAt(slots, ms[k + 1])) {
        if k > 0 { assert ms[1..][k - 1] == ms[k] && ms[1..][k - 1 + 1] == ms[k + 1]; }
      }
    }
  }

  predicate Nearer(mid: int, mid': int) {
    && STEP_TRIGGER_SECS <= Abs(mid) && Abs(mid' - (mid - Capped(mid))) <= 1 && Abs(mid') < Abs(mid)
    && (0 < mid ==> -1 <= mid') && (mid < 0 ==> mid' <= 1)
  }

  // ---- The sample table ------------------------------------------------------

  lemma {:induction false} HeardKeepsTable(before: seq<Slot>, prefix: Prefix, ts: u32, hops: u8, up: u32, after: seq<Slot>)
    requires TableOk(before) && HeardAdvert(before, prefix, ts, hops, up, after)
    ensures TableOk(after) && |after| == |before|
  {
  }

  /** Protected voters: a tenured sender heard within the last day keeps its slot, whoever else advertises. */
  lemma {:induction false} TenuredKeepsSlot(before: seq<Slot>, prefix: Prefix, ts: u32, hops: u8, up: u32, after: seq<Slot>, i: nat)
    requires HeardAdvert(before, prefix, ts, hops, up, after)
    requires i < |before| && before[i].used && SlotTenured(before[i], up) && !Silent(before[i], up)
    ensures i < |after| && after[i].used && after[i].prefix == before[i].prefix
    ensures before[i].prefix != prefix ==> after[i] == before[i]
  {
  }

  /** A sender's stored vote never goes back: replays and older adverts change nothing. */
  lemma {:induction false} VoteNeverRegresses(before: seq<Slot>, prefix: Prefix, ts: u32, hops: u8, up: u32, after: seq<Slot>, i: nat)
    requires TableOk(before) && HeardAdvert(before, prefix, ts, hops, up, after)
    requires i < |before| && before[i].used && i < |after| && after[i].prefix == before[i].prefix
    ensures after[i] == before[i]
            || (prefix == before[i].prefix && before[i].advertTs < after[i].advertTs == ts)
  {
  }

  /**
   * A known sender's newer advert: a stamp that is off by more than 45 s and 150 ppm of the time since
   * its last one restarts its tenure, so that it casts no normal vote for an hour; any other counts.
   */
  lemma {:induction false} TenureRestartsExactlyWhen(before: seq<Slot>, prefix: Prefix, ts: u32, hops: u8, up: u32, after: seq<Slot>, i: nat)
    requires TableOk(before) && HeardAdvert(before, prefix, ts, hops, up, after)
    requires i < |before| && before[i].used && before[i].prefix == prefix && hops <= 3 && before[i].advertTs < ts
    ensures |after| == |before| && forall k :: 0 <= k < |after| && k != i ==> after[k] == before[k]
    ensures var s, s' := before[i], after[i];
            var elapsed := (up - s.arrivalUptime) % U32_RANGE;
            && s'.used && s'.prefix == prefix && s'.advertTs == ts && s'.arrivalUptime == up && s'.hops == hops
            && if Abs(ts - s.advertTs - elapsed) > 45 + elapsed * 150 / 1_000_000
               then s'.firstUptime == up && s'.count == 1 && forall t: u32 :: up <= t < up + 3600 ==> !SlotEligible(s', t, false)
               else s'.firstUptime == s.firstUptime && s'.count == Min(s.count + 1, 0xFFFF)
  {
    var s := before[i];
    assert FindSlot(before, prefix) == i;
    hide TableOk, FindSlot, FirstFree;
    assert Sub32(up, s.arrivalUptime) == (up - s.arrivalUptime) % U32_RANGE;
    assert after == before[i := Refreshed(s, ts, hops, up)];
  }

  /** A slot that a newcomer may have: free, or farther away and young or silent for a day. */
  predicate Yields(s: Slot, hops: u8, up: u32) {
    || !s.used
    || (s.hops > hops &&
        ((up - s.firstUptime) % U32_RANGE < 3600 || s.count < 2 || (up - s.arrivalUptime) % U32_RANGE > 24 * 3600))
  }

  /** A free slot goes first, then the farthest, of those the one heard least, of those the stalest. */
  predicate GoesFirst(s: Slot, o: Slot) {
    || !s.used
    || (o.used && (s.hops > o.hops
                   || (s.hops == o.hops && (s.count < o.count || (s.count == o.count && s.arrivalUptime <= o.arrivalUptime)))))
  }

  /** An unknown sender is admitted exactly when it is near and some slot yields to it; all others stay. */
  lemma {:induction false} AdmittedExactlyWhen(before: seq<Slot>, prefix: Prefix, ts: u32, hops: u8, up: u32, after: seq<Slot>)
    requires HeardAdvert(before, prefix, ts, hops, up, after)
    requires forall k :: 0 <= k < |before| ==> !(before[k].used && before[k].prefix == prefix)
    ensures |after| == |before|
    ensures if hops <= 3 && exists k :: 0 <= k < |before| && Yields(before[k], hops, up) then
              exists k :: 0 <= k < |before| && Yields(before[k], hops, up)
                && (forall j :: 0 <= j < |before| && Yields(before[j], hops, up) ==> GoesFirst(before[k], before[j]))
                && after == before[k := Slot(prefix, ts, up, up, 1, hops, true)]
            else after == before
  {
    hide FindSlot, FirstFree;
    forall s: Slot ensures Yields(s, hops, up) <==> !s.used || Displaceable(s, hops, up) {
      hide IsVictim, HeardAdvert;
      assert Sub32(up, s.firstUptime) == (up - s.firstUptime) % U32_RANGE && Sub32(up, s.arrivalUptime) == (up - s.arrivalUptime) % U32_RANGE;
    }
    var free := FirstFree(before);
    if free < |before| {
      assert Yields(before[free], hops, up);
    }
  }

  /** The true time, when an advert arrives at uptime s.arrivalUptime, is arrivalTime; the clock shows local at up. */
  lemma {:induction false} VotesForTheTruthExactlyWhen(s: Slot, local: u32, up: u32, arrivalTime: int)
    requires s.arrivalUptime <= up
    ensures var offset := arrivalTime + (up - s.arrivalUptime) - local;
            var v := SlotVote(s, local, up);
            v.lo <= offset <= v.hi <==> Abs(s.advertTs - arrivalTime) <= 150 + 15 * s.hops
  {
  }

  /** The sender's stamp was right within 150 s and 15 s a hop when it arrived; truth is the true time at uptime up. */
  predicate StampWasHonest(s: Slot, up: u32, truth: int) {
    Abs(s.advertTs - (truth - (up - s.arrivalUptime))) <= 150 + 15 * s.hops
  }

  function CountHonest(slots: seq<Slot>, up: u32, bootstrap: bool, truth: int): nat {
    if slots == [] then 0
    else
      var s := slots[|slots| - 1];
      CountHonest(slots[..|slots| - 1], up, bootstrap, truth)
      + if SlotEligible(s, up, bootstrap) && StampWasHonest(s, up, truth) then 1 else 0
  }

  /** Those whose intervals contain the true offset are exactly the senders whose stamps were honest. */
  lemma {:induction false} HonestSendersAgree(slots: seq<Slot>, local: u32, up: u32, bootstrap: bool, truth: int)
    requires forall s :: s in slots && s.used ==> s.arrivalUptime <= up
    ensures CountAgreeing(slots, local, up, bootstrap, truth - local) == CountHonest(slots, up, bootstrap, truth)
  {
    hide SlotRadius, SlotEligible, SlotSkew, StampWasHonest;
    if slots != [] {
      HonestSendersAgree(slots[..|slots| - 1], local, up, bootstrap, truth);
      var s := slots[|slots| - 1];
      assert s in slots;
      AgreesWhenHonest(s, local, up, bootstrap, truth);
    }
  }

  lemma {:induction false} AgreesWhenHonest(s: Slot, local: u32, up: u32, bootstrap: bool, truth: int)
    requires s.used ==> s.arrivalUptime <= up
    ensures SlotEligible(s, up, bootstrap) ==>
              (Abs(SlotSkew(s, local, up) - (truth - local)) <= SlotRadius(s) <==> StampWasHonest(s, up, truth))
  {
  }

  /**
   * A clock before the build epoch is set: three senders that agree on some offset step it, unless a
   * gate is closed or some sender's interval reaches below 750 s ahead. It lands 150 s short of mid.
   */
  lemma {:induction false} BootstrapSteps(p: Policy, slots: seq<Slot>, local: u32, up: u32, t: int)
    requires local < p.buildEpoch && 3 <= CountAgreeing(slots, local, up, true, t)
    requires forall s :: s in slots && SlotEligible(s, up, true) ==> 750 <= SlotSkew(s, local, up) - SlotRadius(s)
    requires !IsSuppressed(p, up) && !IsRateLimited(p, up)
    ensures var v := Evaluate(p, slots, local, up);
            && v.kind == Step && v.bootstrap && 600 <= v.delta == v.consensus.mid - 150
            && (Applies(p, v, local) <==> local + v.delta < U32_RANGE)
  {
    hide Votes, CountAgreeing, Depth, Intersect, IsSuppressed, IsRateLimited, SlotEligible, SlotSkew, SlotRadius;
    VotesCount(slots, local, up, true, t);
    VotesSayAtLeast(slots, local, up, 750);
    DeepestIsAtLeast(Votes(slots, local, up, true), t, 750);
  }

  lemma {:induction false} VotesSayAtLeast(slots: seq<Slot>, local: u32, up: u32, least: int)
    requires forall s :: s in slots && SlotEligible(s, up, true) ==> least <= SlotSkew(s, local, up) - SlotRadius(s)
    ensures forall v :: v in Votes(slots, local, up, true) ==> least <= v.lo
  {
    hide SlotEligible, SlotSkew, SlotRadius;
    if slots != [] {
      VotesSayAtLeast(slots[..|slots| - 1], local, up, least);
      assert slots[|slots| - 1] in slots;
    }
  }

  lemma {:induction false} SomeoneCovers(votes: seq<Interval>, x: int) returns (i: nat)
    requires 0 < Depth(votes, x)
    ensures i < |votes| && Covers(votes[i], x)
  {
    i := |votes| - 1;
    if !Covers(votes[i], x) {
      i := SomeoneCovers(votes[..|votes| - 1], x);
    }
  }

  lemma {:induction false} DeepestIsAtLeast(votes: seq<Interval>, t: int, least: int)
    requires Proper(votes) && 3 <= Depth(votes, t) && forall v :: v in votes ==> least <= v.lo
    ensures var c := ConsensusOf(votes); c.valid && 3 <= c.votesFor && least <= c.mid
  {
    hide Depth, Intersect;
    assert votes != [];
    IntersectIsDeepest(votes);
    var o := Intersect(votes);
    MidIsInside(o.lo, o.hi);
    assert Depth(votes, t) <= o.count == Depth(votes, o.lo);
    var i := SomeoneCovers(votes, o.lo);
    assert votes[i] in votes;
  }
}
