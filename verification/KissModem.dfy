/** The KISS modem: host frames in, host frames out, and the transmit state machine between them. */
module KissModem {
  import opened Words
  import opened Wrappers
  import opened KissFraming
  import opened KissQueue

  const MAX_PACKET_SIZE := 255

  const CMD_DATA := 0x00
  const CMD_TXDELAY := 0x01
  const CMD_PERSISTENCE := 0x02
  const CMD_SLOTTIME := 0x03
  const CMD_TXTAIL := 0x04
  const CMD_FULLDUPLEX := 0x05
  const CMD_SETHARDWARE: u8 := 0x06
  const CMD_RETURN := 0xFF
  const HW_RESP_ERROR: u8 := 0xF1
  const HW_RESP_TX_DONE: u8 := 0xF8
  const HW_RESP_RX_META: u8 := 0xF9
  const HW_ERR_TX_BUSY: u8 := 0x07

  const BUSY_ERROR := Frame(CMD_SETHARDWARE, [HW_RESP_ERROR, HW_ERR_TX_BUSY])

  datatype TxState = Idle | WaitClear | SlotWait | Delay | Sending | DonePending

  // ---- The transmit state machine ------------------------------------------------

  datatype TxParams = TxParams(txdelay: u8, persistence: u8, slottime: u8, fullduplex: u8)

  datatype TxTimers = TxTimers(state: TxState, timer: u32, csmaStart: u32)

  // What the radio and the clock answer during one pass.
  datatype RadioView = RadioView(
    now: u32,
    receiving: bool,
    rand: u8,
    startOk: bool,
    active: bool,
    complete: bool,
    airtimeMax: u32,
    airtimePacket: u32)

  /** One and a half times the airtime, in uint32_t arithmetic. */
  function TxTimeout(airtime: u32): u32 {
    airtime * 3 % U32_RANGE / 2
  }

  datatype TxOutcome = Waiting | OnAir | Finished(result: u8)

  datatype TxNext = TxNext(timers: TxTimers, outcome: TxOutcome)

  /** One pass of the state machine, short of reporting a finished packet. */
  function Advance(t: TxTimers, p: TxParams, pending: bool, v: RadioView): TxNext {
    var elapsed := Sub32(v.now, t.timer);
    match t.state
    case Idle =>
      if !pending then TxNext(t, Waiting)
      else TxNext(TxTimers(if p.fullduplex != 0 then Delay else WaitClear, v.now, v.now), Waiting)
    case WaitClear =>
      if !v.receiving then
        TxNext(t.(state := if v.rand <= p.persistence then Delay else SlotWait, timer := v.now), Waiting)
      else if elapsed >= TxTimeout(v.airtimeMax) then TxNext(t.(state := Delay, timer := v.now), Waiting)
      else TxNext(t, Waiting)
    case SlotWait =>
      if elapsed >= p.slottime * 10 then TxNext(t.(state := WaitClear, timer := v.now), Waiting)
      else TxNext(t, Waiting)
    case Delay =>
      if elapsed < p.txdelay * 10 then TxNext(t, Waiting)
      else if v.startOk then TxNext(t.(state := Sending, timer := v.now), OnAir)
      else if Sub32(v.now, t.csmaStart) < TxTimeout(v.airtimeMax) then
        TxNext(t.(state := SlotWait, timer := v.now), Waiting)
      else TxNext(t.(state := DonePending), Finished(0))
    case Sending =>
      if v.complete then TxNext(t.(state := DonePending), Finished(1))
      else if !v.active && elapsed >= TxTimeout(v.airtimePacket) then TxNext(t.(state := DonePending), Finished(0))
      else TxNext(t, Waiting)
    case DonePending => TxNext(t, Waiting)
  }

  const NEVER: u32 := 0xFFFF_FFFF

  /** Milliseconds until the state machine has a timed transition. */
  function MsUntilNextTx(t: TxTimers, p: TxParams, pending: bool, now: u32, airtimePacket: u32): u32 {
    var elapsed := Sub32(now, t.timer);
    match t.state
    case WaitClear =>
      var slot := if p.slottime != 0 then p.slottime * 10 else 10;
      slot - elapsed % slot
    case SlotWait => if elapsed >= p.slottime * 10 then 0 else p.slottime * 10 - elapsed
    case Delay => if elapsed >= p.txdelay * 10 then 0 else p.txdelay * 10 - elapsed
    case Sending =>
      var wait := TxTimeout(airtimePacket);
      if elapsed >= wait then NEVER else wait - elapsed
    case _ => if pending && t.state == Idle then 0 else NEVER
  }

  /**
   * The wait never oversleeps a timed transition: until it is over, and as
   * long as the radio reports no completion, a pass changes nothing.
   * Clear-channel waiting is polled: it asks for at most one slot. A finished
   * packet waits for the host, with no time set.
   */
  lemma {:induction false} TxWaitIsExact(t: TxTimers, p: TxParams, pending: bool, now: u32, later: nat, v: RadioView)
    requires now <= later < now + MsUntilNextTx(t, p, pending, now, v.airtimePacket)
    requires v.now == later % U32_RANGE && later < now + U32_RANGE - Sub32(now, t.timer)
    requires t.state == Sending ==> !v.complete && MsUntilNextTx(t, p, pending, now, v.airtimePacket) != NEVER
    ensures t.state !in {WaitClear, DonePending} ==> Advance(t, p, pending, v) == TxNext(t, Waiting)
    ensures t.state == DonePending ==> MsUntilNextTx(t, p, pending, now, v.airtimePacket) == NEVER
    ensures t.state == WaitClear ==> 1 <= MsUntilNextTx(t, p, pending, now, v.airtimePacket) <= 2550
  {
    hide Sub32, TxTimeout;
    ElapsedGoesOn(t.timer, now, later);
  }

  lemma {:induction false} ElapsedGoesOn(timer: u32, now: u32, later: nat)
    requires now <= later < now + U32_RANGE - Sub32(now, timer)
    ensures Sub32(later % U32_RANGE, timer) == Sub32(now, timer) + (later - now)
  {
  }

  /** And when it is over the machine does leave the state it waited in. */
  lemma {:induction false} TxWaitEndsInAStep(t: TxTimers, p: TxParams, pending: bool, now: u32, v: RadioView)
    requires t.state in {Idle, SlotWait, Delay} || (t.state == Sending && !v.active)
    requires MsUntilNextTx(t, p, pending, now, v.airtimePacket) != NEVER
    requires v.now == (now + MsUntilNextTx(t, p, pending, now, v.airtimePacket)) % U32_RANGE
    ensures Advance(t, p, pending, v).timers.state != t.state
  {
    var wait := MsUntilNextTx(t, p, pending, now, v.airtimePacket);
    var elapsed := Sub32(now, t.timer);
    assert elapsed + wait < U32_RANGE ==> Sub32(v.now, t.timer) == elapsed + wait;
  }

  /** No time is set exactly when nothing is to be sent, the host is waited for, or the radio past its time. */
  lemma {:induction false} NoWaitExactlyWhen(t: TxTimers, p: TxParams, pending: bool, now: u32, airtimePacket: u32)
    ensures MsUntilNextTx(t, p, pending, now, airtimePacket) == NEVER <==>
            || (t.state == Idle && !pending)
            || t.state == DonePending
            || (t.state == Sending && airtimePacket * 3 % U32_RANGE / 2 <= (now - t.timer) % U32_RANGE)
  {
    assert Sub32(now, t.timer) == (now - t.timer) % U32_RANGE;
  }

  /** While the channel is not clear it is looked at once a slot, counted from the timer. */
  lemma {:induction false} PolledOnceASlot(t: TxTimers, p: TxParams, pending: bool, now: u32, airtimePacket: u32) returns (n: nat)
    requires t.state == WaitClear
    ensures var slot := if p.slottime == 0 then 10 else 10 * p.slottime;
            var wait := MsUntilNextTx(t, p, pending, now, airtimePacket);
            1 <= wait <= slot && Sub32(now, t.timer) + wait == slot * n
  {
    hide Sub32;
    n := NextMultiple(Sub32(now, t.timer), if p.slottime == 0 then 10 else 10 * p.slottime);
  }

  lemma {:induction false} NextMultiple(x: nat, m: nat) returns (n: nat)
    requires 0 < m
    ensures x + (m - x % m) == m * n
  {
    n := x / m + 1;
  }

  // ---- The books -------------------------------------------------------------------

  // Packet n, as it went on air.
  datatype Aired = Aired(n: nat, bytes: seq<u8>)

  // What the modem did with the packets it accepted: accepted and aired are histories, frames is
  // everything queued for the host, the rest is the present state.
  datatype Books = Books(
    accepted: seq<seq<u8>>,
    aired: seq<Aired>,
    frames: seq<Frame>,
    pending: bool,
    packet: seq<u8>,
    state: TxState,
    donePending: bool,
    result: u8)

  function TxDoneFrame(result: u8): Frame {
    Frame(CMD_SETHARDWARE, [HW_RESP_TX_DONE] + [result])
  }

  predicate IsTxDone(f: Frame) {
    f.kind == CMD_SETHARDWARE && f.data != [] && f.data[0] == HW_RESP_TX_DONE
  }

  /** The results of the TX_DONE frames queued so far, in order. */
  function Results(frames: seq<Frame>): seq<u8> {
    if frames == [] then []
    else
      var f := frames[|frames| - 1];
      Results(frames[..|frames| - 1]) + if IsTxDone(f) && |f.data| == 2 then [f.data[1]] else []
  }

  ghost predicate WasAired(aired: seq<Aired>, n: nat) {
    exists i :: 0 <= i < |aired| && aired[i].n == n
  }

  ghost predicate BooksOk(b: Books) {
    && |b.accepted| == |Results(b.frames)| + (if b.pending then 1 else 0)
    && (b.pending ==> b.packet == b.accepted[|b.accepted| - 1] && 0 < |b.packet| <= MAX_PACKET_SIZE)
    && (b.state != Idle ==> b.pending)
    && (b.donePending <==> b.state == DonePending)
    && (forall i :: 0 <= i < |b.aired| ==> b.aired[i].n < |b.accepted| && b.aired[i].bytes == b.accepted[b.aired[i].n])
    && (forall i, j :: 0 <= i < j < |b.aired| ==> b.aired[i].n < b.aired[j].n)
    && (b.state != Sending && b.state != DonePending ==>
          forall i :: 0 <= i < |b.aired| ==> b.aired[i].n < |Results(b.frames)|)
    && (b.state == Sending || (b.state == DonePending && b.result == 1) ==> WasAired(b.aired, |b.accepted| - 1))
    && (forall k :: 0 <= k < |Results(b.frames)| && Results(b.frames)[k] == 1 ==> WasAired(b.aired, k))
  }

  lemma {:induction false} ResultsGrow(frames: seq<Frame>, f: Frame)
    ensures Results(frames + [f]) == Results(frames) + if IsTxDone(f) && |f.data| == 2 then [f.data[1]] else []
  {
    assert (frames + [f])[..|frames|] == frames;
  }

  lemma {:induction false} OtherFrameKeepsBooks(b: Books, f: Frame)
    requires BooksOk(b) && !IsTxDone(f)
    ensures BooksOk(b.(frames := b.frames + [f]))
  {
    ResultsGrow(b.frames, f);
    assert Results(b.frames) + [] == Results(b.frames);
  }

  function Accepted(b: Books, packet: seq<u8>): Books {
    b.(accepted := b.accepted + [packet], pending := true, packet := packet)
  }

  // The packets taken from the host so far, and whether one is waiting to be sent.
  datatype Intake = Intake(accepted: seq<seq<u8>>, pending: bool)

  predicate Takes(frame: seq<u8>, pending: bool) {
    frame != [] && frame[0] == CMD_DATA && 1 <= |frame| - 1 <= MAX_PACKET_SIZE && !pending
  }

  /** A data frame is accepted exactly when it carries a packet that fits and none is pending. */
  function TakeIn(i: Intake, frame: seq<u8>): Intake {
    if Takes(frame, i.pending)
    then Intake(i.accepted + [frame[1..]], true) else i
  }

  function TakeAll(i: Intake, frames: seq<seq<u8>>): Intake {
    if frames == [] then i else TakeIn(TakeAll(i, frames[..|frames| - 1]), frames[|frames| - 1])
  }

  lemma {:induction false} NothingReceivedYet(start: Rx, i: Intake, input: seq<u8>)
    ensures ReceiveAll(start, input[..0]) == AllReceived(start, []) && TakeAll(i, []) == i && input[0..] == input
  {
  }

  /** One byte more of the input: the receiver moves on, and a frame it completes is taken in after the others. */
  lemma {:induction false} ReceivesOneMore(start: Rx, input: seq<u8>, k: nat, i: Intake)
    requires k < |input|
    ensures var before, after := ReceiveAll(start, input[..k]), ReceiveAll(start, input[..k + 1]);
            var r := Receive(before.rx, input[k]);
            && after.rx == r.rx && input[k..][1..] == input[k + 1..]
            && TakeAll(i, after.frames)
               == if r.frame.Some? then TakeIn(TakeAll(i, before.frames), r.frame.value) else TakeAll(i, before.frames)
  {
    hide Receive, TakeIn;
    assert input[..k + 1][..k] == input[..k] && input[..k + 1][k] == input[k];
    var before := ReceiveAll(start, input[..k]);
    var r := Receive(before.rx, input[k]);
    if r.frame.Some? {
      assert (before.frames + [r.frame.value])[..|before.frames|] == before.frames;
    } else {
      assert before.frames + [] == before.frames;
    }
  }

  lemma {:induction false} AcceptKeepsBooks(b: Books, packet: seq<u8>)
    requires BooksOk(b) && !b.pending && 0 < |packet| <= MAX_PACKET_SIZE
    ensures BooksOk(Accepted(b, packet))
  {
  }

  /** What one pass of the state machine does to the books. */
  function Passed(b: Books, next: TxNext): Books {
    match next.outcome
    case Waiting => b.(state := next.timers.state)
    case OnAir => b.(state := next.timers.state, aired := b.aired + [Aired(Max(|b.accepted| - 1, 0), b.packet)])
    case Finished(result) => b.(state := next.timers.state, donePending := true, result := result)
  }

  lemma {:induction false} PassKeepsBooks(b: Books, t: TxTimers, p: TxParams, v: RadioView)
    requires BooksOk(b) && t.state == b.state
    ensures BooksOk(Passed(b, Advance(t, p, b.pending, v)))
  {
    hide BooksOk, Passed;
    BusyMeansPending(b);
    var next := Advance(t, p, b.pending, v);
    match next.outcome
    case Waiting => WaitKeepsBooks(b, next);
    case OnAir => AirKeepsBooks(b, next);
    case Finished(_) => FinishKeepsBooks(b, next);
  }

  lemma {:induction false} BusyMeansPending(b: Books)
    requires BooksOk(b)
    ensures b.state != Idle ==> b.pending
  {
  }

  lemma {:induction false} WaitKeepsBooks(b: Books, next: TxNext)
    requires BooksOk(b) && next.outcome == Waiting
    requires b.state == next.timers.state || (b.pending && b.state in {Idle, WaitClear, SlotWait, Delay} && next.timers.state in {WaitClear, SlotWait, Delay})
    ensures BooksOk(Passed(b, next))
  {
  }

  lemma {:induction false} FinishKeepsBooks(b: Books, next: TxNext)
    requires BooksOk(b) && next.outcome.Finished? && next.timers.state == DonePending && b.pending
    requires b.state == Sending || (b.state == Delay && next.outcome.result == 0)
    ensures BooksOk(Passed(b, next))
  {
  }

  lemma {:induction false} AirKeepsBooks(b: Books, next: TxNext)
    requires BooksOk(b) && next.outcome == OnAir && b.state == Delay && next.timers.state == Sending
    ensures BooksOk(Passed(b, next))
  {
    var c := Passed(b, next);
    assert c.aired[|b.aired|].n == |b.accepted| - 1;
    assert forall k :: WasAired(b.aired, k) ==> WasAired(c.aired, k) by {
      forall k | WasAired(b.aired, k) ensures WasAired(c.aired, k) {
        var i :| 0 <= i < |b.aired| && b.aired[i].n == k;
        assert c.aired[i].n == k;
      }
    }
  }

  function Reported(b: Books): Books {
    b.(frames := b.frames + [TxDoneFrame(b.result)], donePending := false, pending := false, state := Idle)
  }

  lemma {:induction false} ReportKeepsBooks(b: Books)
    requires BooksOk(b) && b.state == DonePending
    ensures BooksOk(Reported(b))
  {
    ResultsGrow(b.frames, TxDoneFrame(b.result));
  }

  // ---- Runs ------------------------------------------------------------------------

  // What can happen to a modem: a host frame comes in, the state machine makes a pass, a finished
  // packet's result is queued, or some other frame is, a heard packet or a reply.
  datatype Happening =
    | HostFrame(frame: seq<u8>)
    | Pass(params: TxParams, view: RadioView)
    | Report
    | Queued(f: Frame)

  datatype Modem = Modem(books: Books, timers: TxTimers)

  const NEW_MODEM := Modem(Books([], [], [], false, [], Idle, false, 0), TxTimers(Idle, 0, 0))

  function Happen(m: Modem, h: Happening): Modem {
    match h
    case HostFrame(frame) =>
      if Takes(frame, m.books.pending) then m.(books := Accepted(m.books, frame[1..])) else m
    case Pass(params, view) =>
      if m.timers.state == DonePending then m
      else
        var next := Advance(m.timers, params, m.books.pending, view);
        Modem(Passed(m.books, next), next.timers)
    case Report =>
      if m.timers.state != DonePending then m
      else Modem(Reported(m.books), m.timers.(state := Idle))
    case Queued(f) =>
      if IsTxDone(f) then m else m.(books := m.books.(frames := m.books.frames + [f]))
  }

  function Run(hs: seq<Happening>): Modem {
    if hs == [] then NEW_MODEM else Happen(Run(hs[..|hs| - 1]), hs[|hs| - 1])
  }

  lemma {:induction false} RunAppends(hs: seq<Happening>, h: Happening)
    ensures Run(hs + [h]) == Happen(Run(hs), h)
  {
    assert (hs + [h])[..|hs|] == hs;
  }

  /** A host frame brings a packet exactly when it is a data frame of 1 to 255 bytes and none is pending. */
  lemma {:induction false} TakenExactlyWhen(hs: seq<Happening>, frame: seq<u8>)
    ensures var b, b' := Run(hs).books, Run(hs + [HostFrame(frame)]).books;
            if 2 <= |frame| <= 256 && frame[0] == 0 && !b.pending
            then b'.accepted == b.accepted + [frame[1..]] && b'.pending && b'.packet == frame[1..]
            else b' == b
  {
    hide Run;
    RunAppends(hs, HostFrame(frame));
  }

  lemma {:induction false} RunReports(hs: seq<Happening>)
    requires Run(hs).timers.state == DonePending
    ensures Run(hs + [Report]) == Modem(Reported(Run(hs).books), Run(hs).timers.(state := Idle))
  {
    hide Run;
    RunAppends(hs, Report);
  }

  lemma {:induction false} RunPasses(hs: seq<Happening>, params: TxParams, v: RadioView)
    requires Run(hs).timers.state != DonePending
    ensures var m := Run(hs);
            var next := Advance(m.timers, params, m.books.pending, v);
            Run(hs + [Pass(params, v)]) == Modem(Passed(m.books, next), next.timers)
  {
    hide Run;
    RunAppends(hs, Pass(params, v));
  }

  lemma {:induction false} HappenKeepsBooks(m: Modem, h: Happening)
    requires BooksOk(m.books) && m.timers.state == m.books.state
    ensures BooksOk(Happen(m, h).books) && Happen(m, h).timers.state == Happen(m, h).books.state
  {
    hide BooksOk, Advance, IsTxDone;
    match h {
      case HostFrame(frame) =>
        if Happen(m, h) != m { AcceptKeepsBooks(m.books, frame[1..]); }
      case Pass(params, view) => PassKeepsBooks(m.books, m.timers, params, view);
      case Report =>
        if m.timers.state == DonePending { ReportKeepsBooks(m.books); }
      case Queued(f) =>
        if !IsTxDone(f) { OtherFrameKeepsBooks(m.books, f); }
    }
  }

  lemma {:induction false} RunsKeepBooks(hs: seq<Happening>)
    ensures BooksOk(Run(hs).books) && Run(hs).timers.state == Run(hs).books.state
  {
    if hs == [] {
      NewBooksOk();
    } else {
      RunsKeepBooks(hs[..|hs| - 1]);
      HappenKeepsBooks(Run(hs[..|hs| - 1]), hs[|hs| - 1]);
    }
  }

  /**
   * Conservation, in every run: accepted packets are those reported done plus the pending one;
   * each goes on air at most once, with the bytes the host sent; and a success report means it
   * did go on air.
   */
  lemma {:induction false} PacketsAreConserved(hs: seq<Happening>)
    ensures var b := Run(hs).books;
            && |b.accepted| == |Results(b.frames)| + (if b.pending then 1 else 0)
            && |b.aired| <= |b.accepted|
            && (forall i, j :: 0 <= i < j < |b.aired| ==> b.aired[i].n != b.aired[j].n)
            && (forall i :: 0 <= i < |b.aired| ==> b.aired[i].n < |b.accepted| && b.aired[i].bytes == b.accepted[b.aired[i].n])
            && (forall k :: 0 <= k < |Results(b.frames)| && Results(b.frames)[k] == 1 ==> WasAired(b.aired, k))
  {
    RunsKeepBooks(hs);
    var b := Run(hs).books;
    if b.aired != [] {
      AiredInOrder(b.aired, |b.aired| - 1);
    }
  }

  /** Nothing accepted, aired or queued is ever taken back. */
  ghost predicate Grows(b: Books, c: Books) {
    b.accepted <= c.accepted && b.aired <= c.aired && b.frames <= c.frames
  }

  lemma {:induction false} HistoriesGrow(hs: seq<Happening>, k: nat)
    requires k <= |hs|
    ensures Grows(Run(hs[..k]).books, Run(hs).books)
    decreases |hs|
  {
    if k == |hs| {
      assert hs[..k] == hs;
    } else {
      var front := hs[..|hs| - 1];
      assert front[..k] == hs[..k];
      HistoriesGrow(front, k);
      HappenGrows(Run(front), hs[|hs| - 1]);
      hide Run, Happen;
      GrowsOn(Run(hs[..k]).books, Run(front).books, Run(hs).books);
    }
  }

  lemma {:induction false} HappenGrows(m: Modem, h: Happening)
    ensures Grows(m.books, Happen(m, h).books)
  {
    hide Advance, TakeIn, IsTxDone;
  }

  lemma {:induction false} GrowsOn(a: Books, b: Books, c: Books)
    requires Grows(a, b) && Grows(b, c)
    ensures Grows(a, c)
  {
  }

  /** A packet pending in a run stays so, with the same bytes, until its result is queued. */
  lemma {:induction false} PendingStaysTheSame(hs: seq<Happening>, k: nat)
    requires k <= |hs|
    ensures StaysPending(Run(hs[..k]).books, Run(hs).books)
  {
    hide Run, BooksOk, Grows, StaysPending;
    HistoriesGrow(hs, k);
    RunsKeepBooks(hs[..k]);
    RunsKeepBooks(hs);
    LastStaysPending(Run(hs[..k]).books, Run(hs).books);
  }

  lemma {:induction false} LastStaysPending(b: Books, c: Books)
    requires BooksOk(b) && BooksOk(c) && Grows(b, c)
    ensures StaysPending(b, c)
  {
    assert |b.accepted| == |Results(b.frames)| + (if b.pending then 1 else 0) && (b.pending ==> b.packet == b.accepted[|b.accepted| - 1]);
    assert |c.accepted| == |Results(c.frames)| + (if c.pending then 1 else 0) && (c.pending ==> c.packet == c.accepted[|c.accepted| - 1]);
    hide BooksOk, Results;
  }

  ghost predicate StaysPending(b: Books, c: Books) {
    b.pending && |Results(b.frames)| == |Results(c.frames)| ==> c.pending && c.packet == b.packet
  }

  lemma {:induction false} AiredInOrder(aired: seq<Aired>, i: nat)
    requires i < |aired| && forall i, j :: 0 <= i < j < |aired| ==> aired[i].n < aired[j].n
    ensures i <= aired[i].n
  {
    if 0 < i {
      AiredInOrder(aired, i - 1);
    }
  }

  // ---- What a result means -----------------------------------------------------------

  /** The radio reports, at this happening, that the packet being sent is complete. */
  predicate Completes(m: Modem, h: Happening) {
    h.Pass? && h.view.complete && m.timers.state == Sending
  }

  /** The packets the radio has reported complete, by their number among those accepted. */
  function Completed(hs: seq<Happening>): set<nat> {
    if hs == [] then {}
    else
      var front, h := hs[..|hs| - 1], hs[|hs| - 1];
      Completed(front) + CompletedBy(Run(front), h)
  }

  function CompletedBy(m: Modem, h: Happening): set<nat> {
    if Completes(m, h) && m.books.accepted != [] then {|m.books.accepted| - 1} else {}
  }

  /** Results say 1 for the packets complete and 0 for the others; the pending one's will. */
  ghost predicate ResultsSay(b: Books, done: set<nat>) {
    && (forall k: nat :: k < |Results(b.frames)| ==> Results(b.frames)[k] == if k in done then 1 else 0)
    && (b.pending && b.state == DonePending ==> b.result == if |b.accepted| - 1 in done then 1 else 0)
    && (b.pending && b.state != DonePending ==> |b.accepted| - 1 !in done)
    && forall k: nat :: k in done ==> k < |b.accepted|
  }

  lemma {:induction false} HappenKeepsResults(m: Modem, h: Happening, done: set<nat>)
    requires BooksOk(m.books) && m.timers.state == m.books.state && ResultsSay(m.books, done)
    ensures ResultsSay(Happen(m, h).books, done + CompletedBy(m, h))
  {
    hide BooksOk, Results, IsTxDone;
    BooksBalance(m.books);
    match h
    case HostFrame(frame) =>
    case Pass(params, view) => PassKeepsResults(m, params, view, done);
    case Report => ResultsGrow(m.books.frames, TxDoneFrame(m.books.result)); TxDoneIsResult(m.books.result);
    case Queued(f) =>
      ResultsGrow(m.books.frames, f);
      assert Results(m.books.frames) + [] == Results(m.books.frames);
  }

  lemma {:induction false} TxDoneIsResult(result: u8)
    ensures IsTxDone(TxDoneFrame(result)) && TxDoneFrame(result).data == [HW_RESP_TX_DONE, result]
  {
  }

  lemma {:induction false} BooksBalance(b: Books)
    requires BooksOk(b)
    ensures |b.accepted| == |Results(b.frames)| + (if b.pending then 1 else 0) && (b.state != Idle ==> b.pending)
  {
  }

  lemma {:induction false} PassKeepsResults(m: Modem, params: TxParams, v: RadioView, done: set<nat>)
    requires m.timers.state == m.books.state && ResultsSay(m.books, done)
    requires |m.books.accepted| == |Results(m.books.frames)| + (if m.books.pending then 1 else 0)
    requires m.books.state != Idle ==> m.books.pending
    ensures ResultsSay(Happen(m, Pass(params, v)).books, done + CompletedBy(m, Pass(params, v)))
  {
    hide Results;
  }

  lemma {:induction false} RunsSayResults(hs: seq<Happening>)
    ensures ResultsSay(Run(hs).books, Completed(hs))
  {
    hide Happen, ResultsSay, BooksOk, CompletedBy;
    if hs == [] {
      NothingCompleted();
    } else {
      var front := hs[..|hs| - 1];
      RunsSayResults(front);
      RunsKeepBooks(front);
      HappenKeepsResults(Run(front), hs[|hs| - 1], Completed(front));
    }
  }

  lemma {:induction false} NothingCompleted()
    ensures ResultsSay(NEW_MODEM.books, {})
  {
  }

  lemma {:induction false} CompletedExactlyWhen(hs: seq<Happening>, n: nat)
    ensures n in Completed(hs) <==>
            exists i: nat :: i < |hs| && Completes(Run(hs[..i]), hs[i]) && |Run(hs[..i]).books.accepted| == n + 1
  {
    hide Run, Completes;
    if hs != [] {
      var last := |hs| - 1;
      var front := hs[..last];
      CompletedExactlyWhen(front, n);
      assert forall i: nat :: i < last ==> front[..i] == hs[..i] && front[i] == hs[i];
    }
  }

  /**
   * In every run: the n-th result queued is 1 if the radio reported complete, in some pass while the
   * n-th packet was being sent, and 0 if it never did.
   */
  lemma {:induction false} ResultsAreTrue(hs: seq<Happening>, n: nat)
    requires n < |Results(Run(hs).books.frames)|
    ensures Results(Run(hs).books.frames)[n] ==
            if exists i: nat :: i < |hs| && Completes(Run(hs[..i]), hs[i]) && |Run(hs[..i]).books.accepted| == n + 1 then 1 else 0
  {
    hide Run, Completes, Completed, Results;
    RunsSayResults(hs);
    CompletedExactlyWhen(hs, n);
  }

  // ---- What leads to it --------------------------------------------------------------

  function StateAt(hs: seq<Happening>, k: nat): TxState
    requires k <= |hs|
  {
    Run(hs[..k]).timers.state
  }

  lemma {:induction false} StatesBefore(hs: seq<Happening>, h: Happening, k: nat)
    requires k <= |hs|
    ensures StateAt(hs + [h], k) == StateAt(hs, k)
  {
    assert (hs + [h])[..k] == hs[..k];
  }

  /** The j-th happening is a pass at time now, the machine in another state before it and in s ever since. */
  ghost predicate EnteredAt(hs: seq<Happening>, j: nat, s: TxState, now: u32) {
    && j < |hs| && hs[j].Pass? && hs[j].view.now == now && StateAt(hs, j) != s
    && forall k :: j < k <= |hs| ==> StateAt(hs, k) == s
  }

  /** The j-th happening is a pass at time now that took the packet up, and the machine has not been idle since. */
  ghost predicate TakenUpAt(hs: seq<Happening>, j: nat, now: u32) {
    && j < |hs| && hs[j].Pass? && hs[j].view.now == now && StateAt(hs, j) == Idle
    && forall k :: j < k <= |hs| ==> StateAt(hs, k) != Idle
  }

  /** In every run a timer shows when its state was entered, and csmaStart when the packet was taken up. */
  lemma {:induction false} TimersSayWhen(hs: seq<Happening>)
    ensures var t := Run(hs).timers;
            && (t.state !in {Idle, DonePending} ==> exists j: nat :: EnteredAt(hs, j, t.state, t.timer))
            && (t.state != Idle ==> exists j: nat :: TakenUpAt(hs, j, t.csmaStart))
  {
    hide Run, Happen, StateAt, EnteredAt, TakenUpAt;
    if hs == [] {
      StartsIdle();
    } else {
      var front, h := hs[..|hs| - 1], hs[|hs| - 1];
      var t := Run(front).timers;
      assert hs == front + [h];
      TimersSayWhen(front);
      RunAppends(front, h);
      TimersGoOn(Run(front), h);
      if Run(hs).timers.state !in {Idle, DonePending} {
        if Run(hs).timers.state == t.state {
          var j: nat :| EnteredAt(front, j, t.state, t.timer);
          StillEntered(front, h, j, t.state, t.timer);
        } else {
          EntersNow(front, h);
        }
      }
      if Run(hs).timers.state != Idle {
        if t.state == Idle {
          TakenUpNow(front, h);
        } else {
          var j: nat :| TakenUpAt(front, j, t.csmaStart);
          StillTakenUp(front, h, j, t.csmaStart);
        }
      }
    }
  }

  lemma {:induction false} StartsIdle()
    ensures Run([]).timers.state == Idle
  {
  }

  lemma {:induction false} TimersGoOn(m: Modem, h: Happening)
    ensures var t, t' := m.timers, Happen(m, h).timers;
            && (t'.state !in {Idle, DonePending} ==> if t'.state == t.state then t'.timer == t.timer else h.Pass? && t'.timer == h.view.now)
            && (t'.state != Idle ==> if t.state == Idle then h.Pass? && t'.csmaStart == h.view.now else t'.csmaStart == t.csmaStart)
  {
  }

  lemma {:induction false} EntersNow(hs: seq<Happening>, h: Happening)
    requires h.Pass? && Run(hs + [h]).timers.state != Run(hs).timers.state
    ensures EnteredAt(hs + [h], |hs|, Run(hs + [h]).timers.state, h.view.now)
  {
    hide Run;
    assert (hs + [h])[..|hs|] == hs && (hs + [h])[..|hs| + 1] == hs + [h];
  }

  lemma {:induction false} StillEntered(hs: seq<Happening>, h: Happening, j: nat, s: TxState, now: u32)
    requires EnteredAt(hs, j, s, now) && Run(hs + [h]).timers.state == s
    ensures EnteredAt(hs + [h], j, s, now)
  {
    hide Run;
    assert (hs + [h])[..|hs| + 1] == hs + [h];
    forall k | 0 <= k <= |hs| ensures StateAt(hs + [h], k) == StateAt(hs, k) { StatesBefore(hs, h, k); }
  }

  lemma {:induction false} TakenUpNow(hs: seq<Happening>, h: Happening)
    requires h.Pass? && Run(hs).timers.state == Idle && Run(hs + [h]).timers.state != Idle
    ensures TakenUpAt(hs + [h], |hs|, h.view.now)
  {
    hide Run;
    assert (hs + [h])[..|hs|] == hs && (hs + [h])[..|hs| + 1] == hs + [h];
  }

  lemma {:induction false} StillTakenUp(hs: seq<Happening>, h: Happening, j: nat, now: u32)
    requires TakenUpAt(hs, j, now) && Run(hs + [h]).timers.state != Idle
    ensures TakenUpAt(hs + [h], j, now)
  {
    hide Run;
    assert (hs + [h])[..|hs| + 1] == hs + [h];
    forall k | 0 <= k <= |hs| ensures StateAt(hs + [h], k) == StateAt(hs, k) { StatesBefore(hs, h, k); }
  }

  /** So much time has passed, on the 32-bit clock, as one and a half times the airtime. */
  predicate WaitedOut(since: u32, now: u32, airtime: u32) {
    airtime * 3 % U32_RANGE / 2 <= (now - since) % U32_RANGE
  }

  /** A pass that lets the packet go on air: in full duplex, on a clear channel if the draw allows, or past the bound. */
  predicate ClearsTheWay(t: TxTimers, h: Happening) {
    h.Pass? &&
    if t.state == Idle then h.params.fullduplex != 0
    else t.state == WaitClear &&
         if h.view.receiving then WaitedOut(t.timer, h.view.now, h.view.airtimeMax) else h.view.rand <= h.params.persistence
  }

  /** In every run: whoever stands before a transmission got there by a pass that cleared the way, and by no other. */
  lemma {:induction false} NothingGoesOutBlind(hs: seq<Happening>) returns (j: nat)
    requires Run(hs).timers.state == Delay
    ensures j < |hs| && ClearsTheWay(Run(hs[..j]).timers, hs[j]) && EnteredAt(hs, j, Delay, Run(hs).timers.timer)
  {
    hide Run, Happen, ClearsTheWay;
    TimersSayWhen(hs);
    j :| EnteredAt(hs, j, Delay, Run(hs).timers.timer);
    RunAppends(hs[..j], hs[j]);
    assert hs[..j] + [hs[j]] == hs[..j + 1];
    assert StateAt(hs, j + 1) == Delay;
    DelayIsCleared(Run(hs[..j]), hs[j]);
  }

  lemma {:induction false} DelayIsCleared(m: Modem, h: Happening)
    ensures m.timers.state in {Idle, WaitClear} && ClearsTheWay(m.timers, h) && (m.timers.state == Idle ==> m.books.pending)
            <==> Happen(m, h).timers.state == Delay && m.timers.state != Delay
  {
    ElapsedIsMod(if h.Pass? then h.view.now else 0, m.timers.timer);
  }

  lemma {:induction false} ElapsedIsMod(now: u32, since: u32)
    ensures Sub32(now, since) == (now - since) % U32_RANGE
  {
  }

  /** A pass starts the packet exactly once its delay is over and the radio takes it. */
  lemma {:induction false} StartsExactlyWhen(m: Modem, params: TxParams, v: RadioView)
    ensures var b, b' := m.books, Happen(m, Pass(params, v)).books;
            if m.timers.state == Delay && params.txdelay * 10 <= (v.now - m.timers.timer) % U32_RANGE && v.startOk
            then b'.state == Sending && |b'.aired| == |b.aired| + 1 && b'.aired[|b.aired|].bytes == b.packet
            else b'.aired == b.aired
  {
    ElapsedIsMod(v.now, m.timers.timer);
  }

  /** A slot is waited for exactly after a lost draw on a clear channel, or a start refused within the bound. */
  lemma {:induction false} WaitsASlotExactlyWhen(m: Modem, params: TxParams, v: RadioView)
    requires m.timers.state != SlotWait
    ensures Happen(m, Pass(params, v)).timers.state == SlotWait <==>
            || (m.timers.state == WaitClear && !v.receiving && params.persistence < v.rand)
            || (m.timers.state == Delay && !v.startOk && params.txdelay * 10 <= (v.now - m.timers.timer) % U32_RANGE
                && !WaitedOut(m.timers.csmaStart, v.now, v.airtimeMax))
  {
    ElapsedIsMod(v.now, m.timers.timer);
    ElapsedIsMod(v.now, m.timers.csmaStart);
  }

  /**
   * A packet is over exactly when the radio reports it complete, when it is on air past its time with
   * the radio idle, or when the radio will not start it although its delay is over and it was taken up
   * too long ago.
   */
  lemma {:induction false} IsOverExactlyWhen(m: Modem, params: TxParams, v: RadioView)
    requires m.timers.state == m.books.state
    ensures Happen(m, Pass(params, v)).timers.state == DonePending <==>
            || m.timers.state == DonePending
            || (m.timers.state == Sending && (v.complete || (!v.active && WaitedOut(m.timers.timer, v.now, v.airtimePacket))))
            || (m.timers.state == Delay && !v.startOk && params.txdelay * 10 <= (v.now - m.timers.timer) % U32_RANGE
                && WaitedOut(m.timers.csmaStart, v.now, v.airtimeMax))
  {
    ElapsedIsMod(v.now, m.timers.timer);
    ElapsedIsMod(v.now, m.timers.csmaStart);
  }

  // ---- The host's view -----------------------------------------------------------

  function Encodings(frames: seq<Frame>): (es: seq<seq<u8>>)
    ensures |es| == |frames|
  {
    if frames == [] then [] else Encodings(frames[..|frames| - 1]) + [Encode(frames[|frames| - 1])]
  }

  lemma {:induction false} EncodingsGrow(frames: seq<Frame>, f: Frame)
    ensures Encodings(frames + [f]) == Encodings(frames) + [Encode(f)]
  {
    assert (frames + [f])[..|frames|] == frames;
  }

  lemma {:induction false} EncodingsConcat(frames: seq<Frame>)
    ensures Concat(Encodings(frames)) == EncodeAll(frames)
  {
    if frames != [] {
      EncodingsConcat(frames[..|frames| - 1]);
      assert Encodings(frames)[..|frames| - 1] == Encodings(frames[..|frames| - 1]);
    }
  }

  /**
   * End to end: for every pattern of partial writes, a host that decodes what
   * the port has accepted, with the receive buffer the modem itself has, gets
   * exactly the first of the frames queued that fit it, each whole and in order.
   */
  lemma {:induction false} HostDecodesPrefix(q: Queue, frames: seq<Frame>)
    requires QueueOk(q) && q.log == Encodings(frames)
    ensures q.wire <= EncodeAll(frames)
    ensures ReceiveAll(LOST, q.wire).frames <= Delivered(frames)
  {
    hide QueueOk, ReceiveAll;
    WireIsPrefix(q);
    EncodingsConcat(frames);
    PartialStreamDecodesPrefix(frames, q.wire);
  }

  /** At most one frame more, and no TX_DONE. */
  predicate QueuesNoResult(before: seq<Frame>, after: seq<Frame>) {
    before == after || (before <= after && |after| == |before| + 1 && !IsTxDone(after[|before|]))
  }

  lemma {:induction false} BooksSayWhatIsPending(hs: seq<Happening>)
    ensures var m := Run(hs);
            && m.timers.state == m.books.state && (m.books.state != Idle ==> m.books.pending)
            && (m.books.pending ==> m.books.accepted != []) && (m.books.donePending <==> m.books.state == DonePending)
  {
    RunsKeepBooks(hs);
  }

  lemma {:induction false} NewBooksOk()
    ensures BooksOk(Books([], [], [], false, [], Idle, false, 0))
  {
  }

  /** The settings after a host frame: five commands set one each from their first byte. */
  function Tuned(p: TxParams, txtail: u8, frame: seq<u8>): (TxParams, u8) {
    if |frame| < 2 then (p, txtail)
    else if frame[0] == CMD_TXDELAY then (p.(txdelay := frame[1]), txtail)
    else if frame[0] == CMD_PERSISTENCE then (p.(persistence := frame[1]), txtail)
    else if frame[0] == CMD_SLOTTIME then (p.(slottime := frame[1]), txtail)
    else if frame[0] == CMD_TXTAIL then (p, frame[1])
    else if frame[0] == CMD_FULLDUPLEX then (p.(fullduplex := frame[1]), txtail)
    else (p, txtail)
  }

  /** Each setting is its own command's, 1 to 5, and keeps its value otherwise. */
  lemma {:induction false} SettingsExactlyWhen(p: TxParams, txtail: u8, frame: seq<u8>)
    requires 2 <= |frame|
    ensures var (p', txtail') := Tuned(p, txtail, frame);
            && p'.txdelay == (if frame[0] == 1 then frame[1] else p.txdelay)
            && p'.persistence == (if frame[0] == 2 then frame[1] else p.persistence)
            && p'.slottime == (if frame[0] == 3 then frame[1] else p.slottime)
            && txtail' == (if frame[0] == 4 then frame[1] else txtail)
            && p'.fullduplex == (if frame[0] == 5 then frame[1] else p.fullduplex)
  {
  }

  // ---- The object ------------------------------------------------------------------

  class KissModem {
    const serial: SerialPort
    const rx: Receiver
    const out: OutputQueue
    var pendingTx: seq<u8>
    var hasPendingTx: bool
    var params: TxParams
    var txtail: u8
    var txState: TxState
    var txTimer: u32
    var csmaStart: u32
    var busyErrorPending: bool
    var signalReportEnabled: bool
    var txDonePending: bool
    var txDoneResult: u8
    ghost var accepted: seq<seq<u8>>
    ghost var aired: seq<Aired>
    ghost var frames: seq<Frame>
    ghost var trace: seq<Happening>

    ghost function Repr(): set<object>
      reads this
    {
      {this, serial, rx, rx.rxBuf, out, out.slots}
    }

    ghost function TheBooks(): Books
      reads this
    {
      Books(accepted, aired, frames, hasPendingTx, pendingTx, txState, txDonePending, txDoneResult)
    }

    function Timers(): TxTimers
      reads this
    {
      TxTimers(txState, txTimer, csmaStart)
    }

    ghost predicate Valid()
      reads this, serial, rx, rx.rxBuf, out, out.slots
    {
      && rx.Valid() && out.serial == serial && out.Valid()
      && out.log == Encodings(frames)
      && Modem(TheBooks(), Timers()) == Run(trace)
    }

    constructor (serial: SerialPort)
      requires serial.wire == []
      ensures Valid() && accepted == [] && frames == [] && !hasPendingTx && txState == Idle
      ensures this.serial == serial && fresh(Repr() - {serial})
    {
      hide BooksOk, QueueOk;
      this.serial := serial;
      rx := new Receiver();
      out := new OutputQueue(serial);
      pendingTx, hasPendingTx := [], false;
      params := TxParams(50, 63, 10, 0);
      txtail, txState, txTimer, csmaStart := 0, Idle, 0, 0;
      busyErrorPending, txDonePending, txDoneResult, signalReportEnabled := false, false, 0, true;
      accepted, aired, frames, trace := [], [], [], [];
    }

    /** Queues one frame for the host, flushing first when both slots are taken. */
    method QueueFrame(kind: u8, data: seq<u8>, markBusyError: bool) returns (ok: bool)
      requires out.Valid() && out.serial == serial && out.log == Encodings(frames)
      modifies this`busyErrorPending, this`frames, out, out.slots, serial`wire, serial`offered
      ensures out.Valid() && out.log == Encodings(frames)
      ensures frames == if ok then old(frames) + [Frame(kind, data)] else old(frames)
      ensures ok ==> |Encode(Frame(kind, data))| <= MAX_ENCODED_FRAME_SIZE
      ensures old(out.count) < QUEUE_DEPTH && |Encode(Frame(kind, data))| <= MAX_ENCODED_FRAME_SIZE ==> ok
      ensures !ok && |Encode(Frame(kind, data))| <= MAX_ENCODED_FRAME_SIZE ==>
                serial.offered <= 0 && (markBusyError ==> busyErrorPending)
      ensures ok ==> out.count == 0 || serial.offered <= 0
      ensures ok || !markBusyError ==> busyErrorPending == old(busyErrorPending)
      ensures old(serial.wire) <= serial.wire
    {
      hide QueueOk, Encode, Encodings;
      if out.count >= QUEUE_DEPTH {
        var flushed := out.TryFlushFrames();
        if !flushed {
          if markBusyError { busyErrorPending := true; }
          return false;
        }
      }
      var encoded := EncodeInSlot(kind, data);
      if encoded == [] { return false; }
      out.Store(encoded);
      EncodingsGrow(frames, Frame(kind, data));
      frames := frames + [Frame(kind, data)];
      var _ := out.TryFlushFrames();
      ok := true;
    }

    method EncodeInSlot(kind: u8, data: seq<u8>) returns (encoded: seq<u8>)
      ensures if |Encode(Frame(kind, data))| <= MAX_ENCODED_FRAME_SIZE then encoded == Encode(Frame(kind, data)) && encoded != []
              else encoded == []
    {
      var buf := new u8[MAX_ENCODED_FRAME_SIZE];
      var n := EncodeFrame(kind, data, buf, MAX_ENCODED_FRAME_SIZE);
      encoded := buf[..n];
    }

    method QueueHardwareFrame(subCmd: u8, data: seq<u8>, markBusyError: bool) returns (ok: bool)
      requires out.Valid() && out.serial == serial && out.log == Encodings(frames)
      modifies this`busyErrorPending, this`frames, out, out.slots, serial`wire, serial`offered
      ensures out.Valid() && out.log == Encodings(frames)
      ensures frames == if ok then old(frames) + [Frame(CMD_SETHARDWARE, [subCmd] + data)] else old(frames)
      ensures |data| > MAX_FRAME_SIZE ==> !ok
      ensures |data| <= MAX_FRAME_SIZE && old(out.count) < QUEUE_DEPTH ==> ok
      ensures |data| <= MAX_FRAME_SIZE && !ok ==> serial.offered <= 0 && (markBusyError ==> busyErrorPending)
      ensures ok ==> out.count == 0 || serial.offered <= 0
      ensures ok || !markBusyError ==> busyErrorPending == old(busyErrorPending)
      ensures old(serial.wire) <= serial.wire
    {
      if |data| > MAX_FRAME_SIZE { return false; }
      EveryFrameFits(Frame(CMD_SETHARDWARE, [subCmd] + data));
      ok := QueueFrame(CMD_SETHARDWARE, [subCmd] + data, markBusyError);
    }

    /** Any reply but TX_DONE. */
    method WriteHardwareFrame(subCmd: u8, data: seq<u8>)
      requires Valid() && subCmd != HW_RESP_TX_DONE
      modifies this`busyErrorPending, this`frames, this`trace, out, out.slots, serial`wire, serial`offered
      ensures Valid() && old(serial.wire) <= serial.wire
      ensures var f := Frame(CMD_SETHARDWARE, [subCmd] + data);
              || (frames == old(frames) && trace == old(trace))
              || (frames == old(frames) + [f] && trace == old(trace) + [Queued(f)])
      ensures frames == old(frames) && |data| <= MAX_FRAME_SIZE ==> busyErrorPending
    {
      hide QueueOk, Encode, Encodings, Run;
      var ok := QueueHardwareFrame(subCmd, data, true);
      if ok {
        RunAppends(trace, Queued(Frame(CMD_SETHARDWARE, [subCmd] + data)));
        trace := trace + [Queued(Frame(CMD_SETHARDWARE, [subCmd] + data))];
      }
    }

    method QueuePendingBusyError()
      requires Valid()
      modifies this`busyErrorPending, this`frames, this`trace, out, out.slots, serial`wire, serial`offered
      ensures Valid() && old(trace) <= trace && old(serial.wire) <= serial.wire
      ensures busyErrorPending ==> old(busyErrorPending) && old(out.count) >= QUEUE_DEPTH
      ensures frames == if old(busyErrorPending) && !busyErrorPending then old(frames) + [BUSY_ERROR] else old(frames)
      ensures old(out.count == 0 || serial.offered <= 0) ==> out.count == 0 || serial.offered <= 0
    {
      hide QueueOk, Encode, Encodings, Run;
      if !busyErrorPending { return; }
      var ok := QueueHardwareFrame(HW_RESP_ERROR, [HW_ERR_TX_BUSY], false);
      if ok {
        assert [HW_RESP_ERROR] + [HW_ERR_TX_BUSY] == [HW_RESP_ERROR, HW_ERR_TX_BUSY];
        RunAppends(trace, Queued(BUSY_ERROR));
        trace := trace + [Queued(BUSY_ERROR)];
        busyErrorPending := false;
      }
    }

    /** One complete host frame. */
    method ProcessFrame(frame: seq<u8>)
      requires Valid()
      modifies this, out, out.slots, serial`wire, serial`offered
      ensures Valid() && aired == old(aired) && Timers() == old(Timers())
      ensures old(trace) <= trace && old(serial.wire) <= serial.wire
      ensures QueuesNoResult(old(frames), frames)
      ensures old(hasPendingTx) ==> pendingTx == old(pendingTx)
      ensures Intake(accepted, hasPendingTx) == TakeIn(old(Intake(accepted, hasPendingTx)), frame)
      ensures (params, txtail) == Tuned(old(params), old(txtail), frame)
      ensures 0 < |frame| && frame[0] == CMD_DATA ==>
                if old(hasPendingTx) then frames == old(frames) + [BUSY_ERROR] || (frames == old(frames) && busyErrorPending)
                else frames == old(frames)
    {
      hide QueueOk, Encode, Encodings, Run, IsTxDone;
      if Takes(frame, hasPendingTx) {
        AcceptPacket(frame);
        return;
      }
      NoteFrame(frame);
      if |frame| < 1 { return; }
      var kind := frame[0];
      if kind == CMD_RETURN || kind / 16 != 0 { return; }
      if kind == CMD_DATA {
        if hasPendingTx { WriteBusyError(); }
      } else if kind == CMD_SETHARDWARE {
        if 2 <= |frame| { HandleHardwareCommand(); }
      } else if 2 <= |frame| {
        Tune(frame);
      }
    }

    /** A data frame that fits, with none pending: its packet waits to be sent. */
    method AcceptPacket(frame: seq<u8>)
      requires Valid() && Takes(frame, hasPendingTx)
      modifies this`pendingTx, this`hasPendingTx, this`accepted, this`trace
      ensures Valid() && trace == old(trace) + [HostFrame(frame)]
      ensures pendingTx == frame[1..] && hasPendingTx && accepted == old(accepted) + [frame[1..]]
    {
      hide QueueOk, Encode, Encodings, Run;
      RunAppends(trace, HostFrame(frame));
      trace := trace + [HostFrame(frame)];
      pendingTx := frame[1..];
      hasPendingTx := true;
      accepted := accepted + [pendingTx];
    }

    ghost method NoteFrame(frame: seq<u8>)
      requires Valid() && !Takes(frame, hasPendingTx)
      modifies this`trace
      ensures Valid() && trace == old(trace) + [HostFrame(frame)]
    {
      hide QueueOk, Encode, Encodings, Run;
      RunAppends(trace, HostFrame(frame));
      trace := trace + [HostFrame(frame)];
    }

    method WriteBusyError()
      requires Valid()
      modifies this`busyErrorPending, this`frames, this`trace, out, out.slots, serial`wire, serial`offered
      ensures Valid() && old(trace) <= trace && old(serial.wire) <= serial.wire
      ensures frames == old(frames) + [BUSY_ERROR] || (frames == old(frames) && busyErrorPending)
      ensures QueuesNoResult(old(frames), frames)
    {
      hide QueueOk, Encode, Encodings, Run;
      assert [HW_RESP_ERROR] + [HW_ERR_TX_BUSY] == [HW_RESP_ERROR, HW_ERR_TX_BUSY];
      WriteHardwareFrame(HW_RESP_ERROR, [HW_ERR_TX_BUSY]);
    }

    method Tune(frame: seq<u8>)
      requires 2 <= |frame| && frame[0] != CMD_SETHARDWARE
      modifies this`params, this`txtail
      ensures (params, txtail) == Tuned(old(params), old(txtail), frame)
    {
      var kind, value := frame[0], frame[1];
      if kind == CMD_TXDELAY { params := params.(txdelay := value); }
      else if kind == CMD_PERSISTENCE { params := params.(persistence := value); }
      else if kind == CMD_SLOTTIME { params := params.(slottime := value); }
      else if kind == CMD_TXTAIL { txtail := value; }
      else if kind == CMD_FULLDUPLEX { params := params.(fullduplex := value); }
    }

    /** A hardware command: its handler writes one reply of its own, and may switch signal reports. */
    method HandleHardwareCommand()
      requires Valid()
      modifies this`signalReportEnabled, this`busyErrorPending, this`frames, this`trace, out, out.slots, serial`wire, serial`offered
      ensures Valid() && old(trace) <= trace && old(serial.wire) <= serial.wire
      ensures QueuesNoResult(old(frames), frames)
    {
      hide QueueOk, Encode, Encodings, Run;
      var subCmd: u8 :| subCmd != HW_RESP_TX_DONE;
      var reply: seq<u8> := *;
      signalReportEnabled := *;
      WriteHardwareFrame(subCmd, reply);
      assert !IsTxDone(Frame(CMD_SETHARDWARE, [subCmd] + reply));
    }

    /** One pass of the transmit state machine. */
    method ProcessTx(v: RadioView)
      requires Valid()
      modifies this, out, out.slots, serial`wire, serial`offered
      ensures Valid() && accepted == old(accepted) && old(trace) <= trace && old(serial.wire) <= serial.wire
      ensures hasPendingTx ==> old(hasPendingTx) && pendingTx == old(pendingTx)
      ensures old(txState) != DonePending ==>
                var next := Advance(old(Timers()), old(params), old(hasPendingTx), v);
                Timers() == next.timers && TheBooks() == Passed(old(TheBooks()), next)
      ensures old(txState) == DonePending ==>
                || TheBooks() == Reported(old(TheBooks()))
                || (TheBooks() == old(TheBooks()) && old(out.count) >= QUEUE_DEPTH && serial.offered <= 0)
    {
      hide QueueOk, Encode, Encodings, Run, Happen, Advance, Passed, BooksOk;
      BooksSayWhatIsPending(trace);
      if txState == DonePending {
        var ok := QueueHardwareFrame(HW_RESP_TX_DONE, [txDoneResult], false);
        if ok {
          RunReports(trace);
          trace := trace + [Report];
          txDonePending := false;
          hasPendingTx := false;
          txState := Idle;
        }
        return;
      }
      RunPasses(trace, params, v);
      trace := trace + [Pass(params, v)];
      StepTx(v);
    }

    /** The switch over the timed states. */
    method StepTx(v: RadioView)
      requires txState != DonePending && (txState != Idle ==> hasPendingTx) && (hasPendingTx ==> accepted != [])
      modifies this`txState, this`txTimer, this`csmaStart, this`txDonePending, this`txDoneResult, this`aired
      ensures var next := Advance(old(Timers()), old(params), old(hasPendingTx), v);
              Timers() == next.timers && TheBooks() == Passed(old(TheBooks()), next)
    {
      var elapsed := Sub32(v.now, txTimer);
      match txState
      case Idle =>
        if hasPendingTx {
          csmaStart := v.now;
          txTimer := v.now;
          txState := if params.fullduplex != 0 then Delay else WaitClear;
        }
      case WaitClear =>
        if !v.receiving {
          txTimer := v.now;
          txState := if v.rand <= params.persistence then Delay else SlotWait;
        } else if elapsed >= TxTimeout(v.airtimeMax) {
          txTimer := v.now;
          txState := Delay;
        }
      case SlotWait =>
        if elapsed >= params.slottime * 10 {
          txTimer := v.now;
          txState := WaitClear;
        }
      case Delay =>
        if elapsed >= params.txdelay * 10 {
          if v.startOk {
            aired := aired + [Aired(|accepted| - 1, pendingTx)];
            txTimer := v.now;
            txState := Sending;
          } else if Sub32(v.now, csmaStart) < TxTimeout(v.airtimeMax) {
            txTimer := v.now;
            txState := SlotWait;
          } else {
            SetTxDonePending(0);
          }
        }
      case Sending =>
        if v.complete {
          SetTxDonePending(1);
        } else if !v.active && elapsed >= TxTimeout(v.airtimePacket) {
          SetTxDonePending(0);
        }
    }

    method SetTxDonePending(result: u8)
      modifies this`txDoneResult, this`txDonePending, this`txState
      ensures txDoneResult == result && txDonePending && txState == DonePending
    {
      txDoneResult := result;
      txDonePending := true;
      txState := DonePending;
    }

    /** A packet heard on the radio, passed up to the host. */
    method OnPacketReceived(packet: seq<u8>, meta: seq<u8>)
      requires Valid()
      modifies this, out, out.slots, serial`wire, serial`offered
      ensures Valid() && accepted == old(accepted) && hasPendingTx == old(hasPendingTx) && pendingTx == old(pendingTx)
      ensures var f, m := Frame(CMD_DATA, packet), Frame(CMD_SETHARDWARE, [HW_RESP_RX_META] + meta);
              || frames == old(frames)
              || frames == old(frames) + [f]
              || (old(signalReportEnabled) && frames == old(frames) + [f] + [m])
      ensures frames == old(frames) ==>
                |Encode(Frame(CMD_DATA, packet))| > MAX_ENCODED_FRAME_SIZE || (busyErrorPending && old(out.count) >= QUEUE_DEPTH)
      ensures old(signalReportEnabled) && |meta| <= MAX_FRAME_SIZE && frames == old(frames) + [Frame(CMD_DATA, packet)] ==> busyErrorPending
      ensures old(trace) <= trace && old(serial.wire) <= serial.wire
    {
      hide QueueOk, Encode, Encodings, Run;
      var ok := QueueFrame(CMD_DATA, packet, true);
      if ok {
        RunAppends(trace, Queued(Frame(CMD_DATA, packet)));
        trace := trace + [Queued(Frame(CMD_DATA, packet))];
        if signalReportEnabled {
          WriteHardwareFrame(HW_RESP_RX_META, meta);
        }
      }
    }

    /** Drains the port: every byte through the receiver, every frame to ProcessFrame. */
    method ReceiveInput()
      requires Valid()
      modifies this, rx, rx.rxBuf, out, out.slots, serial
      ensures Valid() && serial.input == [] && Timers() == old(Timers()) && aired == old(aired)
      ensures old(trace) <= trace && old(serial.wire) <= serial.wire
      ensures var r := ReceiveAll(old(rx.State()), old(serial.input));
              && rx.State() == r.rx
              && Intake(accepted, hasPendingTx) == TakeAll(old(Intake(accepted, hasPendingTx)), r.frames)
    {
      hide QueueOk, Encode, Encodings, Receive, ReceiveAll, Run, TakeIn, TakeAll;
      NothingReceivedYet(rx.State(), Intake(accepted, hasPendingTx), serial.input);
      ghost var start, input := rx.State(), serial.input;
      ghost var k := 0;
      while serial.input != []
        invariant Valid() && k <= |input| && serial.input == input[k..]
        invariant rx.State() == ReceiveAll(start, input[..k]).rx
        invariant Timers() == old(Timers()) && aired == old(aired)
        invariant old(trace) <= trace && old(serial.wire) <= serial.wire
        invariant Intake(accepted, hasPendingTx)
                  == TakeAll(old(Intake(accepted, hasPendingTx)), ReceiveAll(start, input[..k]).frames)
        decreases |serial.input|
      {
        var b := serial.input[0];
        serial.input := serial.input[1..];
        ReceivesOneMore(start, input, k, old(Intake(accepted, hasPendingTx)));
        k := k + 1;
        var frame := rx.OnByte(b);
        if frame.Some? {
          ProcessFrame(frame.value);
        }
      }
      assert input[..k] == input;
    }

    /** One pass of the event loop over whatever the host has sent. */
    method Loop(v: RadioView)
      requires Valid()
      modifies Repr()
      ensures Valid() && serial.input == []
      ensures var r := ReceiveAll(old(rx.State()), old(serial.input));
              && rx.State() == r.rx
              && accepted == TakeAll(old(Intake(accepted, hasPendingTx)), r.frames).accepted
      ensures out.count == 0 || serial.offered <= 0
      ensures old(trace) <= trace && old(serial.wire) <= serial.wire
      ensures Grows(old(TheBooks()), TheBooks()) && StaysPending(old(TheBooks()), TheBooks())
    {
      hide QueueOk, Encode, Encodings, Run, Advance, Passed, Reported, ReceiveAll, TakeAll, Grows, StaysPending;
      ghost var before := trace;
      var _ := out.TryFlushFrames();
      ReceiveInput();
      ProcessTx(v);
      var _ := out.TryFlushFrames();
      QueuePendingBusyError();
      assert trace[..|before|] == before;
      HistoriesGrow(trace, |before|);
      PendingStaysTheSame(trace, |before|);
    }
  }
}
