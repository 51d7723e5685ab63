/**
 * How old the room server's deadlines can be, in runs whose uptime never goes back: none is
 * older than the last pass of the push engine.
 */
module RoomReach {
  import opened Words
  import opened RoomPosts
  import opened RoomRuns

  const LONGEST_ACK_TIMEOUT := PUSH_TIMEOUT_BASE + 64 * PUSH_ACK_TIMEOUT_FACTOR

  // Half a turn of the 32-bit millisecond clock.
  const HALF_TURN := 0x8000_0000

  /** The uptime at which an event happens, or the one before for events that set no deadline. */
  function UpOf(e: Event, before: nat): nat {
    match e
    case Store(_, _, _, up) => up
    case Pass(up, _, _) => up
    case Login(_, _, _, _, up) => up
    case Relogin(_, up) => up
    case _ => before
  }

  /** The engine passes over the clients, or the first client logs in. */
  predicate Refreshes(r: Room, e: Event) {
    match e
    case Pass(up, _, _) => up >= r.nextPush && r.clients != []
    case Login(_, _, _, _, _) => r.clients == []
    case _ => false
  }

  // A world, the uptime, and that of the last pass, or of the first login since.
  datatype TimedWorld = TimedWorld(w: World, clock: nat, lastPass: nat)

  /** A run whose uptime never goes back. */
  predicate IsTimedRun(ts: seq<TimedWorld>, events: seq<Event>) {
    && |ts| == |events| + 1 && 0 < |ts[0].w.room.posts| && ts[0] == TimedWorld(Started(|ts[0].w.room.posts|), 0, 0)
    && forall k :: 0 <= k < |events| ==> TimedGoes(ts[k], events[k], ts[k + 1])
  }

  predicate TimedGoes(t: TimedWorld, e: Event, t': TimedWorld) {
    && Goes(t.w, e, t'.w) && t.clock <= UpOf(e, t.clock) && t'.clock == UpOf(e, t.clock)
    && t'.lastPass == if Refreshes(t.w.room, e) then t'.clock else t.lastPass
  }

  /** It is a run. */
  lemma {:induction false} TimedRunIsRun(ts: seq<TimedWorld>, events: seq<Event>)
    requires IsTimedRun(ts, events)
    ensures IsRun(seq(|ts|, i requires 0 <= i < |ts| => ts[i].w), events)
  {
    hide Goes;
    assert forall k :: 0 <= k < |events| ==> TimedGoes(ts[k], events[k], ts[k + 1]);
  }

  /** No deadline lies before since, nor further after now than one can be set. */
  predicate Due(r: Room, since: nat, now: nat) {
    && since <= now
    && (r.clients != [] ==> since <= r.nextPush <= now + SYNC_PUSH_INTERVAL)
    && forall i :: 0 <= i < |r.clients| ==> ClientDue(r.clients[i], since, now)
  }

  predicate ClientDue(c: Client, since: nat, now: nat) {
    c.pendingAck != 0 ==> since <= c.ackTimeout <= now + LONGEST_ACK_TIMEOUT
  }

  /** A pass leaves no deadline behind it. */
  lemma {:induction false} PassLeavesNothingBehind(r: Room, since: nat, now: nat, up: nat, rtc: u32, s: Send)
    requires Shaped(r) && Due(r, since, now) && now <= up && up >= r.nextPush && r.clients != []
    ensures Due(PushPass(r, up, rtc, s), up, up)
  {
    hide Picked;
    var clients := ExpireAll(r.clients, up);
    forall i | 0 <= i < |clients| ensures ClientDue(clients[i], up, up) {
      assert ClientDue(r.clients[i], since, now);
    }
    var k := Picked(r, clients[r.nextClient], rtc);
    if k < |r.posts| {
      var p := r.posts[RingSlot(r.nextPost, k, |r.posts|)];
      assert ClientDue(Pushed(clients[r.nextClient], p, s, up), up, up);
    }
    hide ClientDue, ExpireAll, Pushed, RingSlot;
    var r' := PushPass(r, up, rtc, s);
    forall i | 0 <= i < |r'.clients| ensures ClientDue(r'.clients[i], up, up) {
    }
  }

  lemma {:induction false} StepKeepsDue(w: World, e: Event, since: nat, now: nat)
    requires Shaped(w.room) && Due(w.room, since, now) && now <= UpOf(e, now)
    ensures Due(Step(w, e).room, if Refreshes(w.room, e) then UpOf(e, now) else since, UpOf(e, now))
  {
    var r, up := w.room, UpOf(e, now);
    if e.Pass? {
      if up >= r.nextPush && r.clients != [] {
        PassLeavesNothingBehind(r, since, now, up, e.rtc, e.send);
      }
    } else {
      hide PushPass, PushEntries, UniqueTime;
      var since' := if Refreshes(r, e) then up else since;
      var r' := Step(w, e).room;
      forall i | 0 <= i < |r'.clients| ensures ClientDue(r'.clients[i], since', up) {
        assert i < |r.clients| ==> ClientDue(r.clients[i], since, now);
      }
    }
  }

  lemma {:induction false} RunsStayDue(ts: seq<TimedWorld>, events: seq<Event>, k: nat)
    requires IsTimedRun(ts, events) && k <= |events|
    ensures Due(ts[k].w.room, ts[k].lastPass, ts[k].clock)
  {
    hide Step, Due, UpOf, Refreshes, Clocked, Shaped;
    if k > 0 {
      RunsStayDue(ts, events, k - 1);
      assert TimedGoes(ts[k - 1], events[k - 1], ts[k]);
      StepKeepsDue(ts[k - 1].w, events[k - 1], ts[k - 1].lastPass, ts[k - 1].clock);
    } else {
      StartIsDue(|ts[0].w.room.posts|);
    }
  }

  lemma {:induction false} StartIsDue(size: nat)
    ensures Due(Started(size).room, 0, 0)
  {
  }

  /** The run leads to r, and its last pass is no more than half a turn of the clock before now. */
  predicate Reaches(ts: seq<TimedWorld>, events: seq<Event>, r: Room, now: nat) {
    && IsTimedRun(ts, events) && r == ts[|events|].w.room
    && ts[|events|].clock <= now <= ts[|events|].lastPass + HALF_TURN
  }

  lemma {:induction false} ReachedIsDue(ts: seq<TimedWorld>, events: seq<Event>, r: Room, now: nat) returns (since: nat)
    requires Reaches(ts, events, r, now)
    ensures now <= since + HALF_TURN && Due(r, since, now)
  {
    hide IsTimedRun, Due;
    RunLength(ts, events);
    RunsStayDue(ts, events, |events|);
    since := ts[|events|].lastPass;
    LaterIsDue(r, since, ts[|events|].clock, now);
  }

  lemma {:induction false} RunLength(ts: seq<TimedWorld>, events: seq<Event>)
    requires IsTimedRun(ts, events)
    ensures |ts| == |events| + 1
  {
  }

  lemma {:induction false} LaterIsDue(r: Room, since: nat, now: nat, later: nat)
    requires Due(r, since, now) && now <= later
    ensures Due(r, since, later)
  {
    forall i | 0 <= i < |r.clients| ensures ClientDue(r.clients[i], since, later) {
      assert ClientDue(r.clients[i], since, now);
    }
  }

  // ---- A short run ----------------------------------------------------------------------------

  /** A client logs in, and another author posts, at uptime up. */
  function FirstPost(author: Identity, rtc: u32, up: nat): seq<Event> {
    [Login(0, author + 1, 0, rtc, up), Store(author, "", rtc, up)]
  }

  /** What that leaves in a ring of one. */
  function OnePostRoom(author: Identity, rtc: u32, up: nat): Room
    requires rtc < LAST_SECOND
  {
    Room([Post(author, rtc + 1, "")], 0, [Client(author + 1, rtc, 0, 0, 0, 0, 0)], up + PUSH_NOTIFY_DELAY_MILLIS, 0, rtc + 1)
  }

  lemma {:induction false} OnePostRun(author: Identity, rtc: u32, up: nat) returns (ts: seq<TimedWorld>)
    requires 0 < rtc < LAST_SECOND
    ensures IsTimedRun(ts, FirstPost(author, rtc, up))
    ensures ts[2].w.room == OnePostRoom(author, rtc, up) && ts[2].clock == up && ts[2].lastPass == up
  {
    var events := FirstPost(author, rtc, up);
    var w0 := Started(1);
    var w1 := Step(w0, events[0]);
    assert w0.room.posts == [NO_POST];
    assert w1.room == Room([NO_POST], 0, [Client(author + 1, rtc, 0, 0, 0, 0, 0)], up + PUSH_NOTIFY_DELAY_MILLIS, 0, rtc);
    ts := [TimedWorld(w0, 0, 0), TimedWorld(w1, up, up), TimedWorld(Step(w1, events[1]), up, up)];
    assert TimedGoes(ts[0], events[0], ts[1]) && TimedGoes(ts[1], events[1], ts[2]);
  }
}
