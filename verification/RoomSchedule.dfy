/**
 * When the room server's push engine next has work, computed without running it.
 */
module RoomSchedule {
  import opened Words
  import opened RoomPosts
  import opened RoomRuns
  import opened RoomReach

  // "Nothing pending."
  const MAINTENANCE_IDLE: u32 := 0x7FFF_FFFF

  function Trunc32(x: nat): u32 { x % 0x1_0000_0000 }

  function Sooner(a: u32, b: u32): u32 {
    Min(a, b)
  }

  /** Milliseconds until a deadline, 0 once it has passed; the sign is taken from the wrapped difference. */
  function Until(now: u32, deadline: u32): (r: u32)
    ensures r <= MAINTENANCE_IDLE
  {
    var remaining := Sub32(deadline, now);
    if remaining == 0 || remaining >= 0x8000_0000 then 0 else remaining
  }

  function Ahead(now: nat, deadline: nat): nat {
    if deadline <= now then 0 else deadline - now
  }

  predicate Fresh(now: nat, deadline: nat) {
    now <= deadline + 0x8000_0000 && deadline <= now + MAINTENANCE_IDLE
  }

  /** Within one turn of the 32-bit clock the answer is right exactly for deadlines less than half a turn off. */
  lemma {:induction false} UntilExactlyWhen(now: nat, deadline: nat)
    requires now < deadline + 0x1_0000_0000 && deadline < now + 0x1_0000_0000
    ensures Until(Trunc32(now), Trunc32(deadline)) == Ahead(now, deadline) <==> Fresh(now, deadline)
  {
    var d := Sub32(Trunc32(deadline), Trunc32(now));
    assert d == if now <= deadline then deadline - now else deadline - now + 0x1_0000_0000;
  }

  function PostWait(p: Post, c: Client, rtc: u32): u32 {
    if !Unsynced(p, c) then MAINTENANCE_IDLE
    else if Ready(p, c, rtc) then 0
    else (Add32(p.ts, POST_SYNC_DELAY_SECS) - rtc) * 1000 % 0x1_0000_0000
  }

  /** The soonest of the first k posts, or IDLE. */
  function PostsWait(posts: seq<Post>, c: Client, rtc: u32, k: nat): (w: u32)
    requires k <= |posts|
    ensures w <= MAINTENANCE_IDLE
  {
    if k == 0 then MAINTENANCE_IDLE
    else Sooner(PostsWait(posts, c, rtc, k - 1), PostWait(posts[k - 1], c, rtc))
  }

  function ClientWait(c: Client, posts: seq<Post>, now: nat, rtc: u32): (w: u32)
    ensures w <= MAINTENANCE_IDLE
  {
    if c.pendingAck != 0 then Until(Trunc32(now), Trunc32(c.ackTimeout))
    else if Servable(c) then PostsWait(posts, c, rtc, |posts|)
    else MAINTENANCE_IDLE
  }

  /** The soonest of the first i clients, or IDLE. */
  function Work(r: Room, now: nat, rtc: u32, i: nat): (w: u32)
    requires i <= |r.clients|
    ensures w <= MAINTENANCE_IDLE
  {
    if i == 0 then MAINTENANCE_IDLE
    else Sooner(Work(r, now, rtc, i - 1), ClientWait(r.clients[i - 1], r.posts, now, rtc))
  }

  function PushWait(r: Room, now: nat, rtc: u32): u32 {
    var work := Work(r, now, rtc, |r.clients|);
    var gate := Until(Trunc32(now), Trunc32(r.nextPush));
    if work == MAINTENANCE_IDLE || work > gate then work else gate
  }

  /** The wait is the least of all clients' waits and all their posts'. */
  lemma {:induction false} NoSoonerPost(posts: seq<Post>, c: Client, rtc: u32, k: nat, j: nat)
    requires j < k <= |posts|
    ensures PostsWait(posts, c, rtc, k) <= PostWait(posts[j], c, rtc)
  {
    if j < k - 1 { NoSoonerPost(posts, c, rtc, k - 1, j); }
  }

  lemma {:induction false} SoonestOfPosts(posts: seq<Post>, c: Client, rtc: u32, k: nat) returns (j: nat)
    requires k <= |posts| && PostsWait(posts, c, rtc, k) < MAINTENANCE_IDLE
    ensures j < k && PostsWait(posts, c, rtc, k) == PostWait(posts[j], c, rtc)
  {
    j := k - 1;
    if PostsWait(posts, c, rtc, k) != PostWait(posts[j], c, rtc) {
      j := SoonestOfPosts(posts, c, rtc, k - 1);
    }
  }

  lemma {:induction false} NoSoonerClient(r: Room, now: nat, rtc: u32, i: nat, j: nat)
    requires j < i <= |r.clients|
    ensures Work(r, now, rtc, i) <= ClientWait(r.clients[j], r.posts, now, rtc)
  {
    if j < i - 1 { NoSoonerClient(r, now, rtc, i - 1, j); }
  }

  lemma {:induction false} SoonestOfClients(r: Room, now: nat, rtc: u32, i: nat) returns (j: nat)
    requires i <= |r.clients| && Work(r, now, rtc, i) < MAINTENANCE_IDLE
    ensures j < i && Work(r, now, rtc, i) == ClientWait(r.clients[j], r.posts, now, rtc)
  {
    j := i - 1;
    if Work(r, now, rtc, i) != ClientWait(r.clients[j], r.posts, now, rtc) {
      j := SoonestOfClients(r, now, rtc, i - 1);
    }
  }

  lemma {:induction false} WorkOnlyShrinks(r: Room, now: nat, rtc: u32, i: nat, n: nat)
    requires i <= n <= |r.clients|
    ensures Work(r, now, rtc, n) <= Work(r, now, rtc, i)
  {
    if i < n { WorkOnlyShrinks(r, now, rtc, i, n - 1); }
  }

  method MsUntilNextPush(s: RoomServer, now: nat, rtc: u32) returns (w: u32)
    requires s.Valid()
    ensures w == PushWait(s.State(), now, rtc)
  {
    hide PostsWait, Until, PostWait;
    ghost var r := s.State();
    var work := MAINTENANCE_IDLE;
    var i := 0;
    while i < s.numClients && work > 0
      invariant i <= s.numClients && work == Work(r, now, rtc, i)
    {
      var c := s.clients[i];
      if c.pendingAck != 0 {
        work := Sooner(work, Until(Trunc32(now), Trunc32(c.ackTimeout)));
      } else if c.lastActivity != 0 && c.pushFailures < MAX_PUSH_FAILURES {
        work := SoonestPost(s, c, rtc, work);
      }
      i := i + 1;
    }
    WorkOnlyShrinks(r, now, rtc, i, |r.clients|);
    if work == MAINTENANCE_IDLE { return work; }
    var gate := Until(Trunc32(now), Trunc32(s.nextPush));
    w := if work > gate then work else gate;
  }

  method SoonestPost(s: RoomServer, c: Client, rtc: u32, work: u32) returns (w: u32)
    requires s.Valid() && Servable(c) && work <= MAINTENANCE_IDLE
    ensures w == Sooner(work, PostsWait(s.posts[..], c, rtc, s.posts.Length))
  {
    w := work;
    ghost var posts := s.posts[..];
    for k := 0 to s.posts.Length
      invariant w == Sooner(work, PostsWait(posts, c, rtc, k))
    {
      var p := s.posts[k];
      if p.ts == 0 || p.ts <= c.syncSince || p.author == c.id { continue; }
      var eligibleAt := Add32(p.ts, POST_SYNC_DELAY_SECS);
      if rtc >= eligibleAt {
        NoSoonerPost(posts, c, rtc, |posts|, k);
        return 0;
      }
      w := Sooner(w, (eligibleAt - rtc) * 1000 % 0x1_0000_0000);
    }
  }

  // ---- Against the engine --------------------------------------------------------------------

  /** The clock at an uptime in milliseconds. */
  function RtcAt(epoch: u32, t: nat): u32 {
    Add32(epoch, Trunc32(t / 1000))
  }

  predicate HasPost(c: Client, posts: seq<Post>, rtc: u32) {
    Servable(c) && exists j: nat :: j < |posts| && Ready(posts[j], c, rtc)
  }

  predicate HasWork(c: Client, posts: seq<Post>, t: nat, rtc: u32) {
    Overdue(c, t) || HasPost(c, posts, rtc)
  }

  /** At uptime t the engine may run and some client has a push to send or to give up on. */
  predicate MayAct(r: Room, epoch: u32, t: nat) {
    t >= r.nextPush && exists i: nat :: i < |r.clients| && HasWork(r.clients[i], r.posts, t, RtcAt(epoch, t))
  }

  /** Otherwise a pass sends nothing and gives up on nothing, whoever's turn it is. */
  lemma {:induction false} QuietPass(r: Room, epoch: u32, t: nat, s: Send)
    requires Shaped(r) && !MayAct(r, epoch, t)
    ensures PushPass(r, t, RtcAt(epoch, t), s).clients == r.clients
  {
    if t >= r.nextPush && r.clients != [] {
      assert forall i: nat | i < |r.clients| :: !HasWork(r.clients[i], r.posts, t, RtcAt(epoch, t));
      assert ExpireAll(r.clients, t) == r.clients;
    }
  }

  /** A client with work is given up on in this pass, or pushed to when its turn comes. */
  lemma {:induction false} ActsInTurn(r: Room, epoch: u32, t: nat, i: nat)
    requires Shaped(r) && t >= r.nextPush && i < |r.clients| && HasWork(r.clients[i], r.posts, t, RtcAt(epoch, t))
    ensures Overdue(r.clients[i], t) || Picked(r, r.clients[i], RtcAt(epoch, t)) < |r.posts|
  {
    if !Overdue(r.clients[i], t) {
      var rtc, n := RtcAt(epoch, t), |r.posts|;
      var j: nat :| j < n && Ready(r.posts[j], r.clients[i], rtc);
      var k := if j >= r.nextPost then j - r.nextPost else j + n - r.nextPost;
      assert RingSlot(r.nextPost, k, n) == j;
    }
  }

  /** Every deadline that counts is less than half a turn of the clock away. */
  predicate Timely(r: Room, now: nat) {
    && (r.clients != [] ==> Fresh(now, r.nextPush))
    && forall i: nat :: i < |r.clients| && r.clients[i].pendingAck != 0 ==> Fresh(now, r.clients[i].ackTimeout)
  }

  /** So it is in every run, as long as the last pass is not half a turn ago. */
  lemma {:induction false} ReachedIsTimely(ts: seq<TimedWorld>, events: seq<Event>, r: Room, now: nat)
    requires Reaches(ts, events, r, now)
    ensures Timely(r, now)
  {
    hide Reaches;
    var since := ReachedIsDue(ts, events, r, now);
    forall i: nat | i < |r.clients| && r.clients[i].pendingAck != 0 ensures Fresh(now, r.clients[i].ackTimeout) {
      assert ClientDue(r.clients[i], since, now);
    }
  }

  /** A post some client could be pushed but for its delay. */
  predicate Awaited(r: Room, i: nat, j: nat, rtc: u32) {
    && i < |r.clients| && j < |r.posts| && Servable(r.clients[i]) && Unsynced(r.posts[j], r.clients[i])
    && rtc < Add32(r.posts[j].ts, POST_SYNC_DELAY_SECS)
  }

  /** The uptime at which that delay ends: the clock's seconds tick at multiples of 1000 ms. */
  function DelayEnds(p: Post, now: nat, rtc: u32): int {
    now - now % 1000 + (Add32(p.ts, POST_SYNC_DELAY_SECS) - rtc) * 1000
  }

  /** The clock does not wrap within the longest wait that can be asked for, 25 days. */
  predicate ClockLasts(epoch: u32, now: nat) {
    RtcAt(epoch, now) + 2_147_485 < U32_RANGE
  }

  lemma {:induction false} ClockMoves(epoch: u32, now: nat, t: nat)
    requires now <= t < now + 0x8000_0000
    ensures RtcAt(epoch, t) == Add32(RtcAt(epoch, now), t / 1000 - now / 1000)
  {
    var s := t / 1000 - now / 1000;
    WrapsTogether(epoch, now / 1000, s);
  }

  lemma {:induction false} WrapsTogether(epoch: u32, a: nat, s: nat)
    requires s < U32_RANGE
    ensures Add32(epoch, Trunc32(a + s)) == Add32(Add32(epoch, Trunc32(a)), s)
  {
    assert a == a / U32_RANGE * U32_RANGE + a % U32_RANGE;
    assert (a + s) == (a + s) / U32_RANGE * U32_RANGE + (a + s) % U32_RANGE;
    var q := (a + s) / U32_RANGE - a / U32_RANGE;
    assert q == 0 || q == 1;
  }

  /** A post waited for is not ready before its delay ends, and is from then on. */
  lemma {:induction false} ReadyFromThenOn(p: Post, c: Client, epoch: u32, now: nat, t: nat)
    requires now <= t < now + 0x8000_0000 && Unsynced(p, c) && RtcAt(epoch, now) < Add32(p.ts, POST_SYNC_DELAY_SECS)
    ensures Ready(p, c, RtcAt(epoch, t)) ==> DelayEnds(p, now, RtcAt(epoch, now)) <= t
    ensures ClockLasts(epoch, now) && DelayEnds(p, now, RtcAt(epoch, now)) <= t ==> Ready(p, c, RtcAt(epoch, t))
  {
    ClockMoves(epoch, now, t);
    assert now == now / 1000 * 1000 + now % 1000 && t == t / 1000 * 1000 + t % 1000;
  }

  /** Work inside the wait is a post whose delay ends before the whole seconds counted for it. */
  lemma {:induction false} WorkInsideTheWait(r: Room, epoch: u32, now: nat, t: nat) returns (i: nat, j: nat)
    requires Timely(r, now) && MayAct(r, epoch, t)
    requires now <= t < now + PushWait(r, now, RtcAt(epoch, now))
    ensures Awaited(r, i, j, RtcAt(epoch, now)) && DelayEnds(r.posts[j], now, RtcAt(epoch, now)) <= t
    ensures PushWait(r, now, RtcAt(epoch, now)) == Work(r, now, RtcAt(epoch, now), |r.clients|)
    ensures PushWait(r, now, RtcAt(epoch, now)) <= (Add32(r.posts[j].ts, POST_SYNC_DELAY_SECS) - RtcAt(epoch, now)) * 1000
    ensures Until(Trunc32(now), Trunc32(r.nextPush)) < PushWait(r, now, RtcAt(epoch, now))
  {
    hide PostsWait, Until, RtcAt, DelayEnds;
    var rtc := RtcAt(epoch, now);
    UntilExactlyWhen(now, r.nextPush);
    i :| i < |r.clients| && HasWork(r.clients[i], r.posts, t, RtcAt(epoch, t));
    var c := r.clients[i];
    NoSoonerClient(r, now, rtc, |r.clients|, i);
    j := 0;
    if c.pendingAck != 0 {
      UntilExactlyWhen(now, c.ackTimeout);
      assert false;
    } else {
      j :| j < |r.posts| && Ready(r.posts[j], c, RtcAt(epoch, t));
      NoSoonerPost(r.posts, c, rtc, |r.posts|, j);
      ReadyFromThenOn(r.posts[j], c, epoch, now, t);
    }
  }

  /** Whenever the engine could act now, the wait is 0. */
  lemma {:induction false} NoWaitForWork(ts: seq<TimedWorld>, events: seq<Event>, r: Room, epoch: u32, now: nat)
    requires Reaches(ts, events, r, now) && MayAct(r, epoch, now)
    ensures PushWait(r, now, RtcAt(epoch, now)) == 0
  {
    hide PushWait, MayAct, Timely, Reaches;
    ReachedIsTimely(ts, events, r, now);
    if PushWait(r, now, RtcAt(epoch, now)) > 0 {
      var _, _ := WorkInsideTheWait(r, epoch, now, now);
    }
  }

  /** The wait is never a second too long. */
  lemma {:induction false} NeverASecondLate(ts: seq<TimedWorld>, events: seq<Event>, r: Room, epoch: u32, now: nat, t: nat)
    requires Reaches(ts, events, r, now) && now <= t && t + now % 1000 < now + PushWait(r, now, RtcAt(epoch, now))
    ensures !MayAct(r, epoch, t)
  {
    hide PushWait, MayAct, Timely, Reaches;
    ReachedIsTimely(ts, events, r, now);
    if MayAct(r, epoch, t) {
      var _, _ := WorkInsideTheWait(r, epoch, now, t);
    }
  }

  ghost predicate WakesInTime(r: Room, epoch: u32, now: nat) {
    forall t: nat :: now <= t < now + PushWait(r, now, RtcAt(epoch, now)) ==> !MayAct(r, epoch, t)
  }

  /** How long a post's delay counts for, in whole seconds from now and on uint32_t. */
  function CountedDelay(p: Post, rtc: u32): int {
    (Add32(p.ts, POST_SYNC_DELAY_SECS) - rtc) * 1000 % U32_RANGE
  }

  /** The moment t lies before every ack timeout and every counted delay. */
  predicate BeforeEveryWait(r: Room, now: nat, rtc: u32, t: int) {
    && t < now + MAINTENANCE_IDLE
    && (forall i: nat :: i < |r.clients| && r.clients[i].pendingAck != 0 ==> t < Max(now, r.clients[i].ackTimeout))
    && forall i: nat, j: nat :: i < |r.clients| && j < |r.posts| && Servable(r.clients[i]) && Unsynced(r.posts[j], r.clients[i]) ==>
      !Ready(r.posts[j], r.clients[i], rtc) && t < now + CountedDelay(r.posts[j], rtc)
  }

  /** Some post's delay ends, with the gate open, before every ack timeout and every counted delay. */
  ghost predicate CountsTooLong(r: Room, epoch: u32, now: nat) {
    var rtc := RtcAt(epoch, now);
    exists i: nat, j: nat :: Awaited(r, i, j, rtc) &&
                             BeforeEveryWait(r, now, rtc, Max(Max(now, r.nextPush), DelayEnds(r.posts[j], now, rtc)))
  }

  /** The soonest work lies after t exactly when every single wait does. */
  lemma {:induction false} WorkIsLaterExactlyWhen(r: Room, now: nat, rtc: u32, t: int)
    requires Timely(r, now) && now <= t
    ensures t < now + Work(r, now, rtc, |r.clients|) <==> BeforeEveryWait(r, now, rtc, t)
  {
    hide Work, PostsWait, Until, Fresh;
    var work := Work(r, now, rtc, |r.clients|);
    if t < now + work {
      EveryWaitIsLater(r, now, rtc, t);
    } else if work < MAINTENANCE_IDLE {
      var i := SoonestOfClients(r, now, rtc, |r.clients|);
      SomeWaitIsSooner(r, now, rtc, t, i);
    }
  }

  lemma {:induction false} SomeWaitIsSooner(r: Room, now: nat, rtc: u32, t: int, i: nat)
    requires Timely(r, now) && i < |r.clients| && now + ClientWait(r.clients[i], r.posts, now, rtc) <= t
    requires ClientWait(r.clients[i], r.posts, now, rtc) < MAINTENANCE_IDLE
    ensures !BeforeEveryWait(r, now, rtc, t)
  {
    hide PostsWait, Until;
    var c := r.clients[i];
    if c.pendingAck != 0 {
      UntilExactlyWhen(now, c.ackTimeout);
    } else {
      var j := SoonestOfPosts(r.posts, c, rtc, |r.posts|);
      assert PostWait(r.posts[j], c, rtc) <= t - now;
    }
  }

  lemma {:induction false} EveryWaitIsLater(r: Room, now: nat, rtc: u32, t: int)
    requires Timely(r, now) && now <= t < now + Work(r, now, rtc, |r.clients|)
    ensures BeforeEveryWait(r, now, rtc, t)
  {
    hide Work, PostsWait, Until;
    forall i: nat | i < |r.clients| && r.clients[i].pendingAck != 0 ensures t < Max(now, r.clients[i].ackTimeout) {
      NoSoonerClient(r, now, rtc, |r.clients|, i);
      UntilExactlyWhen(now, r.clients[i].ackTimeout);
    }
    forall i: nat, j: nat | i < |r.clients| && j < |r.posts| && Servable(r.clients[i]) && Unsynced(r.posts[j], r.clients[i])
      ensures !Ready(r.posts[j], r.clients[i], rtc) && t < now + CountedDelay(r.posts[j], rtc)
    {
      NoSoonerClient(r, now, rtc, |r.clients|, i);
      NoSoonerPost(r.posts, r.clients[i], rtc, |r.posts|, j);
    }
    assert Work(r, now, rtc, |r.clients|) <= MAINTENANCE_IDLE;
  }

  /** The wait oversleeps if and only if a post is ready before everything that was counted. */
  lemma {:induction false} WakesInTimeExactlyWhen(ts: seq<TimedWorld>, events: seq<Event>, r: Room, epoch: u32, now: nat)
    requires Reaches(ts, events, r, now) && ClockLasts(epoch, now)
    ensures WakesInTime(r, epoch, now) <==> !CountsTooLong(r, epoch, now)
  {
    hide Reaches, BeforeEveryWait;
    ReachedIsTimely(ts, events, r, now);
    WakesExactlyWhen(r, epoch, now);
  }

  lemma {:induction false} WakesExactlyWhen(r: Room, epoch: u32, now: nat)
    requires Timely(r, now) && ClockLasts(epoch, now)
    ensures WakesInTime(r, epoch, now) <==> !CountsTooLong(r, epoch, now)
  {
    hide BeforeEveryWait, RtcAt, Timely, DelayEnds, PushWait, MayAct, ClockLasts;
    var rtc := RtcAt(epoch, now);
    if !WakesInTime(r, epoch, now) {
      var t: nat :| now <= t < now + PushWait(r, now, rtc) && MayAct(r, epoch, t);
      var i, j := WorkInsideTheWait(r, epoch, now, t);
      ActsAfterTheGate(r, epoch, t);
      WorkIsLaterExactlyWhen(r, now, rtc, Max(Max(now, r.nextPush), DelayEnds(r.posts[j], now, rtc)));
      assert Awaited(r, i, j, rtc);
    }
    if CountsTooLong(r, epoch, now) {
      var i: nat, j: nat :| Awaited(r, i, j, rtc) && BeforeEveryWait(r, now, rtc, Max(Max(now, r.nextPush), DelayEnds(r.posts[j], now, rtc)));
      var t := Max(Max(now, r.nextPush), DelayEnds(r.posts[j], now, rtc));
      WorkIsLaterExactlyWhen(r, now, rtc, t);
      ActsInsideTheWait(r, epoch, now, t, i, j);
    }
  }

  lemma {:induction false} ActsAfterTheGate(r: Room, epoch: u32, t: nat)
    requires MayAct(r, epoch, t)
    ensures r.nextPush <= t
  {
  }

  lemma {:induction false} ActsInsideTheWait(r: Room, epoch: u32, now: nat, t: nat, i: nat, j: nat)
    requires Timely(r, now) && ClockLasts(epoch, now) && Awaited(r, i, j, RtcAt(epoch, now))
    requires now <= t < now + Work(r, now, RtcAt(epoch, now), |r.clients|)
    requires r.nextPush <= t && DelayEnds(r.posts[j], now, RtcAt(epoch, now)) <= t
    ensures MayAct(r, epoch, t) && t < now + PushWait(r, now, RtcAt(epoch, now))
  {
    hide Work, DelayEnds, ClockLasts;
    UntilExactlyWhen(now, r.nextPush);
    ReadyFromThenOn(r.posts[j], r.clients[i], epoch, now, t);
    assert HasWork(r.clients[i], r.posts, t, RtcAt(epoch, t));
  }

  /** Asked when a clock second begins, it never oversleeps ... */
  lemma {:induction false} OnTheSecondItWakesInTime(ts: seq<TimedWorld>, events: seq<Event>, r: Room, epoch: u32, now: nat)
    requires Reaches(ts, events, r, now) && now % 1000 == 0
    ensures WakesInTime(r, epoch, now)
  {
    hide PushWait, MayAct, Reaches;
    forall t: nat | now <= t < now + PushWait(r, now, RtcAt(epoch, now)) ensures !MayAct(r, epoch, t) {
      NeverASecondLate(ts, events, r, epoch, now, t);
    }
  }

  /** ... and at no other moment is that true of every room a run can reach. */
  lemma {:induction false} OffTheSecondItOversleeps(epoch: u32, now: nat, author: Identity)
    returns (ts: seq<TimedWorld>, events: seq<Event>, r: Room)
    requires now % 1000 != 0 && 0 < RtcAt(epoch, now) && ClockLasts(epoch, now)
    ensures Reaches(ts, events, r, now) && !WakesInTime(r, epoch, now)
  {
    var rtc := RtcAt(epoch, now);
    r, events := OnePostRoom(author, rtc, now), FirstPost(author, rtc, now);
    ts := OnePostRun(author, rtc, now);
    hide IsTimedRun, OnePostRoom, RtcAt, Timely;
    ReachedIsTimely(ts, events, r, now);
    OnePostIsAwaited(author, rtc, now);
    WakesExactlyWhen(r, epoch, now);
  }

  lemma {:induction false} OnePostIsAwaited(author: Identity, rtc: u32, now: nat)
    requires 0 < rtc < LAST_SECOND && rtc + 3 < U32_RANGE && now % 1000 != 0
    ensures var r := OnePostRoom(author, rtc, now);
            Awaited(r, 0, 0, rtc) && BeforeEveryWait(r, now, rtc, Max(Max(now, r.nextPush), DelayEnds(r.posts[0], now, rtc)))
  {
  }

  /** No post lies so far ahead that its delay in milliseconds wraps. */
  predicate DelaysFit(r: Room, rtc: u32) {
    forall j :: 0 <= j < |r.posts| ==> (Add32(r.posts[j].ts, POST_SYNC_DELAY_SECS) - rtc) * 1000 < U32_RANGE
  }

  /** No wait at all means there is work, unless a post lies so far ahead that its delay in milliseconds wraps. */
  lemma {:induction false} NoWaitMeansWork(ts: seq<TimedWorld>, events: seq<Event>, r: Room, epoch: u32, now: nat)
    requires Reaches(ts, events, r, now) && PushWait(r, now, RtcAt(epoch, now)) == 0
    requires DelaysFit(r, RtcAt(epoch, now))
    ensures MayAct(r, epoch, now)
  {
    hide Reaches, Work, PostsWait, Until, RtcAt;
    ReachedIsTimely(ts, events, r, now);
    var rtc := RtcAt(epoch, now);
    var i := SoonestOfClients(r, now, rtc, |r.clients|);
    UntilExactlyWhen(now, r.nextPush);
    var c := r.clients[i];
    if c.pendingAck != 0 {
      UntilExactlyWhen(now, c.ackTimeout);
    } else {
      var j := SoonestOfPosts(r.posts, c, rtc, |r.posts|);
      assert Ready(r.posts[j], c, rtc);
    }
    assert HasWork(c, r.posts, now, rtc);
  }

  /**
   * Longer after the last pass it is not so: 2^31 ms after the first post, with no pass between,
   * the gate reads as still ahead, and the post that waits behind it gets no wake.
   */
  lemma {:induction false} AStaleGateOversleeps(author: Identity, epoch: u32) returns (ts: seq<TimedWorld>, events: seq<Event>, now: nat)
    requires 0 < epoch < 0x8000_0000
    ensures IsTimedRun(ts, events) && ts[|events|].clock == 0 && now == HALF_TURN + 2000
    ensures var r := ts[|events|].w.room; MayAct(r, epoch, now) && 0 < PushWait(r, now, RtcAt(epoch, now))
  {
    events, now := FirstPost(author, epoch, 0), HALF_TURN + 2000;
    ts := OnePostRun(author, epoch, 0);
    var r := OnePostRoom(author, epoch, 0);
    assert RtcAt(epoch, now) == epoch + now / 1000;
    assert Ready(r.posts[0], r.clients[0], RtcAt(epoch, now));
    assert HasWork(r.clients[0], r.posts, now, RtcAt(epoch, now));
    hide Work;
    StaleGate(r, now, RtcAt(epoch, now));
  }

  lemma {:induction false} StaleGate(r: Room, now: nat, rtc: u32)
    requires !Fresh(now, r.nextPush) && r.nextPush <= now < r.nextPush + U32_RANGE
    ensures 0 < PushWait(r, now, rtc)
  {
    UntilExactlyWhen(now, r.nextPush);
  }
}
