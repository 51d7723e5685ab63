/**
 * That delivery gets done: whose turn comes, what a client that keeps up has got, and
 * that what it has passed it did get. Over whole runs of the room server.
 */
module RoomDelivery {
  import opened Words
  import opened RoomPosts
  import opened RoomRuns

  // ---- Turns -----------------------------------------------------------------------------

  /** The push engine runs. */
  predicate OpenPass(w: World, e: Event) {
    e.Pass? && e.up >= w.room.nextPush && w.room.clients != []
  }

  predicate IsTurn(w: World, e: Event, i: nat) {
    OpenPass(w, e) && w.room.nextClient == i
  }

  /** Open passes of a run from its a-th event to its b-th. */
  function Passes(ws: seq<World>, events: seq<Event>, a: nat, b: nat): nat
    requires a <= b <= |events| < |ws|
    decreases b
  {
    if a == b then 0
    else Passes(ws, events, a, b - 1) + if OpenPass(ws[b - 1], events[b - 1]) then 1 else 0
  }

  /** How many clients are served before the i-th. */
  function TurnsAhead(r: Room, i: nat): nat
    requires Shaped(r)
  {
    if r.nextClient <= i then i - r.nextClient else |r.clients| - r.nextClient + i
  }

  lemma {:induction false} RunIsShaped(ws: seq<World>, events: seq<Event>, k: nat)
    requires IsRun(ws, events) && k < |ws|
    ensures Ok(ws[k]) && Shaped(ws[k].room)
    ensures k < |events| ==> Clocked(ws[k], events[k]) && ws[k + 1] == Step(ws[k], events[k])
  {
    hide Step, Clocked, ClientsOk, Orderly;
    assert k < |events| ==> Goes(ws[k], events[k], ws[k + 1]);
    RunsAreOrderly(ws, events, k);
  }

  /** Clients stay in place, and one that is added comes last. */
  lemma {:induction false} StepKeepsPlaces(w: World, e: Event, i: nat)
    requires Shaped(w.room) && i < |w.room.clients|
    ensures var r, r' := w.room, Step(w, e).room;
            && Shaped(r') && |r.clients| <= |r'.clients| && r'.clients[i].id == r.clients[i].id
            && |r'.posts| == |r.posts|
            && TurnsAhead(r', i) + (|r.clients| - |r'.clients|) <=
               if !OpenPass(w, e) then TurnsAhead(r, i) else if IsTurn(w, e, i) then |r.clients| - 1 else TurnsAhead(r, i) - 1
  {
    hide PickFrom, PushEntries, AckedClient, RingSlot;
  }

  /** A turn missed is a turn nearer. */
  lemma {:induction false} NoTurnYet(ws: seq<World>, events: seq<Event>, a: nat, b: nat, i: nat)
    requires IsRun(ws, events) && a <= b <= |events| && i < |ws[a].room.clients|
    requires forall k: nat :: a <= k < b ==> !IsTurn(ws[k], events[k], i)
    ensures Shaped(ws[b].room) && i < |ws[b].room.clients|
    ensures Passes(ws, events, a, b) + TurnsAhead(ws[b].room, i) < |ws[b].room.clients|
    decreases b
  {
    hide Goes, Step, Ok;
    RunIsShaped(ws, events, b);
    if a < b {
      NoTurnYet(ws, events, a, b - 1, i);
      RunIsShaped(ws, events, b - 1);
      StepKeepsPlaces(ws[b - 1], events[b - 1], i);
    }
  }

  /** In every run, among as many open passes as there are clients is one that serves the i-th. */
  lemma {:induction false} TurnComes(ws: seq<World>, events: seq<Event>, a: nat, b: nat, i: nat) returns (k: nat)
    requires IsRun(ws, events) && a <= b <= |events| && i < |ws[a].room.clients|
    requires |ws[b].room.clients| <= Passes(ws, events, a, b)
    ensures a <= k < b && IsTurn(ws[k], events[k], i)
    ensures forall j: nat :: a <= j < k ==> !IsTurn(ws[j], events[j], i)
  {
    hide Goes;
    k := a;
    while k < b && !IsTurn(ws[k], events[k], i)
      invariant a <= k <= b && forall j: nat :: a <= j < k ==> !IsTurn(ws[j], events[j], i)
    {
      k := k + 1;
    }
    if k == b {
      NoTurnYet(ws, events, a, b, i);
    }
  }

  /** A push could go to the i-th client with the j-th post, once that is past its delay. */
  predicate WaitsFor(w: World, i: nat, j: nat) {
    && i < |w.room.clients| && j < |w.history|
    && Servable(w.room.clients[i]) && Unsynced(w.history[j], w.room.clients[i])
  }

  /** The client's since is not moved nor its activity forgotten, and a pass finds the post past its delay. */
  predicate LeavesWaiting(e: Event, i: nat, p: Post) {
    match e
    case Pass(_, rtc, _) => rtc >= Add32(p.ts, POST_SYNC_DELAY_SECS)
    case HearFrom(j, rtc) => j == i ==> rtc != 0
    case PathFrom(j, rtc) => j == i ==> rtc != 0
    case KeepAlive(j, rtc, forceSince) => j == i ==> rtc != 0 && forceSince == 0
    case Login(j, _, _, _, _) => j != i
    case _ => true
  }

  lemma {:induction false} StepLeavesWaiting(w: World, e: Event, i: nat, j: nat)
    requires Shaped(w.room) && WaitsFor(w, i, j) && LeavesWaiting(e, i, w.history[j]) && !IsTurn(w, e, i)
    ensures WaitsFor(Step(w, e), i, j) && Step(w, e).history[j] == w.history[j]
  {
    hide Picked, PushEntries, RingSlot;
  }

  lemma {:induction false} HistoriesGrow(ws: seq<World>, events: seq<Event>, a: nat, b: nat)
    requires IsRun(ws, events) && a <= b <= |events|
    ensures |ws[a].history| <= |ws[b].history| && |ws[a].room.posts| == |ws[b].room.posts|
    decreases b
  {
    hide Goes, Ok;
    if a < b {
      HistoriesGrow(ws, events, a, b - 1);
      RunIsShaped(ws, events, b - 1);
      StepKeepsSize(ws[b - 1], events[b - 1]);
    }
  }

  lemma {:induction false} StepKeepsSize(w: World, e: Event)
    requires Shaped(w.room)
    ensures |w.history| <= |Step(w, e).history| && |Step(w, e).room.posts| == |w.room.posts|
  {
    hide Picked, PushEntries, RingSlot, ExpireAll, AckedClient;
  }

  lemma {:induction false} StaysWaiting(ws: seq<World>, events: seq<Event>, a: nat, k: nat, i: nat, j: nat)
    requires IsRun(ws, events) && a <= k <= |events| && WaitsFor(ws[a], i, j)
    requires forall n: nat :: a <= n < k ==> LeavesWaiting(events[n], i, ws[a].history[j]) && !IsTurn(ws[n], events[n], i)
    ensures WaitsFor(ws[k], i, j) && ws[k].history[j] == ws[a].history[j]
    decreases k
  {
    hide Goes, Step, Ok, IsTurn, LeavesWaiting, WaitsFor;
    WaitingHas(ws[a], i, j);
    if a < k {
      StaysWaiting(ws, events, a, k - 1, i, j);
      WaitingHas(ws[k - 1], i, j);
      RunIsShaped(ws, events, k - 1);
      StepLeavesWaiting(ws[k - 1], events[k - 1], i, j);
      WaitingHas(ws[k], i, j);
    }
  }

  lemma {:induction false} WaitingHas(w: World, i: nat, j: nat)
    requires WaitsFor(w, i, j)
    ensures i < |w.room.clients| && j < |w.history|
  {
  }

  /** The ring still holds the j-th post. */
  predicate InRing(history: seq<Post>, j: nat, size: nat) {
    j < |history| <= j + size
  }

  /** The last entry is a push to the i-th client of the j-th post or an earlier one. */
  predicate JustPushed(log: seq<Entry>, i: nat, j: nat) {
    log != [] && log[|log| - 1].Push? && log[|log| - 1].i == i && log[|log| - 1].at <= j
  }

  lemma {:induction false} TurnPushes(w: World, e: Event, i: nat, j: nat)
    requires Ok(w) && WaitsFor(w, i, j) && InRing(w.history, j, |w.room.posts|) && IsTurn(w, e, i)
    requires LeavesWaiting(e, i, w.history[j])
    ensures JustPushed(Step(w, e).log, i, j)
  {
    hide Orderly, ClientsOk, InOrder, Expiries;
    var r, size := w.room, |w.room.posts|;
    var k := j - (|w.history| - size);
    assert Ring(r)[k] == w.history[j] == r.posts[RingSlot(r.nextPost, k, size)];
    assert Expired(r.clients[i], e.up) == r.clients[i];
    assert Picked(r, r.clients[i], e.rtc) <= k;
  }

  /** In every run: a post that waits is pushed, or one before it, within as many open passes as there are clients. */
  lemma {:induction false} WaitingIsServed(ws: seq<World>, events: seq<Event>, a: nat, b: nat, i: nat, j: nat) returns (k: nat)
    requires IsRun(ws, events) && a <= b <= |events| && WaitsFor(ws[a], i, j)
    requires InRing(ws[b].history, j, |ws[b].room.posts|)
    requires forall n: nat :: a <= n < b ==> LeavesWaiting(events[n], i, ws[a].history[j])
    requires |ws[b].room.clients| <= Passes(ws, events, a, b)
    ensures a <= k < b && IsTurn(ws[k], events[k], i) && JustPushed(ws[k + 1].log, i, j)
  {
    hide Goes, Step, Ok, IsTurn, LeavesWaiting, JustPushed;
    k := TurnComes(ws, events, a, b, i);
    StaysWaiting(ws, events, a, k, i, j);
    HistoriesGrow(ws, events, k, b);
    RunIsShaped(ws, events, k);
    TurnPushes(ws[k], events[k], i, j);
  }

  // ---- Catching up -----------------------------------------------------------------------

  /** The newest post the client has, or will have with the push in flight. */
  function Reached(c: Client): u32 {
    if c.pendingAck != 0 then c.pushPostTs else c.syncSince
  }

  /** How many posts of the ring lie ahead of that. */
  function Outstanding(r: Room, i: nat): (n: nat)
    requires i < |r.clients|
    ensures n <= |r.posts|
    ensures n == 0 <==> forall j :: 0 <= j < |r.posts| ==>
                          !(r.posts[j].ts > Reached(r.clients[i]) && r.posts[j].author != r.clients[i].id)
  {
    var c := r.clients[i];
    CountUnsynced(r.posts, Client(c.id, 0, Reached(c), 0, 0, 0, 0))
  }

  predicate Active(c: Client) {
    c.lastActivity != 0 && c.pushFailures < MAX_PUSH_FAILURES
  }

  predicate Lacks(posts: seq<Post>, c: Client) {
    exists j :: 0 <= j < |posts| && Unsynced(posts[j], c)
  }

  /**
   * The client keeps up: it lets no push expire, has acknowledged the last one when its turn comes again,
   * and moves its own since neither back nor forth. A turn that finds it lacking posts finds one past
   * its delay, and what is pushed goes out.
   */
  predicate KeepsUp(w: World, e: Event, i: nat)
    requires Shaped(w.room) && i < |w.room.clients|
  {
    var r, c := w.room, w.room.clients[i];
    match e
    case Pass(up, rtc, s) =>
      OpenPass(w, e) ==>
        && !Overdue(c, up)
        && (r.nextClient == i ==>
              && c.pendingAck == 0 && s.packet && s.ack != 0
              && (Lacks(r.posts, c) ==> exists j :: 0 <= j < |r.posts| && Ready(r.posts[j], c, rtc)))
    case HearFrom(j, rtc) => j == i ==> rtc != 0
    case PathFrom(j, rtc) => j == i ==> rtc != 0
    case KeepAlive(j, rtc, forceSince) => j == i ==> rtc != 0 && forceSince == 0 && c.pendingAck == 0
    case Login(j, _, _, _, _) => j != i
    case _ => true
  }

  lemma {:induction false} FewerUnsynced(posts: seq<Post>, c: Client, c': Client)
    requires c.id == c'.id && c.syncSince <= c'.syncSince
    ensures CountUnsynced(posts, c') <= CountUnsynced(posts, c)
    ensures (exists j :: 0 <= j < |posts| && posts[j].author != c.id && c.syncSince < posts[j].ts <= c'.syncSince) ==>
              CountUnsynced(posts, c') < CountUnsynced(posts, c)
  {
    if posts != [] {
      var front := posts[..|posts| - 1];
      FewerUnsynced(front, c, c');
      if j :| 0 <= j < |posts| && posts[j].author != c.id && c.syncSince < posts[j].ts <= c'.syncSince && j < |posts| - 1 {
        assert front[j] == posts[j];
      }
    }
  }

  lemma {:induction false} OneMoreUnsynced(posts: seq<Post>, k: nat, p: Post, c: Client)
    requires k < |posts|
    ensures CountUnsynced(posts[k := p], c) <= CountUnsynced(posts, c) + 1
  {
    hide CountUnsynced;
    var front, last := posts[..|posts| - 1], posts[|posts| - 1];
    CountsTheLast(front, last, c);
    assert front + [last] == posts;
    if k < |front| {
      OneMoreUnsynced(front, k, p, c);
      CountsTheLast(front[k := p], last, c);
      assert posts[k := p] == front[k := p] + [last];
    } else {
      CountsTheLast(front, p, c);
      assert posts[k := p] == front + [p];
    }
  }

  lemma {:induction false} CountsTheLast(front: seq<Post>, last: Post, c: Client)
    ensures CountUnsynced(front + [last], c)
         == CountUnsynced(front, c) + if last.ts > c.syncSince && last.author != c.id then 1 else 0
  {
    assert (front + [last])[..|front|] == front;
  }

  /** Of a client that keeps up: a post adds at most one, and a turn takes at least one off. */
  predicate Progress(w: World, e: Event, w': World, i: nat)
    requires i < |w.room.clients| && i < |w'.room.clients|
  {
    var n, n' := Outstanding(w.room, i), Outstanding(w'.room, i);
    && Active(w'.room.clients[i])
    && n' <= n + (if e.Store? then 1 else 0)
    && (IsTurn(w, e, i) && n > 0 ==> n' < n)
  }

  lemma {:induction false} TurnServes(w: World, e: Event, i: nat)
    requires Shaped(w.room) && i < |w.room.clients| && Active(w.room.clients[i]) && KeepsUp(w, e, i)
    requires IsTurn(w, e, i)
    ensures Progress(w, e, Step(w, e), i)
  {
    hide CountUnsynced, PushEntries, RingSlot;
    var r, c := w.room, w.room.clients[i];
    var k := Picked(r, c, e.rtc);
    if k < |r.posts| {
      var p := r.posts[RingSlot(r.nextPost, k, |r.posts|)];
      FewerUnsynced(r.posts, Client(c.id, 0, c.syncSince, 0, 0, 0, 0), Client(c.id, 0, p.ts, 0, 0, 0, 0));
    } else if Outstanding(r, i) > 0 {
      assert exists j :: 0 <= j < |r.posts| && Unsynced(r.posts[j], c);
      var j :| 0 <= j < |r.posts| && Ready(r.posts[j], c, e.rtc);
      SomethingIsPicked(r, c, e.rtc, j);
    }
  }

  lemma {:induction false} SomethingIsPicked(r: Room, c: Client, rtc: u32, j: nat)
    requires Shaped(r) && j < |r.posts| && Servable(c) && Ready(r.posts[j], c, rtc)
    ensures Picked(r, c, rtc) < |r.posts|
  {
    hide Ready;
    var n := |r.posts|;
    var k := if j >= r.nextPost then j - r.nextPost else j + n - r.nextPost;
    assert RingSlot(r.nextPost, k, n) == j;
  }

  lemma {:induction false} StepProgresses(w: World, e: Event, i: nat)
    requires Shaped(w.room) && i < |w.room.clients| && Active(w.room.clients[i]) && KeepsUp(w, e, i)
    ensures i < |Step(w, e).room.clients| && Progress(w, e, Step(w, e), i)
  {
    hide CountUnsynced, PushEntries, RingSlot, Picked;
    if IsTurn(w, e, i) {
      TurnServes(w, e, i);
    } else if e.Store? {
      var c, p := w.room.clients[i], Posted(w.room, e.author, e.text, e.rtc);
      OneMoreUnsynced(w.room.posts, w.room.nextPost, p, Client(c.id, 0, Reached(c), 0, 0, 0, 0));
    }
  }

  /** Posts stored in a run from its a-th event to its b-th. */
  function Stores(events: seq<Event>, a: nat, b: nat): nat
    requires a <= b <= |events|
    decreases b
  {
    if a == b then 0 else Stores(events, a, b - 1) + if events[b - 1].Store? then 1 else 0
  }

  predicate KeepsUpAt(w: World, e: Event, i: nat) {
    Shaped(w.room) && i < |w.room.clients| && KeepsUp(w, e, i)
  }

  predicate AllKeepUp(ws: seq<World>, events: seq<Event>, a: nat, b: nat, i: nat)
    requires a <= b <= |events| < |ws|
  {
    forall k: nat :: a <= k < b ==> KeepsUpAt(ws[k], events[k], i)
  }

  predicate Waits(w: World, i: nat) {
    Shaped(w.room) && i < |w.room.clients| && Outstanding(w.room, i) > 0
  }

  /** As long as the client lacks something, open passes are paid for by turns nearer and posts fewer. */
  lemma {:induction false} PassesArePaid(ws: seq<World>, events: seq<Event>, a: nat, b: nat, i: nat, n: nat)
    requires IsRun(ws, events) && a <= b <= |events| && i < |ws[a].room.clients| && Active(ws[a].room.clients[i])
    requires AllKeepUp(ws, events, a, b, i) && forall k: nat :: a <= k < b ==> Waits(ws[k], i)
    requires |ws[b].room.clients| <= n
    ensures Shaped(ws[b].room) && i < |ws[b].room.clients| && Active(ws[b].room.clients[i])
    ensures Passes(ws, events, a, b) + n * Outstanding(ws[b].room, i) + TurnsAhead(ws[b].room, i) - |ws[b].room.clients|
         <= n * (Outstanding(ws[a].room, i) + Stores(events, a, b)) - 1
    decreases b
  {
    hide Goes, Step, Ok, KeepsUp, Outstanding, TurnsAhead, Active, OpenPass;
    RunIsShaped(ws, events, b);
    if a == b {
      FewerAhead(ws[a].room, i);
    } else {
      RunIsShaped(ws, events, b - 1);
      assert KeepsUpAt(ws[b - 1], events[b - 1], i) && Waits(ws[b - 1], i);
      StepKeepsPlaces(ws[b - 1], events[b - 1], i);
      PassesArePaid(ws, events, a, b - 1, i, n);
      StepPays(ws[b - 1], events[b - 1], i, n);
      Distributes(n, Outstanding(ws[a].room, i) + Stores(events, a, b - 1), if events[b - 1].Store? then 1 else 0);
    }
  }

  lemma {:induction false} StepPays(w: World, e: Event, i: nat, n: nat)
    requires KeepsUpAt(w, e, i) && Active(w.room.clients[i]) && Waits(w, i)
    requires |Step(w, e).room.clients| <= n
    ensures var r, r' := w.room, Step(w, e).room;
            && Shaped(r') && |r.clients| <= |r'.clients| && Active(r'.clients[i])
            && (if OpenPass(w, e) then 1 else 0) + n * Outstanding(r', i) + TurnsAhead(r', i) - |r'.clients|
               <= n * Outstanding(r, i) + (if e.Store? then n else 0) + TurnsAhead(r, i) - |r.clients|
  {
    hide Step, KeepsUp, Outstanding, TurnsAhead, Active;
    StepKeepsPlaces(w, e, i);
    StepProgresses(w, e, i);
    var before, after := Outstanding(w.room, i), Outstanding(Step(w, e).room, i);
    if IsTurn(w, e, i) {
      OnTurn(w.room, i);
      Multiplies(n, after + 1, before);
      Distributes(n, after, 1);
    } else if e.Store? {
      Multiplies(n, after, before + 1);
      Distributes(n, before, 1);
    } else {
      Multiplies(n, after, before);
    }
  }

  lemma {:induction false} FewerAhead(r: Room, i: nat)
    requires Shaped(r) && i < |r.clients|
    ensures TurnsAhead(r, i) < |r.clients|
  {
  }

  lemma {:induction false} OnTurn(r: Room, i: nat)
    requires Shaped(r) && r.nextClient == i
    ensures TurnsAhead(r, i) == 0
  {
  }

  lemma {:induction false} Multiplies(n: nat, x: nat, y: nat)
    requires x <= y
    ensures n * x <= n * y
  {
  }

  lemma {:induction false} Distributes(n: nat, x: nat, y: nat)
    ensures n * (x + y) == n * x + n * y
  {
  }

  lemma {:induction false} TooFewPasses(ws: seq<World>, events: seq<Event>, a: nat, b: nat, i: nat)
    requires IsRun(ws, events) && a <= b <= |events| && i < |ws[a].room.clients| && Active(ws[a].room.clients[i])
    requires AllKeepUp(ws, events, a, b, i) && forall k: nat :: a <= k < b ==> Waits(ws[k], i)
    ensures Passes(ws, events, a, b) < |ws[b].room.clients| * (Outstanding(ws[a].room, i) + Stores(events, a, b) + 1)
  {
    hide Goes, Ok, KeepsUpAt, Outstanding, Active, Passes, Stores, TurnsAhead, Waits;
    var n := |ws[b].room.clients|;
    PassesArePaid(ws, events, a, b, i, n);
    Multiplies(n, 0, Outstanding(ws[b].room, i));
    Distributes(n, Outstanding(ws[a].room, i) + Stores(events, a, b), 1);
  }

  /**
   * In every run: while posts come in and clients are added, a client that keeps up has
   * everything at some moment of any stretch with a round of open passes for each post it
   * lacks or that comes in, and one more.
   */
  lemma {:induction false} CatchesUp(ws: seq<World>, events: seq<Event>, a: nat, b: nat, i: nat) returns (k: nat)
    requires IsRun(ws, events) && a <= b <= |events| && i < |ws[a].room.clients| && Active(ws[a].room.clients[i])
    requires AllKeepUp(ws, events, a, b, i)
    requires |ws[b].room.clients| * (Outstanding(ws[a].room, i) + Stores(events, a, b) + 1) <= Passes(ws, events, a, b)
    ensures a <= k <= b && Shaped(ws[k].room) && i < |ws[k].room.clients| && Outstanding(ws[k].room, i) == 0
  {
    hide Goes, Ok, KeepsUp, Outstanding, Active, Passes, Stores;
    if a == b {
      RunIsShaped(ws, events, a);
    }
    if forall k: nat :: a <= k < b ==> Waits(ws[k], i) {
      TooFewPasses(ws, events, a, b, i);
    }
    k :| a <= k < b && !Waits(ws[k], i);
    assert KeepsUpAt(ws[k], events[k], i);
  }

  // ---- What it has got -------------------------------------------------------------------

  predicate IsPushOf(log: seq<Entry>, m: nat, i: nat, j: nat) {
    m < |log| && log[m].Push? && log[m].inFlight && log[m].i == i && log[m].at == j
  }

  /** The j-th post was pushed to the i-th client, which acknowledged it before anything else settled that push. */
  ghost predicate ReceivedBy(log: seq<Entry>, i: nat, j: nat) {
    exists m: nat, l: nat :: IsPushOf(log, m, i, j) && m < l && IsAck(log, i, l) && NoneSettles(log, i, m, l)
  }

  predicate NoneSettles(log: seq<Entry>, i: nat, m: nat, l: nat)
    requires l <= |log|
  {
    forall n: nat :: m < n < l && log[n].i == i ==> log[n].Heard?
  }

  /** Each push carries the name of the client it went to. */
  predicate Addressed(log: seq<Entry>, clients: seq<Client>) {
    forall m: nat :: m < |log| && log[m].Push? ==> log[m].i < |clients| && log[m].to == clients[log[m].i].id
  }

  /** A push goes past no other author's post that the ring still holds. */
  lemma {:induction false} PushesThatVeryPost(log: seq<Entry>, m: nat, history: seq<Post>, last: u32, size: nat, j: nat)
    requires Orderly(log, history, size) && InOrder(history, last) && m < |log| && log[m].Push?
    requires InRing(history, j, size) && history[j].author != log[m].to
    requires Tracked(log[..m], log[m].i).since < history[j].ts <= log[m].ts
    ensures log[m].at == j
  {
    OrderlyPrefix(log, m, history, size);
  }

  /** A post by someone else that the client's since has passed, and the ring still holds, was received. */
  lemma {:induction false} PassedIsReceived(log: seq<Entry>, clients: seq<Client>, i: nat, k: nat, l: nat, history: seq<Post>, last: u32, size: nat, j: nat)
    requires Orderly(log, history, size) && InOrder(history, last) && Addressed(log, clients) && i < |clients|
    requires k <= l <= |log| && NoReset(log, i, k, l) && InRing(history, j, size) && history[j].author != clients[i].id
    requires Tracked(log[..k], i).since < history[j].ts <= Tracked(log[..l], i).since
    ensures ReceivedBy(log, i, j)
    decreases l
  {
    hide Orderly, Legal, InOrder, Tracked;
    TrackedNext(log, i, l - 1);
    if history[j].ts <= Tracked(log[..l - 1], i).since {
      PassedIsReceived(log, clients, i, k, l - 1, history, last, size, j);
    } else {
      SettlesAsReceived(log, i, l - 1, history, size);
      var m := InFlightWasPushed(log, i, l - 1, history, size);
      PushesThatVeryPost(log, m, history, last, size, j);
      assert IsPushOf(log, m, i, j) && IsAck(log, i, l - 1) && NoneSettles(log, i, m, l - 1);
    }
  }

  /** Since only moves by an acknowledgement of a push in flight, but for resets. */
  lemma {:induction false} SettlesAsReceived(log: seq<Entry>, i: nat, l: nat, history: seq<Post>, size: nat)
    requires Orderly(log, history, size) && l < |log| && !(log[l].Reset? && log[l].i == i)
    requires Tracked(log[..l + 1], i).since != Tracked(log[..l], i).since
    ensures log[l] == Acked(i) && Tracked(log[..l], i).inFlight && Tracked(log[..l + 1], i).since == Tracked(log[..l], i).ts
  {
    TrackedNext(log, i, l);
    OrderlyPrefix(log, l, history, size);
  }

  /** Nothing logged is taken back, and who keeps up is not reset. */
  lemma {:induction false} StepLogs(w: World, e: Event, i: nat)
    requires KeepsUpAt(w, e, i)
    ensures w.log <= Step(w, e).log && NoReset(Step(w, e).log, i, |w.log|, |Step(w, e).log|)
  {
    hide Step, KeepsUp;
    NewEntries(w, e, i);
    var log := Step(w, e).log;
    forall m: nat | |w.log| <= m < |log| ensures log[m] in log[|w.log|..] {
      assert log[m] == log[|w.log|..][m - |w.log|];
    }
  }

  lemma {:induction false} StepAddresses(w: World, e: Event)
    requires Shaped(w.room) && Addressed(w.log, w.room.clients)
    ensures Addressed(Step(w, e).log, Step(w, e).room.clients)
  {
    hide Step;
    NewEntries(w, e, 0);
    var log, clients := Step(w, e).log, Step(w, e).room.clients;
    forall m: nat | m < |log| && log[m].Push? ensures log[m].i < |clients| && log[m].to == clients[log[m].i].id {
      assert if m < |w.log| then log[m] == w.log[m] else log[m] == log[|w.log|..][m - |w.log|];
      StepKeepsPlaces(w, e, log[m].i);
    }
  }

  lemma {:induction false} NewEntries(w: World, e: Event, i: nat)
    requires Shaped(w.room)
    ensures w.log <= Step(w, e).log
    ensures forall x :: x in Step(w, e).log[|w.log|..] ==>
              && (x.Push? ==> x.i < |w.room.clients| && x.to == w.room.clients[x.i].id)
              && (i < |w.room.clients| && KeepsUp(w, e, i) ==> !(x.Reset? && x.i == i))
  {
    hide Picked, Expiries, AckedClient, Stored;
    ExpiriesArePushless(w.room.clients, if e.Pass? then e.up else 0);
  }

  lemma {:induction false} RunsAddress(ws: seq<World>, events: seq<Event>, k: nat)
    requires IsRun(ws, events) && k < |ws|
    ensures Addressed(ws[k].log, ws[k].room.clients)
  {
    hide Goes, Step, Ok;
    if k > 0 {
      RunsAddress(ws, events, k - 1);
      RunIsShaped(ws, events, k - 1);
      StepAddresses(ws[k - 1], events[k - 1]);
    }
  }

  lemma {:induction false} RunLogs(ws: seq<World>, events: seq<Event>, a: nat, b: nat, i: nat)
    requires IsRun(ws, events) && a <= b <= |events| && AllKeepUp(ws, events, a, b, i)
    ensures ws[a].log <= ws[b].log && NoReset(ws[b].log, i, |ws[a].log|, |ws[b].log|)
    decreases b
  {
    hide Goes, Step, Ok, KeepsUpAt;
    if a < b {
      RunLogs(ws, events, a, b - 1, i);
      RunIsShaped(ws, events, b - 1);
      assert KeepsUpAt(ws[b - 1], events[b - 1], i);
      StepLogs(ws[b - 1], events[b - 1], i);
    }
  }

  /** The j-th post is in flight to the i-th client. */
  ghost predicate InFlightTo(log: seq<Entry>, i: nat, j: nat) {
    exists m: nat :: IsPushOf(log, m, i, j) && NoneSettles(log, i, m, |log|)
  }

  /** A post someone else stored since, and the ring still holds, has been received or is in flight. */
  ghost predicate HasEverything(w: World, i: nat, since: u32)
    requires i < |w.room.clients|
  {
    forall j: nat :: InRing(w.history, j, |w.room.posts|) && w.history[j].author != w.room.clients[i].id && since < w.history[j].ts ==>
      ReceivedBy(w.log, i, j) || InFlightTo(w.log, i, j)
  }

  /**
   * In every run, over any stretch in which a client keeps up: if it lasts a round of open
   * passes for each post the client lacks or that comes in, and one more, there is a moment at
   * which every post of the ring that is newer than what it had, but for its own, has been
   * pushed to it and acknowledged, or is on its way.
   */
  lemma {:induction false} EverythingIsDelivered(ws: seq<World>, events: seq<Event>, a: nat, b: nat, i: nat) returns (k: nat)
    requires IsRun(ws, events) && a <= b <= |events| && i < |ws[a].room.clients| && Active(ws[a].room.clients[i])
    requires AllKeepUp(ws, events, a, b, i)
    requires |ws[b].room.clients| * (Outstanding(ws[a].room, i) + Stores(events, a, b) + 1) <= Passes(ws, events, a, b)
    ensures a <= k <= b && i < |ws[k].room.clients| && HasEverything(ws[k], i, ws[a].room.clients[i].syncSince)
  {
    hide Goes, KeepsUpAt, Outstanding, Active, Ok;
    k := CatchesUp(ws, events, a, b, i);
    RunLogs(ws, events, a, k, i);
    RunIsShaped(ws, events, a);
    RunIsShaped(ws, events, k);
    RunsAddress(ws, events, k);
    SinceIsTracked(ws[a], i);
    assert ws[k].log[..|ws[a].log|] == ws[a].log;
    CaughtUpHasEverything(ws[k], i, |ws[a].log|);
  }

  lemma {:induction false} SinceIsTracked(w: World, i: nat)
    requires Ok(w) && i < |w.room.clients|
    ensures var t, c := Tracked(w.log, i), w.room.clients[i];
            t.since == c.syncSince && (c.pendingAck != 0 ==> t.inFlight && t.ts == c.pushPostTs)
  {
    hide Remembers, Orderly, Tracked;
  }

  lemma {:induction false} CaughtUpHasEverything(w: World, i: nat, from: nat)
    requires Ok(w) && Addressed(w.log, w.room.clients) && i < |w.room.clients| && Outstanding(w.room, i) == 0
    requires from <= |w.log| && NoReset(w.log, i, from, |w.log|)
    ensures HasEverything(w, i, Tracked(w.log[..from], i).since)
  {
    hide Tracked, Outstanding, ClientsOk, Orderly, InOrder, ReceivedBy, InFlightTo;
    var r, log, history := w.room, w.log, w.history;
    var c, size := r.clients[i], |w.room.posts|;
    SinceIsTracked(w, i);
    assert log[..|log|] == log;
    forall j: nat | InRing(history, j, size) && history[j].author != c.id && Tracked(log[..from], i).since < history[j].ts
      ensures ReceivedBy(log, i, j) || InFlightTo(log, i, j)
    {
      assert Ring(r)[j - (|history| - size)] == history[j];
      if history[j].ts <= c.syncSince {
        PassedIsReceived(log, r.clients, i, from, |log|, history, r.lastUnique, size, j);
      } else {
        IsOnItsWay(w, i, j);
      }
    }
  }

  lemma {:induction false} IsOnItsWay(w: World, i: nat, j: nat)
    requires Ok(w) && Addressed(w.log, w.room.clients) && i < |w.room.clients|
    requires InRing(w.history, j, |w.room.posts|) && w.history[j].author != w.room.clients[i].id
    requires w.room.clients[i].syncSince < w.history[j].ts <= Reached(w.room.clients[i])
    ensures InFlightTo(w.log, i, j)
  {
    hide Tracked, ClientsOk, Orderly, InOrder;
    SinceIsTracked(w, i);
    assert w.log[..|w.log|] == w.log;
    var m := InFlightWasPushed(w.log, i, |w.log|, w.history, |w.room.posts|);
    PushesThatVeryPost(w.log, m, w.history, w.room.lastUnique, |w.room.posts|, j);
    assert IsPushOf(w.log, m, i, j) && NoneSettles(w.log, i, m, |w.log|);
  }

  /** In every run: an ACK that a client is the first to wait for makes its post in flight one it has received. */
  lemma {:induction false} AckDelivers(ws: seq<World>, events: seq<Event>, k: nat, ack: u32, i: nat) returns (j: nat)
    requires IsRun(ws, events) && k < |events| && events[k] == Ack(ack) && FirstAwaiting(ws[k].room.clients, ack, i)
    ensures j < |ws[k].history| && ws[k].history[j].ts == ws[k].room.clients[i].pushPostTs
    ensures ReceivedBy(ws[k + 1].log, i, j) && ws[k + 1].room.clients[i].syncSince == ws[k].history[j].ts
  {
    hide IsRun, Step, Tracked, Orderly;
    RunLength(ws, events);
    RunIsShaped(ws, events, k);
    var w, log := ws[k], ws[k].log;
    AckSettlesExactlyWhen(w, ack, i);
    SinceIsTracked(w, i);
    assert log[..|log|] == log;
    var m := InFlightWasPushed(log, i, |log|, w.history, |w.room.posts|);
    OrderlyPrefix(log, m, w.history, |w.room.posts|);
    j := log[m].at;
    var log' := ws[k + 1].log;
    assert log'[..|log|] == log && forall n :: 0 <= n < |log| ==> log'[n] == log[n];
    assert IsPushOf(log', m, i, j) && IsAck(log', i, |log|) && NoneSettles(log', i, m, |log|);
  }

  lemma {:induction false} RunLength(ws: seq<World>, events: seq<Event>)
    requires IsRun(ws, events)
    ensures |ws| == |events| + 1
  {
  }
}
