/**
 * Whole runs of the room server: what its clients acknowledge, what is passed
 * over and how often a silent client is pushed to.
 *
 * Clients are named by their place in the access list.
 */
module RoomRuns {
  import opened Words
  import opened RoomPosts

  datatype Event =
    | Store(author: Identity, text: string, rtc: u32, up: nat)
    | Pass(up: nat, rtc: u32, send: Send)
    | Ack(ack: u32)
    | HearFrom(i: nat, rtc: u32)
    | PathFrom(i: nat, rtc: u32)
    | KeepAlive(i: nat, rtc: u32, forceSince: u32)
    | Login(i: nat, id: Identity, since: u32, rtc: u32, up: nat)
    | Relogin(rtc: u32, up: nat)
    | Stamp(rtc: u32)

  // A push carries the post's place in the history, and the history's length at the time.
  datatype Entry =
    | Push(i: nat, to: Identity, ts: u32, inFlight: bool, at: nat, stored: nat)
    | Expiry(i: nat)
    | Acked(i: nat)
    | Heard(i: nat)
    | Cleared(i: nat)
    | Reset(i: nat, since: u32)

  datatype World = World(room: Room, history: seq<Post>, log: seq<Entry>)

  // ---- What the log says about one client ------------------------------------------------

  // streak counts the pushes left in flight since the client last gave a sign of life.
  datatype Track = Track(since: u32, inFlight: bool, ts: u32, streak: nat)

  function Next(t: Track, e: Entry): Track {
    match e
    case Push(_, _, ts, inFlight, _, _) => Track(t.since, inFlight, ts, t.streak + if inFlight then 1 else 0)
    case Expiry(_) => t.(inFlight := false)
    case Acked(_) => Track(t.ts, false, t.ts, 0)
    case Heard(_) => t.(streak := 0)
    case Cleared(_) => t.(inFlight := false, streak := 0)
    case Reset(_, since) => Track(since, false, t.ts, 0)
  }

  function Tracked(log: seq<Entry>, i: nat): Track {
    if log == [] then Track(0, false, 0, 0)
    else
      var t := Tracked(log[..|log| - 1], i);
      if log[|log| - 1].i == i then Next(t, log[|log| - 1]) else t
  }

  /**
   * A push goes out only with none in flight and fewer than three unanswered. It carries a
   * post the ring still held, newer than what the client has, not its own, and the ring
   * held no older one of that kind.
   */
  predicate Legal(e: Entry, t: Track, history: seq<Post>, size: nat) {
    match e
    case Push(_, to, ts, _, at, stored) =>
      && !t.inFlight && t.streak < MAX_PUSH_FAILURES
      && at < stored <= |history| && stored <= at + size
      && history[at].ts == ts && history[at].author != to && t.since < ts
      && forall j: nat :: j < at && stored <= j + size && history[j].author != to ==> history[j].ts <= t.since
    case Expiry(_) => t.inFlight
    case Acked(_) => t.inFlight
    case _ => true
  }

  predicate Orderly(log: seq<Entry>, history: seq<Post>, size: nat) {
    log == [] ||
    var front, e := log[..|log| - 1], log[|log| - 1];
    Orderly(front, history, size) && Legal(e, Tracked(front, e.i), history, size)
  }

  // ---- Steps ---------------------------------------------------------------------------------

  function Expiries(clients: seq<Client>, up: nat): seq<Entry> {
    if clients == [] then []
    else
      var n := |clients| - 1;
      Expiries(clients[..n], up) + if Overdue(clients[n], up) then [Expiry(n)] else []
  }

  function PushEntries(r: Room, up: nat, rtc: u32, s: Send, stored: nat): seq<Entry>
    requires Shaped(r)
  {
    if up < r.nextPush || r.clients == [] then []
    else
      var c := Expired(r.clients[r.nextClient], up);
      var k := Picked(r, c, rtc);
      Expiries(r.clients, up) +
      if k < |r.posts| && |r.posts| <= stored then
        [Push(r.nextClient, c.id, r.posts[RingSlot(r.nextPost, k, |r.posts|)].ts,
              s.packet && s.ack != 0, stored - |r.posts| + k, stored)]
      else []
  }

  function Step(w: World, e: Event): World
    requires Shaped(w.room)
  {
    var r := w.room;
    match e
    case Store(author, text, rtc, up) =>
      w.(room := Stored(r, author, text, rtc, up),
         history := w.history + [Posted(r, author, text, rtc)])
    case Pass(up, rtc, s) =>
      w.(room := PushPass(r, up, rtc, s), log := w.log + PushEntries(r, up, rtc, s, |w.history|))
    case Ack(ack) =>
      var i := AckedClient(r.clients, ack, 0);
      w.(room := AckProcessed(r, ack), log := w.log + if i < |r.clients| then [Acked(i)] else [])
    case HearFrom(i, rtc) =>
      if i < |r.clients| then w.(room := HeardFrom(r, i, rtc), log := w.log + [Heard(i)]) else w
    case PathFrom(i, rtc) =>
      if i < |r.clients| then
        w.(room := r.(clients := r.clients[i := r.clients[i].(lastActivity := rtc)]))
      else w
    case KeepAlive(i, rtc, forceSince) =>
      if i < |r.clients| then
        w.(room := KeptAlive(r, i, rtc, forceSince),
           log := w.log + [if forceSince > 0 then Reset(i, forceSince) else Cleared(i)])
      else w
    case Login(i, id, since, rtc, up) =>
      var i := if i < |r.clients| then i else |r.clients|;
      w.(room := LoggedIn(r, i, id, since, rtc, up), log := w.log + [Reset(i, since)])
    case Relogin(rtc, up) => w.(room := Answered(r, rtc, up))
    case Stamp(rtc) => w.(room := r.(lastUnique := UniqueTime(r.lastUnique, rtc)))
  }

  /** The clock, and the last unique time handed out, are short of the 32-bit wrap. */
  predicate Clocked(w: World, e: Event) {
    match e
    case Store(_, _, rtc, _) => rtc <= LAST_SECOND && w.room.lastUnique < LAST_SECOND
    case Login(_, _, _, rtc, _) => rtc <= LAST_SECOND && w.room.lastUnique < LAST_SECOND
    case Relogin(rtc, _) => rtc <= LAST_SECOND && w.room.lastUnique < LAST_SECOND
    case Stamp(rtc) => rtc <= LAST_SECOND && w.room.lastUnique < LAST_SECOND
    case _ => true
  }

  function Started(size: nat): World {
    World(Room(seq(size, _ => NO_POST), 0, [], 0, 0, 0), seq(size, _ => NO_POST), [])
  }

  /** A run from start-up; a client restored from flash enters as a login with its stored since. */
  predicate IsRun(ws: seq<World>, events: seq<Event>) {
    && |ws| == |events| + 1 && 0 < |ws[0].room.posts| && ws[0] == Started(|ws[0].room.posts|)
    && forall k :: 0 <= k < |events| ==> Goes(ws[k], events[k], ws[k + 1])
  }

  predicate Goes(w: World, e: Event, w': World) {
    Shaped(w.room) && Clocked(w, e) && w' == Step(w, e)
  }

  // ---- The invariant -------------------------------------------------------------------------

  function Ring(r: Room): (s: seq<Post>)
    requires Shaped(r)
    ensures |s| == |r.posts|
    ensures forall k :: 0 <= k < |s| ==> s[k] == r.posts[RingSlot(r.nextPost, k, |r.posts|)]
  {
    r.posts[r.nextPost..] + r.posts[..r.nextPost]
  }

  /** Strictly newer all along, after the empty slots the ring started with. */
  predicate InOrder(history: seq<Post>, last: u32) {
    && (forall b :: 0 <= b < |history| ==> history[b].ts <= last)
    && forall a, b :: 0 <= a < b < |history| ==>
      history[a].ts < history[b].ts || history[a].ts == history[b].ts == 0
  }

  /** The ring holds the newest posts of the history, oldest first from nextPost. */
  predicate Remembers(r: Room, history: seq<Post>) {
    && Shaped(r) && |r.posts| <= |history|
    && Ring(r) == history[|history| - |r.posts|..]
    && r.lastUnique <= LAST_SECOND && InOrder(history, r.lastUnique)
  }

  predicate ClientOk(c: Client, t: Track) {
    && t.since == c.syncSince
    && (t.inFlight <==> c.pendingAck != 0)
    && (t.inFlight ==> t.ts == c.pushPostTs && c.pushFailures < MAX_PUSH_FAILURES)
    && c.pushFailures <= MAX_PUSH_FAILURES
    && t.streak <= c.pushFailures + if t.inFlight then 1 else 0
  }

  predicate ClientsOk(clients: seq<Client>, log: seq<Entry>) {
    forall i :: 0 <= i < |clients| ==> ClientOk(clients[i], Tracked(log, i))
  }

  predicate Ok(w: World) {
    && Remembers(w.room, w.history)
    && ClientsOk(w.room.clients, w.log)
    && Orderly(w.log, w.history, |w.room.posts|)
  }

  /** One client changes and one entry about it is logged. */
  lemma {:induction false} Touch(clients: seq<Client>, log: seq<Entry>, e: Entry, c: Client, history: seq<Post>, size: nat)
    requires ClientsOk(clients, log) && Orderly(log, history, size)
    requires e.i <= |clients| && Legal(e, Tracked(log, e.i), history, size)
    requires ClientOk(c, Next(Tracked(log, e.i), e))
    ensures e.i < |clients| ==> ClientsOk(clients[e.i := c], log + [e])
    ensures e.i == |clients| ==> ClientsOk(clients + [c], log + [e])
    ensures Orderly(log + [e], history, size)
    ensures Tracked(log + [e], e.i) == Next(Tracked(log, e.i), e)
  {
    hide Legal, ClientOk, Next;
    assert (log + [e])[..|log|] == log;
    forall i: nat ensures Tracked(log + [e], i) == if i == e.i then Next(Tracked(log, i), e) else Tracked(log, i) {
    }
  }

  lemma {:induction false} HistoryGrows(log: seq<Entry>, history: seq<Post>, p: Post, size: nat)
    requires Orderly(log, history, size)
    ensures Orderly(log, history + [p], size)
  {
    if log != [] {
      HistoryGrows(log[..|log| - 1], history, p, size);
    }
  }

  lemma {:induction false} StoringRemembers(r: Room, history: seq<Post>, author: Identity, text: string, rtc: u32, up: nat)
    requires Remembers(r, history) && rtc <= LAST_SECOND && r.lastUnique < LAST_SECOND
    ensures Remembers(Stored(r, author, text, rtc, up), history + [Posted(r, author, text, rtc)])
  {
    var r' := Stored(r, author, text, rtc, up);
    var p := Posted(r, author, text, rtc);
    var old_, n := Ring(r), |r.posts|;
    forall k | 0 <= k < n ensures Ring(r')[k] == (old_[1..] + [p])[k] {
    }
    assert Ring(r') == old_[1..] + [p];
    assert (history + [p])[|history| + 1 - n..] == history[|history| - n..][1..] + [p];
  }

  lemma {:induction false} ExpiriesKeepOk(clients: seq<Client>, k: nat, up: nat, log: seq<Entry>, history: seq<Post>, size: nat)
    requires k <= |clients| && ClientsOk(clients, log) && Orderly(log, history, size)
    ensures ClientsOk(ExpireAll(clients[..k], up) + clients[k..], log + Expiries(clients[..k], up))
    ensures Orderly(log + Expiries(clients[..k], up), history, size)
    ensures k < |clients| ==> Tracked(log + Expiries(clients[..k], up), k) == Tracked(log, k)
  {
    hide ClientOk, Next, Legal, Tracked, Orderly, Overdue, Expired;
    ExpiriesNameTheFirst(clients, k, up, log);
    ExpiresOneMore(clients, k, up, log);
    if k > 0 {
      ExpiriesKeepOk(clients, k - 1, up, log, history, size);
      hide ExpireAll, Expiries;
      var before := ExpireAll(clients[..k - 1], up) + clients[k - 1..];
      var soFar := log + Expiries(clients[..k - 1], up);
      if Overdue(clients[k - 1], up) {
        assert ClientOk(clients[k - 1], Tracked(log, k - 1));
        ExpiryIsLegal(clients[k - 1], Tracked(log, k - 1), up, history, size, k - 1);
        Touch(before, soFar, Expiry(k - 1), Expired(clients[k - 1], up), history, size);
      }
    }
  }

  /** Going over one more client: it is expired and logged, or neither. */
  lemma {:induction false} ExpiresOneMore(clients: seq<Client>, k: nat, up: nat, log: seq<Entry>)
    requires k <= |clients|
    ensures k == 0 ==> ExpireAll(clients[..0], up) + clients[0..] == clients && log + Expiries(clients[..0], up) == log
    ensures 0 < k ==>
              var before, soFar := ExpireAll(clients[..k - 1], up) + clients[k - 1..], log + Expiries(clients[..k - 1], up);
              var c := clients[k - 1];
              if Overdue(c, up) then
                && ExpireAll(clients[..k], up) + clients[k..] == before[k - 1 := Expired(c, up)]
                && log + Expiries(clients[..k], up) == soFar + [Expiry(k - 1)]
              else
                && ExpireAll(clients[..k], up) + clients[k..] == before
                && log + Expiries(clients[..k], up) == soFar
  {
    hide Overdue;
    if 0 < k {
      assert clients[..k][..k - 1] == clients[..k - 1];
      var before := ExpireAll(clients[..k - 1], up) + clients[k - 1..];
      assert ExpireAll(clients[..k], up) + clients[k..] == before[k - 1 := Expired(clients[k - 1], up)];
      if !Overdue(clients[k - 1], up) {
        assert before[k - 1 := clients[k - 1]] == before;
      }
    }
  }

  lemma {:induction false} ExpiryIsLegal(c: Client, t: Track, up: nat, history: seq<Post>, size: nat, i: nat)
    requires ClientOk(c, t) && Overdue(c, up)
    ensures Legal(Expiry(i), t, history, size) && ClientOk(Expired(c, up), Next(t, Expiry(i)))
  {
  }

  lemma {:induction false} ExpiriesNameTheFirst(clients: seq<Client>, k: nat, up: nat, log: seq<Entry>)
    requires k <= |clients|
    ensures forall i: nat | k <= i :: Tracked(log + Expiries(clients[..k], up), i) == Tracked(log, i)
  {
    hide Next, Overdue;
    if k == 0 {
      assert log + Expiries(clients[..0], up) == log;
    } else {
      ExpiriesNameTheFirst(clients, k - 1, up, log);
      var soFar := log + Expiries(clients[..k - 1], up);
      assert clients[..k][..k - 1] == clients[..k - 1];
      if Overdue(clients[k - 1], up) {
        assert log + Expiries(clients[..k], up) == soFar + [Expiry(k - 1)];
        assert (soFar + [Expiry(k - 1)])[..|soFar|] == soFar;
      } else {
        assert log + Expiries(clients[..k], up) == soFar;
      }
    }
  }

  /** The oldest ready post is also the oldest still to be sent: older ones have waited longer. */
  lemma {:induction false} PickIsLegal(r: Room, history: seq<Post>, c: Client, t: Track, rtc: u32, inFlight: bool)
    requires Remembers(r, history) && ClientOk(c, t) && r.clients != []
    requires Picked(r, c, rtc) < |r.posts|
    ensures var k := Picked(r, c, rtc);
            var p := r.posts[RingSlot(r.nextPost, k, |r.posts|)];
            Legal(Push(r.nextClient, c.id, p.ts, inFlight, |history| - |r.posts| + k, |history|), t, history, |r.posts|)
  {
    hide Remembers, Ring, Picked, ClientOk, RingSlot, Legal, Ready, Servable;
    RingIsRecent(r, history);
    PickedIsFirstReady(r, c, rtc);
    ServableIsTracked(c, t);
    OldestReadyIsLegal(Ring(r), history, c, t, rtc, Picked(r, c, rtc), r.nextClient, inFlight);
  }

  lemma {:induction false} PickedIsFirstReady(r: Room, c: Client, rtc: u32)
    requires Shaped(r) && Picked(r, c, rtc) < |r.posts|
    ensures var k := Picked(r, c, rtc);
            && Servable(c) && Ready(Ring(r)[k], c, rtc)
            && forall j :: 0 <= j < k ==> !Ready(Ring(r)[j], c, rtc)
  {
    hide Ready, Servable;
  }

  lemma {:induction false} RingIsRecent(r: Room, history: seq<Post>)
    requires Remembers(r, history)
    ensures Shaped(r) && |Ring(r)| == |r.posts| <= |history| && Ring(r) == history[|history| - |r.posts|..]
    ensures forall j :: 0 <= j < |Ring(r)| ==> Ring(r)[j].ts <= LAST_SECOND
    ensures forall i, j :: 0 <= i < j < |Ring(r)| ==> Ring(r)[i].ts <= Ring(r)[j].ts
  {
    hide Ring;
  }

  lemma {:induction false} ServableIsTracked(c: Client, t: Track)
    requires ClientOk(c, t) && Servable(c)
    ensures !t.inFlight && t.streak < MAX_PUSH_FAILURES && t.since == c.syncSince
  {
  }

  lemma {:induction false} OldestReadyIsLegal(ring: seq<Post>, history: seq<Post>, c: Client, t: Track, rtc: u32, k: nat, i: nat, inFlight: bool)
    requires |ring| <= |history| && ring == history[|history| - |ring|..] && k < |ring|
    requires forall j :: 0 <= j < |ring| ==> ring[j].ts <= LAST_SECOND
    requires Ready(ring[k], c, rtc) && forall j :: 0 <= j < k ==> !Ready(ring[j], c, rtc)
    requires forall i, j :: 0 <= i < j < |ring| ==> ring[i].ts <= ring[j].ts
    requires !t.inFlight && t.streak < MAX_PUSH_FAILURES && t.since == c.syncSince
    ensures Legal(Push(i, c.id, ring[k].ts, inFlight, |history| - |ring| + k, |history|), t, history, |ring|)
  {
    hide RingSlot;
    var n, h := |ring|, |history|;
    forall j: nat | j < h - n + k && h <= j + n && history[j].author != c.id ensures history[j].ts <= t.since {
      assert history[j] == ring[j - (h - n)] && !Ready(ring[j - (h - n)], c, rtc);
    }
  }

  lemma {:induction false} PassKeepsOk(w: World, up: nat, rtc: u32, s: Send)
    requires Ok(w)
    ensures Ok(Step(w, Pass(up, rtc, s)))
  {
    hide Orderly, Legal, Tracked, Expiries;
    var r, e := w.room, Pass(up, rtc, s);
    if up < r.nextPush || r.clients == [] {
      assert w.log + PushEntries(r, up, rtc, s, |w.history|) == w.log;
    } else {
      var n := |r.clients|;
      assert r.clients[..n] == r.clients;
      ExpiriesKeepOk(r.clients, n, up, w.log, w.history, |r.posts|);
      var clients, log := ExpireAll(r.clients, up), w.log + Expiries(r.clients, up);
      assert ExpireAll(r.clients[..n], up) + r.clients[n..] == clients;
      var i := r.nextClient;
      var c := clients[i];
      var k := Picked(r, c, rtc);
      if k < |r.posts| {
        var p := r.posts[RingSlot(r.nextPost, k, |r.posts|)];
        var entry := Push(i, c.id, p.ts, s.packet && s.ack != 0, |w.history| - |r.posts| + k, |w.history|);
        PickIsLegal(r, w.history, c, Tracked(log, i), rtc, entry.inFlight);
        Touch(clients, log, entry, Pushed(c, p, s, up), w.history, |r.posts|);
        assert Step(w, e).log == log + [entry];
      } else {
        assert clients[i := c] == clients;
        assert Step(w, e).log == log;
      }
      assert Ring(Step(w, e).room) == Ring(r);
    }
  }

  lemma {:induction false} ClientEventKeepsOk(w: World, e: Event)
    requires Ok(w) && Clocked(w, e) && (e.HearFrom? || e.KeepAlive? || e.Login?)
    ensures Ok(Step(w, e)) && |Step(w, e).room.posts| == |w.room.posts|
  {
    hide Orderly, Tracked;
    var r, w' := w.room, Step(w, e);
    assert Ring(w'.room) == Ring(r);
    var n := |r.clients|;
    var entry :=
      match e
      case HearFrom(i, _) => Heard(i)
      case KeepAlive(i, _, since) => if since > 0 then Reset(i, since) else Cleared(i)
      case Login(i, _, since, _, _) => Reset(if i < n then i else n, since);
    if e.Login? || entry.i < n {
      Touch(r.clients, w.log, entry, w'.room.clients[entry.i], w.history, |r.posts|);
    }
  }

  lemma {:induction false} StepKeepsOk(w: World, e: Event)
    requires Ok(w) && Clocked(w, e)
    ensures Ok(Step(w, e)) && |Step(w, e).room.posts| == |w.room.posts|
  {
    hide Orderly, Tracked;
    var r, w' := w.room, Step(w, e);
    match e {
      case Store(author, text, rtc, up) =>
        StoringRemembers(r, w.history, author, text, rtc, up);
        HistoryGrows(w.log, w.history, Posted(r, author, text, rtc), |r.posts|);
      case Pass(up, rtc, s) => PassKeepsOk(w, up, rtc, s);
      case Ack(ack) =>
        var i := AckedClient(r.clients, ack, 0);
        if i < |r.clients| {
          Touch(r.clients, w.log, Acked(i), w'.room.clients[i], w.history, |r.posts|);
        } else {
          assert w'.log == w.log;
        }
        assert Ring(w'.room) == Ring(r);
      case PathFrom(_, _) =>
        assert Ring(w'.room) == Ring(r);
      case Relogin(_, _) =>
        assert Ring(w'.room) == Ring(r);
      case Stamp(rtc) =>
        assert Ring(w'.room) == Ring(r);
      case _ => ClientEventKeepsOk(w, e);
    }
  }

  /** In every run, every push is legal and the ring holds the newest posts in order. */
  lemma {:induction false} RunsAreOrderly(ws: seq<World>, events: seq<Event>, k: nat)
    requires IsRun(ws, events) && k < |ws|
    ensures Ok(ws[k])
  {
    if k == 0 {
      assert Ring(ws[0].room) == ws[0].history[0..];
    } else {
      RunsAreOrderly(ws, events, k - 1);
      assert Goes(ws[k - 1], events[k - 1], ws[k]);
      StepKeepsOk(ws[k - 1], events[k - 1]);
    }
  }

  // ---- What an orderly log promises ------------------------------------------------------------

  predicate NoReset(log: seq<Entry>, i: nat, k: nat, l: nat)
    requires l <= |log|
  {
    forall m: nat :: k <= m < l ==> !(log[m].Reset? && log[m].i == i)
  }

  predicate IsAck(log: seq<Entry>, i: nat, k: nat) {
    k < |log| && log[k] == Acked(i)
  }

  /** The timestamp the k-th entry acknowledges. */
  function AckedTs(log: seq<Entry>, i: nat, k: nat): u32
    requires k < |log|
  {
    Tracked(log[..k], i).ts
  }

  lemma {:induction false} OrderlyPrefix(log: seq<Entry>, k: nat, history: seq<Post>, size: nat)
    requires Orderly(log, history, size) && k <= |log|
    ensures Orderly(log[..k], history, size)
    ensures k < |log| ==> Legal(log[k], Tracked(log[..k], log[k].i), history, size)
  {
    if k == |log| {
      assert log[..k] == log;
    } else {
      if k < |log| - 1 {
        OrderlyPrefix(log[..|log| - 1], k, history, size);
      }
      assert log[..|log| - 1][..k] == log[..k];
    }
  }

  lemma {:induction false} TrackedNext(log: seq<Entry>, i: nat, k: nat)
    requires k < |log|
    ensures Tracked(log[..k + 1], i) == if log[k].i == i then Next(Tracked(log[..k], i), log[k]) else Tracked(log[..k], i)
  {
    assert log[..k + 1][..k] == log[..k];
  }

  /** The push in flight: where it was logged, and that nothing was settled since. */
  lemma {:induction false} InFlightWasPushed(log: seq<Entry>, i: nat, k: nat, history: seq<Post>, size: nat) returns (m: nat)
    requires Orderly(log, history, size) && k <= |log| && Tracked(log[..k], i).inFlight
    ensures m < k && log[m].Push? && log[m].i == i && log[m].inFlight
    ensures log[m].ts == Tracked(log[..k], i).ts
    ensures Tracked(log[..m], i).since == Tracked(log[..k], i).since
    ensures forall j: nat :: m < j < k && log[j].i == i ==> log[j].Heard?
  {
    m := k - 1;
    TrackedNext(log, i, m);
    OrderlyPrefix(log, m, history, size);
    if log[m].i != i || !log[m].Push? {
      m := InFlightWasPushed(log, i, m, history, size);
    }
  }

  /** With no reset between, what the client has never goes back. */
  lemma {:induction false} SinceNeverFalls(log: seq<Entry>, i: nat, k: nat, l: nat, history: seq<Post>, size: nat)
    requires Orderly(log, history, size) && k <= l <= |log| && NoReset(log, i, k, l)
    ensures Tracked(log[..k], i).since <= Tracked(log[..l], i).since
  {
    if k < l {
      SinceNeverFalls(log, i, k, l - 1, history, size);
      TrackedNext(log, i, l - 1);
      OrderlyPrefix(log, l - 1, history, size);
      if log[l - 1] == Acked(i) {
        var m := InFlightWasPushed(log, i, l - 1, history, size);
        OrderlyPrefix(log, m, history, size);
      }
    }
  }

  /** Posts one client acknowledges have strictly increasing timestamps until a reset. */
  lemma {:induction false} AcksIncrease(log: seq<Entry>, i: nat, k: nat, l: nat, history: seq<Post>, size: nat)
    requires Orderly(log, history, size) && k < l && IsAck(log, i, k) && IsAck(log, i, l) && NoReset(log, i, k, l)
    ensures AckedTs(log, i, k) < AckedTs(log, i, l)
  {
    TrackedNext(log, i, k);
    SinceNeverFalls(log, i, k + 1, l, history, size);
    OrderlyPrefix(log, l, history, size);
    var m := InFlightWasPushed(log, i, l, history, size);
    OrderlyPrefix(log, m, history, size);
  }

  /**
   * Between two acknowledgements in a row no post by someone else is skipped: one with a
   * timestamp in between had been overwritten in the ring before the second was pushed.
   */
  lemma {:induction false} NothingIsSkipped(log: seq<Entry>, i: nat, k: nat, l: nat, history: seq<Post>, last: u32, size: nat) returns (m: nat)
    requires Orderly(log, history, size) && InOrder(history, last)
    requires k < l && IsAck(log, i, k) && IsAck(log, i, l) && NoReset(log, i, k, l)
    requires forall j: nat :: k < j < l ==> !IsAck(log, i, j)
    ensures k < m < l && log[m].Push? && log[m].i == i && log[m].ts == AckedTs(log, i, l)
    ensures forall j: nat | j < |history| && history[j].author != log[m].to ::
              AckedTs(log, i, k) < history[j].ts < AckedTs(log, i, l) ==> j + size < log[m].stored
  {
    hide Orderly, Tracked;
    OrderlyPrefix(log, l, history, size);
    m := InFlightWasPushed(log, i, l, history, size);
    OrderlyPrefix(log, m, history, size);
    assert log[k].Acked? && log[k].i == i;
    TrackedNext(log, i, k);
    SinceStays(log, i, k + 1, m);
  }

  lemma {:induction false} SinceStays(log: seq<Entry>, i: nat, k: nat, l: nat)
    requires k <= l <= |log| && NoReset(log, i, k, l) && forall j: nat :: k <= j < l ==> !IsAck(log, i, j)
    ensures Tracked(log[..k], i).since == Tracked(log[..l], i).since
  {
    if k < l {
      SinceStays(log, i, k, l - 1);
      TrackedNext(log, i, l - 1);
      assert !IsAck(log, i, l - 1);
    }
  }

  /** Two pushes left in flight to one client have its settlement between them. */
  lemma {:induction false} OnePushInFlight(log: seq<Entry>, i: nat, k: nat, l: nat, history: seq<Post>, size: nat)
    requires Orderly(log, history, size) && k < l < |log|
    requires log[k].Push? && log[k].inFlight && log[l].Push? && log[k].i == log[l].i == i
    ensures exists j: nat :: k < j < l && log[j].i == i && (log[j].Expiry? || log[j].Acked? || log[j].Cleared? || log[j].Reset?)
  {
    if forall j: nat :: k < j < l && log[j].i == i ==> !(log[j].Expiry? || log[j].Acked? || log[j].Cleared? || log[j].Reset?) {
      TrackedNext(log, i, k);
      StaysInFlight(log, i, k + 1, l, history, size);
      OrderlyPrefix(log, l, history, size);
    }
  }

  lemma {:induction false} StaysInFlight(log: seq<Entry>, i: nat, k: nat, l: nat, history: seq<Post>, size: nat)
    requires Orderly(log, history, size) && k <= l <= |log| && Tracked(log[..k], i).inFlight
    requires forall j: nat :: k <= j < l && log[j].i == i ==> !(log[j].Expiry? || log[j].Acked? || log[j].Cleared? || log[j].Reset?)
    ensures Tracked(log[..l], i).inFlight
  {
    if k < l {
      StaysInFlight(log, i, k, l - 1, history, size);
      TrackedNext(log, i, l - 1);
      OrderlyPrefix(log, l - 1, history, size);
    }
  }

  /** Pushes left in flight to client i among the entries from the k-th to the l-th. */
  function PushCount(log: seq<Entry>, i: nat, k: nat, l: nat): nat
    requires k <= l <= |log|
    decreases l
  {
    if k == l then 0
    else PushCount(log, i, k, l - 1) + if log[l - 1].Push? && log[l - 1].i == i && log[l - 1].inFlight then 1 else 0
  }

  /** A client that gives no sign of life is pushed to at most three times. */
  lemma {:induction false} SilentClientGetsThree(log: seq<Entry>, i: nat, k: nat, l: nat, history: seq<Post>, size: nat)
    requires Orderly(log, history, size) && k <= l <= |log|
    requires forall j: nat :: k <= j < l && log[j].i == i ==> log[j].Push? || log[j].Expiry?
    ensures PushCount(log, i, k, l) <= MAX_PUSH_FAILURES
  {
    SilenceAddsUp(log, i, k, l, history, size);
  }

  lemma {:induction false} SilenceAddsUp(log: seq<Entry>, i: nat, k: nat, l: nat, history: seq<Post>, size: nat)
    requires Orderly(log, history, size) && k <= l <= |log|
    requires forall j: nat :: k <= j < l && log[j].i == i ==> log[j].Push? || log[j].Expiry?
    ensures Tracked(log[..k], i).streak + PushCount(log, i, k, l) == Tracked(log[..l], i).streak
    ensures PushCount(log, i, k, l) <= MAX_PUSH_FAILURES
  {
    if k < l {
      SilenceAddsUp(log, i, k, l - 1, history, size);
      TrackedNext(log, i, l - 1);
      OrderlyPrefix(log, l - 1, history, size);
    }
  }

  /** A time handed out is the earliest that is later than the last one and not before the clock. */
  lemma {:induction false} UniqueIsLeast(last: u32, rtc: u32, t: nat)
    requires last < U32_RANGE - 1
    ensures last < UniqueTime(last, rtc) && rtc <= UniqueTime(last, rtc)
    ensures last < t && rtc <= t ==> UniqueTime(last, rtc) <= t
  {
  }

  /** No time is handed out twice: posts, logins and everything else that is stamped move the last one on. */
  lemma {:induction false} NoTimeTwice(w: World, e: Event)
    requires Shaped(w.room) && Clocked(w, e)
    ensures var last := Step(w, e).room.lastUnique;
            if e.Store? || e.Login? || e.Relogin? || e.Stamp? then w.room.lastUnique < last && e.rtc <= last else last == w.room.lastUnique
  {
    hide Picked, RingSlot, PushEntries, AckedClient;
  }

  /** A client given up on is served again once it is heard from, and only then; a path alone revives none. */
  lemma {:induction false} ServedAgainExactlyWhen(w: World, i: nat, rtc: u32, since: u32, id: Identity, up: nat)
    requires Shaped(w.room) && i < |w.room.clients|
    ensures var c := w.room.clients[i];
            && (Servable(Step(w, HearFrom(i, rtc)).room.clients[i]) <==> rtc != 0 && c.pendingAck == 0)
            && (Servable(Step(w, PathFrom(i, rtc)).room.clients[i]) <==> rtc != 0 && c.pendingAck == 0 && c.pushFailures < 3)
            && (Servable(Step(w, KeepAlive(i, rtc, since)).room.clients[i]) <==> rtc != 0)
            && (Servable(Step(w, Login(i, id, since, rtc, up)).room.clients[i]) <==> rtc != 0)
  {
  }

  /** A push on a known path is given up on 4 s and 2 s a hop after it, and 2 s more; a flooded one after 12 s. */
  lemma {:induction false} GivenUpExactlyWhen(c: Client, p: Post, s: Send, up: nat, later: nat)
    requires s.packet && s.ack != 0 && s.hops < 64 && c.pushFailures < 255
    ensures var sent := Pushed(c, p, s, up);
            && sent.pendingAck == s.ack && sent.pushPostTs == p.ts && sent.syncSince == c.syncSince
            && (Expired(sent, later) != sent <==> up + (if s.flood then 12_000 else 4_000 + 2_000 * (s.hops + 1)) <= later)
            && (Expired(sent, later) != sent ==> Expired(sent, later) == sent.(pushFailures := c.pushFailures + 1, pendingAck := 0))
  {
  }

  /** A pass that runs pushes the next one off by 1.2 s if it sends a post and by 150 ms if not. */
  lemma {:induction false} PassesArePaced(w: World, up: nat, rtc: u32, s: Send, later: nat)
    requires Ok(w) && w.room.nextPush <= up && w.room.clients != [] && up <= later
    ensures var w' := Step(w, Pass(up, rtc, s));
            var sends := w'.log != [] && |w.log| < |w'.log| && w'.log[|w'.log| - 1].Push?;
            && Shaped(w'.room)
            && (if later < up + (if sends then 1200 else 150) then Step(w', Pass(later, rtc, s)) == w' else w'.room.nextPush <= later)
  {
    hide Picked, RingSlot, Orderly, ClientsOk, InOrder;
    RememberedSize(w);
    ExpiriesArePushless(w.room.clients, up);
    var w' := Step(w, Pass(up, rtc, s));
    var added := PushEntries(w.room, up, rtc, s, |w.history|);
    assert w'.log == w.log + added;
    var expired := Expiries(w.room.clients, up);
    assert added == expired || (|added| == |expired| + 1 && added[|expired|].Push?);
    if added != [] {
      assert w'.log[|w'.log| - 1] == added[|added| - 1];
      assert added == expired ==> added[|added| - 1] in expired;
    }
    if later < w'.room.nextPush { ClosedGate(w', later, rtc, s); }
  }

  lemma {:induction false} ClosedGate(w: World, up: nat, rtc: u32, s: Send)
    requires Shaped(w.room) && up < w.room.nextPush
    ensures Step(w, Pass(up, rtc, s)) == w
  {
    assert w.log + [] == w.log;
  }

  lemma {:induction false} RememberedSize(w: World)
    requires Ok(w)
    ensures Shaped(w.room) && |w.room.posts| <= |w.history|
  {
  }

  lemma {:induction false} ExpiriesArePushless(clients: seq<Client>, up: nat)
    ensures forall e :: e in Expiries(clients, up) ==> e.Expiry?
  {
    if clients != [] { ExpiriesArePushless(clients[..|clients| - 1], up); }
  }

  /** A post, and a login, hold the next pass off for a second. */
  lemma {:induction false} HeldOffASecond(w: World, e: Event, later: nat, rtc: u32, s: Send)
    requires Shaped(w.room) && (e.Store? || e.Login? || e.Relogin?) && e.up <= later
    ensures var w' := Step(w, e);
            && Shaped(w'.room) && (w'.room.nextPush <= later <==> e.up + 1000 <= later)
            && (later < e.up + 1000 ==> Step(w', Pass(later, rtc, s)) == w')
  {
    hide Picked, RingSlot;
    assert Step(w, e).log + [] == Step(w, e).log;
  }

  /** An ACK settles the push of the first client that waits for it, and of no other; without one it changes nothing. */
  lemma {:induction false} AckSettlesExactlyWhen(w: World, ack: u32, i: nat)
    requires Shaped(w.room) && i < |w.room.clients|
    ensures var w', c := Step(w, Ack(ack)), w.room.clients[i];
            && |w'.room.clients| == |w.room.clients|
            && w'.room.clients[i] == (if FirstAwaiting(w.room.clients, ack, i)
                                      then c.(pendingAck := 0, pushFailures := 0, syncSince := c.pushPostTs) else c)
            && (FirstAwaiting(w.room.clients, ack, i) <==> w'.log == w.log + [Acked(i)])
            && ((forall j :: 0 <= j < |w.room.clients| ==> w.room.clients[j].pendingAck != ack) || ack == 0 ==> w'.log == w.log)
  {
    var k := AckedClient(w.room.clients, ack, 0);
    if k < |w.room.clients| && k != i {
      assert (w.log + [Acked(k)])[|w.log|] != (w.log + [Acked(i)])[|w.log|];
    }
  }

  /**
   * Only pushes left in flight are counted: one without a packet, or whose ACK hash is 0, is
   * forgotten, and the same post is still ready for the same client.
   */
  lemma {:induction false} ForgottenExactlyWhen(c: Client, p: Post, s: Send, up: nat, rtc: u32)
    requires Servable(c) && Ready(p, c, rtc)
    ensures Servable(Pushed(c, p, s, up)) && Ready(p, Pushed(c, p, s, up), rtc) <==> !(s.packet && s.ack != 0)
  {
  }
}
