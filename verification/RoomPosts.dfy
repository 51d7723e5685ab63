/**
 * The room server's post delivery: posts in a cyclic buffer, pushed round
 * robin to the clients, one push in flight per client.
 */
module RoomPosts {
  import opened Words

  const PUSH_NOTIFY_DELAY_MILLIS := 1000
  const SYNC_PUSH_INTERVAL := 1200
  const PUSH_ACK_TIMEOUT_FLOOD := 12000
  const PUSH_TIMEOUT_BASE := 4000
  const PUSH_ACK_TIMEOUT_FACTOR := 2000
  const POST_SYNC_DELAY_SECS := 2
  const MAX_PUSH_FAILURES := 3
  const MAX_POST_TEXT_LEN := 160 - 9

  // The last second whose post can be given its delay without wrapping uint32_t.
  const LAST_SECOND: u32 := 0xFFFF_FFFD

  type Identity = nat

  datatype Post = Post(author: Identity, ts: u32, text: string)

  const NO_POST := Post(0, 0, "")

  // ackTimeout is an uptime in milliseconds; everything else counts clock seconds.
  datatype Client = Client(
    id: Identity,
    lastActivity: u32,
    syncSince: u32,
    pendingAck: u32,
    pushPostTs: u32,
    ackTimeout: nat,
    pushFailures: u8)

  /** Still to be pushed to this client, once its delay is over. */
  predicate Unsynced(p: Post, c: Client) {
    p.ts != 0 && p.ts > c.syncSince && p.author != c.id
  }

  predicate Ready(p: Post, c: Client, rtc: u32) {
    Unsynced(p, c) && rtc >= Add32(p.ts, POST_SYNC_DELAY_SECS)
  }

  predicate Servable(c: Client) {
    c.pendingAck == 0 && c.lastActivity != 0 && c.pushFailures < MAX_PUSH_FAILURES
  }

  predicate Overdue(c: Client, up: nat) {
    c.pendingAck != 0 && up >= c.ackTimeout
  }

  function Expired(c: Client, up: nat): Client {
    if Overdue(c, up) then c.(pushFailures := (c.pushFailures + 1) % 0x100, pendingAck := 0) else c
  }

  // What the radio side makes of one push: the expected ACK, whether a packet could be built, the route.
  datatype Send = Send(ack: u32, packet: bool, flood: bool, hops: nat)

  function AckTimeout(s: Send): nat {
    if s.flood then PUSH_ACK_TIMEOUT_FLOOD else PUSH_TIMEOUT_BASE + PUSH_ACK_TIMEOUT_FACTOR * (s.hops % 64 + 1)
  }

  function Pushed(c: Client, p: Post, s: Send, up: nat): Client {
    var c := c.(pushPostTs := p.ts, pendingAck := if s.packet then s.ack else 0);
    if s.packet then c.(ackTimeout := up + AckTimeout(s)) else c
  }

  function Acknowledged(c: Client): Client {
    c.(pendingAck := 0, pushFailures := 0, syncSince := c.pushPostTs)
  }

  /** Slot of the k-th post from the oldest. */
  function RingSlot(next: nat, k: nat, size: nat): (i: nat)
    requires next < size && k < size
    ensures i < size
  {
    if next + k < size then next + k else next + k - size
  }

  /** The first ready post in ring order from the k-th on, or the ring size. */
  function PickFrom(posts: seq<Post>, next: nat, c: Client, rtc: u32, k: nat): (r: nat)
    requires next < |posts| && k <= |posts|
    ensures k <= r <= |posts|
    ensures r < |posts| ==> Ready(posts[RingSlot(next, r, |posts|)], c, rtc)
    ensures forall j :: k <= j < r ==> !Ready(posts[RingSlot(next, j, |posts|)], c, rtc)
    decreases |posts| - k
  {
    if k == |posts| || Ready(posts[RingSlot(next, k, |posts|)], c, rtc) then k
    else PickFrom(posts, next, c, rtc, k + 1)
  }

  datatype Room = Room(
    posts: seq<Post>,
    nextPost: nat,
    clients: seq<Client>,
    nextPush: nat,
    nextClient: nat,
    lastUnique: u32)

  predicate Shaped(r: Room) {
    r.nextPost < |r.posts| && if r.clients == [] then r.nextClient == 0 else r.nextClient < |r.clients|
  }

  /** getCurrentTimeUnique: the clock, or one more than last time if it has not moved on. */
  function UniqueTime(last: u32, rtc: u32): u32 {
    if rtc <= last then Add32(last, 1) else rtc
  }

  /** The post that is stored: its text cut to what a slot holds, its time unique. */
  function Posted(r: Room, author: Identity, text: string, rtc: u32): (p: Post)
    ensures |p.text| <= MAX_POST_TEXT_LEN && p.text <= text
    ensures |text| <= MAX_POST_TEXT_LEN ==> p.text == text
  {
    Post(author, UniqueTime(r.lastUnique, rtc), if |text| <= MAX_POST_TEXT_LEN then text else text[..MAX_POST_TEXT_LEN])
  }

  function Stored(r: Room, author: Identity, text: string, rtc: u32, up: nat): Room
    requires Shaped(r)
  {
    var p := Posted(r, author, text, rtc);
    r.(posts := r.posts[r.nextPost := p],
       nextPost := if r.nextPost + 1 == |r.posts| then 0 else r.nextPost + 1,
       nextPush := up + PUSH_NOTIFY_DELAY_MILLIS,
       lastUnique := p.ts)
  }

  function ExpireAll(clients: seq<Client>, up: nat): (r: seq<Client>)
    ensures |r| == |clients|
    ensures forall i :: 0 <= i < |r| ==> r[i] == Expired(clients[i], up)
  {
    if clients == [] then []
    else ExpireAll(clients[..|clients| - 1], up) + [Expired(clients[|clients| - 1], up)]
  }

  /** The k of the post this pass pushes to the client being served, or the ring size. */
  function Picked(r: Room, c: Client, rtc: u32): (k: nat)
    requires Shaped(r)
    ensures k <= |r.posts|
  {
    if Servable(c) then PickFrom(r.posts, r.nextPost, c, rtc, 0) else |r.posts|
  }

  /** One pass of the push engine: expire what is overdue, then serve one client. */
  function PushPass(r: Room, up: nat, rtc: u32, s: Send): Room
    requires Shaped(r)
  {
    if up < r.nextPush || r.clients == [] then r
    else
      var clients := ExpireAll(r.clients, up);
      var c := clients[r.nextClient];
      var k := Picked(r, c, rtc);
      var served := if k < |r.posts| then Pushed(c, r.posts[RingSlot(r.nextPost, k, |r.posts|)], s, up) else c;
      r.(clients := clients[r.nextClient := served],
         nextClient := if r.nextClient + 1 == |r.clients| then 0 else r.nextClient + 1,
         nextPush := up + if k < |r.posts| then SYNC_PUSH_INTERVAL else SYNC_PUSH_INTERVAL / 8)
  }

  /** A push in flight to this client expects this ACK. */
  predicate Awaits(c: Client, ack: u32) {
    c.pendingAck != 0 && c.pendingAck == ack
  }

  predicate FirstAwaiting(clients: seq<Client>, ack: u32, i: nat) {
    i < |clients| && clients[i].pendingAck == ack != 0 && forall j :: 0 <= j < i ==> clients[j].pendingAck != ack
  }

  /** The first client from i on whose push in flight expects this ACK, or the number of clients. */
  function AckedClient(clients: seq<Client>, ack: u32, i: nat): (r: nat)
    requires i <= |clients|
    ensures i <= r <= |clients| && (r < |clients| ==> Awaits(clients[r], ack))
    ensures forall j :: i <= j < r ==> !Awaits(clients[j], ack)
    decreases |clients| - i
  {
    if i == |clients| || Awaits(clients[i], ack) then i
    else AckedClient(clients, ack, i + 1)
  }

  function AckProcessed(r: Room, ack: u32): Room {
    var i := AckedClient(r.clients, ack, 0);
    if i < |r.clients| then r.(clients := r.clients[i := Acknowledged(r.clients[i])]) else r
  }

  /** A fresh text or request from the client: it is alive. */
  function Alive(c: Client, rtc: u32): Client {
    c.(lastActivity := rtc, pushFailures := 0)
  }

  function HeardFrom(r: Room, i: nat, rtc: u32): Room
    requires i < |r.clients|
  {
    r.(clients := r.clients[i := Alive(r.clients[i], rtc)])
  }

  /** A keep-alive drops the push in flight and may move the client's since. */
  function KeptAlive(r: Room, i: nat, rtc: u32, forceSince: u32): Room
    requires i < |r.clients|
  {
    var c := Alive(r.clients[i], rtc).(pendingAck := 0);
    r.(clients := r.clients[i := if forceSince > 0 then c.(syncSince := forceSince) else c])
  }

  /** A login with a password; i is the client's place in the access list, or its length for a new client. */
  function LoggedIn(r: Room, i: nat, id: Identity, since: u32, rtc: u32, up: nat): Room
    requires i <= |r.clients|
  {
    var r' := Answered(r, rtc, up);
    if i < |r.clients| then
      r'.(clients := r.clients[i := Alive(r.clients[i], rtc).(syncSince := since, pendingAck := 0)])
    else
      r'.(clients := r.clients + [Client(id, rtc, since, 0, 0, 0, 0)])
  }

  /** What every login ends with: a unique time in the response, and time for it to land. */
  function Answered(r: Room, rtc: u32, up: nat): Room {
    r.(nextPush := up + PUSH_NOTIFY_DELAY_MILLIS, lastUnique := UniqueTime(r.lastUnique, rtc))
  }

  function CountUnsynced(posts: seq<Post>, c: Client): (n: nat)
    ensures n <= |posts|
    ensures n == 0 <==> forall i :: 0 <= i < |posts| ==> !(posts[i].ts > c.syncSince && posts[i].author != c.id)
  {
    if posts == [] then 0
    else
      var p := posts[|posts| - 1];
      CountUnsynced(posts[..|posts| - 1], c) + if p.ts > c.syncSince && p.author != c.id then 1 else 0
  }

  lemma {:induction false} NoPassYet(r: Room, up: nat, rtc: u32, s: Send)
    requires Shaped(r)
    ensures up < r.nextPush || r.clients == [] ==> PushPass(r, up, rtc, s) == r
  {
  }

  /** A pass through an open gate serves the client whose turn it is. */
  lemma {:induction false} PassServes(r: Room, up: nat, rtc: u32, s: Send)
    requires Shaped(r) && up >= r.nextPush && r.clients != []
    ensures var clients := ExpireAll(r.clients, up);
            var c := clients[r.nextClient];
            var k := Picked(r, c, rtc);
            PushPass(r, up, rtc, s) == r.(
              clients := if k < |r.posts| then clients[r.nextClient := Pushed(c, r.posts[RingSlot(r.nextPost, k, |r.posts|)], s, up)] else clients,
              nextClient := if r.nextClient + 1 == |r.clients| then 0 else r.nextClient + 1,
              nextPush := up + if k < |r.posts| then SYNC_PUSH_INTERVAL else SYNC_PUSH_INTERVAL / 8)
  {
    hide Picked, Pushed, RingSlot;
    var clients := ExpireAll(r.clients, up);
    assert clients[r.nextClient := clients[r.nextClient]] == clients;
  }

  lemma {:induction false} PicksFromPosts(r: Room, r': Room, c: Client, rtc: u32)
    requires Shaped(r) && Shaped(r') && r.posts == r'.posts && r.nextPost == r'.nextPost
    ensures Picked(r, c, rtc) == Picked(r', c, rtc)
  {
  }

  lemma {:induction false} RingSlotWraps(next: nat, k: nat, size: nat)
    requires next < size && k < size
    ensures (next + k) % size == RingSlot(next, k, size)
  {
    WrapsOnce(next + k, size);
  }

  function UnsyncedPlaces(posts: seq<Post>, c: Client): set<nat> {
    set k: nat | k < |posts| && posts[k].ts > c.syncSince && posts[k].author != c.id
  }

  /** The count is how many such posts there are. */
  lemma {:induction false} CountsThemAll(posts: seq<Post>, c: Client)
    ensures CountUnsynced(posts, c) == |UnsyncedPlaces(posts, c)|
  {
    if posts == [] {
      assert UnsyncedPlaces(posts, c) == {};
    } else {
      var n := |posts| - 1;
      CountsThemAll(posts[..n], c);
      hide UnsyncedPlaces;
      OnePlaceMore(posts, c);
    }
  }

  lemma {:induction false} OnePlaceMore(posts: seq<Post>, c: Client)
    requires posts != []
    ensures var n := |posts| - 1;
            var before, last := UnsyncedPlaces(posts[..n], c), posts[n];
            && n !in before
            && UnsyncedPlaces(posts, c) == before + if last.ts > c.syncSince && last.author != c.id then {n} else {}
  {
  }

  // ---- The object ------------------------------------------------------------------

  class RoomServer {
    const posts: array<Post>
    const clients: array<Client>
    var numClients: nat
    var nextPost: nat
    var nextPush: nat
    var nextClient: nat
    var lastUnique: u32

    ghost predicate Valid()
      reads this
    {
      && numClients <= clients.Length && nextPost < posts.Length
      && if numClients == 0 then nextClient == 0 else nextClient < numClients
    }

    ghost function State(): Room
      reads this, posts, clients
      requires Valid()
    {
      Room(posts[..], nextPost, clients[..numClients], nextPush, nextClient, lastUnique)
    }

    constructor (maxPosts: nat, maxClients: nat)
      requires 0 < maxPosts
      ensures Valid() && fresh(posts) && fresh(clients)
      ensures State() == Room(seq(maxPosts, _ => NO_POST), 0, [], 0, 0, 0)
    {
      posts := new Post[maxPosts](_ => NO_POST);
      clients := new Client[maxClients](_ => Client(0, 0, 0, 0, 0, 0, 0));
      numClients, nextPost, nextPush, nextClient, lastUnique := 0, 0, 0, 0, 0;
    }

    method StorePost(author: Identity, text: string, rtc: u32, up: nat)
      requires Valid()
      modifies this, posts
      ensures Valid() && State() == Stored(old(State()), author, text, rtc, up)
    {
      WrapsOnce(nextPost + 1, posts.Length);
      lastUnique := UniqueTime(lastUnique, rtc);
      var kept := if |text| <= MAX_POST_TEXT_LEN then text else text[..MAX_POST_TEXT_LEN];
      posts[nextPost] := Post(author, lastUnique, kept);
      nextPost := (nextPost + 1) % posts.Length;
      nextPush := up + PUSH_NOTIFY_DELAY_MILLIS;
    }

    method PushPostToClient(i: nat, p: Post, s: Send, up: nat)
      requires Valid() && i < numClients
      modifies clients
      ensures Valid() && clients[..] == old(clients[..])[i := Pushed(old(clients[i]), p, s, up)]
    {
      var c := clients[i].(pendingAck := s.ack, pushPostTs := p.ts);
      if s.packet {
        c := c.(ackTimeout := up + AckTimeout(s));
      } else {
        c := c.(pendingAck := 0);
      }
      clients[i] := c;
    }

    /** The push block of the event loop. */
    method PushBlock(up: nat, rtc: u32, s: Send)
      requires Valid()
      modifies this, clients
      ensures Valid() && State() == PushPass(old(State()), up, rtc, s)
    {
      hide PushPass, ExpireAll, Picked, RingSlot, Pushed, Expired, Ready, Servable;
      ghost var r := State();
      NoPassYet(r, up, rtc, s);
      if up < nextPush || numClients == 0 { return; }
      ExpireOverdue(up);
      var c := clients[nextClient];
      PicksFromPosts(r, State(), c, rtc);
      var k := Pick(c, rtc);
      PassServes(r, up, rtc, s);
      if k < posts.Length {
        RingSlotWraps(nextPost, k, posts.Length);
        PushPostToClient(nextClient, posts[(nextPost + k) % posts.Length], s, up);
      }
      assert clients[..numClients] == PushPass(r, up, rtc, s).clients;
      WrapsOnce(nextClient + 1, numClients);
      nextClient := (nextClient + 1) % numClients;
      nextPush := up + if k < posts.Length then SYNC_PUSH_INTERVAL else SYNC_PUSH_INTERVAL / 8;
    }

    method ExpireOverdue(up: nat)
      requires Valid()
      modifies clients
      ensures clients[..numClients] == ExpireAll(old(clients[..numClients]), up)
    {
      ghost var was := clients[..numClients];
      for i := 0 to numClients
        invariant forall j :: 0 <= j < i ==> clients[j] == Expired(was[j], up)
        invariant forall j :: i <= j < numClients ==> clients[j] == was[j]
      {
        if clients[i].pendingAck != 0 && up >= clients[i].ackTimeout {
          clients[i] := clients[i].(pushFailures := (clients[i].pushFailures + 1) % 0x100, pendingAck := 0);
        }
      }
    }

    /** Which post to push to the client now: k-th from the oldest, or posts.Length for none. */
    method Pick(c: Client, rtc: u32) returns (k: nat)
      requires Valid()
      ensures k == Picked(State(), c, rtc)
    {
      if !Servable(c) { return posts.Length; }
      k := 0;
      var idx := nextPost;
      while k < posts.Length
        invariant k <= posts.Length
        invariant idx < posts.Length && (k < posts.Length ==> idx == RingSlot(nextPost, k, posts.Length))
        invariant PickFrom(posts[..], nextPost, c, rtc, 0) == PickFrom(posts[..], nextPost, c, rtc, k)
      {
        if Ready(posts[idx], c, rtc) { return; }
        WrapsOnce(idx + 1, posts.Length);
        idx := (idx + 1) % posts.Length;
        k := k + 1;
      }
    }

    method ProcessAck(ack: u32) returns (found: bool)
      requires Valid()
      modifies clients
      ensures Valid() && State() == AckProcessed(old(State()), ack)
      ensures found <==> exists i :: 0 <= i < numClients && old(clients[..])[i].pendingAck == ack != 0
      ensures forall i :: 0 <= i < numClients ==>
                var c := old(clients[..])[i];
                clients[i] == if FirstAwaiting(old(clients[..numClients]), ack, i)
                              then c.(pendingAck := 0, pushFailures := 0, syncSince := c.pushPostTs) else c
    {
      ghost var was := clients[..numClients];
      for i := 0 to numClients
        invariant clients[..] == old(clients[..])
        invariant AckedClient(was, ack, 0) == AckedClient(was, ack, i)
      {
        if Awaits(clients[i], ack) {
          clients[i] := Acknowledged(clients[i]);
          assert clients[..numClients] == was[i := Acknowledged(was[i])];
          return true;
        }
      }
      found := false;
    }

    method HearFrom(i: nat, rtc: u32)
      requires Valid() && i < numClients
      modifies clients
      ensures Valid() && State() == HeardFrom(old(State()), i, rtc)
    {
      clients[i] := clients[i].(lastActivity := rtc, pushFailures := 0);
    }

    method KeepAlive(i: nat, rtc: u32, forceSince: u32)
      requires Valid() && i < numClients
      modifies clients
      ensures Valid() && State() == KeptAlive(old(State()), i, rtc, forceSince)
    {
      ghost var was := clients[..numClients];
      clients[i] := clients[i].(lastActivity := rtc, pushFailures := 0);
      if forceSince > 0 {
        clients[i] := clients[i].(syncSince := forceSince);
      }
      clients[i] := clients[i].(pendingAck := 0);
      assert clients[..numClients] == was[i := clients[i]];
    }

    method Login(i: nat, id: Identity, since: u32, rtc: u32, up: nat)
      requires Valid() && i <= numClients && (i == numClients ==> numClients < clients.Length)
      modifies this, clients
      ensures Valid() && State() == LoggedIn(old(State()), i, id, since, rtc, up)
    {
      if i == numClients {
        clients[i] := Client(id, 0, 0, 0, 0, 0, 0);
        numClients := numClients + 1;
      }
      clients[i] := clients[i].(syncSince := since, pendingAck := 0, pushFailures := 0, lastActivity := rtc);
      lastUnique := UniqueTime(lastUnique, rtc);
      nextPush := up + PUSH_NOTIFY_DELAY_MILLIS;
    }

    method GetUnsyncedCount(c: Client) returns (count: nat)
      requires Valid()
      ensures count == CountUnsynced(posts[..], c)
    {
      count := 0;
      for k := 0 to posts.Length
        invariant count == CountUnsynced(posts[..k], c)
      {
        assert posts[..k + 1][..k] == posts[..k];
        if posts[k].ts > c.syncSince && posts[k].author != c.id { count := count + 1; }
      }
      assert posts[..posts.Length] == posts[..];
    }
  }

  lemma {:induction false} WrapsOnce(x: nat, size: nat)
    requires 0 < size && x < 2 * size
    ensures x % size == if x < size then x else x - size
  {
    if size <= x {
      assert x / size == 1;
    }
  }
}
