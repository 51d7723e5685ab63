/**
 * The companion's offline message ring: a bounded queue that, when full, gives
 * up the earliest channel message first, and hands a message to the app by
 * peek and confirm.
 */
module OfflineQueue {
  import opened Words

  const FRAME_CAPACITY := 172
  const PACKET_CHANNEL_MSG_RECV: u8 := 0x08
  const PACKET_CHANNEL_MSG_V3: u8 := 0x11
  const PACKET_CHANNEL_DATA_RECV: u8 := 0x1B

  type Bytes = b: seq<u8> | 1 <= |b| <= FRAME_CAPACITY witness [0]

  predicate IsChannelMessage(buf: Bytes) {
    buf[0] == PACKET_CHANNEL_MSG_V3 || buf[0] == PACKET_CHANNEL_MSG_RECV || buf[0] == PACKET_CHANNEL_DATA_RECV
  }

  // ---- The queue as a sequence -------------------------------------------------

  function Without<T>(q: seq<T>, i: nat): (r: seq<T>)
    requires i < |q|
    ensures |r| == |q| - 1
  {
    q[..i] + q[i + 1..]
  }

  /** The earliest channel message from k on, or |q|. */
  function FirstChannel(q: seq<Bytes>, k: nat): (i: nat)
    requires k <= |q|
    ensures k <= i <= |q|
    ensures i < |q| ==> IsChannelMessage(q[i])
    ensures forall j :: k <= j < i ==> !IsChannelMessage(q[j])
    decreases |q| - k
  {
    if k == |q| || IsChannelMessage(q[k]) then k else FirstChannel(q, k + 1)
  }

  /** Which message a full queue gives up. */
  function Victim(q: seq<Bytes>): (i: nat)
    requires q != []
    ensures i < |q|
  {
    var c := FirstChannel(q, 0);
    if c < |q| then c else 0
  }

  function Clipped(data: seq<u8>): Bytes
    requires data != []
  {
    if |data| > FRAME_CAPACITY then data[..FRAME_CAPACITY] else data
  }

  /** The queue after a message arrives. */
  function Added(q: seq<Bytes>, capacity: nat, data: seq<u8>): seq<Bytes>
    requires 0 < capacity && data != []
  {
    (if |q| < capacity || q == [] then q else Without(q, Victim(q))) + [Clipped(data)]
  }

  // ---- The ring ------------------------------------------------------------------

  /** Position i of a ring that starts at head, without the division. */
  function At(head: nat, i: nat, size: nat): (k: nat)
    requires head < size && i <= size
    ensures k < size
  {
    if head + i < size then head + i else head + i - size
  }

  lemma {:induction false} AtIsMod(head: nat, i: nat, size: nat)
    requires head < size && i <= size
    ensures (head + i) % size == At(head, i, size)
  {
    if head + i < size {
    } else {
      ModOnce(head + i - size, size);
    }
  }

  lemma {:induction false} ModOnce(x: nat, size: nat)
    requires x < size
    ensures (x + size) % size == x
  {
    assert (x + size) / size == 1;
  }

  /** A gap at i being closed: everything before j has moved down, and was[j] stands there twice. */
  function Closing<T>(was: seq<T>, i: nat, j: nat): seq<T>
    requires i <= j < |was|
  {
    was[..i] + was[i + 1..j + 1] + was[j..]
  }

  lemma {:induction false} ClosingStep<T>(was: seq<T>, i: nat, j: nat)
    requires i <= j && j + 1 < |was|
    ensures var now := Closing(was, i, j);
            |now| == |was| && now[j := now[j + 1]] == Closing(was, i, j + 1)
  {
  }

  lemma {:induction false} ClosingEnds<T>(was: seq<T>, i: nat)
    requires i < |was|
    ensures Closing(was, i, i) == was
    ensures |Closing(was, i, |was| - 1)| == |was|
    ensures Closing(was, i, |was| - 1)[..|was| - 1] == Without(was, i)
  {
  }

  class Ring {
    const slots: array<Bytes>
    var head: nat
    var tail: nat
    var count: nat

    ghost predicate Valid()
      reads this
    {
      && 0 < slots.Length && head < slots.Length && count <= slots.Length
      && tail == At(head, count, slots.Length)
    }

    ghost function Contents(): (q: seq<Bytes>)
      requires Valid()
      reads this, slots
      ensures |q| == count
      ensures forall i :: 0 <= i < count ==> q[i] == slots[At(head, i, slots.Length)]
    {
      seq(count, i requires 0 <= i < count && Valid() reads this, slots => slots[At(head, i, slots.Length)])
    }

    constructor (size: nat)
      requires 0 < size
      ensures Valid() && Contents() == [] && slots.Length == size && fresh(slots)
    {
      slots := new Bytes[size](_ => [0]);
      head, tail, count := 0, 0, 0;
    }

    method AddToOfflineQueue(data: seq<u8>)
      requires Valid() && data != []
      modifies this, slots
      ensures Valid()
      ensures Contents() == Added(old(Contents()), slots.Length, data)
    {
      if count >= slots.Length {
        DropOne();
      }
      Append(Clipped(data));
    }

    method Append(frame: Bytes)
      requires Valid() && count < slots.Length
      modifies this, slots
      ensures Valid() && Contents() == old(Contents()) + [frame]
    {
      ghost var was := Contents();
      AtIsMod(tail, 1, slots.Length);
      slots[tail] := frame;
      tail := (tail + 1) % slots.Length;
      count := count + 1;
      assert Contents() == was + [frame];
    }

    /** Makes room in a full ring: the earliest channel message, or failing that the head. */
    method DropOne()
      requires Valid() && count == slots.Length
      modifies this, slots
      ensures Valid() && old(count) > 0
      ensures Contents() == Without(old(Contents()), Victim(old(Contents())))
    {
      var i := FindChannelMessage();
      if i < count {
        RemoveAt(i);
      } else {
        DropHead();
      }
    }

    method FindChannelMessage() returns (i: nat)
      requires Valid()
      ensures i == FirstChannel(Contents(), 0)
    {
      ghost var was := Contents();
      i := 0;
      while i < count
        invariant i <= count
        invariant FirstChannel(was, 0) == FirstChannel(was, i)
      {
        AtIsMod(head, i, slots.Length);
        if IsChannelMessage(slots[(head + i) % slots.Length]) { return; }
        i := i + 1;
      }
    }

    method DropHead()
      requires Valid() && 0 < count
      modifies this`head, this`count
      ensures Valid() && Contents() == old(Contents())[1..] && count == old(count) - 1
    {
      ghost var was := Contents();
      AtIsMod(head, 1, slots.Length);
      head := (head + 1) % slots.Length;
      count := count - 1;
      assert Contents() == was[1..];
    }

    method MoveDown(j: nat)
      requires Valid() && j + 1 < count
      modifies slots
      ensures Valid() && Contents() == old(Contents())[j := old(Contents())[j + 1]]
    {
      ghost var before := Contents();
      AtIsMod(head, j, slots.Length);
      AtIsMod(head, j + 1, slots.Length);
      slots[(head + j) % slots.Length] := slots[(head + j + 1) % slots.Length];
      assert Contents() == before[j := before[j + 1]];
    }

    /** Closes the gap at position i by moving every later message down one slot. */
    method RemoveAt(i: nat)
      requires Valid() && i < count == slots.Length
      modifies this, slots
      ensures Valid() && Contents() == Without(old(Contents()), i)
    {
      hide Closing, Without;
      ghost var was := Contents();
      var j := i;
      ClosingEnds(was, i);
      while j < count - 1
        invariant i <= j <= count - 1 && Valid() && count == old(count)
        invariant head == old(head) && tail == old(tail)
        invariant Contents() == Closing(was, i, j)
      {
        ClosingStep(was, i, j);
        MoveDown(j);
        j := j + 1;
      }
      DropLast();
    }

    method DropLast()
      requires Valid() && count == slots.Length
      modifies this`tail, this`count
      ensures Valid() && old(count) > 0 && count == old(count) - 1
      ensures Contents() == old(Contents())[..count]
    {
      ghost var was := Contents();
      AtIsMod(tail, slots.Length - 1, slots.Length);
      tail := (tail - 1 + slots.Length) % slots.Length;
      count := count - 1;
      assert Contents() == was[..count];
    }

    /** The head message; it stays queued. */
    method PeekOfflineMessage() returns (ok: bool, frame: Bytes)
      requires Valid()
      ensures ok <==> Contents() != []
      ensures ok ==> frame == Contents()[0]
    {
      frame := [0];
      if count == 0 { return false, frame; }
      return true, slots[head];
    }

    method ConfirmOfflineMessage()
      requires Valid()
      modifies this`head, this`count
      ensures Valid()
      ensures Contents() == if old(Contents()) == [] then [] else old(Contents())[1..]
    {
      if count == 0 { return; }
      DropHead();
    }
  }

  /** What a full queue gives up and what it keeps: earliest channel message, else the head; order unchanged. */
  lemma {:induction false} OverflowKeepsOrder(q: seq<Bytes>, capacity: nat, data: seq<u8>)
    requires 0 < capacity == |q| && data != []
    ensures var v, r := Victim(q), Added(q, capacity, data);
            && |r| == capacity && r[capacity - 1] == Clipped(data)
            && (forall i, j :: 0 <= i < j < |q| && i != v && j != v ==>
                  var i', j' := if i < v then i else i - 1, if j < v then j else j - 1;
                  i' < j' && r[i'] == q[i] && r[j'] == q[j])
            && (if q[v][0] in {8, 17, 27} then forall j :: 0 <= j < v ==> q[j][0] !in {8, 17, 27}
                else v == 0 && forall j :: 0 <= j < |q| ==> q[j][0] !in {8, 17, 27})
  {
    hide Victim, Clipped;
    VictimIsFirst(q);
    SurvivorsKeepOrder(q, Victim(q), Clipped(data));
  }

  lemma {:induction false} SurvivorsKeepOrder(q: seq<Bytes>, v: nat, last: Bytes)
    requires v < |q|
    ensures var r := Without(q, v) + [last];
            forall i, j :: 0 <= i < j < |q| && i != v && j != v ==>
                  var i', j' := if i < v then i else i - 1, if j < v then j else j - 1;
                  i' < j' && r[i'] == q[i] && r[j'] == q[j]
  {
  }

  lemma {:induction false} VictimIsFirst(q: seq<Bytes>)
    requires q != []
    ensures var v := Victim(q);
            if q[v][0] in {8, 17, 27} then forall j :: 0 <= j < v ==> q[j][0] !in {8, 17, 27}
            else v == 0 && forall j :: 0 <= j < |q| ==> q[j][0] !in {8, 17, 27}
  {
  }

  // ---- Peek and confirm ------------------------------------------------------------

  // The queue with each message's arrival number, the un-ACKed flag, and for the history the
  // message last written to the app and those confirmed.
  datatype Sync = Sync(
    q: seq<Bytes>,
    ids: seq<nat>,
    nextId: nat,
    pending: bool,
    peeked: nat,
    confirmed: seq<nat>)

  datatype SyncEvent = Arrives(data: seq<u8>) | AppAsks(written: bool) | Disconnects

  function Arrived(s: Sync, capacity: nat, data: seq<u8>): Sync
    requires 0 < capacity && data != [] && |s.ids| == |s.q|
  {
    var full := |s.q| >= capacity && s.q != [];
    s.(q := Added(s.q, capacity, data),
       ids := (if full then Without(s.ids, Victim(s.q)) else s.ids) + [s.nextId],
       nextId := s.nextId + 1)
  }

  /** The confirm half of a sync request: asking for the next message acknowledges the last. */
  function Confirmed(s: Sync): Sync
    requires |s.ids| == |s.q|
  {
    if s.pending && s.q != [] then
      s.(q := s.q[1..], ids := s.ids[1..], pending := false, confirmed := s.confirmed + [s.ids[0]])
    else s.(pending := false)
  }

  /** The peek half: the head is written, and stays queued until the next request. */
  function Peeked(s: Sync, written: bool): Sync
    requires |s.ids| == |s.q|
  {
    if s.q != [] && written then s.(pending := true, peeked := s.ids[0]) else s
  }

  function SyncStep(s: Sync, capacity: nat, e: SyncEvent): (r: Sync)
    requires 0 < capacity && |s.ids| == |s.q| && (e.Arrives? ==> e.data != [])
    ensures |r.ids| == |r.q|
  {
    match e
    case Arrives(data) => Arrived(s, capacity, data)
    case AppAsks(written) => Peeked(Confirmed(s), written)
    case Disconnects => s.(pending := false)
  }

  ghost predicate SyncOk(s: Sync, capacity: nat) {
    && |s.ids| == |s.q| <= capacity
    && Rising(s.ids, s.nextId)
    && (s.pending ==> s.q != [] && s.peeked <= s.ids[0])
  }

  ghost predicate Rising(ids: seq<nat>, bound: nat) {
    && (forall i, j :: 0 <= i < j < |ids| ==> ids[i] < ids[j])
    && (forall i :: 0 <= i < |ids| ==> ids[i] < bound)
  }

  lemma {:induction false} RisingGrows(ids: seq<nat>, bound: nat)
    requires Rising(ids, bound)
    ensures Rising(ids + [bound], bound + 1)
  {
  }

  lemma {:induction false} RisingWithout(ids: seq<nat>, bound: nat, v: nat)
    requires Rising(ids, bound) && v < |ids|
    ensures Rising(Without(ids, v), bound)
  {
    var r := Without(ids, v);
    assert forall i :: 0 <= i < |r| ==> r[i] == ids[if i < v then i else i + 1];
  }

  lemma {:induction false} WithoutFirst(ids: seq<nat>, v: nat)
    requires v < |ids|
    ensures 1 < |ids| ==> Without(ids, v)[0] == if v == 0 then ids[1] else ids[0]
  {
  }

  lemma {:induction false} ArrivalKeepsOk(s: Sync, capacity: nat, data: seq<u8>)
    requires 0 < capacity && SyncOk(s, capacity) && data != []
    ensures SyncOk(Arrived(s, capacity, data), capacity)
  {
    hide Victim, Clipped, Rising, Without;
    if s.q != [] { WithoutFirst(s.ids, Victim(s.q)); }
    if |s.q| >= capacity && s.q != [] {
      RisingWithout(s.ids, s.nextId, Victim(s.q));
      RisingGrows(Without(s.ids, Victim(s.q)), s.nextId);
      assert s.pending && Victim(s.q) == 0 ==> s.peeked < s.nextId && (1 < |s.ids| ==> s.peeked < s.ids[1]) by {
        RisingFirst(s.ids, s.nextId);
      }
    } else {
      RisingGrows(s.ids, s.nextId);
    }
  }

  lemma {:induction false} RisingFirst(ids: seq<nat>, bound: nat)
    requires Rising(ids, bound) && ids != []
    ensures ids[0] < bound && (1 < |ids| ==> ids[0] < ids[1])
  {
  }

  lemma {:induction false} SyncStepKeepsOk(s: Sync, capacity: nat, e: SyncEvent)
    requires 0 < capacity && SyncOk(s, capacity) && (e.Arrives? ==> e.data != [])
    ensures SyncOk(SyncStep(s, capacity, e), capacity)
  {
    hide Arrived, Victim;
    if e.Arrives? {
      ArrivalKeepsOk(s, capacity, e.data);
    } else if e.AppAsks? {
      assert SyncOk(Confirmed(s), capacity);
    }
  }

  function SyncRun(s: Sync, capacity: nat, events: seq<SyncEvent>): (r: Sync)
    requires 0 < capacity && |s.ids| == |s.q|
    requires forall i :: 0 <= i < |events| && events[i].Arrives? ==> events[i].data != []
    ensures |r.ids| == |r.q|
  {
    if events == [] then s
    else SyncStep(SyncRun(s, capacity, events[..|events| - 1]), capacity, events[|events| - 1])
  }

  const EMPTY_SYNC := Sync([], [], 0, false, 0, [])

  lemma {:induction false} SyncRunsAreOk(capacity: nat, events: seq<SyncEvent>)
    requires 0 < capacity
    requires forall i :: 0 <= i < |events| && events[i].Arrives? ==> events[i].data != []
    ensures SyncOk(SyncRun(EMPTY_SYNC, capacity, events), capacity)
  {
    if events != [] {
      SyncRunsAreOk(capacity, events[..|events| - 1]);
      SyncStepKeepsOk(SyncRun(EMPTY_SYNC, capacity, events[..|events| - 1]), capacity, events[|events| - 1]);
    }
  }

  /** The next arrival drops the head: the queue is full, and its first channel message, if any, is the head. */
  predicate DropsHead(q: seq<Bytes>, capacity: nat) {
    |q| >= capacity && q != [] && (IsChannelMessage(q[0]) || forall i :: 0 <= i < |q| ==> !IsChannelMessage(q[i]))
  }

  ghost predicate Possible(events: seq<SyncEvent>) {
    forall i :: 0 <= i < |events| && events[i].Arrives? ==> events[i].data != []
  }

  /** What the queue holds when the first j events are over. */
  function QueueAt(capacity: nat, events: seq<SyncEvent>, j: nat): Sync
    requires 0 < capacity && Possible(events) && j <= |events|
  {
    SyncRun(EMPTY_SYNC, capacity, events[..j])
  }

  /** Event k wrote a message to the app, and only arrivals followed. */
  ghost predicate WroteAt(capacity: nat, events: seq<SyncEvent>, k: nat)
    requires 0 < capacity && Possible(events)
  {
    && k < |events| && events[k] == AppAsks(true) && Confirmed(QueueAt(capacity, events, k)).q != []
    && forall j :: k < j < |events| ==> events[j].Arrives?
  }

  ghost predicate HeadStays(capacity: nat, events: seq<SyncEvent>, k: nat)
    requires 0 < capacity && Possible(events)
  {
    forall j: nat :: k < j < |events| ==> !DropsHead(QueueAt(capacity, events, j).q, capacity)
  }

  /** The message an app request that wrote one has put on the wire: the head it left. */
  function WrittenAt(capacity: nat, events: seq<SyncEvent>, k: nat): nat
    requires 0 < capacity && Possible(events) && WroteAt(capacity, events, k)
  {
    Confirmed(QueueAt(capacity, events, k)).ids[0]
  }

  /**
   * In every run: the request after a write confirms the message then written if and only if no
   * arrival since found the queue full with its head to drop; otherwise it confirms a later one,
   * never written.
   */
  lemma {:induction false} ConfirmExactlyWhen(capacity: nat, events: seq<SyncEvent>, k: nat, written: bool)
    requires 0 < capacity && Possible(events) && WroteAt(capacity, events, k)
    ensures var s := SyncRun(EMPTY_SYNC, capacity, events);
            var next := SyncStep(s, capacity, AppAsks(written));
            && s.ids != [] && next.confirmed == s.confirmed + [s.ids[0]] && s.q[1..] == next.q
            && (s.ids[0] == WrittenAt(capacity, events, k) <==> HeadStays(capacity, events, k))
            && WrittenAt(capacity, events, k) <= s.ids[0]
  {
    PendingSince(capacity, events, k, |events|);
    assert events[..|events|] == events;
  }

  /** In every run a request confirms nothing if none has written a message since the last request or disconnect. */
  lemma {:induction false} ConfirmsNothingElse(capacity: nat, events: seq<SyncEvent>, written: bool)
    requires 0 < capacity && Possible(events) && forall k: nat :: !WroteAt(capacity, events, k)
    ensures var s := SyncRun(EMPTY_SYNC, capacity, events);
            var next := SyncStep(s, capacity, AppAsks(written));
            next.confirmed == s.confirmed && next.q == s.q && next.ids == s.ids
  {
    hide WroteAt, SyncRun;
    NothingWritten(capacity, events);
  }

  lemma {:induction false} NothingWritten(capacity: nat, events: seq<SyncEvent>)
    requires 0 < capacity && Possible(events) && forall k: nat :: !WroteAt(capacity, events, k)
    ensures !SyncRun(EMPTY_SYNC, capacity, events).pending
  {
    hide Added, Victim, Without, SyncRun;
    if events == [] {
      StartsNotPending(capacity);
    } else {
      var n := |events| - 1;
      var front, e := events[..n], events[n];
      assert events[..n + 1] == events && front + [e] == events;
      RunAt(capacity, events, n);
      if e.Arrives? {
        forall k: nat ensures !WroteAt(capacity, front, k) {
          WroteStill(capacity, front, e, k);
        }
        NothingWritten(capacity, front);
      } else {
        assert !WroteAt(capacity, events, n);
      }
    }
  }

  lemma {:induction false} WroteStill(capacity: nat, events: seq<SyncEvent>, e: SyncEvent, k: nat)
    requires 0 < capacity && Possible(events + [e]) && e.Arrives?
    ensures Possible(events)
    ensures WroteAt(capacity, events, k) ==> WroteAt(capacity, events + [e], k)
  {
    assert forall i :: 0 <= i < |events| ==> (events + [e])[i] == events[i];
    if k < |events| {
      assert (events + [e])[..k] == events[..k];
    }
  }

  lemma {:induction false} StartsNotPending(capacity: nat)
    requires 0 < capacity
    ensures !SyncRun(EMPTY_SYNC, capacity, []).pending
  {
  }

  lemma {:induction false} PendingSince(capacity: nat, events: seq<SyncEvent>, k: nat, n: nat)
    requires 0 < capacity && Possible(events) && WroteAt(capacity, events, k) && k < n <= |events|
    ensures var s, id := QueueAt(capacity, events, n), WrittenAt(capacity, events, k);
            && s.pending && s.ids != [] && |s.ids| == |s.q| && id <= s.ids[0]
            && (s.ids[0] == id <==> forall j: nat :: k < j < n ==> !DropsHead(QueueAt(capacity, events, j).q, capacity))
  {
    hide QueueAt, WrittenAt, SyncRun, SyncOk, Confirmed, Peeked, Victim, Added, Without, DropsHead;
    if n == k + 1 {
      JustWritten(capacity, events, k);
    } else {
      PendingSince(capacity, events, k, n - 1);
      RunAt(capacity, events, n - 1);
      StaysOkAt(capacity, events, n - 1);
      HeadMovesOn(QueueAt(capacity, events, n - 1), capacity, events[n - 1].data);
    }
  }

  lemma {:induction false} JustWritten(capacity: nat, events: seq<SyncEvent>, k: nat)
    requires 0 < capacity && Possible(events) && WroteAt(capacity, events, k)
    ensures var s := QueueAt(capacity, events, k + 1);
            s.pending && s.ids != [] && |s.ids| == |s.q| && s.ids[0] == WrittenAt(capacity, events, k)
  {
    hide SyncOk, SyncRun;
    RunAt(capacity, events, k);
  }

  lemma {:induction false} RunAt(capacity: nat, events: seq<SyncEvent>, j: nat)
    requires 0 < capacity && Possible(events) && j < |events|
    ensures |QueueAt(capacity, events, j).ids| == |QueueAt(capacity, events, j).q|
    ensures QueueAt(capacity, events, j + 1) == SyncStep(QueueAt(capacity, events, j), capacity, events[j])
  {
    hide SyncStep;
    assert events[..j + 1][..j] == events[..j];
  }

  lemma {:induction false} StaysOkAt(capacity: nat, events: seq<SyncEvent>, j: nat)
    requires 0 < capacity && Possible(events) && j <= |events|
    ensures SyncOk(QueueAt(capacity, events, j), capacity)
  {
    SyncRunsAreOk(capacity, events[..j]);
  }

  /** An arrival leaves the head alone exactly when it does not drop it, and else makes it a later one. */
  lemma {:induction false} HeadMovesOn(s: Sync, capacity: nat, data: seq<u8>)
    requires 0 < capacity && SyncOk(s, capacity) && s.ids != [] && data != []
    ensures var r := Arrived(s, capacity, data);
            r.ids != [] && s.ids[0] <= r.ids[0] && (r.ids[0] == s.ids[0] <==> !DropsHead(s.q, capacity))
  {
    RisingFirst(s.ids, s.nextId);
    assert DropsHead(s.q, capacity) <==> |s.q| >= capacity && Victim(s.q) == 0;
  }

  /** The overlap does lose a message: in a ring of one, the second arrival is confirmed unseen. */
  lemma {:induction false} OverlapLosesAMessage()
    ensures var s := SyncStep(SyncStep(SyncStep(EMPTY_SYNC, 1, Arrives([7])), 1, AppAsks(true)), 1, Arrives([9]));
            s.pending && s.peeked == 0 && s.ids == [1] && Confirmed(s).confirmed == [1] && Confirmed(s).q == []
  {
    var s1 := SyncStep(EMPTY_SYNC, 1, Arrives([7]));
    assert s1.ids == [0] && |s1.q| == 1;
    var s2 := SyncStep(s1, 1, AppAsks(true));
    assert s2.pending && s2.ids == [0] && |s2.q| == 1;
    var s3 := SyncStep(s2, 1, Arrives([9]));
    assert s3.ids == [1] && |s3.q| == 1;
  }

  /** A message that fits a slot is stored whole, a longer one up to what fits. */
  lemma {:induction false} StoredWholeExactlyWhen(q: seq<Bytes>, capacity: nat, data: seq<u8>)
    requires 0 < capacity && data != []
    ensures var r := Added(q, capacity, data);
            && r != [] && r[|r| - 1] <= data && |r[|r| - 1]| == Min(|data|, 172)
            && (r[|r| - 1] == data <==> |data| <= 172)
  {
    hide Victim;
  }
}
