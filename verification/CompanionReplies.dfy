/**
 * Replies to the companion app: the one-slot holder that keeps a refused
 * reply until a transport has room, and the contact dump that is streamed
 * through it one frame a loop.
 */
module CompanionReplies {
  import opened Words
  import opened Wrappers
  import OQ = OfflineQueue

  const ADV_TYPE_NONE: u8 := 0
  const PACKET_ERROR: u8 := 0x01
  const ERR_BAD_STATE: u8 := 0x04

  datatype Contact = Contact(kind: u8, lastmod: u32, body: seq<u8>)

  // Frames to the app by what they carry. A reply's code is below 0x80, a push's is not.
  datatype Frame =
    | Start(total: nat)
    | ContactFrame(contact: Contact)
    | End(lastmod: u32)
    | Message(bytes: OQ.Bytes)
    | NoMoreMessages
    | Reply(body: seq<u8>)
    | Push(body: seq<u8>)

  predicate IsReply(f: Frame) {
    if f.Message? then f.bytes[0] < 0x80 else !f.Push?
  }

  // ---- The reply holder --------------------------------------------------------

  // sent is what the transports have taken, in order; held is the reply waiting for room.
  datatype Link = Link(sent: seq<Frame>, held: Option<Frame>, connected: bool)

  datatype Written = Written(link: Link, ok: bool)

  function Write(l: Link, f: Frame, room: bool): Written {
    if l.held.Some? || !l.connected then Written(l, false)
    else if room then Written(l.(sent := l.sent + [f]), true)
    else if IsReply(f) then Written(l.(held := Some(f)), true)
    else Written(l, false)
  }

  function Retry(l: Link, room: bool): Link {
    if l.held.None? then l
    else if !l.connected then l.(held := None)
    else if room then l.(sent := l.sent + [l.held.value], held := None)
    else l
  }

  /** Everything reported as sent: taken by a transport, or still held behind all of that. */
  function Issued(l: Link): seq<Frame> {
    l.sent + if l.held.Some? then [l.held.value] else []
  }

  /** Lossless and in order: a write that reports success appends exactly its frame, a failed one nothing. */
  lemma {:induction false} WriteIssues(l: Link, f: Frame, room: bool)
    ensures var w := Write(l, f, room);
            && Issued(w.link) == Issued(l) + (if w.ok then [f] else [])
            && (w.ok <==> l.held.None? && l.connected && (room || IsReply(f)))
            && (w.ok && room ==> w.link.held.None? && w.link.sent == l.sent + [f])
            && (!w.ok ==> w.link == l)
  {
    var w := Write(l, f, room);
    if w.ok {
      assert Issued(w.link) == l.sent + [f];
    } else {
      assert Issued(l) + [] == Issued(l);
    }
  }

  /** Only a reply is ever held, and only for want of room: a push, or a message with a code of 128 or more, is not. */
  lemma {:induction false} HeldExactlyWhen(l: Link, f: Frame, room: bool)
    requires l.held.None?
    ensures Write(l, f, room).link.held == Some(f) <==>
            l.connected && !room && !f.Push? && (f.Message? ==> f.bytes[0] < 128)
    ensures Write(l, f, room).link.held in {None, Some(f)}
  {
  }

  lemma {:induction false} RetryIssuesNothing(l: Link, room: bool)
    requires l.connected
    ensures Issued(Retry(l, room)) == Issued(l)
  {
    if l.held.Some? && room {
      assert l.sent + [l.held.value] + [] == l.sent + [l.held.value];
    }
  }

  /** With room on a connected link nothing stays held; a link that is down keeps nothing, one without room all. */
  lemma {:induction false} RetrySends(l: Link, room: bool)
    ensures var r := Retry(l, room);
            && (l.connected && room ==> r.held.None? && r.sent == Issued(l) == Issued(r))
            && (l.connected && !room ==> r == l)
            && (!l.connected ==> r.held.None? && r.sent == l.sent)
  {
    if l.held.None? {
      assert l.sent + [] == l.sent;
    }
  }

  /** The transports behind the companion's serial; room says whether they would take a frame now. */
  class Transport {
    var connected: bool
    var room: bool
    ghost var sent: seq<Frame>

    method WriteFrame(f: Frame) returns (ok: bool)
      modifies this`sent
      ensures ok == room && sent == if ok then old(sent) + [f] else old(sent)
    {
      ok := room;
      if ok {
        sent := sent + [f];
      }
    }
  }

  class CompanionSerial {
    const inner: Transport
    var held: Option<Frame>

    constructor (inner: Transport)
      ensures this.inner == inner && held == None
    {
      this.inner := inner;
      held := None;
    }

    ghost function State(): Link
      reads this, inner
    {
      Link(inner.sent, held, inner.connected)
    }

    method WriteFrame(f: Frame) returns (ok: bool)
      modifies this, inner`sent
      ensures Written(State(), ok) == Write(old(State()), f, inner.room)
    {
      if held.Some? || !inner.connected { return false; }
      var taken := inner.WriteFrame(f);
      if taken { return true; }
      if IsReply(f) {
        held := Some(f);
        return true;
      }
      return false;
    }

    /** A command is read only while no reply is held. */
    method CheckRecvFrame(incoming: Option<seq<u8>>) returns (command: Option<seq<u8>>)
      ensures command == if held.Some? then None else incoming
    {
      command := if held.Some? then None else incoming;
    }

    method RetryHeld()
      modifies this, inner`sent
      ensures State() == Retry(old(State()), inner.room)
      ensures inner.connected && inner.room && old(held).Some? ==> held == None && inner.sent == old(inner.sent) + [old(held).value]
      ensures inner.connected && !inner.room ==> held == old(held) && inner.sent == old(inner.sent)
      ensures !inner.connected ==> held == None && inner.sent == old(inner.sent)
    {
      if held.None? { return; }
      if !inner.connected {
        held := None;
        return;
      }
      var taken := inner.WriteFrame(held.value);
      if taken {
        held := None;
      }
    }

    method Drop()
      modifies this
      ensures State() == old(State()).(held := None)
    {
      held := None;
    }
  }

  // ---- Message sync ----------------------------------------------------------------

  /** The app draining the offline ring, one message per request; the ghost fields follow OfflineQueue.Sync. */
  class MessageSync {
    const serial: CompanionSerial
    const ring: OQ.Ring
    var syncPending: bool
    ghost var ids: seq<nat>
    ghost var nextId: nat
    ghost var peeked: nat
    ghost var confirmed: seq<nat>

    ghost predicate Valid()
      reads this, ring, ring.slots
    {
      ring.Valid() && OQ.SyncOk(State(), ring.slots.Length)
    }

    ghost function State(): OQ.Sync
      requires ring.Valid()
      reads this, ring, ring.slots
    {
      OQ.Sync(ring.Contents(), ids, nextId, syncPending, peeked, confirmed)
    }

    constructor (serial: CompanionSerial, size: nat)
      requires 0 < size
      ensures Valid() && State() == OQ.EMPTY_SYNC && ring.slots.Length == size
      ensures this.serial == serial && fresh(ring) && fresh(ring.slots)
    {
      this.serial := serial;
      ring := new OQ.Ring(size);
      syncPending, ids, nextId, peeked, confirmed := false, [], 0, 0, [];
    }

    method AddToOfflineQueue(data: seq<u8>)
      requires Valid() && data != []
      modifies this, ring, ring.slots
      ensures Valid() && State() == OQ.SyncStep(old(State()), ring.slots.Length, OQ.Arrives(data))
    {
      ghost var s := State();
      assert |s.ids| == |s.q|;
      hide OQ.Victim, OQ.SyncOk, OQ.Added;
      OQ.SyncStepKeepsOk(s, ring.slots.Length, OQ.Arrives(data));
      ring.AddToOfflineQueue(data);
      ghost var r := OQ.Arrived(s, ring.slots.Length, data);
      ids, nextId := r.ids, r.nextId;
      assert State() == r;
    }

    /** Asking for the next message acknowledges the one written before; the head is written but stays queued. */
    method HandleCmdSyncNextMessage()
      requires Valid()
      modifies this, ring`head, ring`count, serial, serial.inner`sent
      ensures Valid()
      ensures var c := OQ.Confirmed(old(State()));
              var f := if c.q == [] then NoMoreMessages else Message(c.q[0]);
              var w := Write(old(serial.State()), f, serial.inner.room);
              serial.State() == w.link && State() == OQ.Peeked(c, w.ok)
    {
      ghost var s := State();
      assert |s.ids| == |s.q|;
      hide OQ.SyncOk;
      ghost var length := ring.slots.Length;
      ghost var c := OQ.Confirmed(s);
      OQ.SyncStepKeepsOk(s, length, OQ.AppAsks(true));
      OQ.SyncStepKeepsOk(s, length, OQ.AppAsks(false));
      Confirm();
      var some, frame := ring.PeekOfflineMessage();
      var ok := serial.WriteFrame(if some then Message(frame) else NoMoreMessages);
      if some && ok {
        syncPending := true;
        peeked := ids[0];
      }
      assert State() == OQ.Peeked(c, ok);
    }

    method Confirm()
      requires ring.Valid() && |ids| == |ring.Contents()|
      modifies this`syncPending, this`ids, this`confirmed, ring`head, ring`count
      ensures ring.Valid() && |ids| == |ring.Contents()| && State() == OQ.Confirmed(old(State()))
    {
      if syncPending {
        ring.ConfirmOfflineMessage();
        if ids != [] {
          confirmed := confirmed + [ids[0]];
          ids := ids[1..];
        }
        syncPending := false;
      }
    }

    method CancelSyncPending()
      requires Valid()
      modifies this`syncPending
      ensures Valid() && State() == OQ.SyncStep(old(State()), ring.slots.Length, OQ.Disconnects)
    {
      syncPending := false;
    }
  }

  // ---- The contact dump ----------------------------------------------------------

  datatype Dump = Dump(active: bool, idx: nat, num: nat, withVc: bool, lastmod: u32, since: u32)

  predicate Matches(c: Contact, since: u32) {
    c.kind != ADV_TYPE_NONE && c.lastmod > since
  }

  function Later(a: u32, b: u32): u32 {
    if b > a then b else a
  }

  function CountListed(table: seq<Contact>): nat {
    if table == [] then 0
    else CountListed(table[..|table| - 1]) + if table[|table| - 1].kind != ADV_TYPE_NONE then 1 else 0
  }

  /** The frames of the first k contacts: those that match, in index order. */
  function Matching(table: seq<Contact>, k: nat, since: u32): (fs: seq<Frame>)
    requires k <= |table|
    ensures |fs| <= CountListed(table[..k])
  {
    if k == 0 then []
    else
      assert table[..k][..k - 1] == table[..k - 1];
      Matching(table, k - 1, since) + if Matches(table[k - 1], since) then [ContactFrame(table[k - 1])] else []
  }

  function LatestOf(table: seq<Contact>, k: nat, since: u32): u32
    requires k <= |table|
  {
    if k == 0 then 0
    else if Matches(table[k - 1], since) then Later(LatestOf(table, k - 1, since), table[k - 1].lastmod)
    else LatestOf(table, k - 1, since)
  }

  function VcFrames(vc: Contact, withVc: bool, since: u32): seq<Frame> {
    if withVc && vc.lastmod > since then [ContactFrame(vc)] else []
  }

  function LatestWithVc(table: seq<Contact>, vc: Contact, withVc: bool, since: u32): u32 {
    var m := LatestOf(table, |table|, since);
    if withVc && vc.lastmod > since then Later(m, vc.lastmod) else m
  }

  function StartFrame(table: seq<Contact>, withVc: bool): Frame {
    Start(CountListed(table) + if withVc then 1 else 0)
  }

  /** The whole dump: the announced total, every matching contact in order, the v-contact, the latest lastmod. */
  function Expected(table: seq<Contact>, vc: Contact, withVc: bool, since: u32): seq<Frame> {
    [StartFrame(table, withVc)] + Matching(table, |table|, since) + VcFrames(vc, withVc, since)
    + [End(LatestWithVc(table, vc, withVc, since))]
  }

  datatype DumpStep = DumpStep(dump: Dump, link: Link, more: bool)

  /** Answers the dump request; a dump that is already running is refused. */
  function GetContacts(d: Dump, table: seq<Contact>, vcReady: bool, since: u32, l: Link, room: bool): DumpStep {
    if d.active then DumpStep(d, Write(l, Reply([PACKET_ERROR, ERR_BAD_STATE]), room).link, true)
    else
      DumpStep(Dump(true, 0, |table|, vcReady, 0, since), Write(l, StartFrame(table, vcReady), room).link, true)
  }

  /** One loop of the dump: at most one frame; a refused frame is tried again next time. */
  function Continue(d: Dump, table: seq<Contact>, vc: Contact, l: Link, room: bool): DumpStep
    requires d.num == |table|
  {
    if !d.active then DumpStep(d, l, false)
    else if d.idx < d.num then
      var c := table[d.idx];
      if Matches(c, d.since) then
        var w := Write(l, ContactFrame(c), room);
        DumpStep(d.(lastmod := Later(d.lastmod, c.lastmod), idx := if w.ok then d.idx + 1 else d.idx), w.link, true)
      else DumpStep(d.(idx := d.idx + 1), l, true)
    else if d.idx == d.num then
      if d.withVc && vc.lastmod > d.since then
        var w := Write(l, ContactFrame(vc), room);
        DumpStep(d.(lastmod := Later(d.lastmod, vc.lastmod), idx := if w.ok then d.idx + 1 else d.idx), w.link, true)
      else DumpStep(d.(idx := d.idx + 1), l, true)
    else
      var w := Write(l, End(d.lastmod), room);
      DumpStep(d.(active := !w.ok), w.link, !w.ok)
  }

  class ContactDump {
    const serial: CompanionSerial
    var active: bool
    var idx: nat
    var num: nat
    var withVc: bool
    var lastmod: u32
    var since: u32

    ghost function State(): Dump
      reads this
    {
      Dump(active, idx, num, withVc, lastmod, since)
    }

    constructor (serial: CompanionSerial)
      ensures this.serial == serial && !active
    {
      this.serial := serial;
      active, idx, num, withVc, lastmod, since := false, 0, 0, false, 0, 0;
    }

    method HandleCmdGetContacts(table: seq<Contact>, vcReady: bool, from: u32)
      modifies this, serial, serial.inner`sent
      ensures var r := GetContacts(old(State()), table, vcReady, from, old(serial.State()), serial.inner.room);
              State() == r.dump && serial.State() == r.link
    {
      if active {
        var _ := serial.WriteFrame(Reply([PACKET_ERROR, ERR_BAD_STATE]));
        return;
      }
      since := from;
      num := |table|;
      withVc := vcReady;
      var total := 0;
      for i := 0 to |table|
        invariant total == CountListed(table[..i])
        invariant State() == old(State()).(since := from, num := |table|, withVc := vcReady)
        invariant serial.State() == old(serial.State())
      {
        assert table[..i + 1][..i] == table[..i];
        if table[i].kind != ADV_TYPE_NONE { total := total + 1; }
      }
      assert table[..|table|] == table;
      if withVc { total := total + 1; }
      var _ := serial.WriteFrame(Start(total));
      idx := 0;
      lastmod := 0;
      active := true;
    }

    method ContinueContactIteration(table: seq<Contact>, vc: Contact) returns (more: bool)
      requires active ==> num == |table|
      modifies this, serial, serial.inner`sent
      ensures old(active) ==>
                DumpStep(State(), serial.State(), more)
                == Continue(old(State()), table, vc, old(serial.State()), serial.inner.room)
      ensures !old(active) ==> !more && State() == old(State()) && serial.State() == old(serial.State())
    {
      if !active { return false; }
      if idx < num {
        var c := table[idx];
        if c.kind != ADV_TYPE_NONE && c.lastmod > since {
          if c.lastmod > lastmod { lastmod := c.lastmod; }
          var ok := serial.WriteFrame(ContactFrame(c));
          if !ok { return true; }
        }
        idx := idx + 1;
        return true;
      } else if idx == num {
        if withVc && vc.lastmod > since {
          if vc.lastmod > lastmod { lastmod := vc.lastmod; }
          var ok := serial.WriteFrame(ContactFrame(vc));
          if !ok { return true; }
        }
        idx := idx + 1;
        return true;
      } else {
        var ok := serial.WriteFrame(End(lastmod));
        if !ok { return true; }
        active := false;
        return false;
      }
    }
  }

  // ---- Whole dumps -------------------------------------------------------------------

  predicate IsDumpFrame(f: Frame) {
    f.Start? || f.ContactFrame? || f.End?
  }

  function DumpPart(fs: seq<Frame>): seq<Frame> {
    if fs == [] then []
    else DumpPart(fs[..|fs| - 1]) + if IsDumpFrame(fs[|fs| - 1]) then [fs[|fs| - 1]] else []
  }

  // What can happen between the dump's frames. room says whether the transports take a frame then.
  datatype Event =
    | Loop(room: bool)                   // the dump's turn
    | RetryNow(room: bool)               // the holder's turn
    | Other(frame: Frame, room: bool)    // any other reply or push

  datatype World = World(dump: Dump, link: Link)

  /** Only the dump writes dump frames. */
  predicate Possible(e: Event) {
    e.Other? ==> !IsDumpFrame(e.frame)
  }

  function Happen(w: World, table: seq<Contact>, vc: Contact, e: Event): World
    requires w.dump.num == |table|
  {
    match e
    case Loop(room) =>
      var r := Continue(w.dump, table, vc, w.link, room);
      World(r.dump, r.link)
    case RetryNow(room) => w.(link := Retry(w.link, room))
    case Other(frame, room) => w.(link := Write(w.link, frame, room).link)
  }

  /** The dump's frames up to its present position. */
  function SoFar(d: Dump, table: seq<Contact>, vc: Contact): seq<Frame>
    requires d.idx <= |table| + 1
  {
    if !d.active then Expected(table, vc, d.withVc, d.since)
    else if d.idx <= |table| then [StartFrame(table, d.withVc)] + Matching(table, d.idx, d.since)
    else [StartFrame(table, d.withVc)] + Matching(table, |table|, d.since) + VcFrames(vc, d.withVc, d.since)
  }

  /** lastmod is the latest streamed; a contact whose frame was refused may already be counted. */
  ghost predicate LastmodOk(d: Dump, table: seq<Contact>, vc: Contact)
    requires d.idx <= |table| + 1
  {
    if d.idx < |table| then
      || d.lastmod == LatestOf(table, d.idx, d.since)
      || d.lastmod == LatestOf(table, d.idx + 1, d.since)
    else if d.idx == |table| then
      d.lastmod == LatestOf(table, d.idx, d.since) || d.lastmod == LatestWithVc(table, vc, d.withVc, d.since)
    else d.lastmod == LatestWithVc(table, vc, d.withVc, d.since)
  }

  ghost predicate WorldOk(w: World, table: seq<Contact>, vc: Contact) {
    && w.link.connected && w.dump.num == |table| && w.dump.idx <= |table| + 1
    && DumpPart(Issued(w.link)) == SoFar(w.dump, table, vc)
    && (w.dump.active ==> LastmodOk(w.dump, table, vc))
  }

  lemma {:induction false} DumpPartGrows(fs: seq<Frame>, f: Frame)
    ensures DumpPart(fs + [f]) == DumpPart(fs) + if IsDumpFrame(f) then [f] else []
  {
    assert (fs + [f])[..|fs|] == fs;
  }

  /** A write of one dump frame, seen from the dump's part of what is issued. */
  lemma {:induction false} DumpWrite(l: Link, f: Frame, room: bool)
    requires l.connected && IsDumpFrame(f)
    ensures var w := Write(l, f, room);
            && w.link.connected
            && DumpPart(Issued(w.link)) == DumpPart(Issued(l)) + (if w.ok then [f] else [])
  {
    WriteIssues(l, f, room);
    DumpPartGrows(Issued(l), f);
    assert Issued(l) + [] == Issued(l) && DumpPart(Issued(l)) + [] == DumpPart(Issued(l));
  }

  lemma {:induction false} ContactTurn(w: World, table: seq<Contact>, vc: Contact, room: bool)
    requires WorldOk(w, table, vc) && w.dump.active && w.dump.idx < |table|
    ensures WorldOk(Happen(w, table, vc, Loop(room)), table, vc)
  {
    hide Write, Issued, DumpPart, VcFrames, CountListed;
    var d := w.dump;
    var start, m := [StartFrame(table, d.withVc)], Matching(table, d.idx, d.since);
    DumpWrite(w.link, ContactFrame(table[d.idx]), room);
    assert start + m + [ContactFrame(table[d.idx])] == start + (m + [ContactFrame(table[d.idx])]);
    assert m + [] == m && start + m + [] == start + m;
  }

  lemma {:induction false} VcTurn(w: World, table: seq<Contact>, vc: Contact, room: bool)
    requires WorldOk(w, table, vc) && w.dump.active && w.dump.idx == |table|
    ensures WorldOk(Happen(w, table, vc, Loop(room)), table, vc)
  {
    hide Write, Issued, DumpPart, CountListed, Matching, LatestOf;
    DumpWrite(w.link, ContactFrame(vc), room);
    var m := [StartFrame(table, w.dump.withVc)] + Matching(table, |table|, w.dump.since);
    assert m + [] == m;
  }

  lemma {:induction false} EndTurn(w: World, table: seq<Contact>, vc: Contact, room: bool)
    requires WorldOk(w, table, vc) && w.dump.active && w.dump.idx == |table| + 1
    ensures WorldOk(Happen(w, table, vc, Loop(room)), table, vc)
  {
    hide Write, Issued, DumpPart, CountListed, Matching, LatestOf, VcFrames, LatestWithVc;
    DumpWrite(w.link, End(w.dump.lastmod), room);
    assert DumpPart(Issued(w.link)) + [] == DumpPart(Issued(w.link));
  }

  lemma {:induction false} LoopKeepsOk(w: World, table: seq<Contact>, vc: Contact, room: bool)
    requires WorldOk(w, table, vc)
    ensures WorldOk(Happen(w, table, vc, Loop(room)), table, vc)
  {
    hide Write, Issued, DumpPart;
    if w.dump.active {
      if w.dump.idx < |table| {
        ContactTurn(w, table, vc, room);
      } else if w.dump.idx == |table| {
        VcTurn(w, table, vc, room);
      } else {
        EndTurn(w, table, vc, room);
      }
    }
  }

  lemma {:induction false} HappenKeepsOk(w: World, table: seq<Contact>, vc: Contact, e: Event)
    requires WorldOk(w, table, vc) && Possible(e)
    ensures WorldOk(Happen(w, table, vc, e), table, vc)
  {
    hide Issued, DumpPart, Write, Retry, SoFar, LastmodOk, Continue;
    match e
    case Loop(room) => LoopKeepsOk(w, table, vc, room);
    case RetryNow(room) =>
      RetryIssuesNothing(w.link, room);
      RetryKeepsLink(w.link, room);
    case Other(frame, room) =>
      WriteIssues(w.link, frame, room);
      WriteKeepsLink(w.link, frame, room);
      DumpPartGrows(Issued(w.link), frame);
      assert Issued(w.link) + [] == Issued(w.link) && DumpPart(Issued(w.link)) + [] == DumpPart(Issued(w.link));
  }

  function Run(w: World, table: seq<Contact>, vc: Contact, events: seq<Event>): (r: World)
    requires w.dump.num == |table|
    ensures r.dump.num == |table|
  {
    if events == [] then w
    else Happen(Run(w, table, vc, events[..|events| - 1]), table, vc, events[|events| - 1])
  }

  ghost predicate AllPossible(events: seq<Event>) {
    forall i :: 0 <= i < |events| ==> Possible(events[i])
  }

  /** The moment after the dump request was answered on a connected link that held nothing. */
  ghost predicate JustStarted(w: World, table: seq<Contact>, vc: Contact) {
    exists d: Dump, vcReady: bool, since: u32, room: bool ::
      !d.active &&
      var r := GetContacts(d, table, vcReady, since, Link([], None, true), room);
      w == World(r.dump, r.link)
  }

  lemma {:induction false} WorldsStayOk(w: World, table: seq<Contact>, vc: Contact, events: seq<Event>)
    requires JustStarted(w, table, vc) && w.dump.num == |table| && AllPossible(events)
    ensures var r := Run(w, table, vc, events);
            WorldOk(r, table, vc) && r.dump.withVc == w.dump.withVc && r.dump.since == w.dump.since
  {
    hide JustStarted, WorldOk, Happen;
    if events == [] {
      StartIsOk(w, table, vc);
    } else {
      WorldsStayOk(w, table, vc, events[..|events| - 1]);
      HappenKeepsOk(Run(w, table, vc, events[..|events| - 1]), table, vc, events[|events| - 1]);
      HappenKeepsRequest(Run(w, table, vc, events[..|events| - 1]), table, vc, events[|events| - 1]);
    }
  }

  lemma {:induction false} StartIsOk(w: World, table: seq<Contact>, vc: Contact)
    requires JustStarted(w, table, vc) && w.dump.num == |table|
    ensures WorldOk(w, table, vc)
  {
    JustStartedShape(w, table, vc);
    hide JustStarted, Issued, StartFrame, Matching;
    var start := StartFrame(table, w.dump.withVc);
    NothingMatchedYet(table, vc, w.dump.since);
    DumpPartGrows([], start);
    assert [] + [start] == [start] && [start] + [] == [start];
  }

  lemma {:induction false} JustStartedShape(w: World, table: seq<Contact>, vc: Contact)
    requires JustStarted(w, table, vc)
    ensures w.link.connected && w.dump.active && w.dump.idx == 0 && w.dump.lastmod == 0
    ensures Issued(w.link) == [StartFrame(table, w.dump.withVc)] && IsDumpFrame(StartFrame(table, w.dump.withVc))
  {
    hide CountListed;
  }

  lemma {:induction false} NothingMatchedYet(table: seq<Contact>, vc: Contact, since: u32)
    ensures Matching(table, 0, since) == [] && LatestOf(table, 0, since) == 0
  {
  }

  /** What the app asked for does not change. */
  lemma {:induction false} HappenKeepsRequest(w: World, table: seq<Contact>, vc: Contact, e: Event)
    requires w.dump.num == |table|
    ensures var r := Happen(w, table, vc, e); r.dump.withVc == w.dump.withVc && r.dump.since == w.dump.since
  {
    hide Write, Retry;
  }

  /**
   * Whatever pattern of refusals, retries, other replies and pushes happens:
   * the dump's frames so far are a prefix of one START, each matching contact
   * once in index order, the v-contact if it was ready, and one END with the
   * latest streamed lastmod; and once the dump is over they are all of it.
   */
  lemma {:induction false} DumpIsComplete(w: World, table: seq<Contact>, vc: Contact, events: seq<Event>)
    requires JustStarted(w, table, vc) && w.dump.num == |table| && AllPossible(events)
    ensures var r, all := Run(w, table, vc, events), Expected(table, vc, w.dump.withVc, w.dump.since);
            && DumpPart(Issued(r.link)) <= all
            && (!r.dump.active ==> DumpPart(Issued(r.link)) == all)
  {
    hide JustStarted, AllPossible, Expected, DumpPart, LastmodOk;
    WorldsStayOk(w, table, vc, events);
    SoFarIsPrefix(Run(w, table, vc, events).dump, table, vc);
  }

  lemma {:induction false} MatchingGrows(table: seq<Contact>, k: nat, n: nat, since: u32)
    requires k <= n <= |table|
    ensures Matching(table, k, since) <= Matching(table, n, since)
    decreases n
  {
    if k < n {
      MatchingGrows(table, k, n - 1, since);
    }
  }

  lemma {:induction false} SoFarIsPrefix(d: Dump, table: seq<Contact>, vc: Contact)
    requires d.idx <= |table| + 1
    ensures SoFar(d, table, vc) <= Expected(table, vc, d.withVc, d.since)
  {
    hide CountListed, LatestWithVc;
    if d.active && d.idx <= |table| {
      MatchingGrows(table, d.idx, |table|, d.since);
    }
  }

  /** How many of the dump's turns came while nothing was held. */
  function FreeTurns(w: World, table: seq<Contact>, vc: Contact, events: seq<Event>): nat
    requires w.dump.num == |table|
  {
    if events == [] then 0
    else
      var front, e := events[..|events| - 1], events[|events| - 1];
      FreeTurns(w, table, vc, front) + if e.Loop? && Run(w, table, vc, front).link.held.None? then 1 else 0
  }

  /** How many of them came right after a retry that had room. */
  function ServedTurns(events: seq<Event>): nat {
    if |events| < 2 then 0
    else
      var n := |events| - 1;
      ServedTurns(events[..n]) + if events[n].Loop? && events[n - 1] == RetryNow(true) then 1 else 0
  }

  /** Refusals only delay: num + 2 turns that each come after a retry with room finish the dump. */
  lemma {:induction false} DumpFinishes(w: World, table: seq<Contact>, vc: Contact, events: seq<Event>)
    requires JustStarted(w, table, vc) && w.dump.num == |table|
    ensures Run(w, table, vc, events).link.connected
    ensures ServedTurns(events) >= |table| + 2 ==> !Run(w, table, vc, events).dump.active
  {
    FreeTurnsFinish(w, table, vc, events);
    ServedTurnsAreFree(w, table, vc, events);
  }

  /** And a last retry with room has sent all of it. */
  lemma {:induction false} DumpIsSent(w: World, table: seq<Contact>, vc: Contact, events: seq<Event>)
    requires JustStarted(w, table, vc) && w.dump.num == |table| && AllPossible(events)
    requires ServedTurns(events) >= |table| + 2
    ensures DumpPart(Run(w, table, vc, events + [RetryNow(true)]).link.sent) == Expected(table, vc, w.dump.withVc, w.dump.since)
  {
    hide JustStarted, Happen, ServedTurns, Expected, DumpPart;
    DumpFinishes(w, table, vc, events);
    DumpIsComplete(w, table, vc, events);
    assert (events + [RetryNow(true)])[..|events|] == events;
    RetriesNow(Run(w, table, vc, events), table, vc);
  }

  lemma {:induction false} RetriesNow(v: World, table: seq<Contact>, vc: Contact)
    requires v.dump.num == |table| && v.link.connected
    ensures var r := Happen(v, table, vc, RetryNow(true)).link; r.held.None? && r.sent == Issued(v.link)
  {
    hide Retry, Issued;
    RetrySends(v.link, true);
  }

  lemma {:induction false} ServedTurnsAreFree(w: World, table: seq<Contact>, vc: Contact, events: seq<Event>)
    requires JustStarted(w, table, vc) && w.dump.num == |table|
    ensures ServedTurns(events) <= FreeTurns(w, table, vc, events)
  {
    hide JustStarted, Happen;
    if |events| >= 2 {
      var n := |events| - 1;
      var front := events[..n];
      ServedTurnsAreFree(w, table, vc, front);
      FreeTurnsFinish(w, table, vc, front[..n - 1]);
      RetriesNow(Run(w, table, vc, front[..n - 1]), table, vc);
    }
  }

  /** Every turn that finds nothing held advances. */
  lemma {:induction false} FreeTurnsFinish(w: World, table: seq<Contact>, vc: Contact, events: seq<Event>)
    requires JustStarted(w, table, vc) && w.dump.num == |table|
    ensures var r := Run(w, table, vc, events);
            && r.link.connected
            && (r.dump.active ==> FreeTurns(w, table, vc, events) <= r.dump.idx <= |table| + 1)
            && (FreeTurns(w, table, vc, events) >= |table| + 2 ==> !r.dump.active)
  {
    hide JustStarted, Happen;
    if events == [] {
      JustStartedShape(w, table, vc);
    } else {
      var front, e := events[..|events| - 1], events[|events| - 1];
      FreeTurnsFinish(w, table, vc, front);
      FreeTurnAdvances(Run(w, table, vc, front), table, vc, e);
    }
  }

  lemma {:induction false} FreeTurnAdvances(v: World, table: seq<Contact>, vc: Contact, e: Event)
    requires v.dump.num == |table| && v.link.connected && (v.dump.active ==> v.dump.idx <= |table| + 1)
    ensures var r := Happen(v, table, vc, e);
            && r.link.connected && (r.dump.active ==> v.dump.active && v.dump.idx <= r.dump.idx <= |table| + 1)
            && (e.Loop? && v.link.held.None? && r.dump.active ==> v.dump.idx < r.dump.idx)
  {
  }

  /** The announced total is never exceeded. */
  lemma {:induction false} DumpKeepsPromise(table: seq<Contact>, vc: Contact, withVc: bool, since: u32)
    ensures var fs := Expected(table, vc, withVc, since);
            fs[0].Start? && |fs| - 2 <= fs[0].total
  {
    assert table[..|table|] == table;
  }

  /** And met exactly when everything listed is wanted: asked from the beginning, with no time of 0. */
  lemma {:induction false} PromiseIsMet(table: seq<Contact>, vc: Contact, withVc: bool)
    requires (forall i :: 0 <= i < |table| ==> table[i].lastmod > 0) && vc.lastmod > 0
    ensures |Expected(table, vc, withVc, 0)| - 2 == Expected(table, vc, withVc, 0)[0].total
  {
    AllAreWanted(table, |table|);
    assert table[..|table|] == table;
  }

  lemma {:induction false} AllAreWanted(table: seq<Contact>, k: nat)
    requires k <= |table| && forall i :: 0 <= i < |table| ==> table[i].lastmod > 0
    ensures |Matching(table, k, 0)| == CountListed(table[..k])
  {
    if k > 0 {
      AllAreWanted(table, k - 1);
      assert table[..k][..k - 1] == table[..k - 1];
    }
  }

  /** A dump that runs is not restarted: the request is answered with an error, if a reply can be written. */
  lemma {:induction false} SecondDumpIsRefused(d: Dump, table: seq<Contact>, vcReady: bool, since: u32, l: Link, room: bool)
    requires d.active
    ensures var r := GetContacts(d, table, vcReady, since, l, room);
            && r.dump == d
            && Issued(r.link) == Issued(l) + if l.held.None? && l.connected then [Reply([1, 4])] else []
  {
    WriteIssues(l, Reply([PACKET_ERROR, ERR_BAD_STATE]), room);
  }

  /** A turn asks to be called again as long as the dump is not over. */
  lemma {:induction false} MoreUntilOver(d: Dump, table: seq<Contact>, vc: Contact, l: Link, room: bool)
    requires d.num == |table|
    ensures var r := Continue(d, table, vc, l, room); r.more <==> r.dump.active
  {
    hide Write;
  }

  predicate Wanted(c: Contact, since: u32) {
    c.kind != 0 && since < c.lastmod
  }

  /** Each contact changed since appears, none transient, and nothing else does; END's time is the latest of them. */
  lemma {:induction false} MatchingIsExact(table: seq<Contact>, k: nat, since: u32, i: nat)
    requires i < k <= |table|
    ensures Wanted(table[i], since) ==> ContactFrame(table[i]) in Matching(table, k, since)
    ensures forall f :: f in Matching(table, k, since) ==>
              exists j :: 0 <= j < k && Wanted(table[j], since) && f == ContactFrame(table[j])
    ensures Wanted(table[i], since) ==> table[i].lastmod <= LatestOf(table, k, since)
    ensures LatestOf(table, k, since) == 0 || exists j :: 0 <= j < k && Wanted(table[j], since) && table[j].lastmod == LatestOf(table, k, since)
  {
    hide Wanted;
    MatchesWhenWanted(table[k - 1], since);
    if k > 1 {
      MatchingIsExact(table, k - 1, since, if i < k - 1 then i else 0);
    }
  }

  lemma {:induction false} MatchesWhenWanted(c: Contact, since: u32)
    ensures Matches(c, since) <==> Wanted(c, since)
  {
  }

  // ---- All replies ---------------------------------------------------------------------

  /** An event is another command's reply, and its write reports success. */
  predicate Replies(l: Link, e: Event) {
    e.Other? && IsReply(e.frame) && Write(l, e.frame, e.room).ok
  }

  /** On a connected link that is so exactly when no reply is held. */
  lemma {:induction false} RepliesExactlyWhen(l: Link, e: Event)
    requires l.connected && e.Other? && IsReply(e.frame)
    ensures Replies(l, e) <==> l.held.None?
  {
    WriteIssues(l, e.frame, e.room);
  }

  /** The replies other commands have written in a run. */
  function OtherReplies(w: World, table: seq<Contact>, vc: Contact, events: seq<Event>): seq<Frame>
    requires w.dump.num == |table|
  {
    if events == [] then []
    else
      var front, e := events[..|events| - 1], events[|events| - 1];
      OtherReplies(w, table, vc, front) + if Replies(Run(w, table, vc, front).link, e) then [e.frame] else []
  }

  function NonDumpReplies(fs: seq<Frame>): seq<Frame> {
    if fs == [] then []
    else
      var f := fs[|fs| - 1];
      NonDumpReplies(fs[..|fs| - 1]) + if IsReply(f) && !IsDumpFrame(f) then [f] else []
  }

  lemma {:induction false} NonDumpGrows(fs: seq<Frame>, f: Frame)
    ensures NonDumpReplies(fs + [f]) == NonDumpReplies(fs) + if IsReply(f) && !IsDumpFrame(f) then [f] else []
  {
    assert (fs + [f])[..|fs|] == fs;
  }

  /** No other command's reply is lost, repeated or overtaken by a later one while a dump runs. */
  lemma {:induction false} OtherRepliesSurvive(w: World, table: seq<Contact>, vc: Contact, events: seq<Event>)
    requires JustStarted(w, table, vc) && w.dump.num == |table| && AllPossible(events)
    ensures var r := Run(w, table, vc, events);
            r.link.connected && NonDumpReplies(Issued(r.link)) == OtherReplies(w, table, vc, events)
  {
    hide Issued, NonDumpReplies, JustStarted, Happen, Possible;
    if events == [] {
      JustStartedShape(w, table, vc);
      StartIsNoOther(StartFrame(table, w.dump.withVc));
    } else {
      var front, e := events[..|events| - 1], events[|events| - 1];
      OtherRepliesSurvive(w, table, vc, front);
      HappenKeepsOthers(Run(w, table, vc, front), table, vc, e);
    }
  }

  lemma {:induction false} StartIsNoOther(f: Frame)
    requires IsDumpFrame(f)
    ensures NonDumpReplies([f]) == []
  {
    assert [f][..0] == [];
  }

  lemma {:induction false} HappenKeepsOthers(v: World, table: seq<Contact>, vc: Contact, e: Event)
    requires v.dump.num == |table| && v.link.connected && Possible(e)
    ensures var r := Happen(v, table, vc, e);
            && r.link.connected
            && NonDumpReplies(Issued(r.link)) == NonDumpReplies(Issued(v.link))
                                               + if Replies(v.link, e) then [e.frame] else []
  {
    hide Issued, NonDumpReplies, Write;
    var fs := Issued(v.link);
    assert fs + [] == fs && NonDumpReplies(fs) + [] == NonDumpReplies(fs);
    match e
    case RetryNow(room) => RetryIssuesNothing(v.link, room);
    case Other(frame, room) =>
      WriteIssues(v.link, frame, room);
      NonDumpGrows(fs, frame);
      WriteKeepsLink(v.link, frame, room);
    case Loop(room) =>
      var d := v.dump;
      if d.active {
        var f := if d.idx < d.num then ContactFrame(table[d.idx])
                 else if d.idx == d.num then ContactFrame(vc) else End(d.lastmod);
        WriteIssues(v.link, f, room);
        NonDumpGrows(fs, f);
        WriteKeepsLink(v.link, f, room);
      }
  }

  // ---- The whole stream ----------------------------------------------------------------

  /** The frame that an event asks the link to write, if it writes one. */
  function Asked(d: Dump, table: seq<Contact>, vc: Contact, e: Event): Option<Frame>
    requires d.num == |table|
  {
    match e
    case Other(frame, _) => Some(frame)
    case RetryNow(_) => None
    case Loop(_) =>
      if !d.active then None
      else if d.idx < d.num then
        if Matches(table[d.idx], d.since) then Some(ContactFrame(table[d.idx])) else None
      else if d.idx == d.num then
        if d.withVc && vc.lastmod > d.since then Some(ContactFrame(vc)) else None
      else Some(End(d.lastmod))
  }

  /** The frames whose writes reported success in a run, dump frames, replies and pushes alike, in write order. */
  function Succeeded(w: World, table: seq<Contact>, vc: Contact, events: seq<Event>): seq<Frame>
    requires w.dump.num == |table|
  {
    if events == [] then []
    else
      var front, e := events[..|events| - 1], events[|events| - 1];
      var v := Run(w, table, vc, front);
      var asked := Asked(v.dump, table, vc, e);
      Succeeded(w, table, vc, front)
      + if asked.Some? && Write(v.link, asked.value, e.room).ok then [asked.value] else []
  }

  /** Whatever is written in between: the link issues exactly those, in that order, after what it had. */
  lemma {:induction false} IssuesAsWritten(w: World, table: seq<Contact>, vc: Contact, events: seq<Event>)
    requires w.link.connected && w.dump.num == |table|
    ensures var r := Run(w, table, vc, events);
            r.link.connected && Issued(r.link) == Issued(w.link) + Succeeded(w, table, vc, events)
  {
    hide Issued, Write, Asked, Happen;
    if events != [] {
      var front, e := events[..|events| - 1], events[|events| - 1];
      IssuesAsWritten(w, table, vc, front);
      HappenIssues(Run(w, table, vc, front), table, vc, e);
    }
  }

  lemma {:induction false} HappenIssues(v: World, table: seq<Contact>, vc: Contact, e: Event)
    requires v.link.connected && v.dump.num == |table|
    ensures var r, asked := Happen(v, table, vc, e), Asked(v.dump, table, vc, e);
            && r.link.connected
            && Issued(r.link) == Issued(v.link)
                                 + if asked.Some? && Write(v.link, asked.value, e.room).ok then [asked.value] else []
  {
    hide Issued, Write, Retry;
    var asked := Asked(v.dump, table, vc, e);
    if asked.Some? {
      WriteIssues(v.link, asked.value, e.room);
      WriteKeepsLink(v.link, asked.value, e.room);
    } else {
      RetryIssuesNothing(v.link, e.room);
      RetryKeepsLink(v.link, e.room);
    }
  }

  lemma {:induction false} RetryKeepsLink(l: Link, room: bool)
    ensures Retry(l, room).connected == l.connected
  {
  }

  lemma {:induction false} WriteKeepsLink(l: Link, f: Frame, room: bool)
    ensures Write(l, f, room).link.connected == l.connected
  {
  }
}
