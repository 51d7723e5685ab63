/** The KISS modem's two-slot output queue, as a queue of encoded frames over a port that takes what it likes. */
module KissQueue {
  import opened Words

  const QUEUE_DEPTH := 2

  /**
   * The host's serial port: takes as much of a write as it likes. wire is everything it has
   * taken; offered is the room it last reported, less what went in since, and none after a
   * short write.
   */
  class SerialPort {
    ghost var wire: seq<u8>
    ghost var offered: int
    var input: seq<u8>

    constructor (received: seq<u8>)
      ensures wire == [] && input == received
    {
      wire, offered, input := [], 0, received;
    }

    method AvailableForWrite() returns (n: int)
      modifies this`offered
      ensures offered == n
    {
      n := *;
      offered := n;
    }

    method Write(data: seq<u8>) returns (n: nat)
      modifies this`wire, this`offered
      ensures n <= |data| && wire == old(wire) + data[..n]
      ensures offered == if n < |data| then 0 else old(offered) - n
    {
      n :| 0 <= n <= |data|;
      wire := wire + data[..n];
      offered := if n < |data| then 0 else offered - n;
    }
  }

  // ---- The output queue --------------------------------------------------------

  // A slot's encoded bytes and how many of them the port has taken.
  datatype Slot = Slot(bytes: seq<u8>, written: nat)

  // The queue as a value. log is every encoding queued so far; popped of them have left the queue.
  datatype Queue = Queue(slots: seq<Slot>, head: nat, count: nat, log: seq<seq<u8>>, popped: nat, wire: seq<u8>)

  predicate Holds(s: Slot, bytes: seq<u8>) {
    s.bytes == bytes && s.written <= |s.bytes|
  }

  function Concat(parts: seq<seq<u8>>): seq<u8> {
    if parts == [] then [] else Concat(parts[..|parts| - 1]) + parts[|parts| - 1]
  }

  predicate QueueOk(q: Queue) {
    && |q.slots| == QUEUE_DEPTH && q.head < QUEUE_DEPTH && q.count <= QUEUE_DEPTH
    && q.popped + q.count == |q.log|
    && (0 < q.count ==> Holds(q.slots[q.head], q.log[q.popped]))
    && (1 < q.count ==> Holds(q.slots[1 - q.head], q.log[q.popped + 1]) && q.slots[1 - q.head].written == 0)
    && q.wire == Concat(q.log[..q.popped]) + Started(q)
  }

  /** The part of the head frame that is already out. */
  function Started(q: Queue): seq<u8> {
    if 0 < q.count && q.head < |q.slots| && q.slots[q.head].written <= |q.slots[q.head].bytes|
    then q.slots[q.head].bytes[..q.slots[q.head].written] else []
  }

  function Popped(q: Queue): Queue
    requires 0 < q.count
  {
    q.(head := (q.head + 1) % QUEUE_DEPTH, count := q.count - 1, popped := q.popped + 1)
  }

  lemma {:induction false} PopKeepsOk(q: Queue)
    requires QueueOk(q) && 0 < q.count && q.slots[q.head].written == |q.slots[q.head].bytes|
    ensures QueueOk(Popped(q))
  {
    assert q.log[..q.popped + 1][..q.popped] == q.log[..q.popped];
    var bytes := q.slots[q.head].bytes;
    assert bytes[..|bytes|] == bytes;
    var p := Popped(q);
    assert Concat(q.log[..p.popped]) == Concat(q.log[..q.popped]) + bytes;
    assert Started(p) == [];
  }

  function Sent(q: Queue, n: nat): Queue
    requires QueueOk(q) && 0 < q.count && q.slots[q.head].written + n <= |q.slots[q.head].bytes|
  {
    var s := q.slots[q.head];
    q.(slots := q.slots[q.head := s.(written := s.written + n)], wire := q.wire + s.bytes[s.written..s.written + n])
  }

  lemma {:induction false} StartsMore(q: Queue, n: nat)
    requires QueueOk(q) && 0 < q.count && q.slots[q.head].written + n <= |q.slots[q.head].bytes|
    ensures var s := q.slots[q.head];
            Started(Sent(q, n)) == Started(q) + s.bytes[s.written..s.written + n]
  {
    hide Concat;
    var s := q.slots[q.head];
    assert s.bytes[..s.written] + s.bytes[s.written..s.written + n] == s.bytes[..s.written + n];
  }

  lemma {:induction false} SendKeepsOk(q: Queue, n: nat)
    requires QueueOk(q) && 0 < q.count && q.slots[q.head].written + n <= |q.slots[q.head].bytes|
    ensures QueueOk(Sent(q, n))
  {
    hide Concat, Started;
    StartsMore(q, n);
    var s, r := q.slots[q.head], Sent(q, n);
    assert r.wire == Concat(q.log[..q.popped]) + (Started(q) + s.bytes[s.written..s.written + n]);
  }

  function Stored(q: Queue, bytes: seq<u8>): Queue
    requires QueueOk(q) && q.count < QUEUE_DEPTH
  {
    q.(slots := q.slots[(q.head + q.count) % QUEUE_DEPTH := Slot(bytes, 0)],
       count := q.count + 1, log := q.log + [bytes])
  }

  lemma {:induction false} StoreKeepsOk(q: Queue, bytes: seq<u8>)
    requires QueueOk(q) && q.count < QUEUE_DEPTH
    ensures QueueOk(Stored(q, bytes))
  {
    var r := Stored(q, bytes);
    assert r.log[..r.popped] == q.log[..q.popped];
    assert Started(r) == Started(q);
  }

  lemma {:induction false} QueueShape(q: Queue)
    requires QueueOk(q)
    ensures |q.slots| == QUEUE_DEPTH && q.head < QUEUE_DEPTH && q.count <= QUEUE_DEPTH
    ensures 0 < q.count ==> q.slots[q.head].written <= |q.slots[q.head].bytes|
  {
  }

  class OutputQueue {
    const serial: SerialPort
    const slots: array<Slot>
    var head: nat
    var tail: nat
    var count: nat
    ghost var log: seq<seq<u8>>
    ghost var popped: nat

    ghost function View(): Queue
      reads this, serial, slots
    {
      Queue(slots[..], head, count, log, popped, serial.wire)
    }

    ghost predicate Valid()
      reads this, serial, slots
    {
      QueueOk(View()) && tail == (head + count) % QUEUE_DEPTH
    }

    constructor (serial: SerialPort)
      requires serial.wire == []
      ensures Valid() && log == [] && count == 0
      ensures this.serial == serial && fresh(slots)
    {
      this.serial := serial;
      slots := new Slot[QUEUE_DEPTH](_ => Slot([], 0));
      head, tail, count := 0, 0, 0;
      log, popped := [], 0;
    }

    method PopTxFrame()
      requires Valid() && 0 < count && slots[head].written == |slots[head].bytes|
      modifies this`head, this`count, this`popped
      ensures Valid() && View() == Popped(old(View()))
    {
      hide QueueOk;
      QueueShape(View());
      PopKeepsOk(View());
      head := (head + 1) % QUEUE_DEPTH;
      count := count - 1;
      popped := popped + 1;
    }

    /** Writes what the port will take; false only when the port has no more room. */
    method TryFlushFrames() returns (empty: bool)
      requires Valid()
      modifies this`head, this`count, this`popped, slots, serial`wire, serial`offered
      ensures Valid() && count <= old(count)
      ensures empty <==> count == 0
      ensures empty || serial.offered <= 0
      ensures old(serial.wire) <= serial.wire
    {
      hide QueueOk;
      while 0 < count
        invariant Valid() && count <= old(count) && old(serial.wire) <= serial.wire
      {
        QueueShape(View());
        var idx := head;
        if slots[idx].written < |slots[idx].bytes| {
          var available := serial.AvailableForWrite();
          if available <= 0 { return false; }
          var remaining := |slots[idx].bytes| - slots[idx].written;
          var n := SendChunk(if available < remaining then available else remaining);
          if n == 0 || slots[idx].written < |slots[idx].bytes| { return false; }
        }
        PopTxFrame();
      }
      empty := true;
    }

    method SendChunk(chunk: nat) returns (n: nat)
      requires Valid() && 0 < count && slots[head].written + chunk <= |slots[head].bytes|
      modifies slots, serial`wire, serial`offered
      ensures Valid() && n <= chunk
      ensures serial.offered == if n < chunk then 0 else old(serial.offered) - n
      ensures old(serial.wire) <= serial.wire
      ensures QueueOk(old(View())) && View() == Sent(old(View()), n)
    {
      hide QueueOk, Concat, Started;
      ghost var q := View();
      QueueShape(q);
      var s := slots[head];
      n := serial.Write(s.bytes[s.written..s.written + chunk]);
      SendKeepsOk(q, n);
      assert s.bytes[s.written..s.written + chunk][..n] == s.bytes[s.written..s.written + n];
      slots[head] := s.(written := s.written + n);
      assert View() == Sent(q, n);
    }

    /** Puts an encoded frame into the tail slot. */
    method Store(bytes: seq<u8>)
      requires Valid() && count < QUEUE_DEPTH
      modifies this`tail, this`count, this`log, slots
      ensures Valid() && QueueOk(old(View())) && View() == Stored(old(View()), bytes)
    {
      hide QueueOk;
      ghost var q := View();
      QueueShape(q);
      StoreKeepsOk(q, bytes);
      slots[tail] := Slot(bytes, 0);
      tail := (tail + 1) % QUEUE_DEPTH;
      count := count + 1;
      log := log + [bytes];
      assert View() == Stored(q, bytes);
    }
  }

  /** Whatever the port has accepted is a prefix of the encodings in queue order. */
  lemma {:induction false} WireIsPrefix(q: Queue)
    requires QueueOk(q)
    ensures q.wire <= Concat(q.log)
  {
    if 0 < q.count {
      var n, s := q.popped + 1, q.slots[q.head];
      assert q.log[..n][..q.popped] == q.log[..q.popped];
      assert Concat(q.log[..n]) == Concat(q.log[..q.popped]) + s.bytes;
      ConcatGrows(q.log, n);
      assert q.wire <= Concat(q.log[..n]);
      PrefixTransitive(q.wire, Concat(q.log[..n]), Concat(q.log));
    } else {
      assert q.log[..q.popped] == q.log;
    }
  }

  lemma {:induction false} PrefixTransitive(a: seq<u8>, b: seq<u8>, c: seq<u8>)
    requires a <= b <= c
    ensures a <= c
  {
  }

  lemma {:induction false} ConcatGrows(parts: seq<seq<u8>>, k: nat)
    requires k <= |parts|
    ensures Concat(parts[..k]) <= Concat(parts)
    decreases |parts|
  {
    if k < |parts| {
      var front := parts[..|parts| - 1];
      ConcatGrows(front, k);
      assert front[..k] == parts[..k];
      PrefixTransitive(Concat(parts[..k]), Concat(front), Concat(front) + parts[|parts| - 1]);
    } else {
      assert parts[..k] == parts;
    }
  }
}
