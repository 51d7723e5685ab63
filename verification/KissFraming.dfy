/**
 * KISS framing between modem and host: escaping, the encoder, and the
 * receiver that resynchronises on the frame boundary. The byte values and the
 * transparency rule are those of "The KISS TNC" by Chepponis and Karn.
 */
module KissFraming {
  import opened Words
  import opened Wrappers

  const FEND: u8 := 0xC0
  const FESC: u8 := 0xDB
  const TFEND: u8 := 0xDC
  const TFESC: u8 := 0xDD

  const MAX_FRAME_SIZE := 512
  const BOUNDARY_BYTES := 2
  const MAX_ESCAPABLE_BYTES := MAX_FRAME_SIZE + 1 + 1
  const MAX_ENCODED_FRAME_SIZE := BOUNDARY_BYTES + 2 * MAX_ESCAPABLE_BYTES

  datatype Frame = Frame(kind: u8, data: seq<u8>)

  function Payload(f: Frame): seq<u8> {
    [f.kind] + f.data
  }

  // ---- Encoding --------------------------------------------------------------

  function Escape(b: u8): (e: seq<u8>)
    ensures 1 <= |e| <= 2
  {
    if b == FEND then [FESC, TFEND] else if b == FESC then [FESC, TFESC] else [b]
  }

  function Escaped(bytes: seq<u8>): (e: seq<u8>)
    ensures |bytes| <= |e| <= 2 * |bytes|
  {
    if bytes == [] then [] else Escaped(bytes[..|bytes| - 1]) + Escape(bytes[|bytes| - 1])
  }

  function Encode(f: Frame): seq<u8> {
    [FEND] + Escaped(Payload(f)) + [FEND]
  }

  function EncodeAll(fs: seq<Frame>): seq<u8> {
    if fs == [] then [] else EncodeAll(fs[..|fs| - 1]) + Encode(fs[|fs| - 1])
  }

  /** 0 when the escaped byte does not fit below maxLen. */
  method AppendEscapedByte(dest: array<u8>, idx: nat, maxLen: nat, b: u8) returns (next: nat)
    requires 0 < idx <= maxLen <= dest.Length
    modifies dest
    ensures dest[..idx] == old(dest[..idx])
    ensures if idx + |Escape(b)| <= maxLen
            then next == idx + |Escape(b)| && dest[..next] == old(dest[..idx]) + Escape(b)
            else next == 0
  {
    if b == FEND || b == FESC {
      if idx + 2 > maxLen { return 0; }
      dest[idx] := FESC;
      dest[idx + 1] := if b == FEND then TFEND else TFESC;
      return idx + 2;
    }
    if idx + 1 > maxLen { return 0; }
    dest[idx] := b;
    return idx + 1;
  }

  method EncodeFrame(kind: u8, data: seq<u8>, dest: array<u8>, maxLen: nat) returns (n: nat)
    requires maxLen <= dest.Length
    modifies dest
    ensures n == 0 <==> maxLen < |Encode(Frame(kind, data))|
    ensures n != 0 ==> n <= dest.Length && dest[..n] == Encode(Frame(kind, data))
  {
    ghost var f := Frame(kind, data);
    EncodedFront(f, 0);
    EncodedFront(f, 1);
    EncodedFront(f, |data| + 1);
    if maxLen < BOUNDARY_BYTES { return 0; }
    dest[0] := FEND;
    var idx := AppendEscapedByte(dest, 1, maxLen, kind);
    if idx == 0 { return 0; }
    idx := AppendData(kind, data, dest, idx, maxLen);
    if idx == 0 || idx + 1 > maxLen { return 0; }
    dest[idx] := FEND;
    n := idx + 1;
  }

  /** The data bytes, behind the boundary and the type. */
  method AppendData(ghost kind: u8, data: seq<u8>, dest: array<u8>, at: nat, maxLen: nat) returns (idx: nat)
    requires 0 < at <= maxLen <= dest.Length && dest[..at] == EncodedTo(Frame(kind, data), 1)
    modifies dest
    ensures var all := EncodedTo(Frame(kind, data), |data| + 1);
            if |all| <= maxLen then idx == |all| && dest[..idx] == all else idx == 0
  {
    hide EncodedTo, Escape;
    ghost var f := Frame(kind, data);
    idx := at;
    for i := 0 to |data|
      invariant 0 < idx <= maxLen
      invariant dest[..idx] == EncodedTo(f, i + 1)
    {
      EncodedFront(f, i + 2);
      EncodedGrows(f, i + 2);
      idx := AppendEscapedByte(dest, idx, maxLen, data[i]);
      if idx == 0 { return; }
    }
  }

  lemma {:induction false} EncodedGrows(f: Frame, k: nat)
    requires k <= |Payload(f)|
    ensures |EncodedTo(f, k)| <= |EncodedTo(f, |Payload(f)|)|
  {
    EscapedGrows(Payload(f), k);
    assert Payload(f)[..|Payload(f)|] == Payload(f);
  }

  /** The opening boundary and the first k payload bytes. */
  ghost function EncodedTo(f: Frame, k: nat): seq<u8>
    requires k <= |Payload(f)|
  {
    [FEND] + Escaped(Payload(f)[..k])
  }

  lemma {:induction false} EncodedFront(f: Frame, k: nat)
    requires k <= |Payload(f)|
    ensures |EncodedTo(f, k)| < |Encode(f)|
    ensures k == 0 ==> EncodedTo(f, k) == [FEND]
    ensures 0 < k ==> EncodedTo(f, k) == EncodedTo(f, k - 1) + Escape(Payload(f)[k - 1])
    ensures k == |Payload(f)| ==> Encode(f) == EncodedTo(f, k) + [FEND]
  {
    EscapedGrows(Payload(f), k);
    if 0 < k {
      assert Payload(f)[..k][..k - 1] == Payload(f)[..k - 1];
    }
    if k == |Payload(f)| {
      assert Payload(f)[..k] == Payload(f);
    }
  }

  lemma {:induction false} EscapedGrows(bytes: seq<u8>, k: nat)
    requires k <= |bytes|
    ensures |Escaped(bytes[..k])| <= |Escaped(bytes)|
    decreases |bytes|
  {
    if k < |bytes| {
      EscapedGrows(bytes[..|bytes| - 1], k);
      assert bytes[..|bytes| - 1][..k] == bytes[..k];
    } else {
      assert bytes[..k] == bytes;
    }
  }

  /** A queue slot holds any frame of up to 513 data bytes. */
  lemma {:induction false} EveryFrameFits(f: Frame)
    requires |f.data| <= MAX_FRAME_SIZE + 1
    ensures |Encode(f)| <= MAX_ENCODED_FRAME_SIZE
  {
  }

  // ---- Receiving -------------------------------------------------------------

  datatype Rx = Rx(buf: seq<u8>, escaped: bool, active: bool)

  datatype Received = Received(rx: Rx, frame: Option<seq<u8>>)

  /** One received byte, and the frame it completes, if any. */
  function Receive(rx: Rx, b: u8): Received {
    if b == FEND then
      Received(Rx([], false, true), if rx.active && rx.buf != [] then Some(rx.buf) else None)
    else if !rx.active then Received(rx, None)
    else if b == FESC then Received(rx.(escaped := true), None)
    else if rx.escaped && b != TFEND && b != TFESC then Received(rx.(escaped := false), None)
    else
      var c := if !rx.escaped then b else if b == TFEND then FEND else FESC;
      if |rx.buf| < MAX_FRAME_SIZE then Received(Rx(rx.buf + [c], false, true), None)
      else Received(Rx([], false, false), None)
  }

  datatype AllReceived = AllReceived(rx: Rx, frames: seq<seq<u8>>)

  function ReceiveAll(rx: Rx, bytes: seq<u8>): AllReceived {
    if bytes == [] then AllReceived(rx, [])
    else
      var before := ReceiveAll(rx, bytes[..|bytes| - 1]);
      var r := Receive(before.rx, bytes[|bytes| - 1]);
      AllReceived(r.rx, before.frames + if r.frame.Some? then [r.frame.value] else [])
  }

  /** The receiver's buffer and flags; frames lists what was handed to processFrame, in order. */
  class Receiver {
    const rxBuf: array<u8>
    var rxLen: nat
    var rxEscaped: bool
    var rxActive: bool

    ghost predicate Valid()
      reads this, rxBuf
    {
      rxBuf.Length == MAX_FRAME_SIZE && rxLen <= MAX_FRAME_SIZE
    }

    ghost function State(): Rx
      reads this, rxBuf
      requires Valid()
    {
      Rx(rxBuf[..rxLen], rxEscaped, rxActive)
    }

    constructor ()
      ensures Valid() && fresh(rxBuf) && State() == LOST
    {
      rxBuf := new u8[MAX_FRAME_SIZE](_ => 0);
      rxLen, rxEscaped, rxActive := 0, false, false;
    }

    method OnByte(byte: u8) returns (frame: Option<seq<u8>>)
      requires Valid()
      modifies this, rxBuf
      ensures Valid()
      ensures Received(State(), frame) == Receive(old(State()), byte)
    {
      var b := byte;
      frame := None;
      if b == FEND {
        if rxActive && rxLen > 0 {
          frame := Some(rxBuf[..rxLen]);
        }
        rxLen := 0;
        rxEscaped := false;
        rxActive := true;
        return;
      }
      if !rxActive { return; }
      if b == FESC {
        rxEscaped := true;
        return;
      }
      if rxEscaped {
        rxEscaped := false;
        if b == TFEND { b := FEND; }
        else if b == TFESC { b := FESC; }
        else { return; }
      }
      if rxLen < MAX_FRAME_SIZE {
        rxBuf[rxLen] := b;
        rxLen := rxLen + 1;
      } else {
        rxLen := 0;
        rxEscaped := false;
        rxActive := false;
      }
    }
  }

  // ---- What gets through -------------------------------------------------------

  lemma {:induction false} ReceiveAllSplits(rx: Rx, a: seq<u8>, b: seq<u8>)
    ensures var r := ReceiveAll(rx, a);
            var s := ReceiveAll(r.rx, b);
            ReceiveAll(rx, a + b) == AllReceived(s.rx, r.frames + s.frames)
  {
    hide Receive;
    if b == [] {
      assert a + b == a && ReceiveAll(rx, a).frames + [] == ReceiveAll(rx, a).frames;
    } else {
      var front, last := b[..|b| - 1], b[|b| - 1];
      ReceiveAllSplits(rx, a, front);
      assert (a + b)[..|a + b| - 1] == a + front && (a + b)[|a + b| - 1] == last;
      var r := ReceiveAll(rx, a);
      var s := ReceiveAll(r.rx, front);
      var t := Receive(s.rx, last);
      var fs := if t.frame.Some? then [t.frame.value] else [];
      assert r.frames + (s.frames + fs) == r.frames + s.frames + fs;
    }
  }

  lemma {:induction false} NothingReceived(rx: Rx)
    ensures ReceiveAll(rx, []) == AllReceived(rx, [])
  {
  }

  lemma {:induction false} ReceivesEscape(rx: Rx, b: u8)
    requires rx.active && !rx.escaped && |rx.buf| < MAX_FRAME_SIZE
    ensures ReceiveAll(rx, Escape(b)) == AllReceived(rx.(buf := rx.buf + [b]), [])
  {
    var e := Escape(b);
    if |e| == 2 {
      assert e[..1] == [FESC] && [FESC][..0] == [];
      assert ReceiveAll(rx, [FESC]) == AllReceived(rx.(escaped := true), []);
    } else {
      assert e[..0] == [];
    }
  }

  lemma {:induction false} ReceivesEscaped(rx: Rx, bytes: seq<u8>)
    requires rx.active && !rx.escaped && |rx.buf| + |bytes| <= MAX_FRAME_SIZE
    ensures ReceiveAll(rx, Escaped(bytes)) == AllReceived(rx.(buf := rx.buf + bytes), [])
  {
    hide ReceiveAll, Escape;
    NothingReceived(rx);
    if bytes == [] {
      assert rx.buf + bytes == rx.buf;
    } else {
      var front, b := bytes[..|bytes| - 1], bytes[|bytes| - 1];
      ReceivesEscaped(rx, front);
      ReceiveAllSplits(rx, Escaped(front), Escape(b));
      ReceivesEscape(rx.(buf := rx.buf + front), b);
      assert rx.buf + front + [b] == rx.buf + bytes;
    }
  }

  const IDLE := Rx([], false, true)

  /** At most one frame: what the bytes before a boundary had already built up. */
  function Leftover(rx: Rx): (fs: seq<seq<u8>>)
    ensures |fs| <= 1
  {
    if rx.active && rx.buf != [] then [rx.buf] else []
  }

  lemma {:induction false} ReceivesBoundary(rx: Rx)
    ensures ReceiveAll(rx, [FEND]) == AllReceived(IDLE, Leftover(rx))
  {
    assert [FEND][..0] == [] && [] + Leftover(rx) == Leftover(rx);
  }

  predicate Fits(f: Frame) { |Payload(f)| <= MAX_FRAME_SIZE }

  /** The payloads of the frames that fit the receive buffer. */
  function Delivered(fs: seq<Frame>): seq<seq<u8>> {
    if fs == [] then []
    else
      Delivered(fs[..|fs| - 1]) + Got(fs[|fs| - 1])
  }

  function Got(f: Frame): seq<seq<u8>> {
    if Fits(f) then [Payload(f)] else []
  }

  lemma {:induction false} ReceivesFrame(rx: Rx, f: Frame)
    requires Fits(f)
    ensures ReceiveAll(rx, Encode(f)) == AllReceived(IDLE, Leftover(rx) + [Payload(f)])
  {
    hide ReceiveAll, Escaped;
    var payload := Payload(f);
    ReceivesBoundary(rx);
    ReceivesEscaped(IDLE, payload);
    assert [] + payload == payload;
    ReceivesBoundary(IDLE.(buf := payload));
    ReceiveAllSplits(rx, [FEND], Escaped(payload));
    ReceiveAllSplits(rx, [FEND] + Escaped(payload), [FEND]);
    assert Leftover(rx) + [] + [payload] == Leftover(rx) + [payload];
  }

  /** A longer frame is never delivered, not even in part: the receiver drops it and waits for a boundary. */
  lemma {:induction false} OversizeFrameIsDropped(rx: Rx, f: Frame)
    requires !Fits(f)
    ensures ReceiveAll(rx, Encode(f)) == AllReceived(IDLE, Leftover(rx))
  {
    hide ReceiveAll, Escaped;
    var all := Payload(f);
    OversizeBodyStops(all);
    ReceivesBoundary(rx);
    ReceivesBoundary(LOST);
    ReceiveAllSplits(rx, [FEND], Escaped(all));
    ReceiveAllSplits(rx, [FEND] + Escaped(all), [FEND]);
    assert Leftover(rx) + [] + [] == Leftover(rx);
  }

  /**
   * Resynchronisation: from any receiver state the encodings of any frames deliver exactly those
   * that fit, in order, after at most one leftover; the others are dropped whole.
   */
  lemma {:induction false} ReceivesEveryFrame(rx: Rx, fs: seq<Frame>)
    ensures fs != [] ==> ReceiveAll(rx, EncodeAll(fs)) == AllReceived(IDLE, Leftover(rx) + Delivered(fs))
  {
    if fs != [] {
      var front, f := fs[..|fs| - 1], fs[|fs| - 1];
      ReceivesEveryFrame(rx, front);
      hide ReceiveAll, Got, Encode, Leftover;
      NothingReceived(rx);
      var from := if front == [] then rx else IDLE;
      ReceiveAllSplits(rx, EncodeAll(front), Encode(f));
      ReceivesOneFrame(from, f);
      Regroup(Leftover(rx), Delivered(front), Got(f));
    }
  }

  lemma {:induction false} ReceivesOneFrame(rx: Rx, f: Frame)
    ensures ReceiveAll(rx, Encode(f)) == AllReceived(IDLE, Leftover(rx) + Got(f))
    ensures Leftover(IDLE) == []
  {
    hide ReceiveAll;
    if Fits(f) {
      ReceivesFrame(rx, f);
    } else {
      OversizeFrameIsDropped(rx, f);
      assert Leftover(rx) + [] == Leftover(rx);
    }
  }

  lemma {:induction false} Regroup(a: seq<seq<u8>>, b: seq<seq<u8>>, c: seq<seq<u8>>)
    ensures [] + (a + c) == a + ([] + c)
    ensures (a + b) + ([] + c) == a + (b + c)
  {
  }

  /** Noise on the line costs at most what it completes itself and one leftover. */
  lemma {:induction false} ReceivesAfterNoise(rx: Rx, noise: seq<u8>, fs: seq<Frame>)
    requires fs != []
    ensures var n := ReceiveAll(rx, noise);
            ReceiveAll(rx, noise + EncodeAll(fs)).frames == n.frames + (Leftover(n.rx) + Delivered(fs))
  {
    hide ReceiveAll;
    ReceiveAllSplits(rx, noise, EncodeAll(fs));
    ReceivesEveryFrame(ReceiveAll(rx, noise).rx, fs);
  }

  const LOST := Rx([], false, false)

  lemma {:induction false} OversizeBodyStops(bytes: seq<u8>)
    requires |bytes| > MAX_FRAME_SIZE
    ensures ReceiveAll(IDLE, Escaped(bytes)) == AllReceived(LOST, [])
  {
    var front, b := bytes[..|bytes| - 1], bytes[|bytes| - 1];
    assert Escaped(bytes) == Escaped(front) + Escape(b);
    hide ReceiveAll, Escaped, Escape;
    ReceiveAllSplits(IDLE, Escaped(front), Escape(b));
    if |front| == MAX_FRAME_SIZE {
      ReceivesEscaped(IDLE, front);
      assert [] + front == front;
      OverflowDrops(IDLE.(buf := front), b);
    } else {
      OversizeBodyStops(front);
      LostIgnores(b);
    }
  }

  lemma {:induction false} LostIgnores(b: u8)
    ensures ReceiveAll(LOST, Escape(b)) == AllReceived(LOST, [])
  {
    var e := Escape(b);
    if |e| == 2 {
      assert e[..1] == [FESC] && [FESC][..0] == [];
      assert ReceiveAll(LOST, [FESC]) == AllReceived(LOST, []);
    } else {
      assert e[..0] == [];
    }
  }

  lemma {:induction false} OverflowDrops(rx: Rx, b: u8)
    requires rx.active && !rx.escaped && |rx.buf| == MAX_FRAME_SIZE
    ensures ReceiveAll(rx, Escape(b)) == AllReceived(LOST, [])
  {
    var e := Escape(b);
    if |e| == 2 {
      assert e[..1] == [FESC] && [FESC][..0] == [];
      assert ReceiveAll(rx, [FESC]) == AllReceived(rx.(escaped := true), []);
    } else {
      assert e[..0] == [];
    }
  }

  /** A host that has seen only part of the stream has decoded a prefix of the frames that fit. */
  lemma {:induction false} PartialStreamDecodesPrefix(fs: seq<Frame>, seen: seq<u8>)
    requires seen <= EncodeAll(fs)
    ensures ReceiveAll(LOST, seen).frames <= Delivered(fs)
  {
    hide ReceiveAll, Fits;
    var rest := EncodeAll(fs)[|seen|..];
    assert EncodeAll(fs) == seen + rest;
    NothingReceived(LOST);
    ReceiveAllSplits(LOST, seen, rest);
    ReceivesEveryFrame(LOST, fs);
    assert Leftover(LOST) + Delivered(fs) == Delivered(fs);
  }

  /** After 0xDB, 0xDC stands for 0xC0 and 0xDD for 0xDB; any other byte but a boundary or 0xDB is dropped with it. */
  lemma {:induction false} EscapedExactlyWhen(rx: Rx, x: u8)
    requires rx.active && !rx.escaped && |rx.buf| < MAX_FRAME_SIZE && x != 0xC0 && x != 0xDB
    ensures ReceiveAll(rx, [0xDB, x]) ==
            AllReceived(if x == 0xDC then rx.(buf := rx.buf + [0xC0]) else if x == 0xDD then rx.(buf := rx.buf + [0xDB]) else rx, [])
  {
    var first: seq<u8> := [0xDB];
    var both: seq<u8> := [0xDB, x];
    assert both[..1] == first && first[..0] == [];
    assert ReceiveAll(rx, first) == AllReceived(rx.(escaped := true), []);
  }
}
