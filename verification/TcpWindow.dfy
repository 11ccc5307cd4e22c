/** The send side of a TCP session (src/kernel/network_manager/tcp.rs; sections 3.4 and 3.8.6 of RFC 9293). */
module TcpWindow {
  const SEQUENCE: nat := 0x1_0000_0000
  const MAX_SEGMENT_SIZE: nat := 1460
  const WINDOW_LIMIT: nat := 0x1_0000

  type Byte = nat

  /** An unacknowledged segment in send_buffer_list. */
  datatype Segment = Segment(sequence: nat, payload: seq<Byte>)

  datatype Status = Opened | OpenOppositeClosed | OtherStatus

  datatype NetworkError = InvalidSocket | MemoryError | HeaderError | DeviceError

  datatype Result = Ok | Err(error: NetworkError)

  /** What happens to a segment that is handed down. */
  datatype Outcome = Taken | OutOfMemory | NoHeader | OutOfBuffer | Failed

  /** What happens to segment `i` of a call. */
  function Fate(lower: seq<Outcome>, i: nat): Outcome { if i < |lower| then lower[i] else Taken }

  /** What the caller is told about a segment that is not sent: memory and header come first, then the link. A full
      transmit buffer is no error. */
  function Answer(o: Outcome, linked: bool): Result {
    match o
    case OutOfMemory => Err(MemoryError)
    case NoHeader => Err(HeaderError)
    case Taken => if linked then Ok else Err(InvalidSocket)
    case OutOfBuffer => if linked then Ok else Err(InvalidSocket)
    case Failed => if linked then Err(DeviceError) else Err(InvalidSocket)
  }

  /** The first `sent` segments were taken. */
  ghost predicate AllTaken(lower: seq<Outcome>, linked: bool, sent: nat) {
    forall i: nat :: i < sent ==> linked && Fate(lower, i) == Taken
  }

  /** Segment `sent` was not taken, and `r` says why. */
  ghost predicate Told(lower: seq<Outcome>, linked: bool, sent: nat, r: Result) {
    r == Answer(Fate(lower, sent), linked) && (linked ==> Fate(lower, sent) != Taken)
  }

  lemma NoneSent(lower: seq<Outcome>, linked: bool)
    ensures AllTaken(lower, linked, 0)
  {
  }

  lemma OneSent(lower: seq<Outcome>, linked: bool, sent: nat)
    requires AllTaken(lower, linked, sent) && linked && Fate(lower, sent) == Taken
    ensures AllTaken(lower, linked, sent + 1)
  {
  }

  /** The session and, behind it, the byte stream: `stream` is everything sent, `acked` how much of it is acknowledged,
      and `initial` the sequence number of its first byte. */
  datatype Session = Session(window: nat, available: nat, next: nat, buffer: seq<Segment>, initial: nat,
                             stream: seq<Byte>, acked: nat)

  function Bytes(buffer: seq<Segment>): seq<Byte> {
    if buffer == [] then [] else buffer[0].payload + Bytes(buffer[1..])
  }

  function EndOf(s: Segment): nat { (s.sequence + |s.payload|) % SEQUENCE }

  /** The segments lie one after the other from stream position `at` on. */
  predicate Laid(buffer: seq<Segment>, at: nat, initial: nat) {
    buffer == [] || (
      && buffer[0].sequence == (initial + at) % SEQUENCE && 0 < |buffer[0].payload| <= MAX_SEGMENT_SIZE
      && Laid(buffer[1..], at + |buffer[0].payload|, initial))
  }

  /** The unacknowledged segments are exactly the rest of the stream, and use up exactly the rest of the window. */
  ghost predicate Inv(s: Session) {
    && s.window < WINDOW_LIMIT && s.acked <= |s.stream|
    && s.available + (|s.stream| - s.acked) == s.window
    && s.next == (s.initial + |s.stream|) % SEQUENCE
    && Laid(s.buffer, s.acked, s.initial) && Bytes(s.buffer) == s.stream[s.acked..]
  }

  // ---------------------------------------------------------------- sending

  lemma {:induction false} BytesSnoc(buffer: seq<Segment>, t: Segment)
    ensures Bytes(buffer + [t]) == Bytes(buffer) + t.payload
  {
    if buffer == [] {
      assert ([] + [t])[1..] == [];
    } else {
      assert (buffer + [t])[1..] == buffer[1..] + [t];
      BytesSnoc(buffer[1..], t);
    }
  }

  lemma {:induction false} LaidSnoc(buffer: seq<Segment>, t: Segment, at: nat, initial: nat)
    requires Laid(buffer, at, initial) && 0 < |t.payload| <= MAX_SEGMENT_SIZE
    requires t.sequence == (initial + at + |Bytes(buffer)|) % SEQUENCE
    ensures Laid(buffer + [t], at, initial)
  {
    if buffer == [] {
      assert ([] + [t])[1..] == [];
    } else {
      assert (buffer + [t])[1..] == buffer[1..] + [t];
      LaidSnoc(buffer[1..], t, at + |buffer[0].payload|, initial);
    }
  }

  lemma NextAdvances(initial: nat, n: nat, k: nat)
    ensures ((initial + n) % SEQUENCE + k) % SEQUENCE == (initial + n + k) % SEQUENCE
  {
  }

  function Queue(s: Session, payload: seq<Byte>): Session
    requires |payload| <= s.available
  {
    s.(available := s.available - |payload|, next := (s.next + |payload|) % SEQUENCE,
       buffer := s.buffer + [Segment(s.next, payload)], stream := s.stream + payload)
  }

  lemma QueueKeeps(s: Session, payload: seq<Byte>)
    requires Inv(s) && 0 < |payload| <= MAX_SEGMENT_SIZE && |payload| <= s.available
    ensures Inv(Queue(s, payload))
  {
    var t := Segment(s.next, payload);
    BytesSnoc(s.buffer, t);
    LaidSnoc(s.buffer, t, s.acked, s.initial);
    NextAdvances(s.initial, |s.stream|, |payload|);
    assert (s.stream + payload)[s.acked..] == s.stream[s.acked..] + payload;
  }

  // ---------------------------------------------------------------- acknowledgements

  /** The first segment, from `i` on, that ends where the acknowledgement says. */
  function Match(buffer: seq<Segment>, ack: nat, i: nat): (k: nat)
    requires i <= |buffer|
    ensures i <= k <= |buffer|
    ensures k < |buffer| ==> EndOf(buffer[k]) == ack
    ensures forall j :: i <= j < k ==> EndOf(buffer[j]) != ack
    decreases |buffer| - i
  {
    if i == |buffer| || EndOf(buffer[i]) == ack then i else Match(buffer, ack, i + 1)
  }

  function Min(a: nat, b: nat): nat { if a <= b then a else b }

  /** ipv4_tcp_ack_handler on an open session: whichever segment matches is removed, but the window always grows by
      the size of the oldest one. */
  function Acknowledge(s: Session, ack: nat): Session {
    var k := Match(s.buffer, ack, 0);
    if k == |s.buffer| then s
    else s.(available := Min(s.available + |s.buffer[0].payload|, s.window),
            buffer := s.buffer[..k] + s.buffer[k + 1..],
            acked := s.acked + |s.buffer[k].payload|)
  }

  /** The acknowledgement is for the oldest segment, or for none that is waiting. */
  predicate OldestOrNone(s: Session, ack: nat) {
    var k := Match(s.buffer, ack, 0);
    k == 0 || k == |s.buffer|
  }

  lemma OldestKeeps(s: Session, ack: nat)
    requires Inv(s) && OldestOrNone(s, ack)
    ensures Inv(Acknowledge(s, ack))
  {
    var k := Match(s.buffer, ack, 0);
    if k < |s.buffer| {
      var n := |s.buffer[0].payload|;
      assert s.buffer[..0] + s.buffer[1..] == s.buffer[1..];
      assert |Bytes(s.buffer)| == |s.stream| - s.acked;
      assert s.stream[s.acked..][n..] == s.stream[s.acked + n..];
      assert Bytes(s.buffer)[n..] == Bytes(s.buffer[1..]);
    }
  }

  /** A segment ends where the next one begins, and the last one at the next sequence number to send: an acknowledgement
      of it is the number of the first byte that the other side still waits for. */
  lemma {:induction false} EndsWhereNextBegins(buffer: seq<Segment>, at: nat, initial: nat, k: nat)
    requires Laid(buffer, at, initial) && k < |buffer|
    ensures EndOf(buffer[k]) ==
      if k + 1 < |buffer| then buffer[k + 1].sequence else (initial + at + |Bytes(buffer)|) % SEQUENCE
  {
    var n := |buffer[0].payload|;
    EndMod(initial + at, n);
    if k > 0 {
      EndsWhereNextBegins(buffer[1..], at + n, initial, k - 1);
    } else if |buffer| == 1 {
      assert Bytes(buffer[1..]) == [];
    }
  }

  lemma EndMod(x: nat, n: nat)
    ensures (x % SEQUENCE + n) % SEQUENCE == (x + n) % SEQUENCE
  {
  }

  lemma AckNumbers(s: Session, k: nat)
    requires Inv(s) && k < |s.buffer|
    ensures EndOf(s.buffer[k]) == if k + 1 < |s.buffer| then s.buffer[k + 1].sequence else s.next
  {
    EndsWhereNextBegins(s.buffer, s.acked, s.initial, k);
  }

  /** What an acknowledgement does, by the segments that end where it says: none, nothing; the oldest, it is done with
      and its bytes are open again in the window; a later one, the first such leaves and the window grows by the oldest.
      */
  lemma AckEffect(s: Session, ack: nat)
    requires Inv(s)
    ensures var s' := Acknowledge(s, ack);
      (forall i :: 0 <= i < |s.buffer| ==> EndOf(s.buffer[i]) != ack) ==> s' == s
    ensures var s' := Acknowledge(s, ack); s.buffer != [] && EndOf(s.buffer[0]) == ack ==>
      && s'.buffer == s.buffer[1..] && s'.acked == s.acked + |s.buffer[0].payload|
      && s'.available == s.available + |s.buffer[0].payload|
      && s'.stream == s.stream && s'.next == s.next && s'.window == s.window && s'.initial == s.initial
    ensures var s' := Acknowledge(s, ack); forall k: nat :: FirstEnding(s.buffer, ack, k) && k > 0 ==>
      && s'.buffer == s.buffer[..k] + s.buffer[k + 1..]
      && s'.available == Min(s.available + |s.buffer[0].payload|, s.window)
  {
    var k := Match(s.buffer, ack, 0);
    if k < |s.buffer| {
      assert s.buffer[..0] + s.buffer[1..] == s.buffer[1..];
      assert |Bytes(s.buffer)| == |s.stream| - s.acked;
    }
  }

  /** Segment `k` is the first that ends at `ack`. */
  predicate FirstEnding(buffer: seq<Segment>, ack: nat, k: nat) {
    k < |buffer| && EndOf(buffer[k]) == ack && forall i :: 0 <= i < k ==> EndOf(buffer[i]) != ack
  }

  /** The condition of `AckIsRightIff`, by the ends of the segments. */
  lemma OldestOrNoneIff(s: Session, ack: nat)
    ensures OldestOrNone(s, ack) <==>
      || (s.buffer != [] && EndOf(s.buffer[0]) == ack)
      || forall i :: 0 <= i < |s.buffer| ==> EndOf(s.buffer[i]) != ack
  {
  }

  lemma {:induction false} LaidAt(buffer: seq<Segment>, at: nat, initial: nat, k: nat)
    requires Laid(buffer, at, initial) && k < |buffer|
    ensures 0 < |buffer[k].payload| <= MAX_SEGMENT_SIZE
  {
    if k > 0 { LaidAt(buffer[1..], at + |buffer[0].payload|, initial, k - 1); }
  }

  lemma DifferentStarts(initial: nat, at: nat, n: nat)
    requires 0 < n < SEQUENCE
    ensures (initial + at) % SEQUENCE != (initial + at + n) % SEQUENCE
  {
  }

  ghost predicate FitsAt(s: Session, acked: nat) { Inv(s.(acked := acked)) }

  /** An acknowledgement of a later segment leaves a session that fits no stream position at all. */
  lemma LaterBreaks(s: Session, ack: nat, acked: nat)
    requires Inv(s) && !OldestOrNone(s, ack)
    ensures !FitsAt(Acknowledge(s, ack), acked)
  {
    var k := Match(s.buffer, ack, 0);
    var s' := Acknowledge(s, ack).(acked := acked);
    LaidAt(s.buffer, s.acked, s.initial, k);
    BytesWithout(s.buffer, k);
    if Inv(s') {
      assert s'.buffer[0] == s.buffer[0];
      assert |Bytes(s'.buffer)| == |s.stream| - acked && |Bytes(s.buffer)| == |s.stream| - s.acked;
      DifferentStarts(s.initial, s.acked, |s.buffer[k].payload|);
    }
  }

  lemma {:induction false} BytesWithout(buffer: seq<Segment>, k: nat)
    requires k < |buffer|
    ensures |Bytes(buffer[..k] + buffer[k + 1..])| == |Bytes(buffer)| - |buffer[k].payload|
  {
    var r := buffer[..k] + buffer[k + 1..];
    if k == 0 {
      assert r == buffer[1..];
    } else {
      BytesWithout(buffer[1..], k - 1);
      assert r[1..] == buffer[1..][..k - 1] + buffer[1..][k..];
    }
  }

  /** The session still describes some position of its stream exactly if the acknowledgement was for the oldest
      segment or for none. */
  lemma AckIsRightIff(s: Session, ack: nat)
    requires Inv(s)
    ensures OldestOrNone(s, ack) <==> exists acked: nat :: FitsAt(Acknowledge(s, ack), acked)
  {
    if OldestOrNone(s, ack) {
      OldestKeeps(s, ack);
      var acked := Acknowledge(s, ack).acked;
      assert Acknowledge(s, ack).(acked := acked) == Acknowledge(s, ack);
      assert FitsAt(Acknowledge(s, ack), acked);
    } else {
      forall acked: nat ensures !FitsAt(Acknowledge(s, ack), acked) { LaterBreaks(s, ack, acked); }
    }
  }

  /** Segments of one and two bytes, and an acknowledgement of the second: the window gets one byte back for two. */
  lemma LaterAckLosesWindow()
    ensures var s := Session(8, 5, 3, [Segment(0, [7]), Segment(1, [8, 9])], 0, [7, 8, 9], 0);
      && Inv(s) && !OldestOrNone(s, 3)
      && Acknowledge(s, 3).available == 6 && Acknowledge(s, 3).buffer == [Segment(0, [7])]
  {
    var buffer := [Segment(0, [7]), Segment(1, [8, 9])];
    assert buffer[1..] == [Segment(1, [8, 9])] && buffer[1..][1..] == [];
    assert Bytes(buffer) == [7] + ([8, 9] + []);
    assert Match(buffer, 3, 0) == Match(buffer, 3, 1) == 1;
    assert buffer[..1] + buffer[2..] == [Segment(0, [7])];
  }

  // ---------------------------------------------------------------- whole exchanges

  datatype Event = Out(payload: seq<Byte>) | In(ack: nat)

  predicate Legal(s: Session, e: Event) {
    match e
    case Out(payload) => 0 < |payload| <= MAX_SEGMENT_SIZE && |payload| <= s.available
    case In(ack) => OldestOrNone(s, ack)
  }

  function Step(s: Session, e: Event): Session
    requires Legal(s, e)
  {
    match e
    case Out(payload) => Queue(s, payload)
    case In(ack) => Acknowledge(s, ack)
  }

  /** Segments and acknowledgements of the oldest segment, in any order. */
  ghost predicate Exchange(s: Session, events: seq<Event>, s': Session)
    decreases |events|
  {
    if events == [] then s' == s else Legal(s, events[0]) && Exchange(Step(s, events[0]), events[1..], s')
  }

  function Sent(events: seq<Event>): seq<Byte> {
    if events == [] then [] else (if events[0].Out? then events[0].payload else []) + Sent(events[1..])
  }

  /** Whatever was sent and acknowledged, the payloads add up to the stream and the window to its two parts. */
  lemma {:induction false} ExchangeKeeps(s: Session, events: seq<Event>, s': Session)
    requires Inv(s) && Exchange(s, events, s')
    ensures Inv(s') && s'.stream == s.stream + Sent(events) && s'.window == s.window
    decreases |events|
  {
    hide Inv;
    if events != [] {
      match events[0] {
        case Out(payload) => QueueKeeps(s, payload);
        case In(ack) => OldestKeeps(s, ack);
      }
      ExchangeKeeps(Step(s, events[0]), events[1..], s');
    }
  }

  /** The segments from `from` on have the maximum size, the last of all only if `last` says so. */
  ghost predicate FullFrom(list: seq<Segment>, from: nat, last: bool) {
    forall i :: from <= i < |list| && (last || i + 1 < |list|) ==> |list[i].payload| == MAX_SEGMENT_SIZE
  }

  lemma FullNone(list: seq<Segment>)
    ensures FullFrom(list, |list|, true) && FullFrom(list, |list|, false)
  {
  }

  lemma FullMore(list: seq<Segment>, from: nat, next: Segment, last: bool)
    requires from <= |list| && FullFrom(list, from, true) && (last ==> |next.payload| == MAX_SEGMENT_SIZE)
    ensures FullFrom(list + [next], from, last) && FullFrom(list + [next], from, false)
  {
  }

  class TcpSessionInfo {
    var status: Status
    var windowSize: nat
    var availableWindowSize: nat
    var nextSequenceNumber: nat
    var sendBufferList: seq<Segment>
    ghost var initial: nat
    ghost var stream: seq<Byte>
    ghost var acked: nat

    ghost function Now(): Session
      reads this
    {
      Session(windowSize, availableWindowSize, nextSequenceNumber, sendBufferList, initial, stream, acked)
    }

    /** An accepted session: `sequence` is the number of the first data byte. */
    constructor (window: nat, sequence: nat)
      requires window < WINDOW_LIMIT && sequence < SEQUENCE
      ensures Inv(Now()) && stream == [] && status == Opened
    {
      status := Opened;
      windowSize, availableWindowSize, nextSequenceNumber, sendBufferList := window, window, sequence, [];
      initial, stream, acked := sequence, [], 0;
    }

    /** A segment was taken by the lower layers: it is kept until it is acknowledged. */
    method Enqueue(payload: seq<Byte>)
      requires Inv(Now()) && 0 < |payload| <= availableWindowSize && |payload| <= MAX_SEGMENT_SIZE
      modifies this`availableWindowSize, this`nextSequenceNumber, this`sendBufferList, this`stream
      ensures Inv(Now()) && stream == old(stream) + payload &&
        availableWindowSize == old(availableWindowSize) - |payload|
      ensures sendBufferList == old(sendBufferList) + [Segment(old(nextSequenceNumber), payload)]
    {
      hide Inv;
      QueueKeeps(Now(), payload);
      sendBufferList := sendBufferList + [Segment(nextSequenceNumber, payload)];
      nextSequenceNumber := (nextSequenceNumber + |payload|) % SEQUENCE;
      stream := stream + payload;
      availableWindowSize := availableWindowSize - |payload|;
    }

    /** send_tcp_ipv4_data: what was consumed of the data was appended to the stream, in segments that fit the window;
        `lower` says what happens to the segments, one after the other, and any further ones are taken. If the lower
        layers take every segment, all the data goes out that the window allows; else the first one that is not taken
        decides the result. A socket without a link is only noticed when there is a segment to send. */
    method SendData(data: seq<Byte>, linked: bool, lower: seq<Outcome>) returns (consumed: nat, r: Result, sent: nat)
      requires Inv(Now())
      modifies this`availableWindowSize, this`nextSequenceNumber, this`sendBufferList, this`stream
      ensures Inv(Now())
      ensures status != Opened && status != OpenOppositeClosed ==> consumed == 0 && r == Err(InvalidSocket)
      ensures status == Opened || status == OpenOppositeClosed ==>
        && AllTaken(lower, linked, sent)
        && (if consumed == Min(|data|, old(availableWindowSize)) then r == Ok else Told(lower, linked, sent, r))
      ensures |sendBufferList| == |old(sendBufferList)| + sent
      ensures consumed <= Min(|data|, old(availableWindowSize)) && stream == old(stream) + data[..consumed]
      ensures availableWindowSize == old(availableWindowSize) - consumed
      ensures old(sendBufferList) <= sendBufferList
      ensures FullFrom(sendBufferList, |old(sendBufferList)|, false)
    {
      hide Inv, FullFrom, AllTaken;
      FullNone(sendBufferList);
      NoneSent(lower, linked);
      consumed, r, sent := 0, Ok, 0;
      if status != Opened && status != OpenOppositeClosed {
        return 0, Err(InvalidSocket), 0;
      }
      while consumed < |data| && availableWindowSize > 0
        invariant Inv(Now()) && consumed <= |data| && consumed <= old(availableWindowSize)
        invariant stream == old(stream) + data[..consumed]
        invariant availableWindowSize == old(availableWindowSize) - consumed && old(sendBufferList) <= sendBufferList
        invariant |sendBufferList| == |old(sendBufferList)| + sent && r == Ok
        invariant AllTaken(lower, linked, sent)
        invariant FullFrom(sendBufferList, |old(sendBufferList)|, consumed < |data| && availableWindowSize > 0)
        invariant FullFrom(sendBufferList, |old(sendBufferList)|, false)
        decreases |data| - consumed
      {
        var size := Min(Min(|data| - consumed, availableWindowSize), MAX_SEGMENT_SIZE);
        assert consumed < Min(|data|, old(availableWindowSize));
        var outcome := Fate(lower, sent);
        if !linked && !outcome.OutOfMemory? && !outcome.NoHeader? {
          return consumed, Err(InvalidSocket), sent;
        }
        match outcome {
          case OutOfMemory => return consumed, Err(MemoryError), sent;
          case NoHeader => return consumed, Err(HeaderError), sent;
          case OutOfBuffer => return consumed, Ok, sent;
          case Failed => return consumed, Err(DeviceError), sent;
          case Taken =>
            assert data[..consumed + size] == data[..consumed] + data[consumed..consumed + size];
            ghost var was := sendBufferList;
            Enqueue(data[consumed..consumed + size]);
            FullMore(was, |old(sendBufferList)|, sendBufferList[|was|],
                     consumed + size < |data| && availableWindowSize > 0);
            consumed := consumed + size;
            OneSent(lower, linked, sent);
            sent := sent + 1;
        }
      }
      assert consumed == Min(|data|, old(availableWindowSize));
    }

    /** ipv4_tcp_ack_handler on an open session; 16-bit arithmetic does not overflow. */
    method AckHandler(ack: nat)
      requires Inv(Now())
      modifies this`availableWindowSize, this`sendBufferList, this`acked
      ensures Now() == Acknowledge(old(Now()), ack)
      ensures OldestOrNone(old(Now()), ack) ==> Inv(Now())
    {
      if OldestOrNone(Now(), ack) { OldestKeeps(Now(), ack); }
      if sendBufferList == [] {
        return;
      }
      var first := sendBufferList[0];
      SizeInWindow(Now());
      if EndOf(first) == ack {
        assert availableWindowSize + |first.payload| < WINDOW_LIMIT;
        availableWindowSize := Min(availableWindowSize + |first.payload|, windowSize);
        assert sendBufferList[..0] + sendBufferList[1..] == sendBufferList[1..];
        sendBufferList := sendBufferList[1..];
        acked := acked + |first.payload|;
        return;
      }
      var k := 0;
      while k < |sendBufferList|
        invariant k <= |sendBufferList| && Now() == old(Now())
        invariant Match(sendBufferList, ack, 0) == Match(sendBufferList, ack, k)
      {
        var entry := sendBufferList[k];
        if EndOf(entry) == ack {
          assert availableWindowSize + |first.payload| < WINDOW_LIMIT;
          availableWindowSize := Min(availableWindowSize + |first.payload|, windowSize);
          sendBufferList := sendBufferList[..k] + sendBufferList[k + 1..];
          acked := acked + |entry.payload|;
          return;
        }
        k := k + 1;
      }
    }
  }

  lemma SizeInWindow(s: Session)
    requires Inv(s) && s.buffer != []
    ensures s.available + |s.buffer[0].payload| <= s.window
  {
    assert |Bytes(s.buffer)| == |s.stream| - s.acked;
  }
}
