/** Stream transport: the send queue and channel framing of AsyncSocketBase, and the framed reader of
    AsyncTcpSocketBase and TcpConnection. */
module Sockets {
  import opened Wire
  import opened Stun
  import opened StunCodec

  const NO_CHANNEL := 0xFFFF
  const MIN_CHANNEL := 0x4000
  const MAX_CHANNEL := 0x7FFF
  const RECEIVE_BUFFER_SIZE := 4096

  // ---------------------------------------------------------------- sending

  /** Turn framing: channel number and length, each cut to 16 bits. */
  function ChannelFrame(channel: nat, data: Bytes): (f: Bytes)
    ensures |f| == 4
  {
    BE(2, channel) + BE(2, |data|)
  }

  /** The frame, octet for octet. */
  lemma ChannelFrameOctets(channel: U16, data: Bytes)
    ensures ChannelFrame(channel, data) == [channel / 0x100, channel % 0x100, |data| / 0x100 % 0x100, |data| % 0x100]
  {
    hide BE;
    LowOctets(channel);
    LowOctets(|data|);
  }

  lemma LowOctets(n: nat)
    ensures BE(2, n) == [n / 0x100 % 0x100, n % 0x100]
  {
    assert BE(1, n / 0x100) == BE(0, n / 0x100 / 0x100) + [n / 0x100 % 0x100];
  }

  datatype Item = Item(frame: Bytes, data: Bytes, start: nat)

  /** What one queued item puts on the wire. */
  function Octets(x: Item): Bytes {
    x.frame + if x.start <= |x.data| then x.data[x.start..] else []
  }

  function Wires(q: seq<Item>): (w: seq<Bytes>)
    ensures |w| == |q| && forall i :: 0 <= i < |q| ==> w[i] == Octets(q[i])
  {
    seq(|q|, i requires 0 <= i < |q| => Octets(q[i]))
  }

  lemma WiresFirst(q: seq<Item>)
    requires q != []
    ensures Wires(q) == [Octets(q[0])] + Wires(q[1..])
  {
    hide Octets;
  }

  lemma WiresLast(q: seq<Item>, x: Item)
    ensures Wires(q + [x]) == Wires(q) + [Octets(x)]
  {
    hide Octets;
  }

  class SendQueue {
    var queue: seq<Item>
    /** The write handed to the transport and not yet completed, and those completed, in the order they began. */
    var writing: Option<Bytes>
    var written: seq<Bytes>

    /** A write is in progress exactly while the queue is not empty, and it is the queue's first item. */
    ghost predicate Valid()
      reads this
    {
      writing == if queue == [] then None else Some(Octets(queue[0]))
    }

    /** Everything ever sent, in order: completed, in progress, waiting. */
    ghost function Log(): seq<Bytes>
      reads this
    {
      written + Wires(queue)
    }

    constructor ()
      ensures Valid() && Log() == [] && written == []
    {
      queue, writing, written := [], None, [];
    }

    /** transportSend, which the transport allows only when no write is in progress. */
    method SendFirstQueuedData()
      requires queue != [] && writing == None
      modifies this`writing
      ensures Valid()
    {
      writing := Some(Octets(queue[0]));
    }

    method DoSend(channel: nat, data: Bytes, start: nat)
      requires Valid()
      modifies this
      ensures Valid() && written == old(written)
      ensures Log() == old(Log()) + [Octets(Item(if channel == NO_CHANNEL then [] else ChannelFrame(channel, data), data, start))]
    {
      var writeInProgress := queue != [];
      ghost var x := Item(if channel == NO_CHANNEL then [] else ChannelFrame(channel, data), data, start);
      WiresLast(queue, x);
      if channel == NO_CHANNEL {
        queue := queue + [Item([], data, start)];
      } else {
        queue := queue + [Item(ChannelFrame(channel, data), data, start)];
      }
      assert queue == old(queue) + [x];
      hide Wires, Octets;
      if !writeInProgress {
        SendFirstQueuedData();
      }
    }

    /** The transport reports its one write complete. */
    method HandleSend()
      requires Valid() && writing.Some?
      modifies this
      ensures Valid() && Log() == old(Log()) && written == old(written) + [old(writing.value)]
    {
      WiresFirst(queue);
      hide Wires, Octets;
      Regroup(written, [writing.value], Wires(queue[1..]));
      written := written + [writing.value];
      writing := None;
      queue := queue[1..];
      if queue != [] {
        SendFirstQueuedData();
      }
    }
  }

  // ---------------------------------------------------------------- receiving

  /** How many octets follow the four of the header, in 16-bit arithmetic. */
  function DataLength(header: Bytes): nat
    requires |header| >= 4
  {
    var len := Val(header[2..4]);
    if header[0] < 0x40 then (len + 16) % 0x1_0000 else len
  }

  /** The header of a STUN message announces the rest of it exactly while its length field is below 0xFFF0; from there
      on the sum wraps, and the reader takes fewer than sixteen octets. */
  lemma StunLengthExactlyWhenSmall(s: Bytes)
    requires |s| >= 4 && s[0] < 0x40
    ensures DataLength(s) == Val(s[2..4]) + 16 <==> Val(s[2..4]) < 0xFFF0
    ensures Val(s[2..4]) >= 0xFFF0 ==> DataLength(s) == Val(s[2..4]) - 0xFFF0 < 16
  {
    PowersOf256();
    var len := Val(s[2..4]);
    assert len < 0x1_0000;
    hide Val, Pow256;
  }

  datatype Read = Read(messages: seq<Bytes>, rest: Bytes, closed: bool)

  /** What a connection hands on from a stream: messages, octets it still waits to complete, and whether it closed.
      It closes on a message that does not fit the buffer, and on one of no more than four octets. */
  function Deframe(s: Bytes): Read
    decreases |s|
  {
    if |s| < 4 then Read([], s, false)
    else
      var n := DataLength(s) + 4;
      if n >= RECEIVE_BUFFER_SIZE then Read([], s, true)
      else if |s| < n then Read([], s, false)
      else if n <= 4 then Read([], s, true)
      else
        var more := Deframe(s[n..]);
        more.(messages := [s[..n]] + more.messages)
  }

  function Behind(before: seq<Bytes>, r: Read): Read {
    r.(messages := before + r.messages)
  }

  lemma Stops(s: Bytes)
    ensures |s| < 4 ==> Deframe(s) == Read([], s, false)
    ensures |s| >= 4 ==>
              var n := DataLength(s) + 4;
              && (n >= RECEIVE_BUFFER_SIZE ==> Deframe(s) == Read([], s, true))
              && (|s| < n < RECEIVE_BUFFER_SIZE ==> Deframe(s) == Read([], s, false))
              && (n == 4 ==> Deframe(s) == Read([], s, true))
  {
    hide DataLength;
  }

  lemma GoesOn(s: Bytes, pos: nat, n: nat)
    requires pos + 4 <= |s| && n == DataLength(s[pos..]) + 4 && 4 < n < RECEIVE_BUFFER_SIZE && pos + n <= |s|
    ensures var more := Deframe(s[pos + n..]);
            Deframe(s[pos..]) == Behind([s[pos..][..n]], more)
  {
    hide DataLength;
    assert s[pos..][n..] == s[pos + n..];
  }

  lemma HeaderDecides(s: Bytes, s': Bytes)
    requires |s| >= 4 && |s'| >= 4 && s[..4] == s'[..4]
    ensures DataLength(s) == DataLength(s')
  {
    assert s[2..4] == s[..4][2..4] && s'[2..4] == s'[..4][2..4] && s[0] == s[..4][0] && s'[0] == s'[..4][0];
  }

  function From(s: Bytes, pos: nat): Bytes
    requires pos <= |s|
  {
    s[pos..]
  }

  /** The receive buffer after four octets, or after a whole message. */
  method Receive(s: Bytes, pos: nat, n: nat) returns (front: Bytes)
    requires pos + n <= |s| && n < RECEIVE_BUFFER_SIZE
    ensures front == From(s, pos)[..n]
  {
    var buffer := new Byte[RECEIVE_BUFFER_SIZE](_ => 0);
    forall i | 0 <= i < n {
      buffer[i] := s[pos + i];
    }
    front := buffer[..n];
  }

  /** What the loop has read at a position: nothing when the message is not all there, or when it makes the
      connection close. */
  ghost predicate NextIs(s: Bytes, pos: nat, message: Option<Bytes>, closed: bool) {
    && pos <= |s|
    && match message
       case None => Deframe(From(s, pos)) == Read([], From(s, pos), closed)
       case Some(m) => !closed && 0 < |m| <= |s| - pos && Deframe(From(s, pos)) == Behind([m], Deframe(From(s, pos + |m|)))
  }

  lemma NextSome(s: Bytes, pos: nat, n: nat)
    requires pos + 4 <= |s| && n == DataLength(From(s, pos)) + 4 && 4 < n < RECEIVE_BUFFER_SIZE && pos + n <= |s|
    ensures NextIs(s, pos, Some(From(s, pos)[..n]), false)
  {
    GoesOn(s, pos, n);
    hide DataLength, Deframe, Behind;
  }

  lemma NextNone(s: Bytes, pos: nat, n: nat)
    requires pos + 4 <= |s| && n == DataLength(From(s, pos)) + 4
    requires n >= RECEIVE_BUFFER_SIZE || n == 4 || |s| < pos + n
    ensures NextIs(s, pos, None, n >= RECEIVE_BUFFER_SIZE || n == 4)
  {
    Stops(s[pos..]);
    hide DataLength, Deframe, Behind;
  }

  /** Header first, then as much as the header announces, into a fixed buffer. */
  method NextMessage(s: Bytes, pos: nat) returns (message: Option<Bytes>, closed: bool)
    requires pos <= |s|
    ensures NextIs(s, pos, message, closed)
  {
    if |s| < pos + 4 {
      Stops(s[pos..]);
      return None, false;
    }
    var header := Receive(s, pos, 4);
    HeaderDecides(header, From(s, pos));
    hide *;
    var n := DataLength(header) + 4;
    if 4 < n < RECEIVE_BUFFER_SIZE && pos + n <= |s| {
      NextSome(s, pos, n);
      var whole := Receive(s, pos, n);
      return Some(whole), false;
    }
    NextNone(s, pos, n);
    return None, n >= RECEIVE_BUFFER_SIZE || n == 4;
  }

  lemma NextThenRest(s: Bytes, pos: nat, m: Bytes, more: seq<Bytes>, end: nat, closed: bool)
    requires NextIs(s, pos, Some(m), false) && end <= |s|
    requires Deframe(From(s, pos + |m|)) == Read(more, From(s, end), closed)
    ensures Deframe(From(s, pos)) == Read([m] + more, From(s, end), closed)
  {
    hide Deframe, From;
  }

  lemma NoNext(s: Bytes, pos: nat, closed: bool)
    requires NextIs(s, pos, None, closed)
    ensures Deframe(From(s, pos)) == Read([], From(s, pos), closed)
  {
  }

  /** The chain of framed reads from a position: each completed message starts the next, until the stream runs dry
      or the connection closes. */
  method ReadStream(s: Bytes, pos: nat) returns (messages: seq<Bytes>, end: nat, closed: bool)
    requires pos <= |s|
    ensures end <= |s| && Deframe(From(s, pos)) == Read(messages, From(s, end), closed)
    decreases |s| - pos
  {
    hide Deframe, From, Behind;
    var message, shut := NextMessage(s, pos);
    match message
    case None =>
      NoNext(s, pos, shut);
      messages, end, closed := [], pos, shut;
    case Some(m) =>
      var more;
      more, end, closed := ReadStream(s, pos + |m|);
      NextThenRest(s, pos, m, more, end, closed);
      messages := [m] + more;
  }

  // ---------------------------------------------------------------- deframing inverts framing

  /** A write the reader can recognise: its header announces its own length. */
  predicate SelfDelimiting(w: Bytes) {
    4 < |w| < RECEIVE_BUFFER_SIZE && DataLength(w) + 4 == |w|
  }

  function Flatten(ws: seq<Bytes>): Bytes {
    if ws == [] then [] else ws[0] + Flatten(ws[1..])
  }

  lemma DeframeOne(w: Bytes, tail: Bytes)
    requires SelfDelimiting(w)
    ensures Deframe(w + tail) == Deframe(tail).(messages := [w] + Deframe(tail).messages)
  {
    SplitConcat(w, tail);
    assert (w + tail)[..4] == w[..4];
    HeaderDecides(w + tail, w);
    hide DataLength;
  }

  /** Writes before the first that does not delimit itself are read back, whatever comes after them. */
  lemma {:induction false} GoodPrefixIsRead(ws: seq<Bytes>, tail: Bytes)
    requires forall i :: 0 <= i < |ws| ==> SelfDelimiting(ws[i])
    ensures Deframe(Flatten(ws) + tail) == Behind(ws, Deframe(tail))
  {
    hide Deframe, SelfDelimiting;
    if ws == [] {
      assert Flatten(ws) + tail == tail;
      BehindNone(Deframe(tail));
    } else {
      GoodPrefixIsRead(ws[1..], tail);
      assert Flatten(ws) + tail == ws[0] + (Flatten(ws[1..]) + tail);
      DeframeOne(ws[0], Flatten(ws[1..]) + tail);
      assert ws == [ws[0]] + ws[1..];
      Regroup([ws[0]], ws[1..], Deframe(tail).messages);
    }
  }

  lemma BehindNone(r: Read)
    ensures Behind([], r) == r
  {
    assert [] + r.messages == r.messages;
  }

  /** The reader hands on nothing that does not delimit itself. */
  lemma {:induction false} ReadIsDelimited(s: Bytes)
    ensures forall m :: m in Deframe(s).messages ==> SelfDelimiting(m)
    decreases |s|
  {
    if |s| >= 4 && DataLength(s) + 4 <= |s| && 4 < DataLength(s) + 4 < RECEIVE_BUFFER_SIZE {
      var n := DataLength(s) + 4;
      assert s[..n][..4] == s[..4];
      HeaderDecides(s[..n], s);
      ReadIsDelimited(s[n..]);
      hide DataLength;
    } else {
      Stops(s);
    }
  }

  /** A stream of writes, then the beginning of another, is read back as exactly those writes if and only if each of
      them delimits itself; then what is left is that beginning, and the connection stays open. */
  lemma DeframeInvertsExactlyWhen(ws: seq<Bytes>, rest: Bytes)
    requires |rest| < 4
    ensures Deframe(Flatten(ws) + rest).messages == ws <==> forall i :: 0 <= i < |ws| ==> SelfDelimiting(ws[i])
    ensures (forall i :: 0 <= i < |ws| ==> SelfDelimiting(ws[i])) ==> Deframe(Flatten(ws) + rest) == Read(ws, rest, false)
  {
    Stops(rest);
    ReadIsDelimited(Flatten(ws) + rest);
    hide Deframe, SelfDelimiting;
    if forall i :: 0 <= i < |ws| ==> SelfDelimiting(ws[i]) {
      GoodPrefixIsRead(ws, rest);
      assert ws + [] == ws;
    } else {
      assert forall i :: 0 <= i < |ws| ==> ws[i] in ws;
    }
  }

  /** Cutting the stream anywhere only delays messages, it never changes them. */
  lemma {:induction false} DeframePrefix(s: Bytes, more: Bytes)
    requires !Deframe(s).closed
    ensures var a, b := Deframe(s), Deframe(Deframe(s).rest + more);
            Deframe(s + more) == Read(a.messages + b.messages, b.rest, b.closed)
    decreases |s|
  {
    if |s| >= 4 && DataLength(s) + 4 <= |s| {
      var n := DataLength(s) + 4;
      var w, tail := s[..n], s[n..];
      assert w[..4] == s[..4];
      HeaderDecides(w, s);
      DeframePrefix(tail, more);
      assert w + tail == s;
      DeframeOne(w, tail);
      Regroup(w, tail, more);
      DeframeOne(w, tail + more);
      hide Deframe;
      Regroup([w], Deframe(tail).messages, Deframe(Deframe(tail).rest + more).messages);
    } else {
      assert Deframe(s) == Read([], s, false);
    }
  }

  /** Every printed STUN message below the buffer size delimits itself. */
  lemma StunDelimits(m: Message, key: Bytes, junk: Bytes, hmac: Hmac, crc: Crc)
    requires WellTyped(m) && 20 + BodyLength(m, junk) < RECEIVE_BUFFER_SIZE
    ensures SelfDelimiting(Encode(m, key, junk, hmac, crc))
  {
    assert m.cls in {0x000, 0x010, 0x100, 0x110} && m.verb < 16;
    hide WellTyped, BodyLength, AllRaws, Encode, Join, SelfDelimiting;
    EncodeIsFramed(m, key, junk, hmac, crc);
    HeaderDelimits(m, BodyLength(m, junk), Join(AllRaws(m, key, junk, hmac, crc)));
  }

  lemma HeaderDelimits(m: Message, n: nat, body: Bytes)
    requires m.cls in {0x000, 0x010, 0x100, 0x110} && m.verb < 16 && n == |body| && 20 + n < RECEIVE_BUFFER_SIZE
    ensures SelfDelimiting(Header(m, n) + body)
  {
    var w := Header(m, n) + body;
    assert w[0] == BE(2, m.cls + m.verb)[0];
    hide *;
    HeaderFields(m, n, body);
    FirstOctet(m.cls + m.verb);
    AnnouncedLength(w, n);
  }

  lemma AnnouncedLength(w: Bytes, n: nat)
    requires |w| == 20 + n < RECEIVE_BUFFER_SIZE && w[0] < 0x40 && Val(w[2..4]) == n
    ensures SelfDelimiting(w)
  {
    hide Val;
    assert (n + 16) % 0x1_0000 == n + 16;
  }

  lemma FirstOctet(v: nat)
    requires v < 0x1_0000
    ensures BE(2, v)[0] == v / 256
  {
    assert BE(2, v) == BE(1, v / 256) + [v % 256];
    assert BE(1, v / 256) == BE(0, v / 256 / 256) + [v / 256 % 256];
  }

  /** ChannelData delimits itself exactly when its channel has a set bit among its top two, it carries something, and it
      fits the buffer. */
  lemma ChannelDelimits(channel: nat, data: Bytes)
    requires channel < 0x1_0000
    ensures SelfDelimiting(ChannelFrame(channel, data) + data) <==>
              channel >= MIN_CHANNEL && data != [] && |data| + 4 < RECEIVE_BUFFER_SIZE
  {
    var w := ChannelFrame(channel, data) + data;
    if |data| + 4 < RECEIVE_BUFFER_SIZE {
      FirstOctet(channel);
      assert w[2..4] == BE(2, |data|);
      PowersOf256();
      ReadBack(2, |data|);
      assert w[0] == channel / 256;
      assert (|data| + 16) % 0x1_0000 == |data| + 16;
    }
  }

  /** ChannelData without payload closes the connection, whatever follows it. */
  lemma EmptyChannelDataCloses(channel: nat, more: Bytes)
    requires MIN_CHANNEL <= channel < 0x1_0000
    ensures Deframe(ChannelFrame(channel, []) + more) == Read([], ChannelFrame(channel, []) + more, true)
  {
    var s := ChannelFrame(channel, []) + more;
    FirstOctet(channel);
    assert s[0] == channel / 256 && s[2..4] == BE(2, 0);
    PowersOf256();
    ReadBack(2, 0);
    hide BE, Val, Deframe;
    Stops(s);
  }

  datatype Send = StunSent(msg: Message, key: Bytes) | ChannelSent(channel: U16, data: Bytes)

  /** What an application hands to the socket: a message, or octets for a channel. */
  type Outgoing = x: Send | x.StunSent? ==> WellTyped(x.msg) witness ChannelSent(MIN_CHANNEL, [])

  /** What it puts on the wire. The highest channel number stands for none: then the octets go out as they are. */
  function WireOf(x: Outgoing, hmac: Hmac, crc: Crc): Bytes {
    match x
    case StunSent(m, key) => Encode(m, key, [], hmac, crc)
    case ChannelSent(c, data) => if c == NO_CHANNEL then data else ChannelFrame(c, data) + data
  }

  /** What a caller can check beforehand: the message or frame fits the buffer, and a frame has a channel's number and
      something in it. */
  predicate Recoverable(x: Outgoing) {
    match x
    case StunSent(m, _) => 20 + BodyLength(m, []) < RECEIVE_BUFFER_SIZE
    case ChannelSent(c, data) =>
      if c == NO_CHANNEL then SelfDelimiting(data) else c >= MIN_CHANNEL && data != [] && |data| + 4 < RECEIVE_BUFFER_SIZE
  }

  lemma RecoverableDelimits(x: Outgoing, hmac: Hmac, crc: Crc)
    ensures SelfDelimiting(WireOf(x, hmac, crc)) <==> Recoverable(x)
  {
    match x
    case StunSent(m, key) =>
      if Recoverable(x) {
        StunDelimits(m, key, [], hmac, crc);
      } else {
        EncodeIsFramed(m, key, [], hmac, crc);
        hide Encode, BodyLength, WellTyped, AllRaws;
      }
    case ChannelSent(c, data) =>
      ChannelDelimits(c, data);
      hide SelfDelimiting;
  }

  method SendOne(q: SendQueue, x: Outgoing, hmac: Hmac, crc: Crc)
    requires q.Valid()
    modifies q
    ensures q.Valid() && q.Log() == old(q.Log()) + [WireOf(x, hmac, crc)]
  {
    SentOctets(x, hmac, crc);
    hide WireOf, SendQueue.Log;
    match x {
      case StunSent(m, key) => q.DoSend(NO_CHANNEL, Encode(m, key, [], hmac, crc), 0);
      case ChannelSent(c, data) => q.DoSend(c, data, 0);
    }
  }

  lemma SentOctets(x: Outgoing, hmac: Hmac, crc: Crc)
    ensures x.StunSent? ==> WellTyped(x.msg)
    ensures WireOf(x, hmac, crc) ==
            match x
            case StunSent(m, key) => Octets(Item([], Encode(m, key, [], hmac, crc), 0))
            case ChannelSent(c, data) => Octets(Item(if c == NO_CHANNEL then [] else ChannelFrame(c, data), data, 0))
  {
  }

  /** The transport completes every write in turn. */
  method Drain(q: SendQueue)
    requires q.Valid()
    modifies q
    ensures q.Valid() && q.written == old(q.Log())
  {
    ghost var log := q.Log();
    while q.writing.Some?
      invariant q.Valid() && q.Log() == log
      decreases |log| - |q.written|
    {
      assert |q.Log()| == |q.written| + |q.queue|;
      q.HandleSend();
    }
    assert q.written + Wires([]) == q.written;
  }

  function WiresOf(xs: seq<Outgoing>, hmac: Hmac, crc: Crc): (ws: seq<Bytes>)
    ensures |ws| == |xs| && forall i :: 0 <= i < |xs| ==> ws[i] == WireOf(xs[i], hmac, crc)
  {
    seq(|xs|, i requires 0 <= i < |xs| => WireOf(xs[i], hmac, crc))
  }

  lemma WiresOneMore(xs: seq<Outgoing>, i: nat, hmac: Hmac, crc: Crc)
    requires i < |xs|
    ensures WiresOf(xs[..i + 1], hmac, crc) == WiresOf(xs[..i], hmac, crc) + [WireOf(xs[i], hmac, crc)]
  {
    hide WireOf;
  }

  /** End to end: any sends through the queue, all writes completed, and the reader on the other side hands on exactly
      those writes, in order, if and only if each is recoverable. */
  method SendAll(xs: seq<Outgoing>, hmac: Hmac, crc: Crc) returns (received: seq<Bytes>)
    ensures received == WiresOf(xs, hmac, crc) <==> forall i :: 0 <= i < |xs| ==> Recoverable(xs[i])
  {
    hide Recoverable, WireOf, WiresOf, Deframe, SendQueue.Log;
    var q := new SendQueue();
    assert xs[..0] == [] && WiresOf([], hmac, crc) == [] by { NoWires(hmac, crc); }
    for i := 0 to |xs|
      invariant q.Valid() && fresh(q) && q.Log() == WiresOf(xs[..i], hmac, crc)
    {
      WiresOneMore(xs, i, hmac, crc);
      SendOne(q, xs[i], hmac, crc);
    }
    assert xs[..|xs|] == xs;
    Drain(q);
    received := ReadBackAll(q.written, xs, hmac, crc);
  }

  lemma NoWires(hmac: Hmac, crc: Crc)
    ensures WiresOf([], hmac, crc) == []
  {
  }

  method ReadBackAll(log: seq<Bytes>, xs: seq<Outgoing>, hmac: Hmac, crc: Crc) returns (received: seq<Bytes>)
    requires log == WiresOf(xs, hmac, crc)
    ensures received == log <==> forall i :: 0 <= i < |xs| ==> Recoverable(xs[i])
  {
    hide Recoverable, WireOf, Deframe, SelfDelimiting;
    var stream := Concatenated(log);
    var end, closed;
    received, end, closed := ReadStream(stream, 0);
    forall i | 0 <= i < |log| ensures SelfDelimiting(log[i]) <==> Recoverable(xs[i]) {
      RecoverableDelimits(xs[i], hmac, crc);
    }
    DeframeInvertsExactlyWhen(log, []);
    assert Flatten(log) + [] == Flatten(log) == From(stream, 0);
  }

  function Concatenated(ws: seq<Bytes>): (s: Bytes)
    ensures s == Flatten(ws)
  {
    if ws == [] then [] else ws[0] + Concatenated(ws[1..])
  }
}
