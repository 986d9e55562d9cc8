/** The STUN codec as it runs: a read loop over a received buffer, a write pointer with two length patches,
    and checks that edit the stored buffer and put it back. */
module StunBuffer {
  import opened Wire
  import opened Stun
  import opened StunCodec
  import opened StunTheorems

  // ---------------------------------------------------------------- reading

  method ParseMessage(buf: array<Byte>) returns (r: Option<Parsed>)
    ensures r == Parse(buf[..])
  {
    hide Accept;
    if buf.Length < 20 {
      return None;
    }
    var msgType, msgLength := Val(buf[..2]), Val(buf[2..4]);
    assert buf[..][..2] == buf[..2] && buf[..][2..4] == buf[2..4] && buf[..][4..20] == buf[4..20];
    if msgLength + 20 != buf.Length {
      return None;
    }
    var id: Octets16 := buf[4..20];
    var body := buf[20..];
    assert body == buf[..][20..];
    var at, size := 0, msgLength;
    var st := START;
    while size > 0
      invariant at + size == |body| == msgLength
      invariant ParseBody(id, body, at, st) == ParseBody(id, body, 0, START)
    {
      if size < 4 {
        return None;
      }
      var t, len := Val(body[at..at + 2]), Val(body[at + 2..at + 4]);
      var pad := PadLength(len);
      if len + pad + 4 > size {
        return None;
      }
      match Accept(st, id, t, body[at + 4..], len, at + 4) {
        case None => return None;
        case Some(st') => st := st';
      }
      at, size := at + 4 + len + pad, size - 4 - len - pad;
    }
    r := Some(Parsed(Message(ClassBits(msgType), msgType % 16, id, st.fields, st.peers), st.unknown, st.integrityLength));
  }

  // ---------------------------------------------------------------- writing

  /** The buffer with x written over it at position at. */
  function Splice(s: Bytes, at: nat, x: Bytes): (r: Bytes)
    requires at + |x| <= |s|
    ensures |r| == |s|
  {
    s[..at] + x + s[at + |x|..]
  }

  lemma SpliceOnward(s: Bytes, at: nat, x: Bytes, y: Bytes)
    requires at + |x| + |y| <= |s|
    ensures Splice(Splice(s, at, x), at + |x|, y) == Splice(s, at, x + y)
  {
    var once := Splice(s, at, x);
    assert once[..at + |x|] == s[..at] + x;
    assert once[at + |x| + |y|..] == s[at + |x| + |y|..];
  }

  lemma SpliceSame(s: Bytes, at: nat, n: nat)
    requires at + n <= |s|
    ensures Splice(s, at, s[at..at + n]) == s
  {
  }

  method PutBytes(buf: array<Byte>, at: nat, x: Bytes) returns (next: nat)
    requires at + |x| <= buf.Length
    modifies buf
    ensures next == at + |x| && buf[..] == Splice(old(buf[..]), at, x)
  {
    forall i | 0 <= i < |x| {
      buf[at + i] := x[i];
    }
    next := at + |x|;
  }

  method Put16(buf: array<Byte>, at: nat, v: nat) returns (next: nat)
    requires at + 2 <= buf.Length
    modifies buf
    ensures next == at + 2 && buf[..] == Splice(old(buf[..]), at, BE(2, v))
  {
    next := PutBytes(buf, at, BE(2, v));
  }

  predicate Blank(b: Bytes) {
    forall i :: 0 <= i < |b| ==> b[i] == 0
  }

  lemma SpliceTail(s: Bytes, at: nat, x: Bytes)
    requires at + |x| <= |s|
    ensures Splice(s, at, x)[at + |x|..] == s[at + |x|..]
  {
  }

  lemma BlankPart(s: Bytes, from: nat, i: nat, j: nat)
    requires from <= i <= j <= |s| && Blank(s[from..])
    ensures Blank(s[i..j])
  {
    forall k | 0 <= k < j - i ensures s[i..j][k] == 0 {
      assert s[from..][i - from + k] == s[i..j][k];
    }
  }

  lemma TailSlice(s: Bytes, s': Bytes, p: nat, n: nat)
    requires p + n <= |s| == |s'| && s[p..] == s'[p..]
    ensures s[p..p + n] == s'[p..p + n]
  {
    assert s[p..p + n] == s[p..][..n];
    assert s'[p..p + n] == s'[p..][..n];
  }

  /** Number, length and value; then either zeros or a skip over octets that stay as they were. */
  method PutAttribute(buf: array<Byte>, at: nat, number: nat, value: Bytes, zeroPad: bool) returns (next: nat, ghost pad: Bytes)
    requires at + 4 + |value| + PadLength(|value|) <= buf.Length
    modifies buf
    ensures |pad| == PadLength(|value|) && (zeroPad ==> pad == Zeros(|pad|))
    ensures next == at + 4 + |value| + |pad| <= buf.Length
    ensures !zeroPad ==> pad == old(buf[..])[at + 4 + |value|..next]
    ensures buf[..] == Splice(old(buf[..]), at, Frame(Raw(number, value, pad)))
  {
    hide BE, Splice, PadLength;
    ghost var start := buf[..];
    var p := Put16(buf, at, number);
    p := Put16(buf, p, |value|);
    SpliceOnward(start, at, BE(2, number), BE(2, |value|));
    p := PutBytes(buf, p, value);
    SpliceOnward(start, at, BE(2, number) + BE(2, |value|), value);
    var n := PadLength(|value|);
    if zeroPad {
      pad := Zeros(n);
      next := PutBytes(buf, p, Zeros(n));
    } else {
      pad := buf[..][p..p + n];
      next := p + n;
      SpliceTail(start, at, BE(2, number) + BE(2, |value|) + value);
      TailSlice(start, buf[..], p, n);
      SpliceSame(buf[..], p, n);
    }
    SpliceOnward(start, at, BE(2, number) + BE(2, |value|) + value, pad);
  }

  lemma PeersGrow(id: Octets16, peers: seq<Address>, i: nat)
    requires i < |peers|
    ensures PeerRaws(id, peers[..i + 1]) == PeerRaws(id, peers[..i]) + [PeerRaw(id, peers[i])]
  {
    PeerRawsConcat(id, peers[..i], [peers[i]]);
    assert peers[..i + 1] == peers[..i] + [peers[i]];
    assert PeerRaws(id, [peers[i]][1..]) == [];
  }

  lemma {:induction false} PeerRawsConcat(id: Octets16, a: seq<Address>, b: seq<Address>)
    ensures PeerRaws(id, a + b) == PeerRaws(id, a) + PeerRaws(id, b)
  {
    if a == [] {
      assert a + b == b;
    } else {
      assert (a + b)[0] == a[0] && (a + b)[1..] == a[1..] + b;
      PeerRawsConcat(id, a[1..], b);
    }
  }

  lemma {:induction false} JoinPrefixShorter(a: seq<Raw>, b: seq<Raw>)
    requires a <= b
    ensures |Join(a)| <= |Join(b)|
  {
    assert b == a + b[|a|..];
    JoinConcat(a, b[|a|..]);
  }

  /** What the first i peers print. */
  function PeersDone(id: Octets16, peers: seq<Address>, i: nat): Bytes
    requires i <= |peers|
  {
    Join(PeerRaws(id, peers[..i]))
  }

  lemma PeersStep(id: Octets16, peers: seq<Address>, i: nat)
    requires i < |peers|
    ensures PeersDone(id, peers, i + 1) == PeersDone(id, peers, i) + Frame(PeerRaw(id, peers[i]))
    ensures |PeersDone(id, peers, i + 1)| <= |Join(PeerRaws(id, peers))|
  {
    hide Frame, PeerRaw;
    var r := PeerRaw(id, peers[i]);
    PeersGrow(id, peers, i);
    JoinConcat(PeerRaws(id, peers[..i]), [r]);
    JoinOne(r);
    PeerRawsConcat(id, peers[..i + 1], peers[i + 1..]);
    assert peers[..i + 1] + peers[i + 1..] == peers;
    JoinPrefixShorter(PeerRaws(id, peers[..i + 1]), PeerRaws(id, peers));
  }

  lemma PeersEnds(id: Octets16, peers: seq<Address>, s: Bytes, at: nat)
    requires at <= |s|
    ensures PeersDone(id, peers, 0) == [] && PeersDone(id, peers, |peers|) == Join(PeerRaws(id, peers)) && Splice(s, at, []) == s
  {
    assert peers[..|peers|] == peers && peers[..0] == [];
  }

  method PutPeer(buf: array<Byte>, at: nat, id: Octets16, peer: Address) returns (next: nat)
    requires at + |Frame(PeerRaw(id, peer))| <= buf.Length
    modifies buf
    ensures next == at + |Frame(PeerRaw(id, peer))|
    ensures buf[..] == Splice(old(buf[..]), at, Frame(PeerRaw(id, peer)))
  {
    PeerFrame(id, peer);
    hide *;
    ghost var pad;
    next, pad := PutAttribute(buf, at, XOR_PEER_ADDRESS, AddressBytes(MaskAddress(peer, id)), true);
  }

  method PutPeers(buf: array<Byte>, at: nat, id: Octets16, peers: seq<Address>) returns (next: nat)
    requires at + |Join(PeerRaws(id, peers))| <= buf.Length
    modifies buf
    ensures next == at + |Join(PeerRaws(id, peers))|
    ensures buf[..] == Splice(old(buf[..]), at, Join(PeerRaws(id, peers)))
  {
    next := at;
    ghost var start := buf[..];
    hide *;
    PeersEnds(id, peers, start, at);
    for i := 0 to |peers|
      invariant |PeersDone(id, peers, i)| <= |Join(PeerRaws(id, peers))|
      invariant next == at + |PeersDone(id, peers, i)|
      invariant buf[..] == Splice(start, at, PeersDone(id, peers, i))
    {
      PeersStep(id, peers, i);
      next := PutPeer(buf, next, id, peers[i]);
      SpliceOnward(start, at, PeersDone(id, peers, i), Frame(PeerRaw(id, peers[i])));
    }
  }

  lemma PeerFrame(id: Octets16, peer: Address)
    ensures var v := AddressBytes(MaskAddress(peer, id));
            PeerRaw(id, peer) == Raw(XOR_PEER_ADDRESS, v, Zeros(PadLength(|v|)))
            && |Frame(PeerRaw(id, peer))| == 4 + |v| + PadLength(|v|)
  {
  }

  /** Everything the printer writes for one entry of its order. */
  method PutEntry(buf: array<Byte>, at: nat, m: Message, t: nat, ghost junk: Bytes) returns (next: nat, ghost junk': Bytes)
    requires WellTyped(m) && at + |Join(RawsFor(m, t, junk))| <= buf.Length
    modifies buf
    ensures t != UNKNOWN_ATTRIBUTE ==> junk' == junk
    ensures Blank(junk) && Blank(old(buf[..])[at..]) ==> Blank(junk')
    ensures next == at + |Join(RawsFor(m, t, junk'))| <= buf.Length
    ensures buf[..] == Splice(old(buf[..]), at, Join(RawsFor(m, t, junk')))
  {
    hide Frame, Payload, WellTyped;
    junk' := junk;
    if t == XOR_PEER_ADDRESS {
      next := PutPeers(buf, at, m.id, m.peers);
    } else if t in m.fields {
      FieldFrame(m, t, junk);
      var value := FieldValue(m, t);
      ghost var pad;
      next, pad := PutAttribute(buf, at, t, value, t != UNKNOWN_ATTRIBUTE);
      if t == UNKNOWN_ATTRIBUTE {
        junk' := pad;
        if Blank(old(buf[..])[at..]) {
          BlankPart(old(buf[..]), at, at + 4 + |value|, next);
        }
        assert pad[..|pad|] == pad;
      }
      FieldFrame(m, t, junk');
    } else {
      next := at;
      assert buf[..] == Splice(buf[..], at, []);
    }
  }

  function FieldValue(m: Message, t: nat): Bytes
    requires WellTyped(m) && t in m.fields
  {
    Payload(PrintKind(t).value, m.fields[t], m.id)
  }

  lemma FieldFrame(m: Message, t: nat, junk: Bytes)
    requires WellTyped(m) && t in m.fields && t != XOR_PEER_ADDRESS
    ensures var v := FieldValue(m, t);
            var r := Raw(t, v, Padding(t, |v|, junk));
            Join(RawsFor(m, t, junk)) == Frame(r) && |Frame(r)| == 4 + |v| + PadLength(|v|)
  {
    hide Payload, Frame;
    JoinOne(FieldRaw(m, t, junk));
  }

  lemma RawsGrow(m: Message, order: seq<nat>, i: nat, junk: Bytes)
    requires WellTyped(m) && i < |order|
    ensures Join(RawsOf(m, order[..i + 1], junk)) == Join(RawsOf(m, order[..i], junk)) + Join(RawsFor(m, order[i], junk))
  {
    assert order[..i + 1] == order[..i] + [order[i]] + [];
    RawsAround(m, order[..i], order[i], [], junk);
    hide RawsFor, WellTyped, Join;
    assert RawsFor(m, order[i], junk) + RawsOf(m, [], junk) == RawsFor(m, order[i], junk);
    JoinConcat(RawsOf(m, order[..i], junk), RawsFor(m, order[i], junk));
  }

  lemma RawsLength(m: Message, order: seq<nat>, i: nat, j1: Bytes, j2: Bytes)
    requires WellTyped(m) && i <= |order|
    ensures |Join(RawsOf(m, order[..i], j1))| <= |Join(RawsOf(m, order, j2))|
  {
    hide WellTyped;
    SameLength(m, order[..i], j1, j2);
    RawsOfConcat(m, order[..i], order[i..], j2);
    assert order[..i] + order[i..] == order;
    JoinPrefixShorter(RawsOf(m, order[..i], j2), RawsOf(m, order, j2));
  }

  lemma {:induction false} SameLength(m: Message, order: seq<nat>, j1: Bytes, j2: Bytes)
    requires WellTyped(m)
    ensures |Join(RawsOf(m, order, j1))| == |Join(RawsOf(m, order, j2))|
  {
    if order != [] {
      var t, rest := order[0], order[1..];
      SameLength(m, rest, j1, j2);
      JoinConcat(RawsFor(m, t, j1), RawsOf(m, rest, j1));
      JoinConcat(RawsFor(m, t, j2), RawsOf(m, rest, j2));
      if t != XOR_PEER_ADDRESS && t in m.fields {
        hide WellTyped, RawsFor, Frame, Payload;
        FieldFrame(m, t, j1);
        FieldFrame(m, t, j2);
      }
    }
  }

  lemma LengthPatch(s: Bytes, m: Message, was: nat, now: nat, x: Bytes)
    requires 20 + |x| <= |s|
    ensures Splice(Splice(s, 0, Header(m, was) + x), 2, BE(2, now)) == Splice(s, 0, Header(m, now) + x)
  {
    hide BE;
    var once := Splice(s, 0, Header(m, was) + x);
    assert once[..2] == BE(2, m.cls + m.verb);
    assert once[4..] == m.id + x + s[20 + |x|..];
  }

  method PutHeader(buf: array<Byte>, m: Message) returns (at: nat)
    requires 20 <= buf.Length
    modifies buf
    ensures at == 20 && buf[..] == Splice(old(buf[..]), 0, Header(m, 0))
  {
    hide BE;
    ghost var start := buf[..];
    at := Put16(buf, 0, m.cls + m.verb);
    at := Put16(buf, at, 0);
    SpliceOnward(start, 0, BE(2, m.cls + m.verb), BE(2, 0));
    at := PutBytes(buf, at, m.id);
    SpliceOnward(start, 0, BE(2, m.cls + m.verb) + BE(2, 0), m.id);
  }

  method PutAttributes(buf: array<Byte>, m: Message) returns (at: nat, ghost junk: Bytes)
    requires WellTyped(m) && 20 + |Attributes(m, [])| <= buf.Length
    modifies buf
    ensures at == 20 + |Attributes(m, junk)| <= buf.Length && |Attributes(m, junk)| == |Attributes(m, [])|
    ensures buf[..] == Splice(old(buf[..]), 0, Header(m, 0) + Attributes(m, junk))
    ensures Blank(old(buf[..])) ==> Blank(junk)
  {
    OrderIsComplete();
    hide Order, WellTyped, RawsFor, Join, Header, PrintKind, Ready, Padding, FieldRaw;
    var order := Order();
    ghost var start := buf[..];
    at := PutHeader(buf, m);
    junk := [];
    assert order[..0] == [] && RawsOf(m, [], junk) == [] && Join([]) == [] by { EmptyJoin(); }
    assert Header(m, 0) + [] == Header(m, 0);
    for i := 0 to |order|
      invariant at == 20 + |Join(RawsOf(m, order[..i], junk))| <= buf.Length
      invariant buf[..] == Splice(start, 0, Header(m, 0) + Join(RawsOf(m, order[..i], junk)))
      invariant Blank(start) ==> Blank(junk)
    {
      var t := order[i];
      ghost var done := Join(RawsOf(m, order[..i], junk));
      assert at + |Join(RawsFor(m, t, junk))| <= buf.Length by {
        RawsGrow(m, order, i, junk);
        RawsLength(m, order, i + 1, junk, []);
      }
      ghost var before := junk;
      SpliceTail(start, 0, Header(m, 0) + done);
      if Blank(start) {
        BlankPart(start, 0, at, |start|);
        assert start[at..|start|] == start[at..];
      }
      at, junk := PutEntry(buf, at, m, t, junk);
      assert done == Join(RawsOf(m, order[..i], junk)) by {
        if t == UNKNOWN_ATTRIBUTE {
          RawsIgnoreJunk(m, order[..i], before, junk);
        }
      }
      RawsGrow(m, order, i, junk);
      SpliceOnward(start, 0, Header(m, 0) + done, Join(RawsFor(m, t, junk)));
      Regroup(Header(m, 0), done, Join(RawsFor(m, t, junk)));
    }
    assert order[..|order|] == order;
    SameLength(m, order, junk, []);
  }

  lemma EmptyJoin()
    ensures Join([]) == []
  {
  }

  /** A further attribute without padding, after a header and what follows it. */
  method Append(buf: array<Byte>, at: nat, ghost start: Bytes, ghost h: Bytes, ghost x: Bytes, number: nat, value: Bytes)
    returns (next: nat)
    requires |start| == buf.Length && at == |h| + |x| && at + 4 + |value| <= buf.Length && |value| % 4 == 0
    requires buf[..] == Splice(start, 0, h + x)
    modifies buf
    ensures next == at + 4 + |value|
    ensures buf[..] == Splice(start, 0, h + (x + Frame(Raw(number, value, []))))
  {
    hide Frame, Splice;
    ghost var pad;
    next, pad := PutAttribute(buf, at, number, value, true);
    assert pad == [];
    ghost var f := Frame(Raw(number, value, []));
    SpliceOnward(start, 0, h + x, f);
    Regroup(h, x, f);
  }

  /** The integrity half of the printer: length patched for the hash, hash computed and written. */
  method PutIntegrity(buf: array<Byte>, at: nat, m: Message, key: Bytes, hmac: Hmac, ghost start: Bytes, ghost junk: Bytes)
    returns (next: nat)
    requires WellTyped(m) && |start| == buf.Length && at == 20 + |Attributes(m, junk)| <= buf.Length
    requires 20 + IntegrityEnd(m, junk) <= buf.Length
    requires buf[..] == Splice(start, 0, Header(m, 0) + Attributes(m, junk))
    modifies buf
    ensures next == 20 + IntegrityEnd(m, junk) == 20 + |Signed(m, key, junk, hmac)|
    ensures buf[..] == Splice(start, 0, Header(m, IntegrityEnd(m, junk)) + Signed(m, key, junk, hmac))
  {
    hide WellTyped, Header, Attributes, Frame, BE;
    ghost var a := Attributes(m, junk);
    var msgSize := at - 20;
    if MESSAGE_INTEGRITY in m.fields {
      msgSize := msgSize + 24;
    }
    var _ := Put16(buf, 2, msgSize);
    LengthPatch(start, m, 0, msgSize, a);
    next := at;
    if MESSAGE_INTEGRITY in m.fields {
      assert buf[..at] == Header(m, msgSize) + a;
      var mac := hmac(key, buf[..at]);
      next := Append(buf, at, start, Header(m, msgSize), a, MESSAGE_INTEGRITY, mac);
    } else {
      assert a + [] == a;
    }
  }

  /** stunEncodeMessage: the buffer's front becomes the encoding of the message, where junk is what the buffer
      held at the octets the printer skips; nothing after it changes. */
  method EncodeMessage(buf: array<Byte>, m: Message, key: Bytes, hmac: Hmac, crc: Crc) returns (size: nat, ghost junk: Bytes)
    requires WellTyped(m) && 20 + BodyLength(m, []) <= buf.Length
    modifies buf
    ensures size == |Encode(m, key, junk, hmac, crc)| <= buf.Length
    ensures buf[..] == Splice(old(buf[..]), 0, Encode(m, key, junk, hmac, crc))
    ensures Blank(old(buf[..])) ==> Encode(m, key, junk, hmac, crc) == Encode(m, key, [], hmac, crc)
  {
    hide WellTyped, Header, Attributes, Frame, BE, Signed;
    ghost var start := buf[..];
    var at;
    at, junk := PutAttributes(buf, m);
    at := PutIntegrity(buf, at, m, key, hmac, start, junk);
    ghost var signed := Signed(m, key, junk, hmac);
    var msgSize := at - 20;
    if FINGERPRINT in m.fields {
      msgSize := msgSize + 8;
    }
    var _ := Put16(buf, 2, msgSize);
    LengthPatch(start, m, IntegrityEnd(m, junk), msgSize, signed);
    if FINGERPRINT in m.fields {
      assert buf[..at] == Header(m, msgSize) + signed;
      var fingerprint := XorU32(crc(buf[..at]), CRC_FINAL_XOR);
      at := Append(buf, at, start, Header(m, msgSize), signed, FINGERPRINT, BE(4, fingerprint));
    } else {
      assert signed + [] == signed;
    }
    size := at;
    if Blank(start) {
      BlankJunk(m, key, junk, hmac, crc);
    }
  }

  lemma BlankPadding(t: nat, len: nat, junk: Bytes)
    requires Blank(junk)
    ensures Padding(t, len, junk) == Padding(t, len, [])
  {
  }

  lemma {:induction false} BlankRaws(m: Message, order: seq<nat>, junk: Bytes)
    requires WellTyped(m) && Blank(junk)
    ensures RawsOf(m, order, junk) == RawsOf(m, order, [])
  {
    if order != [] {
      hide WellTyped, Payload;
      if order[0] in m.fields {
        BlankPadding(order[0], |FieldValue(m, order[0])|, junk);
      }
      BlankRaws(m, order[1..], junk);
    }
  }

  lemma BlankJunk(m: Message, key: Bytes, junk: Bytes, hmac: Hmac, crc: Crc)
    requires WellTyped(m) && Blank(junk)
    ensures Encode(m, key, junk, hmac, crc) == Encode(m, key, [], hmac, crc)
  {
    hide WellTyped, RawsOf, Encode, Join;
    BlankRaws(m, Order(), junk);
    EncodeFromAttributes(m, key, junk, [], hmac, crc);
  }

  /** How the servers print: into a new buffer, which allocateBuffer clears, cut to the size written.
      The octets are a function of the message alone. */
  method PrintMessage(m: Message, key: Bytes, hmac: Hmac, crc: Crc, bufferSize: nat) returns (octets: Bytes)
    requires WellTyped(m) && 20 + BodyLength(m, []) <= bufferSize
    ensures octets == Encode(m, key, [], hmac, crc)
  {
    hide WellTyped, Encode, BodyLength;
    var buf := new Byte[bufferSize](_ => 0);
    ghost var start := buf[..];
    var size, _ := EncodeMessage(buf, m, key, hmac, crc);
    octets := buf[..size];
    SpliceFront(start, octets, Encode(m, key, [], hmac, crc), buf[..]);
  }

  lemma SpliceFront(s: Bytes, front: Bytes, x: Bytes, r: Bytes)
    requires |x| <= |s| && r == Splice(s, 0, x) && front == r[..|x|]
    ensures front == x
  {
  }

  // ---------------------------------------------------------------- checking

  /** What the loop knows about the hash it has read, if any. */
  predicate IntegritySound(st: State, at: nat) {
    MESSAGE_INTEGRITY in st.fields ==>
      var v := st.fields[MESSAGE_INTEGRITY];
      v.Text? && |v.text| == 20 && 24 <= st.integrityLength <= at
  }

  lemma AcceptKeepsIntegrity(st: State, id: Octets16, t: nat, mem: Bytes, len: nat, at: nat)
    requires len <= |mem| && IntegritySound(st, at) && at >= 4 && Accept(st, id, t, mem, len, at).Some?
    ensures IntegritySound(Accept(st, id, t, mem, len, at).value, at + len)
  {
    hide ReadAddress;
    if Slot(t) == MESSAGE_INTEGRITY {
      assert KindOf(Slot(t)) == Some(Hash);
    } else if KindOf(Slot(t)).Some? {
      assert !KindOf(Slot(t)).value.Hash?;
      hide KindOf;
    }
  }

  lemma IntegrityLater(st: State, at: nat, later: nat)
    requires IntegritySound(st, at) && at <= later
    ensures IntegritySound(st, later)
  {
  }

  lemma {:induction false} ParseKeepsIntegrity(id: Octets16, body: Bytes, at: nat, st: State)
    requires at <= |body| && IntegritySound(st, at) && ParseBody(id, body, at, st).Some?
    ensures IntegritySound(ParseBody(id, body, at, st).value, |body|)
    decreases |body| - at
  {
    if at < |body| {
      hide Accept, Val, IntegritySound, PadLength;
      var t, len := Val(body[at..at + 2]), Val(body[at + 2..at + 4]);
      var next := at + 4 + len + PadLength(len);
      var st' := Accept(st, id, t, body[at + 4..], len, at + 4).value;
      IntegrityLater(st, at, at + 4);
      AcceptKeepsIntegrity(st, id, t, body[at + 4..], len, at + 4);
      IntegrityLater(st', at + 4 + len, next);
      ParseKeepsIntegrity(id, body, next, st');
    }
  }

  lemma ParsedIntegrity(buf: Bytes)
    requires Parse(buf).Some? && MESSAGE_INTEGRITY in Parse(buf).value.msg.fields
    ensures var p := Parse(buf).value;
            p.msg.fields[MESSAGE_INTEGRITY].Text? && 24 <= p.integrityLength <= |buf| - 20
  {
    ParseKeepsIntegrity(buf[4..20], buf[20..], 0, START);
  }

  /** checkMessageIntegrity patches the stored length, hashes, and restores it: the verdict is the pure one and
      the buffer ends as it began. */
  method CheckMessageIntegrity(buf: array<Byte>, p: Parsed, key: Bytes, hmac: Hmac) returns (ok: bool)
    requires Parse(buf[..]) == Some(p)
    modifies buf
    ensures MESSAGE_INTEGRITY in p.msg.fields ==>
              p.msg.fields[MESSAGE_INTEGRITY].Text? && 24 <= p.integrityLength <= buf.Length - 20
    ensures ok <==> IntegrityHolds(p, buf[..], key, hmac)
    ensures buf[..] == old(buf[..])
  {
    if MESSAGE_INTEGRITY !in p.msg.fields {
      return true;
    }
    ParsedIntegrity(buf[..]);
    hide Parse;
    ghost var was := buf[..];
    var original := buf[2..4];
    var _ := Put16(buf, 2, p.integrityLength);
    assert buf[..] == was[..2] + BE(2, p.integrityLength) + was[4..];
    var size := p.integrityLength - 24 + 20;
    assert buf[..size] == buf[..][..size];
    var hash := hmac(key, buf[..size]);
    var _ := PutBytes(buf, 2, original);
    assert buf[..] == was;
    ok := p.msg.fields[MESSAGE_INTEGRITY].text == hash;
  }

  method CheckFingerprint(buf: array<Byte>, p: Parsed, crc: Crc) returns (ok: bool)
    requires Parse(buf[..]) == Some(p)
    ensures buf.Length >= 8 && (ok <==> FingerprintHolds(p, buf[..], crc))
  {
    if FINGERPRINT !in p.msg.fields {
      return true;
    }
    hide ParseBody;
    assert buf[..][..buf.Length - 8] == buf[..buf.Length - 8];
    var value := XorU32(crc(buf[..buf.Length - 8]), CRC_FINAL_XOR);
    ok := p.msg.fields[FINGERPRINT] == Number(value);
  }
}
