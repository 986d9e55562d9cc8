/** Whole STUN messages: the attribute loop of the parser, the printer with its two length patches,
    and the theorems that tie them together. */
module StunCodec {
  import opened Wire
  import opened Stun

  type Hmac = (Bytes, Bytes) -> Octets20   // key, input
  type Crc = Bytes -> U32

  // ---------------------------------------------------------------- attributes on the wire

  /** One attribute as it lies in a buffer: number, value octets, padding octets. */
  datatype Raw = Raw(number: nat, value: Bytes, pad: Bytes)

  function PadLength(n: nat): nat {
    if n % 4 == 0 then 0 else 4 - n % 4
  }

  predicate WellFramed(r: Raw) {
    r.number < 0x1_0000 && |r.value| < 0x1_0000 && |r.pad| == PadLength(|r.value|)
  }

  function Frame(r: Raw): (b: Bytes)
    ensures |b| == 4 + |r.value| + |r.pad|
  {
    BE(2, r.number) + BE(2, |r.value|) + r.value + r.pad
  }

  function Join(rs: seq<Raw>): Bytes {
    if rs == [] then [] else Frame(rs[0]) + Join(rs[1..])
  }

  lemma {:induction false} JoinConcat(a: seq<Raw>, b: seq<Raw>)
    ensures Join(a + b) == Join(a) + Join(b)
  {
    hide Frame;
    if a == [] {
      assert a + b == b && [] + Join(b) == Join(b);
    } else {
      JoinConcat(a[1..], b);
      assert (a + b)[0] == a[0] && (a + b)[1..] == a[1..] + b;
      Regroup(Frame(a[0]), Join(a[1..]), Join(b));
    }
  }

  // ---------------------------------------------------------------- parsing

  /** Everything the attribute loop accumulates. */
  datatype State = State(fields: map<nat, Value>, peers: seq<Address>, unknown: seq<nat>, integrityLength: nat)

  const START := State(map[], [], [], 0)

  /** The old XOR-MAPPED-ADDRESS number fills the same field as the new one. */
  function Slot(t: nat): nat {
    if t == XOR_MAPPED_ADDRESS_OLD then XOR_MAPPED_ADDRESS else t
  }

  /** One turn of the attribute loop, on the value of length len that starts mem, at offset at of the body. */
  function Accept(st: State, id: Octets16, t: nat, mem: Bytes, len: nat, at: nat): Option<State>
    requires len <= |mem|
  {
    if t == XOR_PEER_ADDRESS then
      if |st.peers| >= MAX_XOR_PEER_ADDRESSES then Some(st)
      else match ReadValue(Masked, mem, len, id)
        case None => None
        case Some(v) => Some(st.(peers := st.peers + [v.address]))
    else match KindOf(Slot(t))
      case Some(k) =>
        if Slot(t) in st.fields then Some(st)
        else (match ReadValue(k, mem, len, id)
          case None => None
          case Some(v) =>
            var st' := st.(fields := st.fields[Slot(t) := v]);
            Some(if k.Hash? then st'.(integrityLength := at + len) else st'))
      case None =>
        if t <= 0x7FFF && |st.unknown| < MAX_UNKNOWN_ATTRIBUTES then Some(st.(unknown := st.unknown + [t]))
        else Some(st)
  }

  function ParseBody(id: Octets16, body: Bytes, at: nat, st: State): Option<State>
    requires at <= |body|
    decreases |body| - at
  {
    var size := |body| - at;
    if size == 0 then Some(st)
    else if size < 4 then None
    else
      var t, len := Val(body[at..at + 2]), Val(body[at + 2..at + 4]);
      if len + PadLength(len) + 4 > size then None
      else match Accept(st, id, t, body[at + 4..], len, at + 4)
        case None => None
        case Some(st') => ParseBody(id, body, at + 4 + len + PadLength(len), st')
  }

  function ClassBits(msgType: nat): nat {
    msgType / 16 % 2 * 16 + msgType / 256 % 2 * 256
  }

  function Parse(buf: Bytes): Option<Parsed> {
    if |buf| < 20 || Val(buf[2..4]) + 20 != |buf| then None
    else
      var msgType := Val(buf[..2]);
      var id: Octets16 := buf[4..20];
      match ParseBody(id, buf[20..], 0, START)
      case None => None
      case Some(st) =>
        Some(Parsed(Message(ClassBits(msgType), msgType % 16, id, st.fields, st.peers), st.unknown, st.integrityLength))
  }

  // ---------------------------------------------------------------- the loop reads a tiling

  /** The value can be read from its own octets: not an IPv6 address squeezed into eight. */
  predicate SelfContained(r: Raw) {
    (r.number == XOR_PEER_ADDRESS || KindOf(Slot(r.number)) in {Some(Plain), Some(Masked)}) ==>
      !(|r.value| == 8 && r.value[1] == 2)
  }

  function AcceptRaw(st: State, id: Octets16, r: Raw, at: nat): Option<State> {
    Accept(st, id, r.number, r.value, |r.value|, at + 4)
  }

  function AcceptAll(st: State, id: Octets16, rs: seq<Raw>, at: nat): Option<State>
    decreases |rs|
  {
    if rs == [] then Some(st)
    else match AcceptRaw(st, id, rs[0], at)
      case None => None
      case Some(st') => AcceptAll(st', id, rs[1..], at + |Frame(rs[0])|)
  }

  lemma {:induction false} AcceptAllConcat(st: State, id: Octets16, a: seq<Raw>, b: seq<Raw>, at: nat)
    ensures AcceptAll(st, id, a + b, at) ==
            match AcceptAll(st, id, a, at)
            case None => None
            case Some(st') => AcceptAll(st', id, b, at + |Join(a)|)
    decreases |a|
  {
    hide AcceptRaw, Frame;
    if a == [] {
      assert a + b == b;
    } else {
      assert (a + b)[0] == a[0] && (a + b)[1..] == a[1..] + b;
      match AcceptRaw(st, id, a[0], at)
      case None =>
      case Some(st') => AcceptAllConcat(st', id, a[1..], b, at + |Frame(a[0])|);
    }
  }

  lemma ReadAddressIgnoresRest(value: Bytes, more: Bytes)
    requires !(|value| == 8 && value[1] == 2)
    ensures ReadAddress(value + more, |value|) == ReadAddress(value, |value|)
  {
    var mem := value + more;
    if |value| == 8 || |value| == 20 {
      assert At(mem, 1) == At(value, 1);
      assert mem[2..4] == value[2..4] && mem[4..8] == value[4..8];
      if |value| == 20 {
        assert mem[4..20] == value[4..20];
      }
    }
  }

  lemma ReadValueIgnoresRest(k: Kind, value: Bytes, more: Bytes, id: Octets16)
    requires k in {Plain, Masked} ==> !(|value| == 8 && value[1] == 2)
    ensures ReadValue(k, value + more, |value|, id) == ReadValue(k, value, |value|, id)
  {
    var mem := value + more;
    SplitConcat(value, more);
    assert value[..|value|] == value;
    match k
    case Plain => ReadAddressIgnoresRest(value, more);
    case Masked => ReadAddressIgnoresRest(value, more);
    case Error =>
      if |value| >= 4 {
        assert mem[4..|value|] == value[4..|value|];
      }
    case _ =>
  }

  lemma AcceptIgnoresRest(st: State, id: Octets16, r: Raw, more: Bytes, at: nat)
    requires SelfContained(r)
    ensures Accept(st, id, r.number, r.value + more, |r.value|, at + 4) == AcceptRaw(st, id, r, at)
  {
    var k := if r.number == XOR_PEER_ADDRESS then Some(Masked) else KindOf(Slot(r.number));
    if k.Some? {
      ReadValueIgnoresRest(k.value, r.value, more, id);
    }
  }

  lemma FrameFields(r: Raw, before: Bytes, after: Bytes)
    requires WellFramed(r)
    ensures var b := before + (Frame(r) + after); var at := |before|;
            && Val(b[at..at + 2]) == r.number
            && Val(b[at + 2..at + 4]) == |r.value|
            && b[at + 4..] == r.value + (r.pad + after)
            && b[at + 4 + |r.value| + |r.pad|..] == after
  {
    PowersOf256();
    ReadBack(2, r.number);
    ReadBack(2, |r.value|);
    hide BE, Val;
    Pieces(before, BE(2, r.number), BE(2, |r.value|), r.value, r.pad, after);
  }

  lemma ParseOne(id: Octets16, before: Bytes, r: Raw, after: Bytes, st: State)
    requires WellFramed(r) && SelfContained(r)
    ensures var body := before + (Frame(r) + after);
            ParseBody(id, body, |before|, st) ==
            match AcceptRaw(st, id, r, |before|)
            case None => None
            case Some(st') => ParseBody(id, body, |before| + |Frame(r)|, st')
  {
    FrameFields(r, before, after);
    AcceptIgnoresRest(st, id, r, r.pad + after, |before|);
    hide Accept, Frame, Val, SelfContained;
  }

  /** Parsing a body that is a concatenation of framed attributes is folding over those attributes. */
  lemma {:induction false} ParseJoin(id: Octets16, before: Bytes, rs: seq<Raw>, st: State)
    requires forall r :: r in rs ==> WellFramed(r) && SelfContained(r)
    ensures ParseBody(id, before + Join(rs), |before|, st) == AcceptAll(st, id, rs, |before|)
    decreases |rs|
  {
    hide Accept, ReadValue, Frame, Val;
    if rs != [] {
      var r, rest := rs[0], Join(rs[1..]);
      ParseOne(id, before, r, rest, st);
      var next := AcceptRaw(st, id, r, |before|);
      if next.Some? {
        ParseJoin(id, before + Frame(r), rs[1..], next.value);
        assert before + (Frame(r) + rest) == (before + Frame(r)) + rest;
      }
    }
  }

  lemma FrameOfSlice(body: Bytes, at: nat, len: nat, next: nat)
    requires at + 4 <= |body| && len == Val(body[at + 2..at + 4]) && next == at + 4 + len + PadLength(len) <= |body|
    ensures var r := Raw(Val(body[at..at + 2]), body[at + 4..at + 4 + len], body[at + 4 + len..next]);
            WellFramed(r) && Frame(r) == body[at..next]
  {
    PowersOf256();
    BEOfVal(body[at..at + 2]);
    BEOfVal(body[at + 2..at + 4]);
    hide Val, BE;
    var a, b, c, d := body[at..at + 2], body[at + 2..at + 4], body[at + 4..at + 4 + len], body[at + 4 + len..next];
    assert a + b + c + d == body[at..next];
  }

  /** Every accepted body is such a concatenation. */
  lemma {:induction false} AcceptedBodyTiles(id: Octets16, body: Bytes, at: nat, st: State) returns (rs: seq<Raw>)
    requires at <= |body| && ParseBody(id, body, at, st).Some?
    ensures body[at..] == Join(rs) && forall r :: r in rs ==> WellFramed(r)
    decreases |body| - at
  {
    hide Accept, Val, Frame, WellFramed;
    if at == |body| {
      rs := [];
    } else {
      var t, len := Val(body[at..at + 2]), Val(body[at + 2..at + 4]);
      var next := at + 4 + len + PadLength(len);
      FrameOfSlice(body, at, len, next);
      var r := Raw(t, body[at + 4..at + 4 + len], body[at + 4 + len..next]);
      var st' := Accept(st, id, t, body[at + 4..], len, at + 4).value;
      var tail := AcceptedBodyTiles(id, body, next, st');
      rs := [r] + tail;
      assert rs[1..] == tail && body[at..] == body[at..next] + body[next..];
    }
  }

  // ---------------------------------------------------------------- printing

  predicate WellTyped(m: Message) {
    && m.cls in {0x000, 0x010, 0x100, 0x110} && m.verb < 16
    && |m.peers| <= MAX_XOR_PEER_ADDRESSES
    && forall t :: t in m.fields ==> PrintKind(t).Some? && Typed(PrintKind(t).value, m.fields[t])
  }

  /** Padding is zeros, except after UNKNOWN-ATTRIBUTES, where the printer skips over whatever the buffer held. */
  function Padding(t: nat, len: nat, junk: Bytes): (p: Bytes)
    ensures |p| == PadLength(len)
  {
    if t == UNKNOWN_ATTRIBUTE && PadLength(len) <= |junk| then junk[..PadLength(len)] else Zeros(PadLength(len))
  }

  function FieldRaw(m: Message, t: nat, junk: Bytes): Raw
    requires WellTyped(m) && t in m.fields
  {
    var p := Payload(PrintKind(t).value, m.fields[t], m.id);
    Raw(t, p, Padding(t, |p|, junk))
  }

  function PeerRaw(id: Octets16, peer: Address): Raw {
    Raw(XOR_PEER_ADDRESS, Payload(Masked, AddressValue(peer), id), [])
  }

  function PeerRaws(id: Octets16, peers: seq<Address>): seq<Raw> {
    if peers == [] then []
    else [PeerRaw(id, peers[0])] + PeerRaws(id, peers[1..])
  }

  function RawsFor(m: Message, t: nat, junk: Bytes): seq<Raw>
    requires WellTyped(m)
  {
    if t == XOR_PEER_ADDRESS then PeerRaws(m.id, m.peers)
    else if t in m.fields then [FieldRaw(m, t, junk)]
    else []
  }

  function RawsOf(m: Message, order: seq<nat>, junk: Bytes): seq<Raw>
    requires WellTyped(m)
  {
    if order == [] then [] else RawsFor(m, order[0], junk) + RawsOf(m, order[1..], junk)
  }

  function Header(m: Message, length: nat): (h: Bytes)
    ensures |h| == 20
  {
    BE(2, m.cls + m.verb) + BE(2, length) + m.id
  }

  function Attributes(m: Message, junk: Bytes): Bytes
    requires WellTyped(m)
  {
    Join(RawsOf(m, Order(), junk))
  }

  /** Body length in octets: the attributes, then 24 for MESSAGE-INTEGRITY and 8 for FINGERPRINT if present. */
  function IntegrityEnd(m: Message, junk: Bytes): nat
    requires WellTyped(m)
  {
    |Attributes(m, junk)| + if MESSAGE_INTEGRITY in m.fields then 24 else 0
  }

  function BodyLength(m: Message, junk: Bytes): nat
    requires WellTyped(m)
  {
    IntegrityEnd(m, junk) + if FINGERPRINT in m.fields then 8 else 0
  }

  function IntegrityRaw(mac: Octets20): Raw {
    Raw(MESSAGE_INTEGRITY, mac, [])
  }

  function FingerprintRaw(fp: U32): Raw {
    Raw(FINGERPRINT, BE(4, fp), [])
  }

  /** The keyed hash covers header and attributes, with a header length that already counts itself. */
  function Mac(m: Message, key: Bytes, junk: Bytes, hmac: Hmac): Octets20
    requires WellTyped(m)
  {
    hmac(key, Header(m, IntegrityEnd(m, junk)) + Attributes(m, junk))
  }

  function Signed(m: Message, key: Bytes, junk: Bytes, hmac: Hmac): Bytes
    requires WellTyped(m)
  {
    Attributes(m, junk) + if MESSAGE_INTEGRITY in m.fields then Frame(IntegrityRaw(Mac(m, key, junk, hmac))) else []
  }

  /** The checksum covers everything before it, with the final header length. */
  function Checksum(m: Message, key: Bytes, junk: Bytes, hmac: Hmac, crc: Crc): U32
    requires WellTyped(m)
  {
    XorU32(crc(Header(m, BodyLength(m, junk)) + Signed(m, key, junk, hmac)), CRC_FINAL_XOR)
  }

  function Encode(m: Message, key: Bytes, junk: Bytes, hmac: Hmac, crc: Crc): Bytes
    requires WellTyped(m)
  {
    Header(m, BodyLength(m, junk)) + (Signed(m, key, junk, hmac) +
      if FINGERPRINT in m.fields then Frame(FingerprintRaw(Checksum(m, key, junk, hmac, crc))) else [])
  }

  // ---------------------------------------------------------------- round trip

  predicate ReasonFits(m: Message) {
    ERROR_CODE in m.fields && m.fields[ERROR_CODE].ErrorValue? ==> |m.fields[ERROR_CODE].reason| <= MAX_REASON
  }

  /** The state after the loop has seen everything the printer writes for one entry of its order. */
  function Absorb(st: State, m: Message, t: nat): State
    requires WellTyped(m)
  {
    if t == XOR_PEER_ADDRESS then st.(peers := st.peers + m.peers)
    else if t !in m.fields then st
    else if t == REQUESTED_ADDRESS_FAMILY then st.(unknown := st.unknown + [t])
    else st.(fields := st.fields[t := Normal(PrintKind(t).value, m.fields[t])])
  }

  function AbsorbAll(st: State, m: Message, order: seq<nat>): State
    requires WellTyped(m)
    decreases |order|
  {
    if order == [] then st else AbsorbAll(Absorb(st, m, order[0]), m, order[1..])
  }

  predicate Distinct(order: seq<nat>) {
    forall i, j :: 0 <= i < j < |order| ==> order[i] != order[j]
  }

  predicate Ready(st: State, order: seq<nat>) {
    && (forall t :: t in order ==> t !in st.fields && t !in {MESSAGE_INTEGRITY, XOR_MAPPED_ADDRESS_OLD})
    && (XOR_PEER_ADDRESS in order ==> st.peers == [])
    && (REQUESTED_ADDRESS_FAMILY in order ==> st.unknown == [])
  }

  lemma AcceptPeer(st: State, id: Octets16, peer: Address, at: nat)
    requires |st.peers| < MAX_XOR_PEER_ADDRESSES
    ensures AcceptRaw(st, id, PeerRaw(id, peer), at) == Some(st.(peers := st.peers + [peer]))
  {
    var r := PeerRaw(id, peer);
    ValueReadBack(Masked, AddressValue(peer), id, []);
    assert r.value + [] == r.value;
  }

  lemma {:induction false} AcceptPeers(st: State, id: Octets16, peers: seq<Address>, at: nat)
    requires |st.peers| + |peers| <= MAX_XOR_PEER_ADDRESSES
    ensures AcceptAll(st, id, PeerRaws(id, peers), at) == Some(st.(peers := st.peers + peers))
    decreases |peers|
  {
    hide AcceptRaw, Payload, Frame;
    if peers == [] {
      assert st.peers + peers == st.peers;
    } else {
      var r := PeerRaw(id, peers[0]);
      AcceptPeer(st, id, peers[0], at);
      var st' := st.(peers := st.peers + [peers[0]]);
      assert PeerRaws(id, peers) == [r] + PeerRaws(id, peers[1..]);
      AcceptPeers(st', id, peers[1..], at + |Frame(r)|);
      assert st'.peers + peers[1..] == st.peers + peers;
    }
  }

  lemma AcceptField(st: State, m: Message, t: nat, junk: Bytes, at: nat)
    requires WellTyped(m) && (t == ERROR_CODE ==> ReasonFits(m)) && t in m.fields && Ready(st, [t])
    ensures AcceptRaw(st, m.id, FieldRaw(m, t, junk), at) == Some(Absorb(st, m, t))
  {
    var k, r := PrintKind(t).value, FieldRaw(m, t, junk);
    assert t in [t];
    ValueReadBack(k, m.fields[t], m.id, []);
    assert Payload(k, m.fields[t], m.id) + [] == r.value;
  }

  lemma AcceptEntry(st: State, m: Message, t: nat, junk: Bytes, at: nat)
    requires WellTyped(m) && (t == ERROR_CODE ==> ReasonFits(m)) && Ready(st, [t])
    ensures AcceptAll(st, m.id, RawsFor(m, t, junk), at) == Some(Absorb(st, m, t))
  {
    if t == XOR_PEER_ADDRESS {
      assert t in [t];
      AcceptPeers(st, m.id, m.peers, at);
    } else if t in m.fields {
      hide AcceptRaw;
      AcceptField(st, m, t, junk, at);
      assert RawsFor(m, t, junk)[1..] == [];
    }
  }

  lemma ReadyStep(st: State, m: Message, order: seq<nat>)
    requires WellTyped(m) && Distinct(order) && Ready(st, order) && order != []
    ensures Ready(st, [order[0]]) && Ready(Absorb(st, m, order[0]), order[1..]) && Distinct(order[1..])
  {
    hide Normal, PrintKind, Typed;
    var t, rest := order[0], order[1..];
    assert forall x :: x in [t] ==> x == t && x in order;
    forall x | x in rest ensures x in order && x != t {
      var i :| 0 <= i < |rest| && rest[i] == x;
      assert order[i + 1] == x;
    }
  }

  lemma {:induction false} AcceptOrder(st: State, m: Message, order: seq<nat>, junk: Bytes, at: nat)
    requires WellTyped(m) && (ERROR_CODE in order ==> ReasonFits(m)) && Distinct(order) && Ready(st, order)
    ensures AcceptAll(st, m.id, RawsOf(m, order, junk), at) == Some(AbsorbAll(st, m, order))
    decreases |order|
  {
    hide AcceptRaw, WellTyped, Ready, Distinct, Absorb, RawsFor, Join, ReasonFits;
    if order != [] {
      var t, rest := order[0], order[1..];
      ReadyStep(st, m, order);
      AcceptEntry(st, m, t, junk, at);
      AcceptAllConcat(st, m.id, RawsFor(m, t, junk), RawsOf(m, rest, junk), at);
      AcceptOrder(Absorb(st, m, t), m, rest, junk, at + |Join(RawsFor(m, t, junk))|);
    }
  }

  function NormalFields(m: Message, order: seq<nat>): map<nat, Value>
    requires WellTyped(m)
  {
    map t | t in m.fields && t in order && t != REQUESTED_ADDRESS_FAMILY && t != XOR_PEER_ADDRESS ::
      Normal(PrintKind(t).value, m.fields[t])
  }

  lemma AbsorbField(st: State, m: Message, t: nat, rest: seq<nat>)
    requires WellTyped(m)
    ensures Absorb(st, m, t).fields + NormalFields(m, rest) == st.fields + NormalFields(m, [t] + rest)
  {
    hide Normal, PrintKind, Typed;
    assert forall x :: x in [t] + rest <==> x == t || x in rest;
  }

  lemma {:induction false} AbsorbAllFields(st: State, m: Message, order: seq<nat>)
    requires WellTyped(m)
    ensures AbsorbAll(st, m, order).fields == st.fields + NormalFields(m, order)
    decreases |order|
  {
    if order == [] {
      assert NormalFields(m, order) == map[];
      assert st.fields + map[] == st.fields;
    } else {
      hide WellTyped, NormalFields, Absorb;
      var t, rest := order[0], order[1..];
      AbsorbAllFields(Absorb(st, m, t), m, rest);
      AbsorbField(st, m, t, rest);
      assert [t] + rest == order;
    }
  }

  lemma {:induction false} AbsorbAllLists(st: State, m: Message, order: seq<nat>)
    requires WellTyped(m) && Distinct(order)
    ensures var st' := AbsorbAll(st, m, order);
            && st'.peers == st.peers + (if XOR_PEER_ADDRESS in order then m.peers else [])
            && st'.unknown == st.unknown + (if REQUESTED_ADDRESS_FAMILY in order && REQUESTED_ADDRESS_FAMILY in m.fields
                                            then [REQUESTED_ADDRESS_FAMILY] else [])
            && st'.integrityLength == st.integrityLength
    decreases |order|
  {
    if order != [] {
      hide Normal, PrintKind, Typed;
      var t, rest := order[0], order[1..];
      var st' := Absorb(st, m, t);
      AbsorbAllLists(st', m, rest);
      assert forall x :: x in order <==> x == t || x in rest;
      assert t !in rest;
      assert st'.peers + [] == st'.peers && st'.unknown + [] == st'.unknown;
    }
  }

  function OrderRank(t: nat): nat {
    match t
    case 0x01 => 0 case 0x02 => 1 case 0x03 => 2 case 0x04 => 3 case 0x05 => 4 case 0x06 => 5 case 0x07 => 6
    case 0x09 => 7 case 0x0A => 8 case 0x0B => 9 case 0x14 => 10 case 0x15 => 11 case 0x20 => 12
    case 0x8022 => 13 case 0x8023 => 14 case 0x8050 => 15 case 0x0C => 16 case 0x0D => 17 case 0x10 => 18
    case 0x12 => 19 case 0x13 => 20 case 0x16 => 21 case 0x18 => 22 case 0x19 => 23 case 0x1A => 24
    case 0x22 => 25 case 0x23 => 26 case 0x17 => 27 case 0x24 => 28 case 0x25 => 29 case 0x8029 => 30
    case 0x802A => 31 case _ => 32
  }

  lemma RankOfOrder(i: nat)
    requires i < |Order()|
    ensures OrderRank(Order()[i]) == i && Order()[i] < 0x1_0000
    ensures Order()[i] !in {MESSAGE_INTEGRITY, XOR_MAPPED_ADDRESS_OLD, FINGERPRINT}
  {
  }

  /** The printing order names every printable attribute once; the two trailing ones are separate. */
  lemma OrderIsComplete()
    ensures CompleteOrder(Order())
    ensures forall t :: t in Order() ==> t < 0x1_0000
  {
    forall i, j | 0 <= i < j < |Order()| ensures Order()[i] != Order()[j] {
      RankOfOrder(i);
      RankOfOrder(j);
    }
    forall t | t in Order()
      ensures t < 0x1_0000 && t !in {MESSAGE_INTEGRITY, XOR_MAPPED_ADDRESS_OLD, FINGERPRINT}
    {
      var i :| 0 <= i < |Order()| && Order()[i] == t;
      RankOfOrder(i);
    }
  }

  lemma {:induction false} FrameWithinJoin(rs: seq<Raw>, r: Raw)
    requires r in rs
    ensures |Frame(r)| <= |Join(rs)|
  {
    if r != rs[0] {
      FrameWithinJoin(rs[1..], r);
    }
  }

  predicate Framable(rs: seq<Raw>) {
    forall r :: r in rs ==> r.number < 0x1_0000 && |r.pad| == PadLength(|r.value|) && SelfContained(r)
  }

  lemma FieldFramable(m: Message, t: nat, junk: Bytes)
    requires WellTyped(m) && t in m.fields && t < 0x1_0000
    ensures Framable([FieldRaw(m, t, junk)])
  {
    var v := m.fields[t];
    if PrintKind(t) in {Some(Plain), Some(Masked)} {
      assert AddressBytes(v.address)[1] == if v.address.V6? then 2 else 1;
      var masked := MaskAddress(v.address, m.id);
      assert AddressBytes(masked)[1] == if masked.V6? then 2 else 1;
    }
  }

  lemma {:induction false} PeersFramable(id: Octets16, peers: seq<Address>)
    ensures Framable(PeerRaws(id, peers))
  {
    if peers != [] {
      var masked := MaskAddress(peers[0], id);
      assert AddressBytes(masked)[1] == if masked.V6? then 2 else 1;
      PeersFramable(id, peers[1..]);
    }
  }

  lemma {:induction false} RawsFramable(m: Message, order: seq<nat>, junk: Bytes)
    requires WellTyped(m) && forall t :: t in order ==> t < 0x1_0000
    ensures Framable(RawsOf(m, order, junk))
  {
    if order != [] {
      var t := order[0];
      if t == XOR_PEER_ADDRESS {
        PeersFramable(m.id, m.peers);
      } else if t in m.fields {
        FieldFramable(m, t, junk);
      }
      assert forall x :: x in order[1..] ==> x in order;
      RawsFramable(m, order[1..], junk);
    }
  }

  /** The two attributes that follow all others. */
  function TailRaws(m: Message, mac: Octets20, fp: U32): seq<Raw> {
    (if MESSAGE_INTEGRITY in m.fields then [IntegrityRaw(mac)] else [])
    + (if FINGERPRINT in m.fields then [FingerprintRaw(fp)] else [])
  }

  /** Everything the printer writes after the header, as attributes. */
  function AllRaws(m: Message, key: Bytes, junk: Bytes, hmac: Hmac, crc: Crc): seq<Raw>
    requires WellTyped(m)
  {
    RawsOf(m, Order(), junk) + TailRaws(m, Mac(m, key, junk, hmac), Checksum(m, key, junk, hmac, crc))
  }

  lemma JoinOne(r: Raw)
    ensures Join([r]) == Frame(r)
  {
    assert Join([r]) == Frame(r) + Join([r][1..]) == Frame(r) + [];
  }

  lemma EncodeIsFramed(m: Message, key: Bytes, junk: Bytes, hmac: Hmac, crc: Crc)
    requires WellTyped(m)
    ensures Encode(m, key, junk, hmac, crc) == Header(m, BodyLength(m, junk)) + Join(AllRaws(m, key, junk, hmac, crc))
    ensures |Join(AllRaws(m, key, junk, hmac, crc))| == BodyLength(m, junk)
  {
    hide Order, RawsOf, WellTyped, Frame, Header, Mac, Checksum, BE;
    var mac, fp := Mac(m, key, junk, hmac), Checksum(m, key, junk, hmac, crc);
    JoinConcat(RawsOf(m, Order(), junk), TailRaws(m, mac, fp));
    JoinTail(m, mac, fp);
    hide TailRaws, Join;
    var mi := if MESSAGE_INTEGRITY in m.fields then Frame(IntegrityRaw(mac)) else [];
    var last := if FINGERPRINT in m.fields then Frame(FingerprintRaw(fp)) else [];
    Regroup(Attributes(m, junk), mi, last);
    assert |mi| == (if MESSAGE_INTEGRITY in m.fields then 24 else 0) && |last| == if FINGERPRINT in m.fields then 8 else 0;
  }

  lemma JoinTail(m: Message, mac: Octets20, fp: U32)
    ensures Join(TailRaws(m, mac, fp)) ==
            (if MESSAGE_INTEGRITY in m.fields then Frame(IntegrityRaw(mac)) else [])
            + (if FINGERPRINT in m.fields then Frame(FingerprintRaw(fp)) else [])
  {
    var mi := if MESSAGE_INTEGRITY in m.fields then [IntegrityRaw(mac)] else [];
    var last := if FINGERPRINT in m.fields then [FingerprintRaw(fp)] else [];
    JoinConcat(mi, last);
    hide Frame;
    if mi != [] { JoinOne(mi[0]); }
    if last != [] { JoinOne(last[0]); }
  }

  lemma TailFramable(m: Message, mac: Octets20, fp: U32)
    ensures Framable(TailRaws(m, mac, fp))
  {
    hide BE;
  }

  lemma EncodedRawsFramed(m: Message, key: Bytes, junk: Bytes, hmac: Hmac, crc: Crc)
    requires WellTyped(m) && BodyLength(m, junk) < 0x1_0000
    ensures forall r :: r in AllRaws(m, key, junk, hmac, crc) ==> WellFramed(r) && SelfContained(r)
  {
    hide Order, RawsOf, TailRaws, SelfContained, BodyLength, Frame, Join, Encode, Header, PadLength, PrintKind;
    var all := AllRaws(m, key, junk, hmac, crc);
    OrderIsComplete();
    RawsFramable(m, Order(), junk);
    TailFramable(m, Mac(m, key, junk, hmac), Checksum(m, key, junk, hmac, crc));
    EncodeIsFramed(m, key, junk, hmac, crc);
    forall r | r in all ensures WellFramed(r) && SelfContained(r) {
      FrameWithinJoin(all, r);
    }
  }

  lemma HeaderFields(m: Message, length: nat, body: Bytes)
    requires m.cls in {0x000, 0x010, 0x100, 0x110} && m.verb < 16 && length < 0x1_0000
    ensures var b := Header(m, length) + body;
            && Val(b[2..4]) == length && b[4..20] == m.id && b[20..] == body
            && ClassBits(Val(b[..2])) == m.cls && Val(b[..2]) % 16 == m.verb
  {
    hide Val, BE, ClassBits, Pow256;
    PowersOf256();
    ReadBack(2, m.cls + m.verb);
    ReadBack(2, length);
    ClassAndVerb(m.cls, m.verb);
    Headed(BE(2, m.cls + m.verb), BE(2, length), m.id, body);
  }

  lemma ClassAndVerb(cls: nat, verb: nat)
    requires cls in {0x000, 0x010, 0x100, 0x110} && verb < 16
    ensures ClassBits(cls + verb) == cls && (cls + verb) % 16 == verb
  {
    assert (cls + verb) / 16 == cls / 16 && (cls + verb) / 256 == cls / 256;
  }

  /** Parsing what was printed is folding the printed attributes. */
  lemma ParseEncoded(m: Message, key: Bytes, junk: Bytes, hmac: Hmac, crc: Crc)
    requires WellTyped(m) && BodyLength(m, junk) < 0x1_0000
    ensures Parse(Encode(m, key, junk, hmac, crc)) ==
            match AcceptAll(START, m.id, AllRaws(m, key, junk, hmac, crc), 0)
            case None => None
            case Some(st) => Some(Parsed(m.(fields := st.fields, peers := st.peers), st.unknown, st.integrityLength))
  {
    hide AcceptAll, AllRaws, Header, ClassBits, Join, Encode, BodyLength;
    var all := AllRaws(m, key, junk, hmac, crc);
    EncodeIsFramed(m, key, junk, hmac, crc);
    EncodedRawsFramed(m, key, junk, hmac, crc);
    HeaderFields(m, BodyLength(m, junk), Join(all));
    ParseJoin(m.id, [], all, START);
    assert [] + Join(all) == Join(all);
  }

  /** The message a receiver should see: REQUESTED-ADDRESS-FAMILY gone, deliberate truncations applied,
      and the computed hash and checksum in place of whatever the sender's fields held. */
  function Received(m: Message, mac: Octets20, fp: U32): Message
    requires WellTyped(m)
  {
    m.(fields := map t | t in m.fields && t != REQUESTED_ADDRESS_FAMILY ::
         if t == MESSAGE_INTEGRITY then Text(mac)
         else if t == FINGERPRINT then Number(fp)
         else Normal(PrintKind(t).value, m.fields[t]))
  }

  lemma AcceptIntegrity(st: State, id: Octets16, mac: Octets20, at: nat)
    requires MESSAGE_INTEGRITY !in st.fields
    ensures AcceptRaw(st, id, IntegrityRaw(mac), at) ==
            Some(st.(fields := st.fields[MESSAGE_INTEGRITY := Text(mac)], integrityLength := at + 24))
  {
    assert mac[..20] == mac;
  }

  lemma AcceptFingerprint(st: State, id: Octets16, fp: U32, at: nat)
    requires FINGERPRINT !in st.fields
    ensures AcceptRaw(st, id, FingerprintRaw(fp), at) == Some(st.(fields := st.fields[FINGERPRINT := Number(fp)]))
  {
    PowersOf256();
    ReadBack(4, fp);
    assert BE(4, fp)[..4] == BE(4, fp);
  }

  lemma AcceptOneOf(st: State, id: Octets16, r: Raw, at: nat)
    ensures AcceptAll(st, id, [r], at) == AcceptRaw(st, id, r, at)
  {
    assert [r][1..] == [];
  }

  /** The state after all printed attributes. */
  function Collected(m: Message, mac: Octets20, fp: U32, end: nat): State
    requires WellTyped(m)
  {
    State(Received(m, mac, fp).fields, m.peers,
          if REQUESTED_ADDRESS_FAMILY in m.fields then [REQUESTED_ADDRESS_FAMILY] else [],
          if MESSAGE_INTEGRITY in m.fields then end + 24 else 0)
  }

  lemma AcceptTail(st: State, m: Message, mac: Octets20, fp: U32, at: nat)
    requires MESSAGE_INTEGRITY !in st.fields && FINGERPRINT !in st.fields
    ensures var st1 := if MESSAGE_INTEGRITY !in m.fields then st
                       else st.(fields := st.fields[MESSAGE_INTEGRITY := Text(mac)], integrityLength := at + 24);
            var st2 := if FINGERPRINT !in m.fields then st1 else st1.(fields := st1.fields[FINGERPRINT := Number(fp)]);
            AcceptAll(st, m.id, TailRaws(m, mac, fp), at) == Some(st2)
  {
    hide AcceptRaw, Frame;
    var mi := if MESSAGE_INTEGRITY in m.fields then [IntegrityRaw(mac)] else [];
    var last := if FINGERPRINT in m.fields then [FingerprintRaw(fp)] else [];
    AcceptAllConcat(st, m.id, mi, last, at);
    var st1 := st;
    if mi != [] {
      AcceptOneOf(st, m.id, mi[0], at);
      AcceptIntegrity(st, m.id, mac, at);
      st1 := st.(fields := st.fields[MESSAGE_INTEGRITY := Text(mac)], integrityLength := at + 24);
    }
    if last != [] {
      AcceptOneOf(st1, m.id, last[0], at + |Join(mi)|);
      AcceptFingerprint(st1, m.id, fp, at + |Join(mi)|);
    }
  }

  /** The printing order misses no printable attribute and holds none that is treated apart. */
  ghost predicate CompleteOrder(order: seq<nat>) {
    && Distinct(order) && Ready(START, order)
    && XOR_PEER_ADDRESS in order && REQUESTED_ADDRESS_FAMILY in order && FINGERPRINT !in order
    && forall t :: PrintKind(t).Some? ==> t in order || t == MESSAGE_INTEGRITY || t == FINGERPRINT
  }

  lemma CollectedFields(m: Message, order: seq<nat>, mac: Octets20, fp: U32)
    requires WellTyped(m) && CompleteOrder(order)
    ensures var f := NormalFields(m, order);
            var f1 := if MESSAGE_INTEGRITY in m.fields then f[MESSAGE_INTEGRITY := Text(mac)] else f;
            var f2 := if FINGERPRINT in m.fields then f1[FINGERPRINT := Number(fp)] else f1;
            f2 == Received(m, mac, fp).fields
    ensures MESSAGE_INTEGRITY !in NormalFields(m, order) && FINGERPRINT !in NormalFields(m, order)
  {
    assert PrintKind(XOR_PEER_ADDRESS) == None;
    hide Normal, KindOf;
  }

  lemma CollectsOrder(m: Message, order: seq<nat>, junk: Bytes, mac: Octets20, fp: U32)
    requires WellTyped(m) && ReasonFits(m) && CompleteOrder(order)
    ensures var rs := RawsOf(m, order, junk);
            AcceptAll(START, m.id, rs + TailRaws(m, mac, fp), 0) == Some(Collected(m, mac, fp, |Join(rs)|))
  {
    hide AcceptAll, AbsorbAll, WellTyped, Join, RawsOf, NormalFields, Received, Distinct, Ready, PrintKind;
    hide TailRaws;
    var rs := RawsOf(m, order, junk);
    AcceptOrder(START, m, order, junk, 0);
    AcceptAllConcat(START, m.id, rs, TailRaws(m, mac, fp), 0);
    AbsorbAllFields(START, m, order);
    AbsorbAllLists(START, m, order);
    assert START.fields + NormalFields(m, order) == NormalFields(m, order);
    assert START.peers + m.peers == m.peers;
    CollectedFields(m, order, mac, fp);
    var st := AbsorbAll(START, m, order);
    AcceptTail(st, m, mac, fp, |Join(rs)|);
    assert 0 + |Join(rs)| == |Join(rs)|;
    var got := AcceptAll(START, m.id, rs + TailRaws(m, mac, fp), 0).value;
    assert got.fields == Received(m, mac, fp).fields;
    assert got.peers == m.peers;
    assert got.unknown == if REQUESTED_ADDRESS_FAMILY in m.fields then [REQUESTED_ADDRESS_FAMILY] else [];
  }

  lemma CollectsAll(m: Message, key: Bytes, junk: Bytes, hmac: Hmac, crc: Crc)
    requires WellTyped(m) && ReasonFits(m)
    ensures AcceptAll(START, m.id, AllRaws(m, key, junk, hmac, crc), 0) ==
            Some(Collected(m, Mac(m, key, junk, hmac), Checksum(m, key, junk, hmac, crc), |Attributes(m, junk)|))
  {
    hide AcceptAll, Collected, WellTyped, Mac, Checksum, Join, RawsOf, PrintKind, Order, TailRaws;
    OrderIsComplete();
    CollectsOrder(m, Order(), junk, Mac(m, key, junk, hmac), Checksum(m, key, junk, hmac, crc));
  }

  /** STUN round trip: every well-typed message whose body fits the 16-bit length and whose error reason
      is within the limit parses back to itself, up to the deliberate normalisations; a
      REQUESTED-ADDRESS-FAMILY attribute comes back as an unknown comprehension-required one. */
  lemma RoundTrip(m: Message, key: Bytes, junk: Bytes, hmac: Hmac, crc: Crc)
    requires WellTyped(m) && BodyLength(m, junk) < 0x1_0000 && ReasonFits(m)
    ensures Parse(Encode(m, key, junk, hmac, crc)) ==
            Some(Parsed(Received(m, Mac(m, key, junk, hmac), Checksum(m, key, junk, hmac, crc)),
                        if REQUESTED_ADDRESS_FAMILY in m.fields then [REQUESTED_ADDRESS_FAMILY] else [],
                        if MESSAGE_INTEGRITY in m.fields then IntegrityEnd(m, junk) else 0))
  {
    hide Encode, Parse, Mac, Checksum, Attributes, AllRaws;
    ParseEncoded(m, key, junk, hmac, crc);
    CollectsAll(m, key, junk, hmac, crc);
  }
}
