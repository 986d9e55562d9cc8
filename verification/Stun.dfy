/** The STUN/TURN message format of reTurn/StunMessage.cxx (RFC 5389 section 6 and 15).
    A message keeps its single-valued attributes in a map from attribute number to value:
    a key is present exactly when the program's matching has-flag is set. */
module Stun {
  import opened Wire

  type U16 = x: int | 0 <= x < 0x1_0000
  type U32 = x: int | 0 <= x < 0x1_0000_0000
  type Octets16 = b: Bytes | |b| == 16 witness seq(16, _ => 0)
  type Octets20 = b: Bytes | |b| == 20 witness seq(20, _ => 0)

  const MAGIC_COOKIE: U32 := 0x2112_A442
  const COOKIE_TOP: U16 := 0x2112
  const CRC_FINAL_XOR: U32 := 0x5354_554E

  // Attribute numbers
  const MAPPED_ADDRESS := 0x0001
  const RESPONSE_ADDRESS := 0x0002
  const CHANGE_REQUEST := 0x0003
  const SOURCE_ADDRESS := 0x0004
  const CHANGED_ADDRESS := 0x0005
  const USERNAME := 0x0006
  const PASSWORD := 0x0007
  const MESSAGE_INTEGRITY := 0x0008
  const ERROR_CODE := 0x0009
  const UNKNOWN_ATTRIBUTE := 0x000A
  const REFLECTED_FROM := 0x000B
  const CHANNEL_NUMBER := 0x000C
  const LIFETIME := 0x000D
  const BANDWIDTH := 0x0010
  const XOR_PEER_ADDRESS := 0x0012
  const DATA := 0x0013
  const REALM := 0x0014
  const NONCE := 0x0015
  const XOR_RELAYED_ADDRESS := 0x0016
  const REQUESTED_ADDRESS_FAMILY := 0x0017
  const EVEN_PORT := 0x0018
  const REQUESTED_TRANSPORT := 0x0019
  const DONT_FRAGMENT := 0x001A
  const XOR_MAPPED_ADDRESS := 0x0020
  const RESERVATION_TOKEN := 0x0022
  const CONNECT_STAT := 0x0023
  const ICE_PRIORITY := 0x0024
  const ICE_USE_CANDIDATE := 0x0025
  const XOR_MAPPED_ADDRESS_OLD := 0x8020
  const SOFTWARE := 0x8022
  const ALTERNATE_SERVER := 0x8023
  const FINGERPRINT := 0x8028
  const ICE_CONTROLLED := 0x8029
  const ICE_CONTROLLING := 0x802A
  const SECONDARY_ADDRESS := 0x8050

  const MAX_UNKNOWN_ATTRIBUTES := 8
  const MAX_XOR_PEER_ADDRESSES := 8
  const MAX_REASON := 763

  datatype Address =
    | V4(port: U16, ip: U32)
    | V6(port: U16, ip6: Octets16)

  datatype Value =
    | AddressValue(address: Address)
    | Number(n: nat)
    | Text(text: Bytes)
    | ErrorValue(errorClass: Byte, number: Byte, reason: Bytes)
    | TypeList(types: seq<U16>)
    | Present

  /** How an attribute's value is laid out. */
  datatype Kind = Plain | Masked | Word32 | Word64 | High16 | High8
                | Str(max: nat) | Blob | Error | TypeVector | TopBit | Empty | Hash

  /** cls is one of the four two-bit class codes; verb (the method number) one of the sixteen the program tells apart. */
  datatype Message = Message(cls: nat, verb: nat, id: Octets16, fields: map<nat, Value>, peers: seq<Address>)

  datatype Parsed = Parsed(msg: Message, unknown: seq<nat>, integrityLength: nat)

  /** The attributes the parser knows, each with the layout it expects. */
  function KindOf(t: nat): Option<Kind> {
    if t in {MAPPED_ADDRESS, RESPONSE_ADDRESS, SOURCE_ADDRESS, CHANGED_ADDRESS, REFLECTED_FROM,
             ALTERNATE_SERVER, SECONDARY_ADDRESS} then Some(Plain)
    else if t in {XOR_MAPPED_ADDRESS, XOR_RELAYED_ADDRESS} then Some(Masked)
    else if t in {CHANGE_REQUEST, LIFETIME, BANDWIDTH, CONNECT_STAT, ICE_PRIORITY, FINGERPRINT} then Some(Word32)
    else if t in {RESERVATION_TOKEN, ICE_CONTROLLED, ICE_CONTROLLING} then Some(Word64)
    else if t == CHANNEL_NUMBER then Some(High16)
    else if t == REQUESTED_TRANSPORT then Some(High8)
    else if t in {USERNAME, PASSWORD} then Some(Str(512))
    else if t in {REALM, NONCE, SOFTWARE} then Some(Str(763))
    else if t == DATA then Some(Blob)
    else if t == ERROR_CODE then Some(Error)
    else if t == UNKNOWN_ATTRIBUTE then Some(TypeVector)
    else if t == EVEN_PORT then Some(TopBit)
    else if t in {DONT_FRAGMENT, ICE_USE_CANDIDATE} then Some(Empty)
    else if t == MESSAGE_INTEGRITY then Some(Hash)
    else None
  }

  /** The printer also knows REQUESTED-ADDRESS-FAMILY, which the parser does not. */
  function PrintKind(t: nat): Option<Kind> {
    if t == REQUESTED_ADDRESS_FAMILY then Some(High16) else KindOf(t)
  }

  /** The order in which the printer writes attributes; MESSAGE-INTEGRITY and FINGERPRINT follow. */
  function Order(): seq<nat> {
    [MAPPED_ADDRESS, RESPONSE_ADDRESS, CHANGE_REQUEST, SOURCE_ADDRESS, CHANGED_ADDRESS, USERNAME, PASSWORD,
     ERROR_CODE, UNKNOWN_ATTRIBUTE, REFLECTED_FROM, REALM, NONCE, XOR_MAPPED_ADDRESS, SOFTWARE,
     ALTERNATE_SERVER, SECONDARY_ADDRESS, CHANNEL_NUMBER, LIFETIME, BANDWIDTH, XOR_PEER_ADDRESS, DATA,
     XOR_RELAYED_ADDRESS, EVEN_PORT, REQUESTED_TRANSPORT, DONT_FRAGMENT, RESERVATION_TOKEN, CONNECT_STAT,
     REQUESTED_ADDRESS_FAMILY, ICE_PRIORITY, ICE_USE_CANDIDATE, ICE_CONTROLLED, ICE_CONTROLLING]
  }

  // ---------------------------------------------------------------- values

  function XorU16(a: U16, b: U16): (x: U16) {
    Pow2Widths();
    XorBound(a, b, 16);
    Xor(a, b)
  }

  function XorU32(a: U32, b: U32): (x: U32) {
    Pow2Widths();
    XorBound(a, b, 32);
    Xor(a, b)
  }

  /** Port and address masked with the magic cookie, an IPv6 address with cookie and transaction id. */
  function MaskAddress(a: Address, id: Octets16): Address {
    match a
    case V4(p, ip) => V4(XorU16(p, COOKIE_TOP), XorU32(ip, MAGIC_COOKIE))
    case V6(p, ip6) => V6(XorU16(p, COOKIE_TOP), XorBytes(ip6, id))
  }

  lemma MaskTwice(a: Address, id: Octets16)
    ensures MaskAddress(MaskAddress(a, id), id) == a
  {
    XorInvolution(a.port, COOKIE_TOP);
    match a
    case V4(_, ip) => XorInvolution(ip, MAGIC_COOKIE);
    case V6(_, ip6) => XorBytesInvolution(ip6, id);
  }

  function AddressBytes(a: Address): (b: Bytes)
    ensures |b| == if a.V6? then 20 else 8
  {
    match a
    case V4(p, ip) => [0, 1] + BE(2, p) + BE(4, ip)
    case V6(p, ip6) => [0, 2] + BE(2, p) + ip6
  }

  function TypeVectorBytes(ts: seq<U16>): (b: Bytes)
    ensures |b| == 2 * |ts|
  {
    if ts == [] then [] else BE(2, ts[0]) + TypeVectorBytes(ts[1..])
  }

  function Truncate(b: Bytes, max: nat): Bytes {
    if |b| > max then b[..max] else b
  }

  /** The value has the shape and width of the program's field for it. */
  predicate Typed(k: Kind, v: Value) {
    match k
    case Plain => v.AddressValue?
    case Masked => v.AddressValue?
    case Word32 => v.Number? && v.n < 0x1_0000_0000
    case Word64 => v.Number? && v.n < 0x1_0000_0000_0000_0000
    case High16 => v.Number? && v.n < 0x1_0000
    case High8 => v.Number? && v.n < 0x100
    case Str(_) => v.Text?
    case Blob => v.Text?
    case Error => v.ErrorValue?
    case TypeVector => v.TypeList? && |v.types| <= MAX_UNKNOWN_ATTRIBUTES
    case TopBit => v.Number? && v.n < 0x100
    case Empty => v.Present?
    case Hash => v.Text? && |v.text| == 20
  }

  function Payload(k: Kind, v: Value, id: Octets16): Bytes
    requires Typed(k, v)
  {
    match k
    case Plain => AddressBytes(v.address)
    case Masked => AddressBytes(MaskAddress(v.address, id))
    case Word32 => BE(4, v.n)
    case Word64 => BE(8, v.n)
    case High16 => BE(4, v.n * 0x1_0000)
    case High8 => BE(4, v.n * 0x100_0000)
    case Str(max) => Truncate(v.text, max)
    case Blob => v.text
    case Error => [0, 0, v.errorClass % 8, v.number] + v.reason
    case TypeVector => TypeVectorBytes(v.types)
    case TopBit => [v.n]
    case Empty => []
    case Hash => v.text
  }

  /** What the program loses on purpose: over-long strings, high bits of an error class, low bits of EVEN-PORT. */
  function Normal(k: Kind, v: Value): Value
    requires Typed(k, v)
  {
    match k
    case Str(max) => Text(Truncate(v.text, max))
    case Error => v.(errorClass := v.errorClass % 8)
    case TopBit => Number(v.n / 128 * 128)
    case _ => v
  }

  // ---------------------------------------------------------------- reading values

  /** Octet i of the memory that starts at an attribute's value; past the buffer's end it is taken as 0. */
  function At(mem: Bytes, i: nat): Byte {
    if i < |mem| then mem[i] else 0
  }

  function Zeros(n: nat): (z: Bytes)
    ensures |z| == n
    ensures forall i :: 0 <= i < n ==> z[i] == 0
  {
    if n == 0 then [] else [0] + Zeros(n - 1)
  }

  function Fetch(mem: Bytes, from: nat, count: nat): (b: Bytes)
    ensures |b| == count
    ensures from + count <= |mem| ==> b == mem[from..from + count]
  {
    var there := if from <= |mem| then mem[from..] else [];
    if count <= |there| then there[..count] else there + Zeros(count - |there|)
  }

  /** The address reader looks at the family octet, not at len, to decide how much to read. */
  function ReadAddress(mem: Bytes, len: nat): Option<Address> {
    if len != 8 && len != 20 then None
    else
      PowersOf256();
      var p := Val(Fetch(mem, 2, 2));
      if At(mem, 1) == 1 then Some(V4(p, Val(Fetch(mem, 4, 4))))
      else if At(mem, 1) == 2 then Some(V6(p, Fetch(mem, 4, 16)))
      else None
  }

  function ReadTypes(b: Bytes): (ts: seq<U16>)
    requires |b| % 2 == 0
  {
    PowersOf256();
    if b == [] then [] else [Val(b[..2])] + ReadTypes(b[2..])
  }

  function ReadValue(k: Kind, mem: Bytes, len: nat, id: Octets16): Option<Value>
    requires len <= |mem|
  {
    match k
    case Plain => (match ReadAddress(mem, len) case None => None case Some(a) => Some(AddressValue(a)))
    case Masked => (match ReadAddress(mem, len) case None => None case Some(a) => Some(AddressValue(MaskAddress(a, id))))
    case Word32 => if len != 4 then None else Some(Number(Val(mem[..4])))
    case Word64 => if len != 8 then None else Some(Number(Val(mem[..8])))
    case High16 => if len != 4 then None else Some(Number(Val(mem[..4]) / 0x1_0000))
    case High8 => if len != 4 then None else Some(Number(Val(mem[..4]) / 0x100_0000))
    case Str(max) => if len > max then None else Some(Text(mem[..len]))
    case Blob => Some(Text(mem[..len]))
    case Error =>
      if len < 4 || len - 4 > MAX_REASON then None
      else Some(ErrorValue(mem[2] % 8, mem[3], mem[4..len]))
    case TypeVector => if len >= 18 || len % 2 != 0 then None else Some(TypeList(ReadTypes(mem[..len])))
    case TopBit => if len != 1 then None else Some(Number(mem[0] / 128 * 128))
    case Empty => if len != 0 then None else Some(Present)
    case Hash => if len != 20 then None else Some(Text(mem[..20]))
  }

  lemma {:induction false} TypesReadBack(ts: seq<U16>)
    ensures ReadTypes(TypeVectorBytes(ts)) == ts
  {
    if ts != [] {
      var b := TypeVectorBytes(ts);
      assert b[..2] == BE(2, ts[0]) && b[2..] == TypeVectorBytes(ts[1..]);
      PowersOf256();
      ReadBack(2, ts[0]);
      TypesReadBack(ts[1..]);
    }
  }

  lemma AddressReadBack(a: Address, more: Bytes)
    ensures ReadAddress(AddressBytes(a) + more, |AddressBytes(a)|) == Some(a)
  {
    var b := AddressBytes(a);
    var port := BE(2, a.port);
    PowersOf256();
    ReadBack(2, a.port);
    if a.V4? {
      var ip := BE(4, a.ip);
      ReadBack(4, a.ip);
      AddressFetch(1, port, ip, more);
    } else {
      AddressFetch(2, port, a.ip6, more);
    }
  }

  lemma AddressFetch(family: Byte, port: Bytes, ip: Bytes, more: Bytes)
    requires |port| == 2
    ensures var mem := [0, family] + port + ip + more;
            At(mem, 1) == family && Fetch(mem, 2, 2) == port && Fetch(mem, 4, |ip|) == ip
  {
    var mem := [0, family] + port + ip + more;
    assert mem[2..4] == port && mem[4..4 + |ip|] == ip;
  }

  lemma NumberReadBack(k: Kind, n: nat, more: Bytes)
    requires k in {Word32, Word64, High16, High8} && Typed(k, Number(n))
    ensures var width, shifted := if k == Word64 then 8 else 4,
                                  if k == High16 then n * 0x1_0000 else if k == High8 then n * 0x100_0000 else n;
            (BE(width, shifted) + more)[..width] == BE(width, shifted) && Val(BE(width, shifted)) == shifted
  {
    PowersOf256();
    var width := if k == Word64 then 8 else 4;
    var shifted := if k == High16 then n * 0x1_0000 else if k == High8 then n * 0x100_0000 else n;
    ReadBack(width, shifted);
    hide BE, Val;
    SplitConcat(BE(width, shifted), more);
  }

  /** One attribute value survives printing and reading, whatever octets follow it. */
  lemma ValueReadBack(k: Kind, v: Value, id: Octets16, more: Bytes)
    requires Typed(k, v)
    requires k.Error? ==> |v.reason| <= MAX_REASON
    ensures ReadValue(k, Payload(k, v, id) + more, |Payload(k, v, id)|, id) == Some(Normal(k, v))
  {
    hide ReadAddress, AddressBytes, BE, Val, MaskAddress;
    var p := Payload(k, v, id);
    if k in {Word32, Word64, High16, High8} {
      NumberReadBack(k, v.n, more);
    } else {
      SplitConcat(p, more);
      match k
      case Plain => AddressReadBack(v.address, more);
      case Masked =>
        AddressReadBack(MaskAddress(v.address, id), more);
        MaskTwice(v.address, id);
      case Error => assert (p + more)[4..|p|] == v.reason;
      case TypeVector => TypesReadBack(v.types);
      case _ =>
    }
  }
}
