/** The STUN format octet by octet: what lies on the wire, said in octets and bits rather than by the printer's own
    functions, and that whatever the parser accepts is a message the printer can print. */
module StunWire {
  import opened Wire
  import opened Stun
  import opened StunCodec
  import opened StunTheorems

  // ---------------------------------------------------------------- numbers

  lemma TwoOctets(v: nat)
    requires v < 0x1_0000
    ensures BE(2, v) == [v / 0x100, v % 0x100]
  {
    assert BE(1, v / 0x100) == BE(0, v / 0x100 / 0x100) + [v / 0x100 % 0x100];
  }

  lemma FourOctets(v: nat)
    requires v < 0x1_0000_0000
    ensures BE(4, v) == [v / 0x100_0000, v / 0x1_0000 % 0x100, v / 0x100 % 0x100, v % 0x100]
  {
    assert BE(4, v) == BE(2, v / 0x1_0000) + [v / 0x100 % 0x100] + [v % 0x100] by {
      assert v / 0x100 / 0x100 == v / 0x1_0000;
    }
    TwoOctets(v / 0x1_0000);
    assert v / 0x1_0000 / 0x100 == v / 0x100_0000;
  }

  // ---------------------------------------------------------------- addresses

  /** An address attribute: zero, family, port, address. */
  lemma AddressOctets(a: Address)
    ensures a.V4? ==>
              AddressBytes(a) == [0, 1, a.port / 0x100, a.port % 0x100, a.ip / 0x100_0000, a.ip / 0x1_0000 % 0x100, a.ip / 0x100 % 0x100, a.ip % 0x100]
    ensures a.V6? ==> AddressBytes(a) == [0, 2, a.port / 0x100, a.port % 0x100] + a.ip6
  {
    TwoOctets(a.port);
    if a.V4? {
      FourOctets(a.ip);
    }
  }

  /** The mask of an XOR address: nothing on zero and family, the cookie's top half on the port, and on the address the
      cookie, followed for IPv6 by the transaction id. */
  function MaskOctets(v6: bool, id: Octets16): Bytes {
    [0, 0, 0x21, 0x12] + if v6 then id else [0x21, 0x12, 0xA4, 0x42]
  }

  lemma {:induction false} XorZeros(n: nat)
    ensures Xor(n, 0) == n && Xor(0, n) == n
  {
    if n > 0 {
      XorZeros(n / 2);
    }
  }

  lemma XorConcat(a: Bytes, b: Bytes, c: Bytes, d: Bytes)
    requires |a| == |c| && |b| == |d|
    ensures XorBytes(a + b, c + d) == XorBytes(a, c) + XorBytes(b, d)
  {
    hide XorByte;
  }

  lemma FamilyUnmasked(family: Byte)
    ensures XorBytes([0, family], [0, 0]) == [0, family]
  {
    XorZeros(0);
    XorZeros(family);
    hide Xor;
  }

  /** XOR addresses on the wire: every octet is the exclusive-or of the plain octet and the mask's. */
  lemma MaskIsOctetwise(a: Address, id: Octets16)
    ensures AddressBytes(MaskAddress(a, id)) == XorBytes(AddressBytes(a), MaskOctets(a.V6?, id))
  {
    TwoOctets(COOKIE_TOP);
    FourOctets(MAGIC_COOKIE);
    var family := if a.V4? then 1 else 2;
    var top, cookie := BE(2, COOKIE_TOP), BE(4, MAGIC_COOKIE);
    var rest, mask := if a.V4? then BE(4, a.ip) else a.ip6, if a.V4? then cookie else id;
    assert top == [0x21, 0x12] && cookie == [0x21, 0x12, 0xA4, 0x42];
    XorOctets(2, a.port, COOKIE_TOP);
    if a.V4? {
      XorOctets(4, a.ip, MAGIC_COOKIE);
    }
    hide BE, Xor, XorByte, XorBytes;
    assert MaskOctets(a.V6?, id) == [0, 0] + top + mask;
    assert AddressBytes(a) == [0, family] + BE(2, a.port) + rest;
    XorConcat([0, family], BE(2, a.port), [0, 0], top);
    XorConcat([0, family] + BE(2, a.port), rest, [0, 0] + top, mask);
    FamilyUnmasked(family);
    assert AddressBytes(MaskAddress(a, id)) == [0, family] + XorBytes(BE(2, a.port), top) + XorBytes(rest, mask);
  }

  /** The zero address and port go out as the cookie itself. */
  lemma ZeroIsMaskedToCookie(id: Octets16)
    ensures MaskAddress(V4(0, 0), id) == V4(0x2112, 0x2112_A442)
    ensures MaskAddress(V6(0, Zeros(16)), id) == V6(0x2112, id)
  {
    XorZeros(COOKIE_TOP);
    XorZeros(MAGIC_COOKIE);
    hide Xor;
    forall i | 0 <= i < 16 ensures XorBytes(Zeros(16), id)[i] == id[i] {
      XorZeros(id[i]);
    }
    assert XorBytes(Zeros(16), id) == id;
  }

  // ---------------------------------------------------------------- values

  lemma EightOctets(v: nat)
    ensures BE(8, v) == BE(4, v / 0x1_0000_0000) + [v / 0x100_0000 % 0x100, v / 0x1_0000 % 0x100, v / 0x100 % 0x100, v % 0x100]
  {
    var a, b, c, d := v / 0x100, v / 0x1_0000, v / 0x100_0000, v / 0x1_0000_0000;
    assert a / 0x100 == b && b / 0x100 == c && c / 0x100 == d;
    assert BE(8, v) == BE(7, a) + [v % 0x100] && BE(7, a) == BE(6, b) + [a % 0x100];
    assert BE(6, b) == BE(5, c) + [b % 0x100] && BE(5, c) == BE(4, d) + [c % 0x100];
    hide BE;
  }

  lemma ShiftedOctets(w: nat, n: nat)
    ensures BE(w + 1, 0x100 * n) == BE(w, n) + [0]
  {
    assert 0x100 * n / 0x100 == n && 0x100 * n % 0x100 == 0;
  }

  lemma UpperHalf(n: nat)
    requires n < 0x1_0000
    ensures BE(4, n * 0x1_0000) == [n / 0x100, n % 0x100, 0, 0]
  {
    hide BE;
    TwoOctets(n);
    ShiftedOctets(2, n);
    ShiftedOctets(3, 0x100 * n);
    assert n * 0x1_0000 == 0x100 * (0x100 * n);
  }

  lemma UpperOctet(n: nat)
    requires n < 0x100
    ensures BE(4, n * 0x100_0000) == [n, 0, 0, 0]
  {
    assert BE(1, n) == BE(0, n / 0x100) + [n];
    hide BE;
    ShiftedOctets(1, n);
    ShiftedOctets(2, 0x100 * n);
    ShiftedOctets(3, 0x1_0000 * n);
    assert 0x100 * (0x100 * n) == 0x1_0000 * n && n * 0x100_0000 == 0x100 * (0x1_0000 * n);
  }

  /** Every layout, as octets. */
  lemma PayloadOctets(k: Kind, v: Value, id: Octets16)
    requires Typed(k, v)
    ensures var p := Payload(k, v, id);
            match k
            case Plain => p == AddressBytes(v.address)
            case Masked => p == XorBytes(AddressBytes(v.address), MaskOctets(v.address.V6?, id))
            case Word32 => p == [v.n / 0x100_0000, v.n / 0x1_0000 % 0x100, v.n / 0x100 % 0x100, v.n % 0x100]
            case Word64 => p == BE(4, v.n / 0x1_0000_0000) +
                                [v.n / 0x100_0000 % 0x100, v.n / 0x1_0000 % 0x100, v.n / 0x100 % 0x100, v.n % 0x100]
            case High16 => p == [v.n / 0x100, v.n % 0x100, 0, 0]
            case High8 => p == [v.n, 0, 0, 0]
            case Str(max) => |p| == (if |v.text| < max then |v.text| else max) && p <= v.text
            case Blob => p == v.text
            case Error => p == [0, 0, v.errorClass % 8, v.number] + v.reason
            case TypeVector => |p| == 2 * |v.types| && forall i :: 0 <= i < |v.types| ==>
                                 p[2 * i] == v.types[i] / 0x100 && p[2 * i + 1] == v.types[i] % 0x100
            case TopBit => p == [v.n]
            case Empty => p == []
            case Hash => p == v.text
  {
    hide BE, AddressBytes, MaskAddress, TypeVectorBytes, XorBytes, MaskOctets;
    match k
    case Masked => MaskIsOctetwise(v.address, id);
    case Word32 => FourOctets(v.n);
    case Word64 => EightOctets(v.n);
    case High16 => UpperHalf(v.n);
    case High8 => UpperOctet(v.n);
    case TypeVector => TypeOctets(v.types);
    case _ =>
  }

  lemma {:induction false} TypeOctets(ts: seq<U16>)
    ensures forall i :: 0 <= i < |ts| ==>
              TypeVectorBytes(ts)[2 * i] == ts[i] / 0x100 && TypeVectorBytes(ts)[2 * i + 1] == ts[i] % 0x100
  {
    if ts != [] {
      TwoOctets(ts[0]);
      TypeOctets(ts[1..]);
      hide BE;
      var rest := TypeVectorBytes(ts[1..]);
      forall i | 0 <= i < |ts|
        ensures TypeVectorBytes(ts)[2 * i] == ts[i] / 0x100 && TypeVectorBytes(ts)[2 * i + 1] == ts[i] % 0x100
      {
        if i > 0 {
          assert rest[2 * (i - 1)] == ts[1..][i - 1] / 0x100 && rest[2 * (i - 1) + 1] == ts[1..][i - 1] % 0x100;
        }
      }
    }
  }

  /** An attribute: number, length of the value without padding, value, padding to a multiple of four. */
  lemma FrameOctets(r: Raw)
    requires WellFramed(r)
    ensures Frame(r) == [r.number / 0x100, r.number % 0x100, |r.value| / 0x100, |r.value| % 0x100] + r.value + r.pad
    ensures |Frame(r)| % 4 == 0 && |r.pad| < 4
  {
    TwoOctets(r.number);
    TwoOctets(|r.value|);
  }

  /** Padding is zeros, but for the two octets skipped after an odd list of unknown attributes. */
  lemma PaddingIsZero(m: Message, t: nat, junk: Bytes)
    requires WellTyped(m) && t in m.fields && t != UNKNOWN_ATTRIBUTE
    ensures forall i :: 0 <= i < |FieldRaw(m, t, junk).pad| ==> FieldRaw(m, t, junk).pad[i] == 0
  {
    hide WellTyped, Payload;
  }

  /** The header: type, length, cookie and transaction id. */
  lemma HeaderOctets(m: Message, length: nat)
    requires m.cls in {0x000, 0x010, 0x100, 0x110} && m.verb < 16 && length < 0x1_0000
    ensures Header(m, length) == [(m.cls + m.verb) / 0x100, (m.cls + m.verb) % 0x100, length / 0x100, length % 0x100] + m.id
  {
    TwoOctets(m.cls + m.verb);
    TwoOctets(length);
  }

  /** The attributes by number, with their layouts, as RFC 5389, RFC 5766 and the older drafts give them. */
  lemma AttributeTable()
    ensures forall t :: t in {0x0001, 0x0002, 0x0004, 0x0005, 0x000B, 0x8023, 0x8050} ==> KindOf(t) == Some(Plain)
    ensures KindOf(0x0020) == KindOf(0x0016) == Some(Masked) && XOR_PEER_ADDRESS == 0x0012 && Slot(0x8020) == 0x0020
    ensures forall t :: t in {0x0003, 0x000D, 0x0010, 0x0023, 0x0024, 0x8028} ==> KindOf(t) == Some(Word32)
    ensures forall t :: t in {0x0022, 0x8029, 0x802A} ==> KindOf(t) == Some(Word64)
    ensures KindOf(0x000C) == Some(High16) && KindOf(0x0019) == Some(High8) && KindOf(0x0018) == Some(TopBit)
    ensures KindOf(0x0006) == KindOf(0x0007) == Some(Str(512)) && KindOf(0x0014) == KindOf(0x0015) == KindOf(0x8022) == Some(Str(763))
    ensures KindOf(0x0013) == Some(Blob) && KindOf(0x0009) == Some(Error) && KindOf(0x000A) == Some(TypeVector)
    ensures KindOf(0x001A) == KindOf(0x0025) == Some(Empty) && KindOf(0x0008) == Some(Hash)
    ensures KindOf(0x0017) == None && PrintKind(0x0017) == Some(High16)
    ensures forall t :: t != 0x0017 ==> PrintKind(t) == KindOf(t)
    ensures forall t :: t != 0x8020 ==> Slot(t) == t
  {
  }

  // ---------------------------------------------------------------- what is read

  lemma UpperHalfRead(b: Bytes)
    requires |b| == 4
    ensures Val(b) / 0x1_0000 == Val(b[..2])
  {
    assert b == b[..2] + b[2..];
    ValConcat(b[..2], b[2..]);
    PowersOf256();
    hide Val;
    DivUnique(Val(b), 0x1_0000, Val(b[..2]), Val(b[2..]));
  }

  lemma UpperOctetRead(b: Bytes)
    requires |b| == 4
    ensures Val(b) / 0x100_0000 == b[0] as int
  {
    assert b == b[..1] + b[1..];
    assert Val(b[..1]) == 256 * Val(b[..1][..0]) + b[0] && Val([]) == 0;
    ValConcat(b[..1], b[1..]);
    PowersOf256();
    hide Val;
    DivUnique(Val(b), 0x100_0000, b[0], Val(b[1..]));
  }

  /** Octets 1 on of an address as they lie in memory, which may end before the address does. */
  ghost predicate LiesIn(a: Bytes, mem: Bytes) {
    && (forall i :: 1 <= i < |a| && i < |mem| ==> a[i] == mem[i])
    && (forall i :: |mem| <= i < |a| ==> a[i] == 0)
  }

  lemma FetchAt(mem: Bytes, from: nat, count: nat)
    ensures forall i :: 0 <= i < count ==> Fetch(mem, from, count)[i] == if from + i < |mem| then mem[from + i] else 0
  {
  }

  lemma AddressPieces(mem: Bytes, len: nat)
    requires len <= |mem|
    ensures ReadAddress(mem, len).Some? <==> (len == 8 || len == 20) && (mem[1] == 1 || mem[1] == 2)
    ensures ReadAddress(mem, len).Some? ==>
              var a := ReadAddress(mem, len).value;
              AddressBytes(a) == [0, mem[1]] + Fetch(mem, 2, 2) + Fetch(mem, 4, if mem[1] == 1 then 4 else 16) && (a.V6? <==> mem[1] == 2)
  {
    PowersOf256();
    BEOfVal(Fetch(mem, 2, 2));
    BEOfVal(Fetch(mem, 4, 4));
    hide BE, Val, Fetch;
  }

  lemma AddressRead(mem: Bytes, len: nat)
    requires len <= |mem|
    ensures ReadAddress(mem, len).Some? <==> (len == 8 || len == 20) && (mem[1] == 1 || mem[1] == 2)
    ensures ReadAddress(mem, len).Some? ==>
              var a := ReadAddress(mem, len).value;
              LiesIn(AddressBytes(a), mem) && AddressBytes(a)[0] == 0 && (a.V6? <==> mem[1] == 2)
  {
    hide ReadAddress, AddressBytes, Fetch;
    AddressPieces(mem, len);
    FetchAt(mem, 2, 2);
    FetchAt(mem, 4, 4);
    FetchAt(mem, 4, 16);
  }

  lemma {:induction false} TypesPrinted(b: Bytes)
    requires |b| % 2 == 0
    ensures TypeVectorBytes(ReadTypes(b)) == b
  {
    if b != [] {
      TypesPrinted(b[2..]);
      BEOfVal(b[..2]);
      hide BE, Val;
      assert b == b[..2] + b[2..];
    }
  }

  /** What lengths of a value the parser takes, by layout. */
  predicate LengthFits(k: Kind, len: nat) {
    match k
    case Plain => len == 8 || len == 20
    case Masked => len == 8 || len == 20
    case Word64 => len == 8
    case Str(max) => len <= max
    case Blob => true
    case Error => 4 <= len <= 767
    case TypeVector => len % 2 == 0 && len <= 16
    case TopBit => len == 1
    case Empty => len == 0
    case Hash => len == 20
    case _ => len == 4
  }

  /** The parser takes a value exactly when its length fits and, for an address, its family octet is 1 or 2; and what it
      reads is what the octets say: printed again they come out as they were, but for an address's first octet, which
      is 0, the low octets of a number in the upper ones, and the reserved bits of an error class and of EVEN-PORT. */
  lemma ReadIsPrinted(k: Kind, mem: Bytes, len: nat, id: Octets16)
    requires len <= |mem|
    ensures var read := ReadValue(k, mem, len, id);
            && (read.Some? <==> LengthFits(k, len) && (k.Plain? || k.Masked? ==> mem[1] == 1 || mem[1] == 2))
            && (read.Some? ==>
                  && Typed(k, read.value)
                  && var p := Payload(k, read.value, id);
                  match k
                  case Plain => LiesIn(p, mem) && |p| == (if mem[1] == 1 then 8 else 20) && p[0] == 0
                  case Masked => LiesIn(p, mem) && |p| == (if mem[1] == 1 then 8 else 20) && p[0] == 0
                  case High16 => p == mem[..2] + [0, 0]
                  case High8 => p == [mem[0], 0, 0, 0]
                  case Error => p == [0, 0, mem[2] % 8] + mem[3..len]
                  case TopBit => p == [if mem[0] >= 128 then 128 else 0]
                  case _ => p == mem[..len])
  {
    hide BE, Val, MaskAddress, AddressBytes, ReadAddress, TypeVectorBytes, ReadTypes, LiesIn;
    match k
    case Plain => AddressRead(mem, len);
    case Masked =>
      AddressRead(mem, len);
      if ReadAddress(mem, len).Some? {
        MaskTwice(ReadAddress(mem, len).value, id);
        MaskKeepsFamily(ReadAddress(mem, len).value, id);
      }
    case TypeVector =>
      if len % 2 == 0 && len < 18 {
        TypesPrinted(mem[..len]);
        TypesRead(mem[..len]);
      }
    case Word32 => NumbersRead(mem, len);
    case Word64 => NumbersRead(mem, len);
    case High16 => NumbersRead(mem, len);
    case High8 => NumbersRead(mem, len);
    case _ =>
  }

  lemma NumbersRead(mem: Bytes, len: nat)
    requires len <= |mem|
    ensures len == 4 ==> Val(mem[..4]) < 0x1_0000_0000 && BE(4, Val(mem[..4])) == mem[..4]
    ensures len == 8 ==> Val(mem[..8]) < 0x1_0000_0000_0000_0000 && BE(8, Val(mem[..8])) == mem[..8]
    ensures len == 4 ==> Val(mem[..4]) / 0x1_0000 < 0x1_0000 && BE(4, Val(mem[..4]) / 0x1_0000 * 0x1_0000) == mem[..2] + [0, 0]
    ensures len == 4 ==> Val(mem[..4]) / 0x100_0000 < 0x100 && BE(4, Val(mem[..4]) / 0x100_0000 * 0x100_0000) == [mem[0], 0, 0, 0]
  {
    PowersOf256();
    hide BE, Val;
    if len == 4 {
      BEOfVal(mem[..4]);
      UpperHalfRead(mem[..4]);
      assert mem[..4][..2] == mem[..2];
      UpperHalf(Val(mem[..2]));
      TwoValue(mem[..2]);
      UpperOctetRead(mem[..4]);
      UpperOctet(mem[0]);
    } else if len == 8 {
      BEOfVal(mem[..8]);
    }
  }

  lemma MaskKeepsFamily(a: Address, id: Octets16)
    ensures MaskAddress(a, id).V6? <==> a.V6?
  {
    hide Xor;
  }

  lemma {:induction false} TypesRead(b: Bytes)
    requires |b| % 2 == 0
    ensures 2 * |ReadTypes(b)| == |b|
  {
    if b != [] {
      TypesRead(b[2..]);
    }
  }

  lemma TwoValue(b: Bytes)
    requires |b| == 2
    ensures Val(b) == 0x100 * (b[0] as int) + b[1] as int
  {
    assert Val(b[..1]) == 256 * Val(b[..1][..0]) + b[0] && Val([]) == 0;
  }

  // ---------------------------------------------------------------- what is accepted can be printed

  ghost predicate TypedState(st: State) {
    && |st.peers| <= 8
    && forall t :: t in st.fields ==> KindOf(t).Some? && Typed(KindOf(t).value, st.fields[t])
  }

  lemma AcceptIsTyped(st: State, id: Octets16, t: nat, mem: Bytes, len: nat, at: nat)
    requires len <= |mem| && TypedState(st) && Accept(st, id, t, mem, len, at).Some?
    ensures TypedState(Accept(st, id, t, mem, len, at).value)
  {
    hide ReadValue, Typed, KindOf;
    if t == XOR_PEER_ADDRESS {
    } else if KindOf(Slot(t)).Some? && ReadValue(KindOf(Slot(t)).value, mem, len, id).Some? {
      ReadIsPrinted(KindOf(Slot(t)).value, mem, len, id);
    }
  }

  lemma {:induction false} ParseIsTyped(id: Octets16, body: Bytes, at: nat, st: State)
    requires at <= |body| && TypedState(st) && ParseBody(id, body, at, st).Some?
    ensures TypedState(ParseBody(id, body, at, st).value)
    decreases |body| - at
  {
    hide Accept, Val, TypedState, PadLength;
    if at < |body| {
      var t, len := Val(body[at..at + 2]), Val(body[at + 2..at + 4]);
      AcceptIsTyped(st, id, t, body[at + 4..], len, at + 4);
      ParseIsTyped(id, body, at + 4 + len + PadLength(len), Accept(st, id, t, body[at + 4..], len, at + 4).value);
    }
  }

  /** The header of an accepted buffer: class from bits 4 and 8 of the type, method from its low four, length of the
      rest, cookie and transaction id as they stand. */
  lemma AcceptedHeader(buf: Bytes)
    requires Parse(buf).Some?
    ensures var m := Parse(buf).value.msg;
            && |buf| >= 20 && 0x100 * (buf[2] as int) + buf[3] as int == |buf| - 20
            && m.cls == 0x10 * (buf[1] as int / 0x10 % 2) + 0x100 * (buf[0] as int % 2) && m.verb == buf[1] % 0x10 && m.id == buf[4..20]
  {
    hide ParseBody;
    TwoValue(buf[..2]);
    TwoValue(buf[2..4]);
    TypeBits(buf[0], buf[1]);
  }

  lemma TypeBits(high: nat, low: nat)
    requires low < 0x100
    ensures var t := 0x100 * high + low;
            ClassBits(t) == 0x10 * (low / 0x10 % 2) + 0x100 * (high % 2) && t % 0x10 == low % 0x10
  {
    var t := 0x100 * high + low;
    assert t / 0x10 == 0x10 * high + low / 0x10;
    assert t / 0x100 == high;
    assert (0x10 * high + low / 0x10) % 2 == low / 0x10 % 2;
    assert t % 0x10 == low % 0x10;
  }

  /** Whatever the parser accepts is well-typed: the printer can print it again. */
  lemma AcceptedIsWellTyped(buf: Bytes)
    requires Parse(buf).Some?
    ensures WellTyped(Parse(buf).value.msg)
  {
    var p := Parse(buf).value;
    AcceptedHeader(buf);
    ParseIsTyped(buf[4..20], buf[20..], 0, START);
    AttributeTable();
    hide ParseBody, KindOf, PrintKind, Typed, Val, ClassBits;
    assert p.msg.verb < 16 && p.msg.cls in {0x000, 0x010, 0x100, 0x110};
    forall t | t in p.msg.fields ensures PrintKind(t).Some? && Typed(PrintKind(t).value, p.msg.fields[t]) {
    }
  }

  lemma {:induction false} NothingPrinted(m: Message, order: seq<nat>)
    requires WellTyped(m) && m.peers == [] && forall t :: t in order ==> t !in m.fields
    ensures RawsOf(m, order, []) == []
    decreases |order|
  {
    if order != [] {
      hide WellTyped;
      assert order[0] in order && forall t :: t in order[1..] ==> t in order;
      assert PeerRaws(m.id, []) == [];
      NothingPrinted(m, order[1..]);
    }
  }

  /** A message of one attribute is its header and that attribute. */
  lemma OneAttribute(m: Message, t: nat, hmac: Hmac, crc: Crc)
    requires WellTyped(m) && m.peers == [] && m.fields.Keys == {t} && t in Order()
    requires t != XOR_PEER_ADDRESS && t != MESSAGE_INTEGRITY && t != FINGERPRINT
    ensures var f := Frame(FieldRaw(m, t, []));
            Encode(m, [], [], hmac, crc) == Header(m, |f|) + f
  {
    hide Order, WellTyped, Frame, Header, FieldRaw, RawsOf, Join;
    var before, after := OrderAround(t);
    NothingPrinted(m, before);
    NothingPrinted(m, after);
    RawsAround(m, before, t, after, []);
    var r := FieldRaw(m, t, []);
    JoinOne(r);
    assert [] + ([r] + []) == [r];
    assert Attributes(m, []) == Frame(r);
    assert Signed(m, [], [], hmac) == Frame(r) && Frame(r) + [] == Frame(r);
  }

  /** One whole message, octet for octet: the success response to a refresh. */
  lemma RefreshReplyOctets(m: Message, n: U32, hmac: Hmac, crc: Crc)
    requires m.cls == 0x100 && m.verb == 4 && m.fields == map[0x000D := Number(n)] && m.peers == []
    ensures WellTyped(m)
    ensures Encode(m, [], [], hmac, crc) == ([0x01, 0x04, 0x00, 0x08] + m.id) + ([0x00, 0x0D, 0x00, 0x04] + BE(4, n))
  {
    assert 0x000D != XOR_PEER_ADDRESS && 0x000D != MESSAGE_INTEGRITY && 0x000D != FINGERPRINT;
    hide *;
    LifetimeField(m, n);
    LifetimeFrame(n);
    OneAttribute(m, 0x000D, hmac, crc);
    RefreshHeader(m);
  }

  lemma RefreshHeader(m: Message)
    requires m.cls == 0x100 && m.verb == 4
    ensures Header(m, 8) == [0x01, 0x04, 0x00, 0x08] + m.id
  {
    hide Header, BE;
    HeaderOctets(m, 8);
  }

  lemma LifetimeFrame(n: U32)
    ensures Frame(Raw(0x000D, BE(4, n), [])) == [0x00, 0x0D, 0x00, 0x04] + BE(4, n)
  {
    hide Frame, BE;
    FrameOctets(Raw(0x000D, BE(4, n), []));
    assert [0x00, 0x0D, 0x00, 0x04] + BE(4, n) + [] == [0x00, 0x0D, 0x00, 0x04] + BE(4, n);
  }

  lemma LifetimeField(m: Message, n: U32)
    requires m.cls in {0x000, 0x010, 0x100, 0x110} && m.verb < 16 && m.peers == [] && m.fields == map[0x000D := Number(n)]
    ensures WellTyped(m) && 0x000D in Order() && FieldRaw(m, 0x000D, []) == Raw(0x000D, BE(4, n), [])
  {
    assert Order()[17] == 0x000D;
    hide Order;
    AttributeTable();
    hide KindOf, PrintKind;
  }
}
