/** What the STUN codec promises as a whole. */
module StunTheorems {
  import opened Wire
  import opened Stun
  import opened StunCodec

  // ---------------------------------------------------------------- when the round trip fails

  lemma {:induction false} RawsOfConcat(m: Message, a: seq<nat>, b: seq<nat>, junk: Bytes)
    requires WellTyped(m)
    ensures RawsOf(m, a + b, junk) == RawsOf(m, a, junk) + RawsOf(m, b, junk)
  {
    if a == [] {
      assert a + b == b;
    } else {
      assert (a + b)[0] == a[0] && (a + b)[1..] == a[1..] + b;
      RawsOfConcat(m, a[1..], b, junk);
    }
  }

  lemma RejectReason(st: State, m: Message, junk: Bytes, at: nat)
    requires WellTyped(m) && !ReasonFits(m) && ERROR_CODE !in st.fields
    ensures AcceptAll(st, m.id, RawsFor(m, ERROR_CODE, junk), at) == None
  {
    var r := FieldRaw(m, ERROR_CODE, junk);
    assert RawsFor(m, ERROR_CODE, junk) == [r];
    assert AcceptRaw(st, m.id, r, at) == None;
  }

  /** Where an attribute stands in the printing order. */
  lemma OrderAround(t: nat) returns (before: seq<nat>, after: seq<nat>)
    requires t in Order()
    ensures Order() == before + [t] + after
    ensures t !in before && t !in after && Distinct(before) && Distinct(after)
    ensures Ready(START, before)
  {
    hide Order, PrintKind;
    OrderIsComplete();
    before, after := Around(Order(), t);
  }

  lemma Around(order: seq<nat>, t: nat) returns (before: seq<nat>, after: seq<nat>)
    requires t in order && Distinct(order)
    ensures order == before + [t] + after
    ensures t !in before && t !in after && Distinct(before) && Distinct(after)
    ensures forall x :: x in before || x in after ==> x in order
    ensures Ready(START, order) ==> Ready(START, before)
  {
    var i :| 0 <= i < |order| && order[i] == t;
    before, after := order[..i], order[i + 1..];
  }

  lemma RawsAround(m: Message, before: seq<nat>, t: nat, after: seq<nat>, junk: Bytes)
    requires WellTyped(m)
    ensures RawsOf(m, before + [t] + after, junk) ==
            RawsOf(m, before, junk) + (RawsFor(m, t, junk) + RawsOf(m, after, junk))
  {
    assert RawsOf(m, [t], junk) == RawsFor(m, t, junk) + RawsOf(m, [t][1..], junk);
    hide RawsFor, RawsOf, WellTyped;
    RawsOfConcat(m, before + [t], after, junk);
    RawsOfConcat(m, before, [t], junk);
  }

  lemma RejectOrder(m: Message, before: seq<nat>, after: seq<nat>, junk: Bytes, tail: seq<Raw>)
    requires WellTyped(m) && !ReasonFits(m)
    requires Distinct(before) && Ready(START, before) && ERROR_CODE !in before
    ensures AcceptAll(START, m.id, RawsOf(m, before + [ERROR_CODE] + after, junk) + tail, 0) == None
  {
    hide AcceptAll, WellTyped, Ready, Distinct, AbsorbAll, RawsOf, RawsFor, Join, ReasonFits;
    AcceptOrder(START, m, before, junk, 0);
    AbsorbAllFields(START, m, before);
    RawsAround(m, before, ERROR_CODE, after, junk);
    var a, e, b := RawsOf(m, before, junk), RawsFor(m, ERROR_CODE, junk), RawsOf(m, after, junk);
    assert a + (e + b) + tail == a + (e + (b + tail));
    AcceptAllConcat(START, m.id, a, e + (b + tail), 0);
    var st := AbsorbAll(START, m, before);
    AcceptAllConcat(st, m.id, e, b + tail, |Join(a)|);
    RejectReason(st, m, junk, |Join(a)|);
  }

  lemma RejectAll(m: Message, key: Bytes, junk: Bytes, hmac: Hmac, crc: Crc)
    requires WellTyped(m) && !ReasonFits(m)
    ensures AcceptAll(START, m.id, AllRaws(m, key, junk, hmac, crc), 0) == None
  {
    var before, after := OrderAround(ERROR_CODE);
    hide Order, WellTyped, ReasonFits, AcceptAll, RawsOf, Ready, Distinct, Mac, Checksum, TailRaws;
    RejectOrder(m, before, after, junk, TailRaws(m, Mac(m, key, junk, hmac), Checksum(m, key, junk, hmac, crc)));
  }

  /** Printing never checks the reason's length, parsing does: the round trip succeeds exactly when it fits. */
  lemma RoundTripExactlyWhenReasonFits(m: Message, key: Bytes, junk: Bytes, hmac: Hmac, crc: Crc)
    requires WellTyped(m) && BodyLength(m, junk) < 0x1_0000
    ensures Parse(Encode(m, key, junk, hmac, crc)).Some? <==> ReasonFits(m)
  {
    hide Encode, Parse, BodyLength, WellTyped, ReasonFits, AcceptAll, AllRaws;
    if ReasonFits(m) {
      RoundTrip(m, key, junk, hmac, crc);
    } else {
      ParseEncoded(m, key, junk, hmac, crc);
      RejectAll(m, key, junk, hmac, crc);
    }
  }

  // ---------------------------------------------------------------- integrity and fingerprint

  /** checkMessageIntegrity as a function of the stored buffer: the hash is recomputed over everything before
      the attribute, with the header length set back to where the attribute ends. */
  ghost predicate IntegrityHolds(p: Parsed, buf: Bytes, key: Bytes, hmac: Hmac)
    requires MESSAGE_INTEGRITY in p.msg.fields ==>
               p.msg.fields[MESSAGE_INTEGRITY].Text? && 24 <= p.integrityLength <= |buf| - 20
  {
    MESSAGE_INTEGRITY in p.msg.fields ==>
      p.msg.fields[MESSAGE_INTEGRITY].text ==
      hmac(key, (buf[..2] + BE(2, p.integrityLength) + buf[4..])[..p.integrityLength - 24 + 20])
  }

  ghost predicate FingerprintHolds(p: Parsed, buf: Bytes, crc: Crc)
    requires |buf| >= 8
  {
    FINGERPRINT in p.msg.fields ==>
      p.msg.fields[FINGERPRINT] == Number(XorU32(crc(buf[..|buf| - 8]), CRC_FINAL_XOR))
  }

  lemma PatchedPrefix(m: Message, wrong: nat, right: nat, attributes: Bytes, rest: Bytes)
    ensures var buf := Header(m, wrong) + (attributes + rest);
            (buf[..2] + BE(2, right) + buf[4..])[..20 + |attributes|] == Header(m, right) + attributes
  {
    var buf := Header(m, wrong) + (attributes + rest);
    assert buf[..2] == BE(2, m.cls + m.verb) && buf[4..] == m.id + (attributes + rest);
  }

  lemma EncodedIntegrity(m: Message, key: Bytes, junk: Bytes, hmac: Hmac, crc: Crc)
    requires WellTyped(m) && MESSAGE_INTEGRITY in m.fields
    ensures var buf := Encode(m, key, junk, hmac, crc);
            var end := IntegrityEnd(m, junk);
            && 24 <= end <= |buf| - 20
            && (buf[..2] + BE(2, end) + buf[4..])[..end - 24 + 20] == Header(m, end) + Attributes(m, junk)
  {
    hide WellTyped, Attributes, Frame, Header, Mac, Checksum;
    var a := Attributes(m, junk);
    var fp := if FINGERPRINT in m.fields then Frame(FingerprintRaw(Checksum(m, key, junk, hmac, crc))) else [];
    var rest := Frame(IntegrityRaw(Mac(m, key, junk, hmac))) + fp;
    assert Encode(m, key, junk, hmac, crc) == Header(m, BodyLength(m, junk)) + (a + rest);
    PatchedPrefix(m, BodyLength(m, junk), IntegrityEnd(m, junk), a, rest);
  }

  lemma EncodedFingerprint(m: Message, key: Bytes, junk: Bytes, hmac: Hmac, crc: Crc)
    requires WellTyped(m) && FINGERPRINT in m.fields
    ensures var buf := Encode(m, key, junk, hmac, crc);
            |buf| >= 8 && XorU32(crc(buf[..|buf| - 8]), CRC_FINAL_XOR) == Checksum(m, key, junk, hmac, crc)
  {
    hide WellTyped, Header, Signed;
    var covered := Header(m, BodyLength(m, junk)) + Signed(m, key, junk, hmac);
    var fp := Frame(FingerprintRaw(Checksum(m, key, junk, hmac, crc)));
    var buf := Encode(m, key, junk, hmac, crc);
    assert buf == covered + fp && |fp| == 8;
    assert buf[..|buf| - 8] == covered;
  }

  /** For any keyed hash and any checksum, what the printer wrote passes both checks of a receiver that
      holds the same key, with or without a fingerprint after the hash. */
  lemma SelfVerification(m: Message, key: Bytes, junk: Bytes, hmac: Hmac, crc: Crc)
    requires WellTyped(m) && BodyLength(m, junk) < 0x1_0000 && ReasonFits(m)
    ensures var buf := Encode(m, key, junk, hmac, crc);
            && Parse(buf).Some? && |buf| >= 20
            && var p := Parse(buf).value;
            && (MESSAGE_INTEGRITY in p.msg.fields ==>
                  p.msg.fields[MESSAGE_INTEGRITY].Text? && 24 <= p.integrityLength <= |buf| - 20)
            && IntegrityHolds(p, buf, key, hmac)
            && FingerprintHolds(p, buf, crc)
  {
    hide WellTyped, Parse, Attributes, Header, Encode, BodyLength, IntegrityEnd, Checksum, ReasonFits;
    RoundTrip(m, key, junk, hmac, crc);
    var buf := Encode(m, key, junk, hmac, crc);
    assert |buf| >= 20 by { EncodeIsFramed(m, key, junk, hmac, crc); }
    if MESSAGE_INTEGRITY in m.fields {
      EncodedIntegrity(m, key, junk, hmac, crc);
    }
    if FINGERPRINT in m.fields {
      EncodedFingerprint(m, key, junk, hmac, crc);
    }
  }

  // ---------------------------------------------------------------- what an accepted buffer says

  /** The first attribute that fills a field. */
  function FirstFor(rs: seq<Raw>, slot: nat): Option<Raw> {
    if rs == [] then None
    else if Slot(rs[0].number) == slot && rs[0].number != XOR_PEER_ADDRESS then Some(rs[0])
    else FirstFor(rs[1..], slot)
  }

  function UnknownRequired(rs: seq<Raw>): seq<nat> {
    if rs == [] then []
    else (if IsUnknownRequired(rs[0]) then [rs[0].number] else []) + UnknownRequired(rs[1..])
  }

  function PeerAttributes(rs: seq<Raw>): seq<Raw> {
    if rs == [] then []
    else (if rs[0].number == XOR_PEER_ADDRESS then [rs[0]] else []) + PeerAttributes(rs[1..])
  }

  function Upto<T>(s: seq<T>, n: nat): seq<T> {
    if |s| > n then s[..n] else s
  }

  /** Each field holds the reading of the first attribute for it, and nothing else is in the map. */
  ghost predicate FieldsAre(fields: map<nat, Value>, base: map<nat, Value>, rs: seq<Raw>, id: Octets16) {
    && (forall t :: t in fields <==> t in base || (KindOf(t).Some? && FirstFor(rs, t).Some?))
    && (forall t :: t in base ==> t in fields && fields[t] == base[t])
    && (forall t :: t in fields && t !in base ==>
          Some(fields[t]) == ReadValue(KindOf(t).value, FirstFor(rs, t).value.value, |FirstFor(rs, t).value.value|, id))
  }

  lemma StepFields(st: State, id: Octets16, r: Raw, at: nat)
    requires AcceptRaw(st, id, r, at).Some?
    ensures var st', t := AcceptRaw(st, id, r, at).value, Slot(r.number);
            if r.number == XOR_PEER_ADDRESS || KindOf(t).None? || t in st.fields then st'.fields == st.fields
            else ReadValue(KindOf(t).value, r.value, |r.value|, id).Some?
                 && st'.fields == st.fields[t := ReadValue(KindOf(t).value, r.value, |r.value|, id).value]
  {
    hide ReadValue, KindOf;
  }

  /** What the loop leaves in one field. */
  lemma {:induction false} FieldAfter(st: State, id: Octets16, rs: seq<Raw>, at: nat, t: nat)
    requires AcceptAll(st, id, rs, at).Some?
    ensures var f := AcceptAll(st, id, rs, at).value.fields;
            if t in st.fields then t in f && f[t] == st.fields[t]
            else if KindOf(t).None? || FirstFor(rs, t).None? then t !in f
            else var r := FirstFor(rs, t).value;
                 t in f && Some(f[t]) == ReadValue(KindOf(t).value, r.value, |r.value|, id)
    decreases |rs|
  {
    if rs != [] {
      hide ReadValue, KindOf, Frame, AcceptRaw, Slot;
      StepFields(st, id, rs[0], at);
      var st' := AcceptRaw(st, id, rs[0], at).value;
      FieldAfter(st', id, rs[1..], at + |Frame(rs[0])|, t);
    }
  }

  lemma AcceptedFields(st: State, id: Octets16, rs: seq<Raw>, at: nat)
    requires AcceptAll(st, id, rs, at).Some?
    ensures FieldsAre(AcceptAll(st, id, rs, at).value.fields, st.fields, rs, id)
  {
    hide ReadValue, KindOf, AcceptAll, FirstFor;
    forall t { FieldAfter(st, id, rs, at, t); }
  }

  predicate IsUnknownRequired(r: Raw) {
    r.number != XOR_PEER_ADDRESS && KindOf(Slot(r.number)).None? && r.number <= 0x7FFF
  }

  lemma StepUnknown(st: State, id: Octets16, r: Raw, at: nat)
    requires AcceptRaw(st, id, r, at).Some?
    ensures AcceptRaw(st, id, r, at).value.unknown ==
            if IsUnknownRequired(r) && |st.unknown| < MAX_UNKNOWN_ATTRIBUTES then st.unknown + [r.number] else st.unknown
  {
    hide ReadValue, KindOf;
  }

  lemma UptoGrows<T>(s: seq<T>, x: T, tail: seq<T>, n: nat)
    requires |s| <= n
    ensures Upto(s + ([x] + tail), n) == Upto((if |s| < n then s + [x] else s) + tail, n)
  {
    assert s + ([x] + tail) == s + [x] + tail;
    if |s| == n {
      assert (s + ([x] + tail))[..n] == s == (s + tail)[..n];
      assert Upto(s + tail, n) == s;
    }
  }

  lemma {:induction false} AcceptedUnknown(st: State, id: Octets16, rs: seq<Raw>, at: nat)
    requires AcceptAll(st, id, rs, at).Some? && |st.unknown| <= MAX_UNKNOWN_ATTRIBUTES
    ensures AcceptAll(st, id, rs, at).value.unknown == Upto(st.unknown + UnknownRequired(rs), MAX_UNKNOWN_ATTRIBUTES)
    decreases |rs|
  {
    hide Frame, AcceptRaw, IsUnknownRequired;
    if rs == [] {
      assert st.unknown + [] == st.unknown;
    } else {
      var r, st' := rs[0], AcceptRaw(st, id, rs[0], at).value;
      StepUnknown(st, id, r, at);
      var tail := UnknownRequired(rs[1..]);
      assert UnknownRequired(rs) == if IsUnknownRequired(r) then [r.number] + tail else [] + tail;
      assert [] + tail == tail;
      UptoGrows(st.unknown, r.number, tail, MAX_UNKNOWN_ATTRIBUTES);
      hide Upto, UnknownRequired;
      AcceptedUnknown(st', id, rs[1..], at + |Frame(r)|);
    }
  }

  lemma StepPeers(st: State, id: Octets16, r: Raw, at: nat)
    requires AcceptRaw(st, id, r, at).Some?
    ensures var peers := AcceptRaw(st, id, r, at).value.peers;
            if r.number == XOR_PEER_ADDRESS && |st.peers| < MAX_XOR_PEER_ADDRESSES
            then |peers| == |st.peers| + 1 && st.peers <= peers
                 && ReadValue(Masked, r.value, |r.value|, id) == Some(AddressValue(peers[|st.peers|]))
            else peers == st.peers
  {
    hide KindOf, ReadAddress;
  }

  predicate PeersRead(peers: seq<Address>, kept: seq<Raw>, id: Octets16) {
    |peers| == |kept| && forall i :: 0 <= i < |kept| ==>
      ReadValue(Masked, kept[i].value, |kept[i].value|, id) == Some(AddressValue(peers[i]))
  }

  lemma UptoCons<T>(x: T, tail: seq<T>, n: nat)
    requires n > 0
    ensures Upto([x] + tail, n) == [x] + Upto(tail, n - 1)
  {
  }

  lemma PeersReadCons(r: Raw, x: Address, kept: seq<Raw>, peers: seq<Address>, id: Octets16)
    requires ReadValue(Masked, r.value, |r.value|, id) == Some(AddressValue(x)) && PeersRead(peers, kept, id)
    ensures PeersRead([x] + peers, [r] + kept, id)
  {
    hide ReadValue;
  }

  lemma KeptPeers(rs: seq<Raw>, n: nat)
    requires rs != []
    ensures var kept := Upto(PeerAttributes(rs), n);
            if rs[0].number == XOR_PEER_ADDRESS && n > 0 then kept == [rs[0]] + Upto(PeerAttributes(rs[1..]), n - 1)
            else kept == Upto(PeerAttributes(rs[1..]), n)
  {
    var tail := PeerAttributes(rs[1..]);
    if rs[0].number == XOR_PEER_ADDRESS {
      assert PeerAttributes(rs) == [rs[0]] + tail;
      if n > 0 {
        UptoCons(rs[0], tail, n);
      }
    } else {
      assert PeerAttributes(rs) == tail;
    }
  }

  lemma {:induction false} AcceptedPeers(st: State, id: Octets16, rs: seq<Raw>, at: nat)
    requires AcceptAll(st, id, rs, at).Some? && |st.peers| <= MAX_XOR_PEER_ADDRESSES
    ensures var peers := AcceptAll(st, id, rs, at).value.peers;
            && st.peers <= peers
            && PeersRead(peers[|st.peers|..], Upto(PeerAttributes(rs), MAX_XOR_PEER_ADDRESSES - |st.peers|), id)
    decreases |rs|
  {
    hide Frame, AcceptRaw, ReadValue;
    if rs != [] {
      var r, st' := rs[0], AcceptRaw(st, id, rs[0], at).value;
      var all := AcceptAll(st, id, rs, at).value.peers;
      assert all == AcceptAll(st', id, rs[1..], at + |Frame(r)|).value.peers;
      KeptPeers(rs, MAX_XOR_PEER_ADDRESSES - |st.peers|);
      StepPeers(st, id, r, at);
      AcceptedPeers(st', id, rs[1..], at + |Frame(r)|);
      hide *;
      var n := MAX_XOR_PEER_ADDRESSES - |st.peers|;
      if r.number == XOR_PEER_ADDRESS && n > 0 {
        var x := st'.peers[|st.peers|];
        PeersReadCons(r, x, Upto(PeerAttributes(rs[1..]), n - 1), all[|st'.peers|..], id);
        assert all[|st.peers|..] == [x] + all[|st'.peers|..];
      }
    }
  }

  lemma FrameInjective(a: Raw, b: Raw, restA: Bytes, restB: Bytes)
    requires WellFramed(a) && WellFramed(b) && Frame(a) + restA == Frame(b) + restB
    ensures a == b && restA == restB
  {
    var all := [] + (Frame(a) + restA);
    FrameFields(a, [], restA);
    FrameFields(b, [], restB);
    hide Frame, Val;
    var tailA, tailB := a.pad + restA, b.pad + restB;
    assert a.value + tailA == b.value + tailB && |a.value| == |b.value| && |a.pad| == |b.pad|;
    SplitConcat(a.value, tailA);
    SplitConcat(b.value, tailB);
    SplitConcat(a.pad, restA);
    SplitConcat(b.pad, restB);
  }

  lemma {:induction false} TilingUnique(a: seq<Raw>, b: seq<Raw>)
    requires forall r :: r in a || r in b ==> WellFramed(r)
    requires Join(a) == Join(b)
    ensures a == b
  {
    hide Frame, WellFramed;
    if a != [] && b != [] {
      FrameInjective(a[0], b[0], Join(a[1..]), Join(b[1..]));
      TilingUnique(a[1..], b[1..]);
      assert a == [a[0]] + a[1..] && b == [b[0]] + b[1..];
    }
  }

  /** Every accepted buffer is a header followed by exactly one tiling into padded attributes. When its IPv6
      addresses carry their own length, each field holds its first occurrence, the peers are the first eight
      peer attributes and the unknown list the first eight unknown required numbers, in order. */
  lemma AcceptedBufferTiles(buf: Bytes) returns (rs: seq<Raw>)
    requires Parse(buf).Some?
    ensures buf[20..] == Join(rs) && forall r :: r in rs ==> WellFramed(r)
    ensures forall other: seq<Raw> :: buf[20..] == Join(other) && (forall r :: r in other ==> WellFramed(r)) ==> other == rs
    ensures (forall r :: r in rs ==> SelfContained(r)) ==>
              var p := Parse(buf).value;
              && FieldsAre(p.msg.fields, map[], rs, p.msg.id)
              && p.unknown == Upto(UnknownRequired(rs), MAX_UNKNOWN_ATTRIBUTES)
              && PeersRead(p.msg.peers, Upto(PeerAttributes(rs), MAX_XOR_PEER_ADDRESSES), p.msg.id)
  {
    var id: Octets16 := buf[4..20];
    rs := AcceptedBodyTiles(id, buf[20..], 0, START);
    assert buf[20..][0..] == buf[20..];
    forall other: seq<Raw> | buf[20..] == Join(other) && forall r :: r in other ==> WellFramed(r)
      ensures other == rs
    {
      TilingUnique(other, rs);
    }
    if forall r :: r in rs ==> SelfContained(r) {
      hide AcceptAll, ParseBody, FieldsAre, UnknownRequired, PeerAttributes, PeersRead, Join;
      ParseJoin(id, [], rs, START);
      assert [] + Join(rs) == buf[20..];
      AcceptedFields(START, id, rs, 0);
      AcceptedUnknown(START, id, rs, 0);
      AcceptedPeers(START, id, rs, 0);
      assert START.unknown + UnknownRequired(rs) == UnknownRequired(rs);
    }
  }

  // ---------------------------------------------------------------- octets the printer does not write

  /** The printer leaves no gap: no UNKNOWN-ATTRIBUTES list of odd length, whose padding it skips unwritten. */
  predicate NoGap(m: Message) {
    UNKNOWN_ATTRIBUTE in m.fields && m.fields[UNKNOWN_ATTRIBUTE].TypeList? ==>
      |m.fields[UNKNOWN_ATTRIBUTE].types| % 2 == 0
  }

  lemma RawsForIgnoreJunk(m: Message, t: nat, j1: Bytes, j2: Bytes)
    requires WellTyped(m) && (t == UNKNOWN_ATTRIBUTE ==> NoGap(m))
    ensures RawsFor(m, t, j1) == RawsFor(m, t, j2)
  {
    if t == UNKNOWN_ATTRIBUTE && t in m.fields {
      assert PrintKind(UNKNOWN_ATTRIBUTE) == Some(TypeVector);
      assert PadLength(2 * |m.fields[t].types|) == 0;
    }
  }

  lemma {:induction false} RawsIgnoreJunk(m: Message, order: seq<nat>, j1: Bytes, j2: Bytes)
    requires WellTyped(m) && (UNKNOWN_ATTRIBUTE in order ==> NoGap(m))
    ensures RawsOf(m, order, j1) == RawsOf(m, order, j2)
  {
    hide RawsFor, WellTyped, NoGap;
    if order != [] {
      RawsForIgnoreJunk(m, order[0], j1, j2);
      RawsIgnoreJunk(m, order[1..], j1, j2);
    }
  }

  lemma FramesDiffer(a: Bytes, r0: Raw, r1: Raw, c: Bytes)
    requires r0.value == r1.value && r0.pad == [0, 0] && r1.pad == [1, 1]
    ensures a + (Frame(r0) + c) != a + (Frame(r1) + c)
  {
    var i := |a| + 4 + |r0.value|;
    assert (a + (Frame(r0) + c))[i] == 0 && (a + (Frame(r1) + c))[i] == 1;
  }

  lemma GapShows(m: Message)
    requires WellTyped(m) && !NoGap(m)
    ensures Attributes(m, [0, 0]) != Attributes(m, [1, 1])
    ensures |Attributes(m, [0, 0])| == |Attributes(m, [1, 1])|
  {
    var before, after := OrderAround(UNKNOWN_ATTRIBUTE);
    hide Order, WellTyped, RawsOf, Join, Frame;
    OddListPad(m);
    hide FieldRaw;
    RawsIgnoreJunk(m, before, [0, 0], [1, 1]);
    RawsIgnoreJunk(m, after, [0, 0], [1, 1]);
    JoinAround(m, before, after, [0, 0]);
    JoinAround(m, before, after, [1, 1]);
    FramesDiffer(Join(RawsOf(m, before, [0, 0])), FieldRaw(m, UNKNOWN_ATTRIBUTE, [0, 0]),
                 FieldRaw(m, UNKNOWN_ATTRIBUTE, [1, 1]), Join(RawsOf(m, after, [0, 0])));
  }

  lemma OddListPad(m: Message)
    requires WellTyped(m) && !NoGap(m)
    ensures var f0, f1 := FieldRaw(m, UNKNOWN_ATTRIBUTE, [0, 0]), FieldRaw(m, UNKNOWN_ATTRIBUTE, [1, 1]);
            f0.value == f1.value && f0.pad == [0, 0] && f1.pad == [1, 1]
  {
    assert PrintKind(UNKNOWN_ATTRIBUTE) == Some(TypeVector);
    var n := 2 * |m.fields[UNKNOWN_ATTRIBUTE].types|;
    assert n % 4 == 2;
    assert [0, 0][..2] == [0, 0] && [1, 1][..2] == [1, 1];
  }

  lemma JoinAround(m: Message, before: seq<nat>, after: seq<nat>, junk: Bytes)
    requires WellTyped(m) && UNKNOWN_ATTRIBUTE in m.fields
    ensures Join(RawsOf(m, before + [UNKNOWN_ATTRIBUTE] + after, junk)) ==
            Join(RawsOf(m, before, junk)) + (Frame(FieldRaw(m, UNKNOWN_ATTRIBUTE, junk)) + Join(RawsOf(m, after, junk)))
  {
    RawsAround(m, before, UNKNOWN_ATTRIBUTE, after, junk);
    var r := FieldRaw(m, UNKNOWN_ATTRIBUTE, junk);
    JoinConcat(RawsOf(m, before, junk), [r] + RawsOf(m, after, junk));
    JoinConcat([r], RawsOf(m, after, junk));
    JoinOne(r);
  }

  lemma EncodeFromAttributes(m: Message, key: Bytes, j1: Bytes, j2: Bytes, hmac: Hmac, crc: Crc)
    requires WellTyped(m) && Attributes(m, j1) == Attributes(m, j2)
    ensures Encode(m, key, j1, hmac, crc) == Encode(m, key, j2, hmac, crc)
  {
    hide WellTyped, Attributes, Header, Frame;
  }

  lemma AttributesOfEncoding(m: Message, key: Bytes, junk: Bytes, hmac: Hmac, crc: Crc)
    requires WellTyped(m)
    ensures var a := Attributes(m, junk);
            var e := Encode(m, key, junk, hmac, crc);
            20 + |a| <= |e| && e[20..20 + |a|] == a
  {
    hide WellTyped, Attributes, Header, Frame, Mac, Checksum;
  }

  /** Two printings of one message agree octet for octet, whatever their buffers held before, exactly when
      no UNKNOWN-ATTRIBUTES list of odd length is present. */
  lemma PrintingIsDeterminedExactlyWhenNoGap(m: Message, key: Bytes, hmac: Hmac, crc: Crc)
    requires WellTyped(m)
    ensures NoGap(m) <==> forall j1: Bytes, j2: Bytes ::
              Encode(m, key, j1, hmac, crc) == Encode(m, key, j2, hmac, crc)
  {
    hide Order, WellTyped, RawsOf, Encode, NoGap, Join;
    if NoGap(m) {
      forall j1: Bytes, j2: Bytes ensures Encode(m, key, j1, hmac, crc) == Encode(m, key, j2, hmac, crc) {
        RawsIgnoreJunk(m, Order(), j1, j2);
        EncodeFromAttributes(m, key, j1, j2, hmac, crc);
      }
    } else {
      GapShows(m);
      AttributesOfEncoding(m, key, [0, 0], hmac, crc);
      AttributesOfEncoding(m, key, [1, 1], hmac, crc);
    }
  }

  // ---------------------------------------------------------------- the Data indication

  /** What TurnAllocation.sendDataToClient builds for a peer without a channel. */
  function DataIndication(id: Octets16, peer: Address, data: Bytes): (m: Message)
    ensures WellTyped(m)
  {
    Message(0x010, 7, id, map[DATA := Text(data)], [peer])
  }

  lemma {:induction false} NoRaws(m: Message, order: seq<nat>, junk: Bytes)
    requires WellTyped(m) && forall t :: t in order ==> t != XOR_PEER_ADDRESS && t !in m.fields
    ensures RawsOf(m, order, junk) == []
  {
    if order != [] {
      assert order[0] in order && forall x :: x in order[1..] ==> x in order;
      NoRaws(m, order[1..], junk);
    }
  }

  lemma PeersThenData() returns (before: seq<nat>, after: seq<nat>)
    ensures Order() == before + [XOR_PEER_ADDRESS] + ([DATA] + after)
    ensures forall t :: t in before || t in after ==> t != XOR_PEER_ADDRESS && t != DATA
  {
    before, after := Order()[..19], Order()[21..];
    forall t | t in before ensures t != XOR_PEER_ADDRESS && t != DATA {
      var i :| 0 <= i < |before| && before[i] == t;
      RankOfOrder(i);
    }
    forall t | t in after ensures t != XOR_PEER_ADDRESS && t != DATA {
      var i :| 0 <= i < |after| && after[i] == t;
      RankOfOrder(21 + i);
    }
  }

  lemma DataIndicationRaws(id: Octets16, peer: Address, data: Bytes, junk: Bytes)
    ensures RawsOf(DataIndication(id, peer, data), Order(), junk) ==
            [PeerRaw(id, peer), Raw(DATA, data, Zeros(PadLength(|data|)))]
  {
    hide Order;
    var m := DataIndication(id, peer, data);
    var before, after := PeersThenData();
    DataRaw(m, data, junk);
    PeersRaw(m, peer, junk);
    hide PrintKind, WellTyped, RawsFor;
    NoRaws(m, before, junk);
    NoRaws(m, after, junk);
    NoRaws(m, [], junk);
    RawsAround(m, before, XOR_PEER_ADDRESS, [DATA] + after, junk);
    RawsAround(m, [], DATA, after, junk);
    assert [] + [DATA] + after == [DATA] + after;
  }

  lemma DataRaw(m: Message, data: Bytes, junk: Bytes)
    requires WellTyped(m) && DATA in m.fields && m.fields[DATA] == Text(data)
    ensures RawsFor(m, DATA, junk) == [Raw(DATA, data, Zeros(PadLength(|data|)))]
  {
    assert PrintKind(DATA) == Some(Blob);
  }

  lemma PeersRaw(m: Message, peer: Address, junk: Bytes)
    requires WellTyped(m) && m.peers == [peer]
    ensures RawsFor(m, XOR_PEER_ADDRESS, junk) == [PeerRaw(m.id, peer)]
  {
    assert PeerRaws(m.id, [peer][1..]) == [];
  }

  /** The exact length of an encoded Data indication; the buffer allocated for it, payload plus 52 octets,
      is never too small. */
  lemma DataIndicationFits(id: Octets16, peer: Address, data: Bytes, key: Bytes, junk: Bytes, hmac: Hmac, crc: Crc)
    ensures var n := |Encode(DataIndication(id, peer, data), key, junk, hmac, crc)|;
            && n == 20 + (if peer.V6? then 24 else 12) + 4 + |data| + PadLength(|data|)
            && n <= |data| + 8 + 36 + 8
  {
    DataIndicationRaws(id, peer, data, junk);
    var m := DataIndication(id, peer, data);
    var p, d := PeerRaw(id, peer), Raw(DATA, data, Zeros(PadLength(|data|)));
    assert |p.value| == if peer.V6? then 20 else 8;
    hide Order, RawsOf, WellTyped, Frame, PeerRaw;
    assert [p, d] == [p] + [d];
    JoinConcat([p], [d]);
    JoinOne(p);
    JoinOne(d);
    EncodeIsFramed(m, key, junk, hmac, crc);
  }
}
