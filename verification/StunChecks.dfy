/** What the integrity and fingerprint checks accept and refuse, read off the octets of the buffer. */
module StunChecks {
  import opened Wire
  import opened Stun
  import opened StunCodec
  import opened StunTheorems
  import opened StunBuffer
  import opened StunWire

  // ---------------------------------------------------------------- where the hash was read

  /** The hash held so far, if any, is the 20 octets that end at the recorded place in the body. */
  ghost predicate HashRead(st: State, body: Bytes) {
    MESSAGE_INTEGRITY in st.fields ==>
      20 <= st.integrityLength <= |body| && st.fields[MESSAGE_INTEGRITY] == Text(body[st.integrityLength - 20..st.integrityLength])
  }

  lemma AcceptReadsHash(st: State, id: Octets16, t: nat, body: Bytes, len: nat, at: nat)
    requires at + len <= |body| && HashRead(st, body) && Accept(st, id, t, body[at..], len, at).Some?
    ensures HashRead(Accept(st, id, t, body[at..], len, at).value, body)
  {
    assert KindOf(MESSAGE_INTEGRITY) == Some(Hash) && Slot(MESSAGE_INTEGRITY) == MESSAGE_INTEGRITY;
    OnlyHash(Slot(t));
    if t == MESSAGE_INTEGRITY && len == 20 {
      assert body[at..][..20] == body[at..at + 20];
    }
    hide KindOf, ReadAddress, ReadTypes;
  }

  lemma OnlyHash(t: nat)
    ensures KindOf(t) == Some(Hash) ==> t == MESSAGE_INTEGRITY
    ensures t != XOR_MAPPED_ADDRESS_OLD && Slot(t) == MESSAGE_INTEGRITY ==> t == MESSAGE_INTEGRITY
  {
  }

  lemma {:induction false} ParseReadsHash(id: Octets16, body: Bytes, at: nat, st: State)
    requires at <= |body| && HashRead(st, body) && ParseBody(id, body, at, st).Some?
    ensures HashRead(ParseBody(id, body, at, st).value, body)
    decreases |body| - at
  {
    hide Accept, Val, HashRead, PadLength;
    if at < |body| {
      var t, len := Val(body[at..at + 2]), Val(body[at + 2..at + 4]);
      AcceptReadsHash(st, id, t, body, len, at + 4);
      ParseReadsHash(id, body, at + 4 + len + PadLength(len), Accept(st, id, t, body[at + 4..], len, at + 4).value);
    }
  }

  // ---------------------------------------------------------------- the checks, by octets

  /** What the hash of an accepted buffer must cover: everything up to the attribute, with the length of a message that
      ends with it. */
  function Covered(buf: Bytes, end: nat): Bytes
    requires 24 <= end <= |buf| - 20 && end < 0x1_0000
  {
    buf[..2] + [end / 0x100, end % 0x100] + buf[4..end - 4]
  }

  /** For any accepted buffer with a hash: the check holds if and only if the hash's 20 octets are the HMAC, under the
      key, of what it must cover. Without a hash it holds. */
  lemma IntegrityHoldsExactlyWhen(buf: Bytes, key: Bytes, hmac: Hmac)
    requires Parse(buf).Some?
    ensures var p := Parse(buf).value;
            MESSAGE_INTEGRITY in p.msg.fields ==>
              && 24 <= p.integrityLength <= |buf| - 20 && p.integrityLength < 0x1_0000
              && p.msg.fields[MESSAGE_INTEGRITY].Text?
              && (IntegrityHolds(p, buf, key, hmac) <==>
                    buf[p.integrityLength..p.integrityLength + 20] == hmac(key, Covered(buf, p.integrityLength)))
    ensures MESSAGE_INTEGRITY !in Parse(buf).value.msg.fields ==> IntegrityHolds(Parse(buf).value, buf, key, hmac)
  {
    hide Parse, BE, Covered;
    var p := Parse(buf).value;
    if MESSAGE_INTEGRITY in p.msg.fields {
      HashIsThere(buf);
      TwoOctets(p.integrityLength);
      PatchedIsCovered(buf, p.integrityLength);
    }
  }

  lemma HashIsThere(buf: Bytes)
    requires Parse(buf).Some? && MESSAGE_INTEGRITY in Parse(buf).value.msg.fields
    ensures var (m, end) := (Parse(buf).value.msg, Parse(buf).value.integrityLength);
            && 24 <= end <= |buf| - 20 && end < 0x1_0000
            && m.fields[MESSAGE_INTEGRITY] == Text(buf[end..end + 20])
  {
    var end := Parse(buf).value.integrityLength;
    AcceptedHeader(buf);
    ParsedIntegrity(buf);
    ParseReadsHash(buf[4..20], buf[20..], 0, START);
    hide ParseBody, Val, ClassBits;
    assert buf[20..][end - 20..end] == buf[end..end + 20];
  }

  lemma PatchedIsCovered(buf: Bytes, end: nat)
    requires 24 <= end <= |buf| - 20 && end < 0x1_0000 && BE(2, end) == [end / 0x100, end % 0x100]
    ensures (buf[..2] + BE(2, end) + buf[4..])[..end - 24 + 20] == Covered(buf, end)
  {
    var patched := buf[..2] + BE(2, end) + buf[4..];
    hide BE;
    assert patched == buf[..2] + BE(2, end) + (buf[4..end - 4] + buf[end - 4..]);
  }

  /** The fingerprint check of an accepted buffer holds if and only if the value carried is the checksum of all but the
      last eight octets, exclusive-or 0x5354554E. Without a fingerprint it holds. */
  lemma FingerprintHoldsExactlyWhen(buf: Bytes, crc: Crc)
    requires Parse(buf).Some?
    ensures |buf| >= 8
    ensures FINGERPRINT in Parse(buf).value.msg.fields ==>
              && Parse(buf).value.msg.fields[FINGERPRINT].Number?
              && (FingerprintHolds(Parse(buf).value, buf, crc) <==>
                    var n := Parse(buf).value.msg.fields[FINGERPRINT].n;
                    BE(4, n) == XorBytes(BE(4, crc(buf[..|buf| - 8])), [0x53, 0x54, 0x55, 0x4E]))
    ensures FINGERPRINT !in Parse(buf).value.msg.fields ==> FingerprintHolds(Parse(buf).value, buf, crc)
  {
    var p := Parse(buf).value;
    hide Parse, BE, XorU32, XorBytes;
    AcceptedLength(buf);
    if FINGERPRINT in p.msg.fields {
      FingerprintIsNumber(buf);
      FinalXor(p.msg.fields[FINGERPRINT].n, crc(buf[..|buf| - 8]));
    }
  }

  lemma FinalXor(n: U32, x: U32)
    ensures n == XorU32(x, CRC_FINAL_XOR) <==> BE(4, n) == XorBytes(BE(4, x), [0x53, 0x54, 0x55, 0x4E])
  {
    hide BE, Xor, XorBytes;
    FourOctets(CRC_FINAL_XOR);
    XorOctets(4, x, CRC_FINAL_XOR);
    SameOctets(n, XorU32(x, CRC_FINAL_XOR));
  }

  lemma AcceptedLength(buf: Bytes)
    requires Parse(buf).Some?
    ensures |buf| >= 20
  {
    hide ParseBody;
  }

  lemma FingerprintIsNumber(buf: Bytes)
    requires Parse(buf).Some? && FINGERPRINT in Parse(buf).value.msg.fields
    ensures var v := Parse(buf).value.msg.fields[FINGERPRINT]; v.Number? && v.n < 0x1_0000_0000
  {
    AcceptedIsWellTyped(buf);
    AttributeTable();
    hide Parse, PrintKind;
  }

  lemma SameOctets(a: U32, b: U32)
    ensures BE(4, a) == BE(4, b) <==> a == b
  {
    PowersOf256();
    ReadBack(4, a);
    ReadBack(4, b);
  }

  // ---------------------------------------------------------------- refusals

  /** A message printed under one key is refused under every other whose HMAC of what it covers differs, and accepted
      under every other whose HMAC of it is the same. */
  lemma OtherKeyHoldsExactlyWhen(m: Message, key: Bytes, other: Bytes, hmac: Hmac, crc: Crc)
    requires WellTyped(m) && BodyLength(m, []) < 0x1_0000 && ReasonFits(m) && MESSAGE_INTEGRITY in m.fields
    ensures var buf := Encode(m, key, [], hmac, crc);
            var covered := Header(m, IntegrityEnd(m, [])) + Attributes(m, []);
            && Parse(buf).Some? && MESSAGE_INTEGRITY in Parse(buf).value.msg.fields
            && Parse(buf).value.msg.fields[MESSAGE_INTEGRITY].Text? && 24 <= Parse(buf).value.integrityLength <= |buf| - 20
            && (IntegrityHolds(Parse(buf).value, buf, other, hmac) <==> hmac(other, covered) == hmac(key, covered))
  {
    hide WellTyped, Parse, Attributes, Header, Encode, BodyLength, IntegrityEnd, Checksum, ReasonFits;
    SelfVerification(m, key, [], hmac, crc);
    RoundTrip(m, key, [], hmac, crc);
    EncodedIntegrity(m, key, [], hmac, crc);
  }

  /** A printed message whose checksum is computed differently by the receiver is refused, and only then. */
  lemma OtherChecksumHoldsExactlyWhen(m: Message, key: Bytes, hmac: Hmac, crc: Crc, other: Crc)
    requires WellTyped(m) && BodyLength(m, []) < 0x1_0000 && ReasonFits(m) && FINGERPRINT in m.fields
    ensures var buf := Encode(m, key, [], hmac, crc);
            && |buf| >= 8 && Parse(buf).Some? && FINGERPRINT in Parse(buf).value.msg.fields
            && (FingerprintHolds(Parse(buf).value, buf, other) <==> other(buf[..|buf| - 8]) == crc(buf[..|buf| - 8]))
  {
    hide WellTyped, Parse, Attributes, Header, Encode, BodyLength, IntegrityEnd, Checksum, ReasonFits;
    SelfVerification(m, key, [], hmac, crc);
    RoundTrip(m, key, [], hmac, crc);
    EncodedFingerprint(m, key, [], hmac, crc);
    var covered := Encode(m, key, [], hmac, crc)[..|Encode(m, key, [], hmac, crc)| - 8];
    XorInvolution(crc(covered), CRC_FINAL_XOR);
    XorInvolution(other(covered), CRC_FINAL_XOR);
    hide Xor;
  }
}
