/** The RELOAD structures octet by octet: each structure's values, and what they look like on the wire, said without the
    schemas that the coders are generated from. */
module ReloadWire {
  import opened Wire
  import opened Reload
  import opened ReloadStructs

  // ---------------------------------------------------------------- evaluating a schema

  /** Octets behind their length. */
  function Prefixed(w: nat, b: Bytes): Bytes {
    BE(w, |b|) + b
  }

  ghost predicate AllShaped(s: Schema, vs: seq<Value>) {
    forall i :: 0 <= i < |vs| ==> Shaped(s, 0, vs[i])
  }

  /** A value of the schema, and its octets. */
  ghost predicate Codes(s: Schema, tag: nat, v: Value, out: Bytes) {
    Shaped(s, tag, v) && Enc(s, tag, v) == out
  }

  /** How to show it, from the whole structure down to its fields. */
  lemma Coding()
    ensures forall t: nat {:trigger Codes(Nothing, t, Unit, [])} :: Codes(Nothing, t, Unit, [])
    ensures forall w, t, n: nat {:trigger Codes(UInt(w), t, Num(n), BE(w, n))} :: Codes(UInt(w), t, Num(n), BE(w, n))
    ensures forall w, t, n: nat {:trigger Codes(Enum(w), t, Num(n), BE(w, n))} :: Codes(Enum(w), t, Num(n), BE(w, n))
    ensures forall w, t, b {:trigger Codes(Opaque(w), t, Data(b), Prefixed(w, b))} :: Codes(Opaque(w), t, Data(b), Prefixed(w, b))
    ensures forall w, e, t, vs {:trigger Codes(List(w, e), t, Items(vs), Prefixed(w, EncItems(e, vs)))} ::
              AllShaped(e, vs) ==> Codes(List(w, e), t, Items(vs), Prefixed(w, EncItems(e, vs)))
    ensures forall b, t, v, out {:trigger Codes(Struct(b), t, v, out)} :: Codes(Struct(b), t, v, out) == Codes(b, 0, v, out)
    ensures forall a, r, t, x, y, p, q {:trigger Codes(Then(a, r), t, Pair(x, y), p + q)} ::
              Codes(a, t, x, p) && Codes(r, Tag(a, t, x), y, q) ==> Codes(Then(a, r), t, Pair(x, y), p + q)
    ensures forall c, arm, others, t, v, out {:trigger Codes(Case(c, arm, others), t, v, out)} ::
              Codes(Case(c, arm, others), t, v, out) == Codes(if t == c then arm else others, t, v, out)
    ensures forall w, r, t, v, out {:trigger Codes(AutoLen(w, r), t, v, Prefixed(w, out))} ::
              Codes(r, t, v, out) ==> Codes(AutoLen(w, r), t, v, Prefixed(w, out))
  {
    hide BE, EncItems;
  }

  /** A list's elements follow one another in order. */
  lemma {:induction false} ItemsInOrder(e: Schema, vs: seq<Value>, v: Value)
    requires Shaped(e, 0, v) && AllShaped(e, vs)
    ensures AllShaped(e, vs + [v]) && EncItems(e, vs + [v]) == EncItems(e, vs) + Enc(e, 0, v)
    ensures EncItems(e, []) == []
  {
    hide Enc, Shaped;
    if vs == [] {
      assert [] + [v] == [v];
    } else {
      ItemsInOrder(e, vs[1..], v);
      assert (vs + [v])[1..] == vs[1..] + [v];
    }
  }

  // ---------------------------------------------------------------- destinations

  function PeerDestination(high: nat, low: nat): Value { Pair(Num(1), Pair(Num(high), Num(low))) }
  function ResourceDestination(id: Bytes): Value { Pair(Num(2), Data(id)) }
  function CompressedDestination(id: Bytes): Value { Pair(Num(3), Data(id)) }

  lemma OneOctet(n: nat)
    requires n < 256
    ensures BE(1, n) == [n]
  {
    assert BE(1, n) == BE(0, n / 256) + [n % 256];
  }

  lemma SmallNumbersOctets()
    ensures BE(1, 1) == [1] && BE(1, 2) == [2] && BE(1, 3) == [3] && BE(1, 16) == [16]
  {
    OneOctet(1);
    OneOctet(2);
    OneOctet(3);
    OneOctet(16);
  }

  /** A destination is a peer, a resource or a compressed id, each with its own octets: a type, a length, and two
      64-bit halves or the id behind a length of its own. */
  lemma DestinationOctets(high: nat, low: nat, id: Bytes)
    ensures Codes(Destination(), 0, PeerDestination(high, low), [1] + ([16] + (BE(8, high) + BE(8, low))))
    ensures |id| < 0xFF ==>
              && Codes(Destination(), 0, ResourceDestination(id), [2] + ([|id| + 1] + ([|id|] + id)))
              && Codes(Destination(), 0, CompressedDestination(id), [3] + ([|id| + 1] + ([|id|] + id)))
  {
    Coding();
    SmallNumbersOctets();
    hide Codes, BE, Prefixed;
    var halves := BE(8, high) + BE(8, low);
    ShortPrefix(halves);
    assert Codes(Destination(), 0, PeerDestination(high, low), BE(1, 1) + Prefixed(1, halves));
    if |id| < 0xFF {
      ShortPrefix(id);
      ShortPrefix(Prefixed(1, id));
      assert Codes(Destination(), 0, ResourceDestination(id), BE(1, 2) + Prefixed(1, Prefixed(1, id)));
      assert Codes(Destination(), 0, CompressedDestination(id), BE(1, 3) + Prefixed(1, Prefixed(1, id)));
    }
  }

  lemma ShortPrefix(b: Bytes)
    requires |b| < 256
    ensures Prefixed(1, b) == [|b|] + b
  {
    OneOctet(|b|);
  }

  /** Any destination at all is one of these. */
  lemma DestinationForms(v: Value)
    ensures Shaped(Destination(), 0, v) <==>
              || (exists high: nat, low: nat :: v == PeerDestination(high, low))
              || (exists id: Bytes :: v == ResourceDestination(id) || v == CompressedDestination(id))
  {
    if Shaped(Destination(), 0, v) {
      DestinationParts(v);
      if v.fst.n == PEER {
        assert v == PeerDestination(v.snd.fst.n, v.snd.snd.n);
      } else {
        assert v == ResourceDestination(v.snd.b) || v == CompressedDestination(v.snd.b);
      }
    } else {
      forall high: nat, low: nat ensures v != PeerDestination(high, low) {
        DestinationOctets(high, low, []);
      }
      forall id: Bytes ensures v != ResourceDestination(id) && v != CompressedDestination(id) {
        IdsAreShaped(id);
      }
    }
    hide Shaped, Destination;
  }

  lemma IdsAreShaped(id: Bytes)
    ensures Shaped(Destination(), 0, ResourceDestination(id)) && Shaped(Destination(), 0, CompressedDestination(id))
  {
    Coding();
    hide Codes, BE, Prefixed;
    assert Codes(Destination(), 0, ResourceDestination(id), BE(1, 2) + Prefixed(1, Prefixed(1, id)));
    assert Codes(Destination(), 0, CompressedDestination(id), BE(1, 3) + Prefixed(1, Prefixed(1, id)));
    CodesShape(Destination(), ResourceDestination(id), BE(1, 2) + Prefixed(1, Prefixed(1, id)));
    CodesShape(Destination(), CompressedDestination(id), BE(1, 3) + Prefixed(1, Prefixed(1, id)));
  }

  lemma CodesShape(s: Schema, v: Value, out: Bytes)
    requires Codes(s, 0, v, out)
    ensures Shaped(s, 0, v)
  {
  }

  lemma DestinationParts(v: Value)
    requires Shaped(Destination(), 0, v)
    ensures v.Pair? && v.fst.Num? && v.fst.n in {PEER, RESOURCE, COMPRESSED}
    ensures v.fst.n == PEER ==> v.snd.Pair? && v.snd.fst.Num? && v.snd.snd.Num?
    ensures v.fst.n != PEER ==> v.snd.Data?
  {
    var named := Case(RESOURCE, ResourceId(), Case(COMPRESSED, Opaque(1), NoCase));
    var arms := Case(PEER, NodeId(), named);
    assert Shaped(Then(Enum(1), AutoLen(1, arms)), 0, v);
    assert Shaped(AutoLen(1, arms), v.fst.n, v.snd);
    assert Shaped(arms, v.fst.n, v.snd);
    if v.fst.n == PEER {
      assert Shaped(Then(UInt(8), UInt(8)), 0, v.snd);
    } else {
      assert Shaped(named, v.fst.n, v.snd);
      assert v.fst.n != RESOURCE ==> Shaped(Case(COMPRESSED, Opaque(1), NoCase), v.fst.n, v.snd);
      assert v.fst.n !in {RESOURCE, COMPRESSED} ==> Shaped(NoCase, v.fst.n, v.snd);
      assert v.fst.n == RESOURCE ==> Shaped(Opaque(1), 0, v.snd);
    }
  }

  // ---------------------------------------------------------------- the forwarding header

  datatype Header = Header(token: nat, overlay: nat, ttl: nat, reserved: nat, fragment: nat, version: nat, length: nat,
                           transaction: nat, flags: nat, vias: seq<Value>, destinations: seq<Value>, log: nat, code: nat)

  function HeaderValue(h: Header): Value {
    Pair(Num(h.token), Pair(Num(h.overlay), Pair(Num(h.ttl), Pair(Num(h.reserved), Pair(Num(h.fragment), IdentifiedValue(h))))))
  }

  function IdentifiedValue(h: Header): Value {
    Pair(Num(h.version), Pair(Num(h.length), Pair(Num(h.transaction), Pair(Num(h.flags), RoutesValue(h)))))
  }

  function RoutesValue(h: Header): Value {
    Pair(Items(h.vias), Pair(Items(h.destinations), Pair(Num(h.log), Num(h.code))))
  }

  /** Twenty-six octets, the two lists behind 16-bit lengths, and four octets more. */
  lemma HeaderOctets(h: Header)
    requires AllShaped(Destination(), h.vias) && AllShaped(Destination(), h.destinations)
    ensures Codes(ForwardingHeader(), 0, HeaderValue(h),
              BE(4, h.token) + (BE(4, h.overlay) + (BE(1, h.ttl) + (BE(1, h.reserved) + (BE(2, h.fragment) + (BE(1, h.version)
              + (BE(3, h.length) + (BE(8, h.transaction) + (BE(2, h.flags)
              + (Prefixed(2, EncItems(Destination(), h.vias)) + (Prefixed(2, EncItems(Destination(), h.destinations))
              + (BE(2, h.log) + BE(2, h.code)))))))))))))
  {
    Coding();
    hide Codes, BE, Prefixed, EncItems, Destination, AllShaped;
  }

  // ---------------------------------------------------------------- what fits

  /** A value whose numbers and lengths all fit, and its octets. */
  ghost predicate Sized(s: Schema, tag: nat, v: Value, out: Bytes) {
    Codes(s, tag, v, out) && Fits(s, tag, v)
  }

  ghost predicate AllSized(s: Schema, vs: seq<Value>) {
    forall i :: 0 <= i < |vs| ==> Shaped(s, 0, vs[i]) && Fits(s, 0, vs[i]) && Enc(s, 0, vs[i]) != []
  }

  lemma Sizing()
    ensures forall w, t, n: nat {:trigger Sized(UInt(w), t, Num(n), BE(w, n))} :: n < Pow256(w) ==> Sized(UInt(w), t, Num(n), BE(w, n))
    ensures forall w, t, n: nat {:trigger Sized(Enum(w), t, Num(n), BE(w, n))} :: n < Pow256(w) ==> Sized(Enum(w), t, Num(n), BE(w, n))
    ensures forall w, t, b {:trigger Sized(Opaque(w), t, Data(b), Prefixed(w, b))} ::
              |b| < Pow256(w) ==> Sized(Opaque(w), t, Data(b), Prefixed(w, b))
    ensures forall w, e, t, vs {:trigger Sized(List(w, e), t, Items(vs), Prefixed(w, EncItems(e, vs)))} ::
              AllSized(e, vs) && |EncItems(e, vs)| < Pow256(w) ==> Sized(List(w, e), t, Items(vs), Prefixed(w, EncItems(e, vs)))
    ensures forall b, t, v, out {:trigger Sized(Struct(b), t, v, out)} :: Sized(Struct(b), t, v, out) == Sized(b, 0, v, out)
    ensures forall a, r, t, x, y, p, q {:trigger Sized(Then(a, r), t, Pair(x, y), p + q)} ::
              Sized(a, t, x, p) && Sized(r, Tag(a, t, x), y, q) ==> Sized(Then(a, r), t, Pair(x, y), p + q)
    ensures forall c, arm, others, t, v, out {:trigger Sized(Case(c, arm, others), t, v, out)} ::
              Sized(Case(c, arm, others), t, v, out) == Sized(if t == c then arm else others, t, v, out)
    ensures forall w, r, t, v, out {:trigger Sized(AutoLen(w, r), t, v, Prefixed(w, out))} ::
              Sized(r, t, v, out) && |out| < Pow256(w) ==> Sized(AutoLen(w, r), t, v, Prefixed(w, out))
  {
    hide BE, EncItems, Pow256;
  }

  /** Every peer fits; a name fits behind its two lengths up to 254 octets. */
  lemma DestinationFits(high: nat, low: nat, id: Bytes)
    requires high < 0x1_0000_0000_0000_0000 && low < 0x1_0000_0000_0000_0000 && |id| < 0xFF
    ensures AllSized(Destination(), [PeerDestination(high, low), ResourceDestination(id), CompressedDestination(id)])
  {
    Sizing();
    PowersOf256();
    var s, named := Destination(), Prefixed(1, id);
    assert |named| < 0x100;
    hide Sized, BE, Prefixed, Pow256;
    assert Sized(s, 0, PeerDestination(high, low), BE(1, 1) + Prefixed(1, BE(8, high) + BE(8, low)));
    assert Sized(s, 0, ResourceDestination(id), BE(1, 2) + Prefixed(1, named));
    assert Sized(s, 0, CompressedDestination(id), BE(1, 3) + Prefixed(1, named));
    hide Destination;
    SizedIs(s, PeerDestination(high, low), BE(1, 1) + Prefixed(1, BE(8, high) + BE(8, low)));
    SizedIs(s, ResourceDestination(id), BE(1, 2) + Prefixed(1, named));
    SizedIs(s, CompressedDestination(id), BE(1, 3) + Prefixed(1, named));
  }

  lemma SizedIs(s: Schema, v: Value, out: Bytes)
    requires Sized(s, 0, v, out)
    ensures Shaped(s, 0, v) && Fits(s, 0, v) && Enc(s, 0, v) == out
  {
  }

  /** A header fits when its numbers do and each list takes less than 65536 octets. */
  lemma HeaderFits(h: Header)
    requires AllSized(Destination(), h.vias) && AllSized(Destination(), h.destinations)
    requires |EncItems(Destination(), h.vias)| < 0x1_0000 && |EncItems(Destination(), h.destinations)| < 0x1_0000
    requires h.token < 0x1_0000_0000 && h.overlay < 0x1_0000_0000 && h.ttl < 0x100 && h.reserved < 0x100 && h.fragment < 0x1_0000
    requires h.version < 0x100 && h.length < 0x100_0000 && h.transaction < 0x1_0000_0000_0000_0000 && h.flags < 0x1_0000
    requires h.log < 0x1_0000 && h.code < 0x1_0000
    ensures Shaped(ForwardingHeader(), 0, HeaderValue(h)) && Fits(ForwardingHeader(), 0, HeaderValue(h))
  {
    assert AllShaped(Destination(), h.vias) && AllShaped(Destination(), h.destinations);
    ListsFit(h);
    Sizing();
    PowersOf256();
    hide Sized, BE, Prefixed, Pow256, EncItems, Routes, Identified, AllSized, Destination;
    var lists := Prefixed(2, EncItems(Destination(), h.vias)) + (Prefixed(2, EncItems(Destination(), h.destinations))
                   + (BE(2, h.log) + BE(2, h.code)));
    IdentifiedFits(h, lists);
    var rest := BE(1, h.version) + (BE(3, h.length) + (BE(8, h.transaction) + (BE(2, h.flags) + lists)));
    var out := BE(4, h.token) + (BE(4, h.overlay) + (BE(1, h.ttl) + (BE(1, h.reserved) + (BE(2, h.fragment) + rest))));
    assert Sized(ForwardingHeader(), 0, HeaderValue(h), out);
    SizedIs(ForwardingHeader(), HeaderValue(h), out);
  }

  lemma IdentifiedFits(h: Header, lists: Bytes)
    requires h.version < 0x100 && h.length < 0x100_0000 && h.transaction < 0x1_0000_0000_0000_0000 && h.flags < 0x1_0000
    requires forall t :: Sized(Routes(), t, RoutesValue(h), lists)
    ensures forall t :: Sized(Identified(), t, IdentifiedValue(h),
                              BE(1, h.version) + (BE(3, h.length) + (BE(8, h.transaction) + (BE(2, h.flags) + lists))))
  {
    Sizing();
    PowersOf256();
    hide Sized, BE, Pow256, Routes, RoutesValue;
  }

  lemma ListsFit(h: Header)
    requires AllSized(Destination(), h.vias) && AllSized(Destination(), h.destinations)
    requires |EncItems(Destination(), h.vias)| < 0x1_0000 && |EncItems(Destination(), h.destinations)| < 0x1_0000
    requires h.log < 0x1_0000 && h.code < 0x1_0000
    ensures forall t :: Sized(Routes(), t, RoutesValue(h),
                              Prefixed(2, EncItems(Destination(), h.vias)) + (Prefixed(2, EncItems(Destination(), h.destinations))
                              + (BE(2, h.log) + BE(2, h.code))))
  {
    Sizing();
    PowersOf256();
    hide Sized, BE, Prefixed, Pow256, EncItems, Destination, AllSized;
  }

  // ---------------------------------------------------------------- stored data

  /** A value, an array entry and a dictionary entry: whether it exists and its octets, behind an index or a key. */
  lemma StoredValueOctets(flag: nat, b: Bytes, index: nat, key: Bytes)
    ensures var (s, data, octets) := (StoredDataValue(), Pair(Num(flag), Data(b)), BE(1, flag) + Prefixed(4, b));
            && Codes(s, 0, Pair(Num(1), data), [1] + octets)
            && Codes(s, 0, Pair(Num(2), Pair(Num(index), data)), [2] + (BE(4, index) + octets))
            && Codes(s, 0, Pair(Num(3), Pair(Data(key), data)), [3] + (Prefixed(2, key) + octets))
  {
    Coding();
    SmallNumbersOctets();
    hide Codes, BE, Prefixed;
    var (s, data, octets) := (StoredDataValue(), Pair(Num(flag), Data(b)), BE(1, flag) + Prefixed(4, b));
    assert Codes(s, 0, Pair(Num(1), data), BE(1, 1) + octets);
    assert Codes(s, 0, Pair(Num(2), Pair(Num(index), data)), BE(1, 2) + (BE(4, index) + octets));
    assert Codes(s, 0, Pair(Num(3), Pair(Data(key), data)), BE(1, 3) + (Prefixed(2, key) + octets));
  }

  /** Algorithms, signer and signature. */
  lemma SignatureOctets(algorithm: nat, hash: nat, kind: nat, id: Bytes, value: Bytes)
    ensures Codes(Signature(), 0, Pair(Pair(Num(algorithm), Num(hash)), Pair(Pair(Num(kind), Data(id)), Data(value))),
                  (BE(1, algorithm) + BE(1, hash)) + ((BE(1, kind) + Prefixed(2, id)) + Prefixed(2, value)))
  {
    Coding();
    hide Codes, BE, Prefixed;
  }

  /** Stored data: behind their own length, the time, the lifetime, the value and its signature. */
  lemma StoredDataOctets(time: nat, lifetime: nat, v: Value, octets: Bytes, sig: Value, signed: Bytes)
    requires Codes(StoredDataValue(), 0, v, octets) && Codes(Signature(), 0, sig, signed)
    ensures Codes(StoredData(), 0, Pair(Num(time), Pair(Num(lifetime), Pair(v, sig))),
                  Prefixed(4, BE(8, time) + (BE(4, lifetime) + (octets + signed))))
  {
    hide Codes, BE, Prefixed, Enc, Shaped, Signature;
    var value := StoredDataValue();
    assert value.Struct? && Tag(value, 0, v) == 0;
    assert StoredData() == Struct(AutoLen(4, Then(UInt(8), Then(UInt(4), Then(value, Signature())))));
    hide StoredData, StoredDataValue;
    Coding();
  }

  /** What a store request says of each kind, and how it is put together. */
  lemma StoreOctets(kind: nat, model: nat, generation: nat, values: seq<Value>, resource: Bytes, replica: nat, kinds: seq<Value>)
    requires AllShaped(StoredData(), values) && AllShaped(StoreKindData(), kinds)
    ensures Codes(StoreKindData(), 0, Pair(Num(kind), Pair(Num(model), Pair(Num(generation), Items(values)))),
                  BE(4, kind) + (BE(1, model) + (BE(8, generation) + Prefixed(4, EncItems(StoredData(), values)))))
    ensures Codes(StoreReq(), 0, Pair(Data(resource), Pair(Num(replica), Items(kinds))),
                  Prefixed(1, resource) + (BE(1, replica) + Prefixed(4, EncItems(StoreKindData(), kinds))))
  {
    Coding();
    hide Codes, BE, Prefixed, EncItems, StoredData, AllShaped;
  }

  lemma FetchOctets(kind: nat, generation: nat, values: seq<Value>, kinds: seq<Value>)
    requires AllShaped(StoredData(), values) && AllShaped(FetchKindResponse(), kinds)
    ensures Codes(FetchKindResponse(), 0, Pair(Num(kind), Pair(Num(generation), Items(values))),
                  BE(4, kind) + (BE(8, generation) + Prefixed(4, EncItems(StoredData(), values))))
    ensures Codes(FetchAns(), 0, Items(kinds), Prefixed(4, EncItems(FetchKindResponse(), kinds)))
  {
    Coding();
    hide Codes, BE, Prefixed, EncItems, StoredData, AllShaped;
  }

  // ---------------------------------------------------------------- connecting and updating

  lemma ConnectOctets(ufrag: Bytes, password: Bytes, application: nat, role: Bytes, candidates: seq<Value>, candidate: Bytes)
    requires AllShaped(IceCandidate(), candidates)
    ensures Codes(ConnectReqAns(), 0, Pair(Data(ufrag), Pair(Data(password), Pair(Num(application), Pair(Data(role), Items(candidates))))),
                  Prefixed(1, ufrag) + (Prefixed(1, password) + (BE(2, application) + (Prefixed(1, role)
                  + Prefixed(2, EncItems(IceCandidate(), candidates))))))
    ensures Codes(IceCandidate(), 0, Data(candidate), Prefixed(2, candidate))
  {
    Coding();
    hide Codes, BE, Prefixed, EncItems, AllShaped;
  }

  function NodeList(ids: seq<Value>): Bytes
    requires AllShaped(NodeId(), ids)
  {
    Prefixed(2, EncItems(NodeId(), ids))
  }

  /** The three updates of the ring: ready, neighbours, and neighbours with fingers. */
  lemma UpdateOctets(before: seq<Value>, after: seq<Value>, fingers: seq<Value>)
    requires AllShaped(NodeId(), before) && AllShaped(NodeId(), after) && AllShaped(NodeId(), fingers)
    ensures var (p, n, f) := (NodeList(before), NodeList(after), NodeList(fingers));
            && Codes(ChordUpdate(), 0, Pair(Num(1), Unit), [1])
            && Codes(ChordUpdate(), 0, Pair(Num(2), Pair(Items(before), Items(after))), [2] + (p + n))
            && Codes(ChordUpdate(), 0, Pair(Num(3), Pair(Items(before), Pair(Items(after), Items(fingers)))), [3] + (p + (n + f)))
  {
    Coding();
    SmallNumbersOctets();
    hide Codes, BE, Prefixed, EncItems, NodeId;
    var (p, n, f) := (NodeList(before), NodeList(after), NodeList(fingers));
    var s := ChordUpdate();
    assert [1] + [] == [1];
    assert Codes(s, 0, Pair(Num(1), Unit), BE(1, 1) + []);
    assert Codes(s, 0, Pair(Num(2), Pair(Items(before), Items(after))), BE(1, 2) + (p + n));
    assert Codes(s, 0, Pair(Num(3), Pair(Items(before), Pair(Items(after), Items(fingers)))), BE(1, 3) + (p + (n + f)));
  }
}
