/** The RELOAD structures themselves, as schemas, and which of them round-trip. */
module ReloadStructs {
  import opened Wire
  import opened Reload

  function NodeId(): Schema { Struct(Then(UInt(8), UInt(8))) }
  function ResourceId(): Schema { Struct(Opaque(1)) }

  // DestinationType
  const PEER := 1
  const RESOURCE := 2
  const COMPRESSED := 3

  function Destination(): Schema {
    Struct(Then(Enum(1), AutoLen(1, Case(PEER, NodeId(), Case(RESOURCE, ResourceId(), Case(COMPRESSED, Opaque(1), NoCase))))))
  }

  function ForwardingHeader(): Schema {
    Struct(Then(UInt(4), Then(UInt(4), Then(UInt(1), Then(UInt(1), Then(UInt(2), Identified()))))))
  }

  /** Version, length, transaction id and flags, and what follows them. */
  function Identified(): Schema {
    Then(UInt(1), Then(UInt(3), Then(UInt(8), Then(UInt(2), Routes()))))
  }

  /** Via list, destination list, an unused length and the message code. */
  function Routes(): Schema {
    Then(List(2, Destination()), Then(List(2, Destination()), Then(UInt(2), UInt(2))))
  }

  function SignatureAndHashAlgorithm(): Schema { Struct(Then(UInt(1), UInt(1))) }
  function SignerIdentity(): Schema { Struct(Then(Enum(1), Opaque(2))) }
  function Signature(): Schema { Struct(Then(SignatureAndHashAlgorithm(), Then(SignerIdentity(), Opaque(2)))) }

  function IceCandidate(): Schema { Struct(Opaque(2)) }

  function ConnectReqAns(): Schema {
    Struct(Then(Opaque(1), Then(Opaque(1), Then(UInt(2), Then(Opaque(1), List(2, IceCandidate()))))))
  }

  function DataValue(): Schema { Struct(Then(Enum(1), Opaque(4))) }
  function ArrayEntry(): Schema { Struct(Then(UInt(4), DataValue())) }
  function DictionaryKey(): Schema { Struct(Opaque(2)) }
  function DictionaryEntry(): Schema { Struct(Then(DictionaryKey(), DataValue())) }

  // DataModel
  const SINGLE_VALUE := 1
  const ARRAY := 2
  const DICTIONARY := 3

  function StoredDataValue(): Schema {
    Struct(Then(Enum(1), Case(SINGLE_VALUE, DataValue(), Case(ARRAY, ArrayEntry(), Case(DICTIONARY, DictionaryEntry(), NoCase)))))
  }

  function StoredData(): Schema {
    Struct(AutoLen(4, Then(UInt(8), Then(UInt(4), Then(StoredDataValue(), Signature())))))
  }

  function StoreKindData(): Schema { Struct(Then(UInt(4), Then(Enum(1), Then(UInt(8), List(4, StoredData()))))) }
  function StoreReq(): Schema { Struct(Then(ResourceId(), Then(UInt(1), List(4, StoreKindData())))) }

  function FetchKindResponse(): Schema { Struct(Then(UInt(4), Then(UInt(8), List(4, StoredData())))) }
  function FetchAns(): Schema { Struct(List(4, FetchKindResponse())) }

  // ChordUpdateType
  const PEER_READY := 1
  const NEIGHBORS := 2
  const FULL := 3

  function NodeIds(): Schema { List(2, NodeId()) }

  function ChordUpdate(): Schema {
    Struct(Then(Enum(1), Case(PEER_READY, Nothing, Case(NEIGHBORS, Then(NodeIds(), NodeIds()),
                         Case(FULL, Then(NodeIds(), Then(NodeIds(), NodeIds())), NoCase)))))
  }

  function ArrayRange(): Schema { Struct(Then(UInt(4), UInt(4))) }

  function StoredDataSpecifier(): Schema {
    Struct(Then(UInt(4), Then(Enum(1), Then(UInt(8), AutoLen(2,
      Case(SINGLE_VALUE, Nothing, Case(ARRAY, List(2, ArrayRange()), Case(DICTIONARY, List(2, DictionaryKey()), NoCase))))))))
  }

  // SipRegistrationType
  const URI := 1
  const ROUTE := 2

  function SipRegistration(): Schema {
    Struct(Then(Enum(1), AutoLen(2, Case(URI, Opaque(2), Case(ROUTE, Then(Opaque(2), List(2, Destination())), NoCase)))))
  }

  // ---------------------------------------------------------------- structures that always round-trip

  /** No list anywhere stands directly behind its structure's own length. */
  predicate Clean(s: Schema, inAuto: bool) {
    match s
    case List(w, e) => !inAuto && w >= 1 && Clean(e, false)
    case Struct(b) => Clean(b, false)
    case Then(first, rest) => Clean(first, inAuto) && Clean(rest, inAuto)
    case Case(_, arm, others) => Clean(arm, inAuto) && Clean(others, inAuto)
    case AutoLen(_, rest) => !inAuto && Clean(rest, true)
    case _ => true
  }

  lemma {:induction false} CleanIsRead(s: Schema, inAuto: bool, tag: nat, v: Value)
    requires Clean(s, inAuto) && Shaped(s, tag, v)
    ensures Legal(s, inAuto) && !Misread(s, tag, v) && (inAuto ==> !DirectList(s, tag, v))
    decreases s, v
  {
    CleanIsLegal(s, inAuto);
    match s
    case List(_, e) =>
      forall i | 0 <= i < |v.vs| ensures !Misread(e, 0, v.vs[i]) {
        CleanIsRead(e, false, 0, v.vs[i]);
      }
    case Struct(b) => CleanIsRead(b, false, 0, v);
    case Then(first, rest) =>
      CleanIsRead(first, inAuto, tag, v.fst);
      CleanIsRead(rest, inAuto, Tag(first, tag, v.fst), v.snd);
    case Case(c, arm, others) =>
      if tag == c {
        CleanIsRead(arm, inAuto, tag, v);
      } else {
        CleanIsRead(others, inAuto, tag, v);
      }
    case AutoLen(_, rest) => CleanIsRead(rest, true, tag, v);
    case _ =>
  }

  lemma {:induction false} CleanIsLegal(s: Schema, inAuto: bool)
    requires Clean(s, inAuto)
    ensures Legal(s, inAuto)
  {
    match s
    case List(_, e) => CleanIsLegal(e, false);
    case Struct(b) => CleanIsLegal(b, false);
    case Then(first, rest) =>
      CleanIsLegal(first, inAuto);
      CleanIsLegal(rest, inAuto);
    case Case(_, arm, others) =>
      CleanIsLegal(arm, inAuto);
      CleanIsLegal(others, inAuto);
    case AutoLen(_, rest) => CleanIsLegal(rest, true);
    case _ =>
  }

  /** The structures of requests, answers and routing that are stored, fetched, forwarded, connected and updated. */
  predicate Routine(s: Schema) {
    s in {Destination(), ForwardingHeader(), StoreReq(), FetchAns(), ConnectReqAns(), ChordUpdate()}
  }

  /** The predicates unfolded by one level, for any schema: enough to evaluate them on a given one. */
  lemma CleanLaw()
    ensures forall s, inAuto :: Clean(s, inAuto) ==
              match s
              case List(w, e) => !inAuto && w >= 1 && Clean(e, false)
              case Struct(b) => Clean(b, false)
              case Then(first, rest) => Clean(first, inAuto) && Clean(rest, inAuto)
              case Case(_, arm, others) => Clean(arm, inAuto) && Clean(others, inAuto)
              case AutoLen(_, rest) => !inAuto && Clean(rest, true)
              case _ => true
  {
  }

  lemma LegalLaw()
    ensures forall s, inAuto :: Legal(s, inAuto) ==
              match s
              case List(w, e) => w >= 1 && Legal(e, false)
              case Struct(b) => Legal(b, false)
              case Then(first, rest) => Legal(first, inAuto) && Legal(rest, inAuto)
              case Case(_, arm, others) => Legal(arm, inAuto) && Legal(others, inAuto)
              case AutoLen(_, rest) => !inAuto && Legal(rest, true)
              case _ => true
  {
  }

  lemma DestinationIsClean()
    ensures Clean(Destination(), false)
  {
    hide Clean;
    CleanLaw();
  }

  lemma HeaderIsClean()
    ensures Clean(ForwardingHeader(), false)
  {
    DestinationIsClean();
    hide Destination, Clean;
    CleanLaw();
  }

  lemma ConnectIsClean()
    ensures Clean(ConnectReqAns(), false)
  {
    hide Clean;
    CleanLaw();
  }

  lemma UpdateIsClean()
    ensures Clean(ChordUpdate(), false)
  {
    hide Clean;
    CleanLaw();
  }

  lemma StoredIsClean()
    ensures Clean(StoredData(), false)
  {
    hide Clean;
    CleanLaw();
  }

  lemma StoreIsClean()
    ensures Clean(StoreReq(), false)
  {
    StoredIsClean();
    hide StoredData, Clean;
    CleanLaw();
  }

  lemma FetchIsClean()
    ensures Clean(FetchAns(), false)
  {
    StoredIsClean();
    hide StoredData, Clean;
    CleanLaw();
  }

  /** Every well-sized StoreReq, FetchAns, ForwardingHeader, ConnectReqAns, ChordUpdate and Destination reads back from
      its encoding as it was, with every inner octet consumed and what follows left alone. */
  lemma RoutineRoundTrip(s: Schema, v: Value, tail: Bytes)
    requires Routine(s) && Shaped(s, 0, v) && Fits(s, 0, v)
    ensures Dec(s, 0, In(None, Enc(s, 0, v) + tail)) == Some(Got(v, 0, In(None, tail)))
  {
    DestinationIsClean();
    HeaderIsClean();
    ConnectIsClean();
    UpdateIsClean();
    StoreIsClean();
    FetchIsClean();
    assert s.Struct?;
    hide Destination, ForwardingHeader, StoreReq, FetchAns, ConnectReqAns, ChordUpdate;
    CleanIsRead(s, false, 0, v);
    RoundTripExactlyWhen(s, v, tail);
  }

  // ---------------------------------------------------------------- structures that do not

  /** The member that a data specifier, or a registration, switches on. */
  function ModelOf(v: Value): nat {
    if v.Pair? && v.snd.Pair? && v.snd.fst.Num? then v.snd.fst.n else 0
  }

  function TypeOf(v: Value): nat {
    if v.Pair? && v.fst.Num? then v.fst.n else 0
  }

  lemma StructParts(b: Schema, tag: nat, v: Value)
    requires Shaped(Struct(b), tag, v)
    ensures Shaped(b, 0, v) && Misread(Struct(b), tag, v) == Misread(b, 0, v)
  {
  }

  lemma ThenParts(first: Schema, rest: Schema, tag: nat, v: Value)
    requires Shaped(Then(first, rest), tag, v)
    ensures v.Pair? && Shaped(first, tag, v.fst) && Shaped(rest, Tag(first, tag, v.fst), v.snd)
    ensures Misread(Then(first, rest), tag, v) <==> Misread(first, tag, v.fst) || Misread(rest, Tag(first, tag, v.fst), v.snd)
    ensures DirectList(Then(first, rest), tag, v) <==> DirectList(first, tag, v.fst) || DirectList(rest, Tag(first, tag, v.fst), v.snd)
  {
  }

  lemma CaseParts(c: nat, arm: Schema, others: Schema, tag: nat, v: Value)
    requires Shaped(Case(c, arm, others), tag, v)
    ensures var s := if tag == c then arm else others;
            && Shaped(s, tag, v) && Misread(Case(c, arm, others), tag, v) == Misread(s, tag, v)
            && DirectList(Case(c, arm, others), tag, v) == DirectList(s, tag, v)
  {
  }

  lemma AutoLenParts(w: nat, rest: Schema, tag: nat, v: Value)
    requires Shaped(AutoLen(w, rest), tag, v)
    ensures Shaped(rest, tag, v) && (Misread(AutoLen(w, rest), tag, v) <==> DirectList(rest, tag, v) || Misread(rest, tag, v))
  {
  }

  lemma Leaves(s: Schema, tag: nat, v: Value)
    requires Shaped(s, tag, v) && !s.Then? && !s.Case? && !s.Struct? && !s.AutoLen?
    ensures !s.NoCase? && (s.UInt? || s.Enum? ==> v.Num?)
    ensures DirectList(s, tag, v) == s.List? && (!s.List? ==> !Misread(s, tag, v))
  {
  }

  function SpecifierArms(): Schema {
    Case(SINGLE_VALUE, Nothing, Case(ARRAY, List(2, ArrayRange()), Case(DICTIONARY, List(2, DictionaryKey()), NoCase)))
  }

  lemma SpecifierArmsMisread(tag: nat, v: Value)
    requires Shaped(SpecifierArms(), tag, v)
    ensures tag in {SINGLE_VALUE, ARRAY, DICTIONARY}
    ensures DirectList(SpecifierArms(), tag, v) <==> tag != SINGLE_VALUE
    ensures tag == SINGLE_VALUE ==> !Misread(SpecifierArms(), tag, v)
  {
    hide Shaped, Misread, DirectList, ArrayRange, DictionaryKey;
    var ranges, keys := List(2, ArrayRange()), List(2, DictionaryKey());
    var third := Case(DICTIONARY, keys, NoCase);
    var second := Case(ARRAY, ranges, third);
    CaseParts(SINGLE_VALUE, Nothing, second, tag, v);
    if tag == SINGLE_VALUE {
      Leaves(Nothing, tag, v);
    } else {
      CaseParts(ARRAY, ranges, third, tag, v);
      if tag == ARRAY {
        Leaves(ranges, tag, v);
      } else {
        CaseParts(DICTIONARY, keys, NoCase, tag, v);
        Leaves(if tag == DICTIONARY then keys else NoCase, tag, v);
      }
    }
  }

  lemma SpecifierMisreads(v: Value)
    requires Shaped(StoredDataSpecifier(), 0, v)
    ensures ModelOf(v) in {SINGLE_VALUE, ARRAY, DICTIONARY}
    ensures Misread(StoredDataSpecifier(), 0, v) <==> ModelOf(v) in {ARRAY, DICTIONARY}
  {
    hide Shaped, Misread, DirectList, SpecifierArms;
    var auto := AutoLen(2, SpecifierArms());
    assert StoredDataSpecifier() == Struct(Then(UInt(4), Then(Enum(1), Then(UInt(8), auto)))) by { SpecifierIs(); }
    hide StoredDataSpecifier;
    StructParts(Then(UInt(4), Then(Enum(1), Then(UInt(8), auto))), 0, v);
    ThenParts(UInt(4), Then(Enum(1), Then(UInt(8), auto)), 0, v);
    Leaves(UInt(4), 0, v.fst);
    ThenParts(Enum(1), Then(UInt(8), auto), 0, v.snd);
    Leaves(Enum(1), 0, v.snd.fst);
    ThenParts(UInt(8), auto, v.snd.fst.n, v.snd.snd);
    Leaves(UInt(8), v.snd.fst.n, v.snd.snd.fst);
    AutoLenParts(2, SpecifierArms(), v.snd.fst.n, v.snd.snd.snd);
    SpecifierArmsMisread(v.snd.fst.n, v.snd.snd.snd);
  }

  lemma SpecifierIs()
    ensures StoredDataSpecifier() == Struct(Then(UInt(4), Then(Enum(1), Then(UInt(8), AutoLen(2, SpecifierArms())))))
  {
  }

  lemma SpecifierIsLegal()
    ensures Legal(StoredDataSpecifier(), false)
  {
    hide Legal;
    LegalLaw();
  }

  function Route(): Schema {
    Then(Opaque(2), List(2, Destination()))
  }

  function RegistrationArms(): Schema {
    Case(URI, Opaque(2), Case(ROUTE, Route(), NoCase))
  }

  lemma RegistrationIs()
    ensures SipRegistration() == Struct(Then(Enum(1), AutoLen(2, RegistrationArms())))
  {
  }

  lemma RegistrationIsLegal()
    ensures Legal(SipRegistration(), false)
  {
    hide Legal;
    LegalLaw();
  }

  lemma RegistrationArmsMisread(tag: nat, v: Value)
    requires Shaped(RegistrationArms(), tag, v)
    ensures tag in {URI, ROUTE}
    ensures DirectList(RegistrationArms(), tag, v) <==> tag == ROUTE
    ensures tag == URI ==> !Misread(RegistrationArms(), tag, v)
  {
    hide Shaped, Misread, DirectList, Destination;
    var list := List(2, Destination());
    CaseParts(URI, Opaque(2), Case(ROUTE, Route(), NoCase), tag, v);
    if tag == URI {
      Leaves(Opaque(2), tag, v);
    } else {
      CaseParts(ROUTE, Route(), NoCase, tag, v);
      if tag == ROUTE {
        ThenParts(Opaque(2), list, tag, v);
        Leaves(list, Tag(Opaque(2), tag, v.fst), v.snd);
      } else {
        Leaves(NoCase, tag, v);
      }
    }
  }

  lemma RegistrationMisreads(v: Value)
    requires Shaped(SipRegistration(), 0, v)
    ensures TypeOf(v) in {URI, ROUTE}
    ensures Misread(SipRegistration(), 0, v) <==> TypeOf(v) == ROUTE
  {
    hide Shaped, Misread, DirectList, RegistrationArms;
    var auto := AutoLen(2, RegistrationArms());
    assert SipRegistration() == Struct(Then(Enum(1), auto)) by { RegistrationIs(); }
    hide SipRegistration;
    StructParts(Then(Enum(1), auto), 0, v);
    ThenParts(Enum(1), auto, 0, v);
    Leaves(Enum(1), 0, v.fst);
    AutoLenParts(2, RegistrationArms(), v.fst.n, v.snd);
    RegistrationArmsMisread(v.fst.n, v.snd);
  }

  /** A data specifier round-trips exactly when it is for a single value: array ranges and dictionary keys are looked
      for behind the structure instead of in it. */
  lemma SpecifierRoundTripsExactlyWhenSingle(v: Value, tail: Bytes)
    requires Shaped(StoredDataSpecifier(), 0, v) && Fits(StoredDataSpecifier(), 0, v)
    ensures var s := StoredDataSpecifier();
            ModelOf(v) == SINGLE_VALUE <==> Dec(s, 0, In(None, Enc(s, 0, v) + tail)) == Some(Got(v, 0, In(None, tail)))
  {
    hide Dec, Enc, Misread, Fits, Shaped, StoredDataSpecifier, Tag, Legal, ModelOf;
    SpecifierMisreads(v);
    SpecifierIsLegal();
    assert StoredDataSpecifier().Struct? by { SpecifierIs(); }
    StructTag(StoredDataSpecifier(), v);
    RoundTripExactlyWhen(StoredDataSpecifier(), v, tail);
  }

  lemma StructTag(s: Schema, v: Value)
    requires s.Struct?
    ensures Tag(s, 0, v) == 0
  {
  }

  /** A SIP registration round-trips exactly when it is a URI. */
  lemma RegistrationRoundTripsExactlyWhenUri(v: Value, tail: Bytes)
    requires Shaped(SipRegistration(), 0, v) && Fits(SipRegistration(), 0, v)
    ensures var s := SipRegistration();
            TypeOf(v) == URI <==> Dec(s, 0, In(None, Enc(s, 0, v) + tail)) == Some(Got(v, 0, In(None, tail)))
  {
    hide Dec, Enc, Misread, Fits, Shaped, SipRegistration, Tag, Legal, TypeOf;
    RegistrationMisreads(v);
    RegistrationIsLegal();
    assert SipRegistration().Struct? by { RegistrationIs(); }
    StructTag(SipRegistration(), v);
    RoundTripExactlyWhen(SipRegistration(), v, tail);
  }

  /** The smallest registration of a route: type 2, length 4, no preferences, no destinations. Its own encoding cannot
      be decoded at all. */
  lemma EmptyRouteThrows()
    ensures var v := Pair(Num(ROUTE), Pair(Data([]), Items([])));
            && Shaped(SipRegistration(), 0, v) && Fits(SipRegistration(), 0, v)
            && Enc(SipRegistration(), 0, v) == [2] + ([0, 4] + ([0, 0] + [0, 0]))
            && Dec(SipRegistration(), 0, In(None, [2] + ([0, 4] + ([0, 0] + [0, 0])))) == None
  {
    hide Destination, BE, Val;
    var v := Pair(Data([]), Items([]));
    EmptyRouteEncodes();
    EmptyRouteDecodes();
    RegistrationIs();
    var auto := AutoLen(2, RegistrationArms());
    assert Enc(Then(Enum(1), auto), 0, Pair(Num(ROUTE), v)) == BE(1, 2) + Enc(auto, ROUTE, v);
    SmallNumbers();
    NumReadsBack(1, 2, [0, 4] + ([0, 0] + [0, 0]));
    assert Dec(Then(Enum(1), auto), 0, In(None, [2] + ([0, 4] + ([0, 0] + [0, 0])))) == None;
    assert Fits(Then(Enum(1), auto), 0, Pair(Num(ROUTE), v));
  }

  lemma EmptyRouteEncodes()
    ensures var v := Pair(Data([]), Items([]));
            var auto := AutoLen(2, RegistrationArms());
            && Shaped(auto, ROUTE, v) && Fits(auto, ROUTE, v) && Enc(auto, ROUTE, v) == [0, 4] + ([0, 0] + [0, 0])
  {
    hide Destination, BE, Val;
    SmallNumbers();
    var v := Pair(Data([]), Items([]));
    assert EncItems(Destination(), []) == [];
    assert [0, 0] + [] == [0, 0];
    assert Enc(Opaque(2), ROUTE, Data([])) == [0, 0] && Enc(List(2, Destination()), ROUTE, Items([])) == [0, 0];
    assert Enc(Route(), ROUTE, v) == [0, 0] + [0, 0];
    assert Enc(RegistrationArms(), ROUTE, v) == [0, 0] + [0, 0];
    assert Fits(Route(), ROUTE, v);
    assert Fits(RegistrationArms(), ROUTE, v);
  }

  /** The list's length is looked for behind the structure, where nothing is. */
  lemma EmptyRouteDecodes()
    ensures Dec(AutoLen(2, RegistrationArms()), ROUTE, In(None, [0, 4] + ([0, 0] + [0, 0]))) == None
  {
    hide Destination, BE, Val, TakeNum;
    SmallNumbers();
    var inner := [0, 0] + [0, 0];
    assert [0, 4] + inner == BE(2, |inner|) + inner + [];
    DataReadsBack(2, inner, []);
    assert inner == BE(2, 0) + [] + [0, 0];
    DataReadsBack(2, [], [0, 0]);
    assert TakeData([], 2) == None by { NothingToTake(); }
    hide TakeData;
    assert Dec(List(2, Destination()), ROUTE, In(Some([0, 0]), [])) == None;
    assert Dec(Route(), ROUTE, In(Some(inner), [])) == None;
    assert Dec(RegistrationArms(), ROUTE, In(Some(inner), [])) == None;
  }

  lemma NothingToTake()
    ensures TakeData([], 2) == None
  {
  }

  lemma SmallNumbers()
    ensures BE(2, 0) == [0, 0] && BE(2, 4) == [0, 4] && BE(1, 2) == [2]
    ensures Val([0, 0]) == 0 && Val([0, 4]) == 4 && Val([2]) == 2
    ensures Pow256(1) == 0x100 && Pow256(2) == 0x1_0000
  {
    PowersOf256();
    assert BE(1, 0) == [0] && BE(0, 0) == [];
    ReadBack(2, 0);
    ReadBack(2, 4);
    ReadBack(1, 2);
  }
}
