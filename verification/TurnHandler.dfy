/** RequestHandler: what each STUN message does to the relay ports and to one client's allocation. */
module TurnHandler {
  import opened Wire
  import opened Stun
  import opened Channels
  import opened Sockets
  import opened Allocation
  import opened TurnPorts

  // Classes and methods
  const REQUEST := 0x000
  const INDICATION := 0x010
  const BINDING := 1
  const SHARED_SECRET := 2
  const ALLOCATE := 3
  const REFRESH := 4
  const SEND := 6
  const CREATE_PERMISSION := 8
  const CHANNEL_BIND := 9

  const UDP_RELAY := 17
  const EVEN_ONLY := 0x00
  const EVEN_AND_NEXT := 0x80

  datatype Transport = UDP | TCP | TLS
  datatype Tuple = Tuple(transport: Transport, at: Address)

  /** The 5-tuple, as far as a server socket sees it. */
  datatype Key = Key(local: Tuple, remote: Tuple)

  datatype Config = Config(range: Range, defaultLifetime: nat, maxLifetime: nat, crypto: Crypto)

  datatype Client = Client(port: nat, user: Bytes, secret: Bytes, expires: nat, relay: Relay)

  /** Why a message's credentials are refused. */
  datatype Refusal = BadRequest | Unauthenticated | StaleNonce

  /** What checking nonce, user name and integrity came to, for a message that needs it. */
  datatype Verdict = Rejected(why: Refusal) | Accepted(user: Bytes, secret: Bytes)

  /** How opening the relay socket ends: received on, refused by bind, or an exception. */
  datatype Start = Up | BindFailed | Threw

  datatype Reply =
    | Silent
    | Failure(code: nat, unknown: seq<nat>, token: Option<nat>)
    | Success(lifetime: Option<nat>, relayed: Option<nat>, token: Option<nat>)

  /** granted: the lifetime of a timer started; leaked: a port taken for a client that then got none. */
  datatype Effect = Effect(reply: Reply, pool: Pool, client: Option<Client>, granted: Option<nat>, leaked: Option<nat>, out: Outcome)

  datatype Input = Input(m: Message, unknown: seq<nat>, verdict: Verdict, start: Start)

  function Has(m: Message, t: nat): bool {
    t in m.fields
  }

  function Num(m: Message, t: nat): nat {
    if t in m.fields && m.fields[t].Number? then m.fields[t].n else 0
  }

  function Payloads(m: Message): Bytes {
    if DATA in m.fields && m.fields[DATA].Text? then m.fields[DATA].text else []
  }

  function Fails(code: nat): Reply {
    Failure(code, [], None)
  }

  const Unauthorized := Fails(401)

  /** handleAuthentication's own error responses. */
  function Refuses(why: Refusal): Reply {
    match why
    case BadRequest => Fails(400)
    case Unauthenticated => Fails(401)
    case StaleNonce => Fails(438)
  }

  const Agreed := Success(None, None, None)

  /** Nothing but a reply. */
  function Only(reply: Reply, pool: Pool, client: Option<Client>): Effect {
    Effect(reply, pool, client, None, None, Dropped)
  }

  /** The requested lifetime, never below the default nor above the maximum. */
  function Lifetime(cfg: Config, m: Message): nat {
    if !Has(m, LIFETIME) then cfg.defaultLifetime
    else if Num(m, LIFETIME) > cfg.maxLifetime then cfg.maxLifetime
    else if Num(m, LIFETIME) > cfg.defaultLifetime then Num(m, LIFETIME)
    else cfg.defaultLifetime
  }

  /** Port or 0, pool, and the token put in the response: for a pair, even when no pair was found. */
  ghost function TakePort(cfg: Config, pool: Pool, m: Message): (nat, Pool, Option<nat>)
    requires ValidPool(cfg.range, pool)
  {
    if Has(m, EVEN_PORT) then
      if Num(m, EVEN_PORT) == EVEN_ONLY then
        var (p, pool') := Allocate(cfg.range, pool, EvenPort);
        (p, pool', None)
      else if Num(m, EVEN_PORT) == EVEN_AND_NEXT then
        var (p, pool') := Allocate(cfg.range, pool, EvenPair);
        (p, pool', Some(p + 1))
      else (0, pool, None)
    else if Has(m, RESERVATION_TOKEN) then
      var p := Num(m, RESERVATION_TOKEN) % 0x1_0000;
      var (ok, pool') := Claim(cfg.range, pool, p);
      (if ok then p else 0, pool', None)
    else
      var (p, pool') := Allocate(cfg.range, pool, AnyPort);
      (p, pool', None)
  }

  ghost function HandleAllocate(cfg: Config, pool: Pool, client: Option<Client>, m: Message, user: Bytes, secret: Bytes, start: Start, now: nat): Effect
    requires ValidPool(cfg.range, pool)
  {
    if client.Some? then Only(Fails(437), pool, client)
    else if !Has(m, REQUESTED_TRANSPORT) then Only(Fails(400), pool, None)
    else if Num(m, REQUESTED_TRANSPORT) != UDP_RELAY then Only(Fails(442), pool, None)
    else if Has(m, DONT_FRAGMENT) then Only(Fails(420), pool, None)
    else if Has(m, EVEN_PORT) && Has(m, RESERVATION_TOKEN) then Only(Fails(400), pool, None)
    else
      var (port, pool', token) := TakePort(cfg, pool, m);
      if port == 0 then Only(Failure(508, [], token), pool', None)
      else if start != Up then Effect(Failure(500, [], token), pool', None, Some(Lifetime(cfg, m)), Some(port), Dropped)
      else Effect(Success(Some(Lifetime(cfg, m)), Some(port), token), pool',
                  Some(Client(port, user, secret, now + Lifetime(cfg, m), NoRelay)), Some(Lifetime(cfg, m)), None, Dropped)
  }

  function HandleRefresh(cfg: Config, pool: Pool, c: Client, m: Message, now: nat): Effect {
    if Has(m, LIFETIME) && Num(m, LIFETIME) == 0
    then Only(Success(Some(0), None, None), Release(cfg.range, pool, c.port), None)
    else
      var lifetime := Lifetime(cfg, m);
      Effect(Success(Some(lifetime), None, None), pool, Some(c.(expires := now + lifetime)), Some(lifetime), None, Dropped)
  }

  function PermitAll(r: Relay, peers: seq<Address>, now: nat): Relay {
    if peers == [] then r
    else Permitted(PermitAll(r, peers[..|peers| - 1], now), HostOf(peers[|peers| - 1]), now)
  }

  function HandleCreatePermission(pool: Pool, c: Client, m: Message, now: nat): Effect {
    if m.peers == [] then Only(Fails(400), pool, Some(c))
    else Only(Agreed, pool, Some(c.(relay := PermitAll(Current(c.relay, now), m.peers, now))))
  }

  /** One relay operation on behalf of a client. */
  ghost function Relayed(cfg: Config, c: Client, op: Op, now: nat): (Outcome, Client) {
    var (out, relay) := Apply(Current(c.relay, now), op, now, cfg.crypto);
    (out, c.(relay := relay))
  }

  ghost function HandleChannelBind(cfg: Config, pool: Pool, c: Client, m: Message, now: nat): Effect {
    if m.peers == [] || !Has(m, CHANNEL_NUMBER) then Only(Fails(400), pool, Some(c))
    else if !(MIN_CHANNEL <= Num(m, CHANNEL_NUMBER) <= MAX_CHANNEL) then Only(Fails(400), pool, Some(c))
    else
      var (out, c') := Relayed(cfg, c, BindChannel(m.peers[0], Num(m, CHANNEL_NUMBER)), now);
      Only(if out == Done then Agreed else Fails(400), pool, Some(c'))
  }

  ghost function HandleSend(cfg: Config, pool: Pool, client: Option<Client>, m: Message, now: nat): Effect {
    if client.None? || m.peers == [] || !Has(m, DATA) || Has(m, DONT_FRAGMENT) then Only(Silent, pool, client)
    else
      var (out, c') := Relayed(cfg, client.value, ClientTo(m.peers[0], Payloads(m)), now);
      Effect(Silent, pool, Some(c'), None, None, out)
  }

  /** The requests that need an allocation, and the credentials it was made with. */
  ghost function HandleOwned(cfg: Config, pool: Pool, client: Option<Client>, m: Message, user: Bytes, secret: Bytes, now: nat): Effect {
    if client.None? then Only(Fails(437), pool, None)
    else if client.value.user != user || client.value.secret != secret then Only(Fails(441), pool, client)
    else if m.verb == REFRESH then HandleRefresh(cfg, pool, client.value, m, now)
    else if m.verb == CREATE_PERMISSION then HandleCreatePermission(pool, client.value, m, now)
    else HandleChannelBind(cfg, pool, client.value, m, now)
  }

  predicate Exempt(m: Message) {
    (m.cls == REQUEST && m.verb in {SHARED_SECRET, BINDING}) || m.cls == INDICATION
  }

  /** processStunMessage. */
  ghost function Process(cfg: Config, pool: Pool, client: Option<Client>, key: Key, x: Input, now: nat): Effect
    requires ValidPool(cfg.range, pool)
  {
    var m := x.m;
    if !Exempt(m) && x.verdict.Rejected? then Only(Refuses(x.verdict.why), pool, client)
    else if x.unknown != [] then Only(Failure(420, x.unknown, None), pool, client)
    else if m.cls == INDICATION then
      if m.verb == SEND then HandleSend(cfg, pool, client, m, now) else Only(Silent, pool, client)
    else if m.cls != REQUEST then Only(Silent, pool, client)
    else if m.verb == BINDING then Only(Agreed, pool, client)
    else if m.verb == SHARED_SECRET then
      Only(if key.local.transport == TLS then Agreed else Fails(433), pool, client)
    else if x.verdict.Rejected? then Only(Unauthorized, pool, client)
    else Requested(cfg, pool, client, x, now)
  }

  /** An authenticated request, by its method. */
  ghost function Requested(cfg: Config, pool: Pool, client: Option<Client>, x: Input, now: nat): Effect
    requires ValidPool(cfg.range, pool) && x.verdict.Accepted?
  {
    if x.m.verb == ALLOCATE then
      HandleAllocate(cfg, pool, client, x.m, x.verdict.user, x.verdict.secret, x.start, now)
    else if x.m.verb in {REFRESH, CREATE_PERMISSION, CHANNEL_BIND} then
      HandleOwned(cfg, pool, client, x.m, x.verdict.user, x.verdict.secret, now)
    else Only(Fails(400), pool, client)
  }

  // ---------------------------------------------------------------- what no handler breaks

  /** A reserved port is odd, and its even neighbour is in use. */
  ghost predicate Paired(pool: Pool) {
    forall p: nat :: IsReserved(pool, p) ==> p % 2 == 1 && InUse(pool, p - 1)
  }

  ghost predicate IsReserved(pool: Pool, p: nat) {
    p in pool.ports && pool.ports[p] == Reserved
  }

  ghost predicate InUse(pool: Pool, p: nat) {
    p in pool.ports && pool.ports[p] == Allocated
  }

  /** after is before with port p in use besides. */
  ghost predicate Gains(before: Pool, after: Pool, p: nat) {
    !InUse(before, p) && forall q: nat :: InUse(after, q) <==> InUse(before, q) || q == p
  }

  ghost predicate Loses(before: Pool, after: Pool, p: nat) {
    forall q: nat :: InUse(after, q) <==> InUse(before, q) && q != p
  }

  ghost predicate Healthy(cfg: Config, pool: Pool) {
    ValidPool(cfg.range, pool) && Paired(pool)
  }

  lemma TakenUse(r: Range, pool: Pool, want: Want, p: nat)
    requires ValidPool(r, pool) && Suits(r, pool.ports, want, p)
    ensures ValidPool(r, Taken(pool, want, p)) && Gains(pool, Taken(pool, want, p), p)
  {
  }

  lemma TakenPaired(r: Range, pool: Pool, want: Want, p: nat)
    requires Paired(pool) && Suits(r, pool.ports, want, p)
    ensures Paired(Taken(pool, want, p))
  {
    var pool' := Taken(pool, want, p);
    forall q: nat | IsReserved(pool', q) ensures q % 2 == 1 && InUse(pool', q - 1) {
      assert IsReserved(pool, q) || q == p + 1;
    }
  }

  lemma CursorMoves(cfg: Config, pool: Pool, pool': Pool)
    requires Healthy(cfg, pool) && pool'.ports == pool.ports && cfg.range.min - 1 <= pool'.last <= cfg.range.max
    ensures Healthy(cfg, pool')
  {
    forall q: nat | IsReserved(pool', q) ensures q % 2 == 1 && InUse(pool', q - 1) {
      assert IsReserved(pool, q);
    }
  }

  lemma AllocateKeeps(cfg: Config, pool: Pool, want: Want)
    requires Healthy(cfg, pool)
    ensures var (p, pool') := Allocate(cfg.range, pool, want);
            && Healthy(cfg, pool')
            && (if p == 0 then pool'.ports == pool.ports else Gains(pool, pool', p))
            && (p != 0 ==> Suits(cfg.range, pool.ports, want, p) && pool' == Taken(pool, want, p))
  {
    ScanIsComplete(cfg.range, pool, want);
    var p := Choose(cfg.range, pool, want, 1);
    if p != 0 {
      TakenUse(cfg.range, pool, want, p);
      TakenPaired(cfg.range, pool, want, p);
      hide Choose, Gains, Paired, Suits, Taken, ValidPool;
    } else {
      CursorMoves(cfg, pool, Allocate(cfg.range, pool, want).1);
      hide Choose, Gains, Suits, Taken, Healthy;
    }
  }

  lemma ClaimKeeps(cfg: Config, pool: Pool, p: nat)
    requires Healthy(cfg, pool)
    ensures var (ok, pool') := Claim(cfg.range, pool, p);
            && Healthy(cfg, pool')
            && (ok <==> IsReserved(pool, p))
            && (if ok then Gains(pool, pool', p) else pool' == pool)
  {
    var pool' := Claim(cfg.range, pool, p).1;
    forall q: nat | IsReserved(pool', q) ensures q % 2 == 1 && InUse(pool', q - 1) {
      assert IsReserved(pool, q);
    }
  }

  lemma ReleaseUse(r: Range, pool: Pool, p: nat)
    requires ValidPool(r, pool) && InUse(pool, p)
    ensures ValidPool(r, Release(r, pool, p)) && Loses(pool, Release(r, pool, p), p)
  {
  }

  lemma ReleasePaired(r: Range, pool: Pool, p: nat)
    requires ValidPool(r, pool) && Paired(pool) && InUse(pool, p)
    ensures Paired(Release(r, pool, p))
  {
    var pool' := Release(r, pool, p);
    forall q: nat | IsReserved(pool', q) ensures q % 2 == 1 && InUse(pool', q - 1) {
      assert IsReserved(pool, q);
    }
  }

  lemma ReleaseKeeps(cfg: Config, pool: Pool, p: nat)
    requires Healthy(cfg, pool) && InUse(pool, p)
    ensures Healthy(cfg, Release(cfg.range, pool, p)) && Loses(pool, Release(cfg.range, pool, p), p)
  {
    ReleaseUse(cfg.range, pool, p);
    ReleasePaired(cfg.range, pool, p);
  }

  ghost predicate TakenWell(cfg: Config, pool: Pool, taken: (nat, Pool, Option<nat>)) {
    && Healthy(cfg, taken.1)
    && if taken.0 == 0 then taken.1.ports == pool.ports else Gains(pool, taken.1, taken.0)
  }

  lemma TakePortKeeps(cfg: Config, pool: Pool, m: Message)
    requires Healthy(cfg, pool)
    ensures TakenWell(cfg, pool, TakePort(cfg, pool, m))
  {
    if Has(m, EVEN_PORT) && Num(m, EVEN_PORT) == EVEN_ONLY {
      AllocateKeeps(cfg, pool, EvenPort);
    } else if Has(m, EVEN_PORT) && Num(m, EVEN_PORT) == EVEN_AND_NEXT {
      AllocateKeeps(cfg, pool, EvenPair);
    } else if !Has(m, EVEN_PORT) && Has(m, RESERVATION_TOKEN) {
      ClaimKeeps(cfg, pool, Num(m, RESERVATION_TOKEN) % 0x1_0000);
    } else if !Has(m, EVEN_PORT) {
      AllocateKeeps(cfg, pool, AnyPort);
    }
    hide Allocate, Claim, Healthy, Gains, Num, Has;
  }

  /** The port bookkeeping of one message: a port is gained with a new client or leaked, lost with a removed client,
      and otherwise nothing changes hands. A client keeps its port, and its expiry moves only when a timer starts. */
  ghost predicate Accounts(cfg: Config, pool: Pool, client: Option<Client>, e: Effect, now: nat) {
    && Healthy(cfg, e.pool)
    && match (client, e.client)
       case (None, None) =>
         (match e.leaked
          case None => e.pool.ports == pool.ports && e.granted == None
          case Some(p) => Gains(pool, e.pool, p) && e.granted.Some?)
       case (None, Some(c)) => e.leaked == None && Gains(pool, e.pool, c.port) && e.granted.Some? && c.expires == now + e.granted.value
       case (Some(c), None) => e.leaked == None && e.granted == None && Loses(pool, e.pool, c.port)
       case (Some(c), Some(c')) =>
         && e.leaked == None && e.pool == pool && c'.port == c.port && c'.user == c.user && c'.secret == c.secret
         && c'.expires == if e.granted.Some? then now + e.granted.value else c.expires
  }

  lemma AllocateAccounts(cfg: Config, pool: Pool, client: Option<Client>, m: Message, user: Bytes, secret: Bytes, start: Start, now: nat)
    requires Healthy(cfg, pool)
    ensures Accounts(cfg, pool, client, HandleAllocate(cfg, pool, client, m, user, secret, start, now), now)
  {
    TakePortKeeps(cfg, pool, m);
    assert ValidPool(cfg.range, pool) && ValidRange(cfg.range);
    hide Healthy, TakePort, Gains, Loses, Lifetime, Has, Num, ValidPool, InUse, Suits, Allocate, Claim, Release, Choose;
  }

  lemma OwnedAccounts(cfg: Config, pool: Pool, client: Option<Client>, m: Message, user: Bytes, secret: Bytes, now: nat)
    requires Healthy(cfg, pool) && (client.Some? ==> InUse(pool, client.value.port))
    ensures Accounts(cfg, pool, client, HandleOwned(cfg, pool, client, m, user, secret, now), now)
  {
    if client.Some? {
      ReleaseKeeps(cfg, pool, client.value.port);
    }
    hide Healthy, Gains, Loses, Lifetime, Has, Num, Release, InUse, PermitAll, Apply;
  }

  lemma ProcessAccounts(cfg: Config, pool: Pool, client: Option<Client>, key: Key, x: Input, now: nat)
    requires Healthy(cfg, pool) && (client.Some? ==> InUse(pool, client.value.port))
    ensures Accounts(cfg, pool, client, Process(cfg, pool, client, key, x, now), now)
  {
    if x.verdict.Accepted? {
      AllocateAccounts(cfg, pool, client, x.m, x.verdict.user, x.verdict.secret, x.start, now);
      OwnedAccounts(cfg, pool, client, x.m, x.verdict.user, x.verdict.secret, now);
    }
    assert ValidPool(cfg.range, pool);
    hide Healthy, HandleAllocate, HandleOwned, Gains, Loses, Apply, Has, InUse;
  }
}
