/** What holds of the TURN server over whole runs. */
module TurnTheorems {
  import opened Wire
  import opened Stun
  import opened StunCodec
  import opened Channels
  import opened Sockets
  import opened Allocation
  import opened TurnPorts
  import opened TurnHandler
  import opened TurnServer

  // ---------------------------------------------------------------- ports

  /** In every reachable state live allocations, in whichever managers, hold pairwise distinct ports in range; and a
      port is in use exactly when a live allocation holds it or a request that ended in a 500 took it, never both. */
  lemma PortOwnership(cfg: Config, es: seq<Event>)
    requires ValidRange(cfg.range)
    ensures var s := After(cfg, es);
            && (forall a, b :: a in s.clients && b in s.clients && s.clients[a].port == s.clients[b].port ==> a == b)
            && (forall p: nat :: InUse(s.pool, p) <==> p in s.leaked || exists a :: OwnedBy(s, p, a))
            && (forall a, p: nat :: OwnedBy(s, p, a) ==> p !in s.leaked && cfg.range.min <= p <= cfg.range.max)
  {
    var s := After(cfg, es);
    forall a, p: nat | OwnedBy(s, p, a) ensures p !in s.leaked && InUse(s.pool, p) {
    }
  }

  /** A message's whole effect on the server. */
  lemma StepArrive(cfg: Config, s: Server, a: Slot, x: Input, late: bool) returns (f: Effect)
    requires Sound(cfg, s)
    ensures ValidPool(cfg.range, s.pool)
    ensures f == Process(cfg, s.pool, ClientAt(s, a), a.key, x, Seconds(s))
    ensures Step(cfg, s, Arrive(a, x, late)) == (Settle(s, a, f, x.start, late), f.reply, f.out)
    ensures Accounts(cfg, s.pool, ClientAt(s, a), f, Seconds(s))
  {
    SoundPool(cfg, s);
    assert a in s.clients ==> InUse(s.pool, s.clients[a].port);
    ProcessAccounts(cfg, s.pool, ClientAt(s, a), a.key, x, Seconds(s));
    hide Process, Settle, Sound, Accounts, ValidPool, InUse;
    f := Process(cfg, s.pool, ClientAt(s, a), a.key, x, Seconds(s));
  }

  lemma SettleClients(s: Server, a: Slot, f: Effect, start: Start, late: bool)
    ensures Settle(s, a, f, start, late).clients == (if f.client.Some? then s.clients[a := f.client.value] else s.clients - {a})
    ensures Settle(s, a, f, start, late).pool == f.pool
  {
  }

  /** One operation on a client's relay. */
  lemma StepRelay(cfg: Config, s: Server, a: Slot, op: Op)
    requires Sound(cfg, s)
    ensures Step(cfg, s, RelayOp(a, op)) ==
            if a !in s.clients || op.Permit? || op.BindChannel? then (s, Silent, Dropped)
            else var r := Relayed(cfg, s.clients[a], op, Seconds(s)); (s.(clients := s.clients[a := r.1]), Silent, r.0)
  {
    hide Sound, Relayed;
  }

  /** What the remaining events do: nothing is relayed, and allocations go or stay as they are. */
  lemma StepOther(cfg: Config, s: Server, e: Event)
    requires Sound(cfg, s) && !e.Arrive? && !e.RelayOp?
    ensures var (s', reply, out) := Step(cfg, s, e);
            && reply == Silent && out == Dropped && s'.leaked == s.leaked
            && (forall a :: a in s'.clients ==> a in s.clients && s'.clients[a] == s.clients[a])
            && (s'.pool == s.pool || exists a :: a in s.clients && s'.pool == Release(cfg.range, s.pool, s.clients[a].port))
            && (forall a :: a in s.clients && a !in s'.clients ==>
                  || (e.Fire? && e.id in s.pending && s.pending[e.id].slot == a && s.pending[e.id].due <= s.now
                      && Seconds(s) >= s.clients[a].expires)
                  || (e.SocketGone? && e.slot == a))
  {
    hide Sound, Release;
  }

  /** An authenticated allocate request with nothing in it that the server refuses outright. */
  predicate Allocatable(x: Input) {
    && x.m.cls == REQUEST && x.m.verb == ALLOCATE && x.unknown == [] && x.verdict.Accepted?
    && Has(x.m, REQUESTED_TRANSPORT) && Num(x.m, REQUESTED_TRANSPORT) == UDP_RELAY && !Has(x.m, DONT_FRAGMENT)
    && !(Has(x.m, EVEN_PORT) && Has(x.m, RESERVATION_TOKEN))
  }

  /** What the request asks of the ports can be had: a free port or pair that suits, or the token's port reserved. */
  ghost predicate PortAvailable(cfg: Config, pool: Pool, m: Message) {
    if Has(m, EVEN_PORT) then
      || (Num(m, EVEN_PORT) == EVEN_ONLY && exists p :: Suits(cfg.range, pool.ports, EvenPort, p))
      || (Num(m, EVEN_PORT) == EVEN_AND_NEXT && exists p :: Suits(cfg.range, pool.ports, EvenPair, p))
    else if Has(m, RESERVATION_TOKEN) then IsReserved(pool, Num(m, RESERVATION_TOKEN) % 0x1_0000)
    else exists p :: Suits(cfg.range, pool.ports, AnyPort, p)
  }

  /** A request that will leak a port: it could be granted, but its relay does not come up. */
  ghost predicate Leaks(cfg: Config, pool: Pool, client: Option<Client>, x: Input) {
    client == None && Allocatable(x) && x.start != Up && PortAvailable(cfg, pool, x.m)
  }

  predicate ServerError(r: Reply) {
    r.Failure? && r.code == 500
  }

  lemma TakesPortExactlyWhen(cfg: Config, pool: Pool, m: Message)
    requires Healthy(cfg, pool) && !(Has(m, EVEN_PORT) && Has(m, RESERVATION_TOKEN))
    ensures TakePort(cfg, pool, m).0 != 0 <==> PortAvailable(cfg, pool, m)
  {
    if Has(m, EVEN_PORT) && Num(m, EVEN_PORT) == EVEN_ONLY {
      ScanIsComplete(cfg.range, pool, EvenPort);
    } else if Has(m, EVEN_PORT) && Num(m, EVEN_PORT) == EVEN_AND_NEXT {
      ScanIsComplete(cfg.range, pool, EvenPair);
    } else if !Has(m, EVEN_PORT) && Has(m, RESERVATION_TOKEN) {
      ClaimKeeps(cfg, pool, Num(m, RESERVATION_TOKEN) % 0x1_0000);
    } else if !Has(m, EVEN_PORT) {
      ScanIsComplete(cfg.range, pool, AnyPort);
    }
    hide Choose, Suits, Healthy, Has, Num;
  }

  /** A message takes a port that no allocation then holds, and is answered with a 500, exactly when it is an acceptable
      allocate request for a new allocation whose port can be had and whose relay does not come up. */
  lemma LeaksExactlyWhen(cfg: Config, pool: Pool, client: Option<Client>, key: Key, x: Input, now: nat)
    requires Healthy(cfg, pool)
    ensures var f := Process(cfg, pool, client, key, x, now);
            (f.leaked.Some? <==> Leaks(cfg, pool, client, x)) && (ServerError(f.reply) <==> Leaks(cfg, pool, client, x))
  {
    if Allocatable(x) {
      TakesPortExactlyWhen(cfg, pool, x.m);
    }
    hide TakePort, Release, Lifetime, PermitAll, Relayed, Has, Num, PortAvailable;
  }

  /** The same over the server: exactly such a request, and nothing else, adds to the leaked ports; it adds one that was
      not in use and now is. */
  lemma ServerLeaksExactlyWhen(cfg: Config, s: Server, e: Event)
    requires Sound(cfg, s)
    ensures var (s', reply, _) := Step(cfg, s, e);
            var leaks := e.Arrive? && Leaks(cfg, s.pool, ClientAt(s, e.slot), e.x);
            && (ServerError(reply) <==> leaks)
            && (if leaks then exists p :: !InUse(s.pool, p) && InUse(s'.pool, p) && s'.leaked == s.leaked + {p}
                else s'.leaked == s.leaked)
  {
    match e
    case Arrive(a, x, late) =>
      var f := StepArrive(cfg, s, a, x, late);
      assert Healthy(cfg, s.pool);
      LeaksExactlyWhen(cfg, s.pool, ClientAt(s, a), a.key, x, Seconds(s));
      SettleLeaks(cfg, s, a, f, x.start, late);
      hide *;
    case RelayOp(a, op) =>
      StepRelay(cfg, s, a, op);
      hide Relayed, Sound, Step, Leaks;
    case _ =>
      StepOther(cfg, s, e);
      hide Sound, Step, Leaks, Release;
  }

  lemma SettleLeaks(cfg: Config, s: Server, a: Slot, f: Effect, start: Start, late: bool)
    requires Accounts(cfg, s.pool, ClientAt(s, a), f, Seconds(s))
    ensures var s' := Settle(s, a, f, start, late);
            if f.leaked.Some? then exists p :: !InUse(s.pool, p) && InUse(s'.pool, p) && s'.leaked == s.leaked + {p}
            else s'.leaked == s.leaked
  {
    var s' := Settle(s, a, f, start, late);
    if f.leaked.Some? {
      var p := f.leaked.value;
      assert !InUse(s.pool, p) && InUse(s'.pool, p) && s'.leaked == s.leaked + {p};
    }
    hide Healthy, InUse;
  }

  /** For good: whatever happens afterwards, a leaked port stays leaked and in use, and no allocation ever holds it. */
  lemma {:induction false} LeakedForGood(cfg: Config, es: seq<Event>, fs: seq<Event>, p: nat)
    requires ValidRange(cfg.range) && p in After(cfg, es).leaked
    ensures var s := After(cfg, es + fs); p in s.leaked && InUse(s.pool, p) && forall a :: !OwnedBy(s, p, a)
    decreases |fs|
  {
    if fs == [] {
      assert es + fs == es;
    } else {
      var n := |fs| - 1;
      LeakedForGood(cfg, es, fs[..n], p);
      assert es + fs == (es + fs[..n]) + [fs[n]];
      AfterOneMore(cfg, es + fs[..n], fs[n]);
      ServerLeaksExactlyWhen(cfg, After(cfg, es + fs[..n]), fs[n]);
      hide Step, Leaks;
    }
    LeakedIsHeld(cfg, After(cfg, es + fs), p);
    hide After, Sound;
  }

  lemma LeakedIsHeld(cfg: Config, s: Server, p: nat)
    requires Sound(cfg, s) && p in s.leaked
    ensures InUse(s.pool, p) && forall a :: !OwnedBy(s, p, a)
  {
  }

  /** Such a request as the first event of all: any plain allocate request whose relay fails to bind. */
  lemma FirstRequestLeaks(cfg: Config, a: Slot, x: Input, late: bool)
    requires ValidRange(cfg.range) && Allocatable(x) && !Has(x.m, EVEN_PORT) && !Has(x.m, RESERVATION_TOKEN) && x.start != Up
    ensures After(cfg, [Arrive(a, x, late)]).leaked != {}
    ensures ServerError(Step(cfg, After(cfg, []), Arrive(a, x, late)).1)
  {
    var s := After(cfg, []);
    AfterStart(cfg);
    assert Suits(cfg.range, s.pool.ports, AnyPort, cfg.range.min);
    assert Leaks(cfg, s.pool, ClientAt(s, a), x);
    ServerLeaksExactlyWhen(cfg, s, Arrive(a, x, late));
    assert [] + [Arrive(a, x, late)] == [Arrive(a, x, late)];
    AfterOneMore(cfg, [], Arrive(a, x, late));
    hide After, Step, Leaks, Sound;
  }

  /** Every reserved port is odd and its even neighbour belongs to a live allocation or leaked. */
  lemma ReservedHasPartner(cfg: Config, es: seq<Event>, q: nat)
    requires ValidRange(cfg.range) && IsReserved(After(cfg, es).pool, q)
    ensures var s := After(cfg, es);
            q % 2 == 1 && (var p := q - 1; p in s.leaked || exists a :: OwnedBy(s, p, a))
  {
    var s := After(cfg, es);
    assert InUse(s.pool, q - 1);
  }

  // ---------------------------------------------------------------- reservations

  ghost predicate Presents(e: Event, q: nat) {
    e.Arrive? && Has(e.x.m, RESERVATION_TOKEN) && Num(e.x.m, RESERVATION_TOKEN) % 0x1_0000 == q
  }

  lemma AllocateLeavesReserved(cfg: Config, pool: Pool, want: Want, q: nat)
    requires Healthy(cfg, pool) && IsReserved(pool, q)
    ensures IsReserved(Allocate(cfg.range, pool, want).1, q)
  {
    AllocateKeeps(cfg, pool, want);
    hide Allocate;
  }

  lemma TakePortLeavesReserved(cfg: Config, pool: Pool, m: Message, q: nat)
    requires Healthy(cfg, pool) && IsReserved(pool, q)
    requires !(Has(m, RESERVATION_TOKEN) && Num(m, RESERVATION_TOKEN) % 0x1_0000 == q)
    ensures IsReserved(TakePort(cfg, pool, m).1, q)
  {
    AllocateLeavesReserved(cfg, pool, EvenPort, q);
    AllocateLeavesReserved(cfg, pool, EvenPair, q);
    AllocateLeavesReserved(cfg, pool, AnyPort, q);
    hide Allocate, Healthy, Num, Has;
  }

  lemma ReleaseLeavesReserved(cfg: Config, pool: Pool, p: nat, q: nat)
    requires Healthy(cfg, pool) && IsReserved(pool, q) && InUse(pool, p)
    requires InUse(Release(cfg.range, pool, p), q - 1)
    ensures IsReserved(Release(cfg.range, pool, p), q)
  {
  }

  lemma ProcessLeavesReserved(cfg: Config, pool: Pool, client: Option<Client>, key: Key, x: Input, now: nat, q: nat)
    requires Healthy(cfg, pool) && IsReserved(pool, q) && (client.Some? ==> InUse(pool, client.value.port))
    requires !(Has(x.m, RESERVATION_TOKEN) && Num(x.m, RESERVATION_TOKEN) % 0x1_0000 == q)
    requires InUse(Process(cfg, pool, client, key, x, now).pool, q - 1)
    ensures IsReserved(Process(cfg, pool, client, key, x, now).pool, q)
  {
    TakePortLeavesReserved(cfg, pool, x.m, q);
    var f := Process(cfg, pool, client, key, x, now);
    assert ValidPool(cfg.range, pool);
    if client.Some? && f.pool == Release(cfg.range, pool, client.value.port) {
      ReleaseLeavesReserved(cfg, pool, client.value.port, q);
    }
    hide Healthy, TakePort, Release, Lifetime, PermitAll, Relayed, Has, Num, InUse, IsReserved;
  }

  /** One event leaves a reserved port reserved, unless it presents the token or the even neighbour is released. */
  lemma StepLeavesReserved(cfg: Config, s: Server, e: Event, q: nat)
    requires Sound(cfg, s) && IsReserved(s.pool, q) && !Presents(e, q)
    requires InUse(Step(cfg, s, e).0.pool, q - 1)
    ensures IsReserved(Step(cfg, s, e).0.pool, q)
  {
    if e.Arrive? {
      var a := e.slot;
      assert Healthy(cfg, s.pool) && (a in s.clients ==> InUse(s.pool, s.clients[a].port));
      var f := StepArrive(cfg, s, a, e.x, e.late);
      hide Process, Step, Sound, Accounts, ValidPool, InUse, Healthy, IsReserved, Settle;
      SettleClients(s, a, f, e.x.start, e.late);
      ProcessLeavesReserved(cfg, s.pool, ClientAt(s, a), a.key, e.x, Seconds(s), q);
    } else if e.RelayOp? {
      StepRelay(cfg, s, e.slot, e.op);
      hide Sound, Relayed, Step;
    } else {
      assert Healthy(cfg, s.pool) && forall a :: a in s.clients ==> InUse(s.pool, s.clients[a].port);
      StepOther(cfg, s, e);
      var s' := Step(cfg, s, e).0;
      hide Sound, Step, Release, Healthy, InUse;
      if s'.pool != s.pool {
        var a :| a in s.clients && s'.pool == Release(cfg.range, s.pool, s.clients[a].port);
        ReleaseLeavesReserved(cfg, s.pool, s.clients[a].port, q);
      }
    }
  }

  lemma AfterOneMore(cfg: Config, es: seq<Event>, e: Event)
    requires ValidRange(cfg.range)
    ensures After(cfg, es + [e]) == Step(cfg, After(cfg, es), e).0
  {
    assert (es + [e])[..|es|] == es;
  }

  lemma StepTime(cfg: Config, s: Server, e: Event)
    requires Sound(cfg, s)
    ensures s.now <= Step(cfg, s, e).0.now
  {
    hide Process, Sound, Relayed, Release;
  }

  lemma {:induction false} TimePasses(cfg: Config, es: seq<Event>, i: nat)
    requires ValidRange(cfg.range) && i <= |es|
    ensures After(cfg, es[..i]).now <= After(cfg, es).now
    decreases |es|
  {
    if i < |es| {
      var n := |es| - 1;
      assert es[..n][..i] == es[..i] && es == es[..n] + [es[n]];
      TimePasses(cfg, es[..n], i);
      AfterOneMore(cfg, es[..n], es[n]);
      StepTime(cfg, After(cfg, es[..n]), es[n]);
      hide Step, Sound, After;
    } else {
      assert es[..i] == es;
    }
  }

  /** Port p is in use after each of the further events. */
  ghost predicate StaysInUse(cfg: Config, es: seq<Event>, fs: seq<Event>, p: nat)
    requires ValidRange(cfg.range)
  {
    forall i :: 0 <= i <= |fs| ==> InUse(After(cfg, es + fs[..i]).pool, p)
  }

  lemma StaysInUseShorter(cfg: Config, es: seq<Event>, fs: seq<Event>, p: nat)
    requires ValidRange(cfg.range) && StaysInUse(cfg, es, fs, p)
    ensures InUse(After(cfg, es + fs).pool, p)
    ensures fs != [] ==> StaysInUse(cfg, es, fs[..|fs| - 1], p)
  {
    hide After, InUse;
    assert fs[..|fs|] == fs;
    if fs != [] {
      var shorter := fs[..|fs| - 1];
      forall i | 0 <= i <= |shorter| ensures InUse(After(cfg, es + shorter[..i]).pool, p) {
        assert shorter[..i] == fs[..i];
      }
    }
  }

  /** A reservation survives every run in which nobody presents its token and its even neighbour stays in use. */
  lemma {:induction false} ReservationIsStable(cfg: Config, es: seq<Event>, fs: seq<Event>, p: nat)
    requires ValidRange(cfg.range) && IsReserved(After(cfg, es).pool, p + 1)
    requires forall i :: 0 <= i < |fs| ==> !Presents(fs[i], p + 1)
    requires StaysInUse(cfg, es, fs, p)
    ensures IsReserved(After(cfg, es + fs).pool, p + 1)
    decreases |fs|
  {
    hide After, Presents, IsReserved, InUse, Step, Sound, StaysInUse;
    if fs == [] {
      assert es + fs == es;
    } else {
      var n := |fs| - 1;
      StaysInUseShorter(cfg, es, fs, p);
      ReservationIsStable(cfg, es, fs[..n], p);
      assert es + fs == (es + fs[..n]) + [fs[n]];
      AfterOneMore(cfg, es + fs[..n], fs[n]);
      StepLeavesReserved(cfg, After(cfg, es + fs[..n]), fs[n], p + 1);
    }
  }

  /** One whose relay will come up. */
  predicate PlainAllocate(x: Input) {
    Allocatable(x) && x.start == Up
  }

  predicate AsksForPair(x: Input) {
    && PlainAllocate(x) && !Has(x.m, RESERVATION_TOKEN)
    && Has(x.m, EVEN_PORT) && Num(x.m, EVEN_PORT) == EVEN_AND_NEXT
  }

  predicate HoldsToken(x: Input, q: nat) {
    && PlainAllocate(x) && !Has(x.m, EVEN_PORT)
    && Has(x.m, RESERVATION_TOKEN) && Num(x.m, RESERVATION_TOKEN) % 0x1_0000 == q
  }

  /** A pair request succeeds exactly when two adjacent ports, even then odd, are free; the token is the odd one,
      which is then reserved. */
  lemma PairIsReserved(cfg: Config, s: Server, a: Slot, x: Input, late: bool)
    requires Sound(cfg, s) && AsksForPair(x) && a !in s.clients
    ensures var (s', reply, _) := Step(cfg, s, Arrive(a, x, late));
            if exists p :: Suits(cfg.range, s.pool.ports, EvenPair, p)
            then reply.Success? && a in s'.clients && reply.token == Some(s'.clients[a].port + 1)
                 && s'.clients[a].port % 2 == 0 && IsReserved(s'.pool, s'.clients[a].port + 1)
            else reply == Failure(508, [], Some(1)) && s'.clients == s.clients && s'.pool.ports == s.pool.ports
  {
    assert Healthy(cfg, s.pool) && ClientAt(s, a) == None;
    hide *;
    var f := StepArrive(cfg, s, a, x, late);
    SettleClients(s, a, f, x.start, late);
    PairHandled(cfg, s.pool, a.key, x, Seconds(s));
    WithoutAbsent(s.clients, a);
  }

  lemma WithoutAbsent(m: map<Slot, Client>, a: Slot)
    requires a !in m
    ensures m - {a} == m
  {
  }

  lemma PairHandled(cfg: Config, pool: Pool, key: Key, x: Input, now: nat)
    requires Healthy(cfg, pool) && AsksForPair(x)
    ensures var f := Process(cfg, pool, None, key, x, now);
            if exists p :: Suits(cfg.range, pool.ports, EvenPair, p)
            then f.reply.Success? && f.client.Some? && f.reply.token == Some(f.client.value.port + 1)
                 && f.client.value.port % 2 == 0 && IsReserved(f.pool, f.client.value.port + 1)
            else f.reply == Failure(508, [], Some(1)) && f.client == None && f.pool.ports == pool.ports
  {
    ScanIsComplete(cfg.range, pool, EvenPair);
    AllocateKeeps(cfg, pool, EvenPair);
    hide Choose, Lifetime, Healthy, Gains, Paired;
  }

  /** Whoever presents the token of a reserved port gets exactly that port; any other token gets nothing. */
  lemma TokenGetsPort(cfg: Config, s: Server, a: Slot, x: Input, late: bool, q: nat)
    requires Sound(cfg, s) && HoldsToken(x, q) && a !in s.clients
    ensures var (s', reply, _) := Step(cfg, s, Arrive(a, x, late));
            if IsReserved(s.pool, q)
            then reply == Success(Some(Lifetime(cfg, x.m)), Some(q), None) && a in s'.clients && s'.clients[a].port == q
            else reply == Failure(508, [], None) && s'.clients == s.clients && s'.pool == s.pool
  {
    assert Healthy(cfg, s.pool) && ClientAt(s, a) == None;
    hide *;
    var f := StepArrive(cfg, s, a, x, late);
    SettleClients(s, a, f, x.start, late);
    TokenHandled(cfg, s.pool, a.key, x, Seconds(s), q);
    WithoutAbsent(s.clients, a);
  }

  lemma TokenHandled(cfg: Config, pool: Pool, key: Key, x: Input, now: nat, q: nat)
    requires Healthy(cfg, pool) && HoldsToken(x, q)
    ensures var f := Process(cfg, pool, None, key, x, now);
            if IsReserved(pool, q)
            then f.reply == Success(Some(Lifetime(cfg, x.m)), Some(q), None) && f.client.Some? && f.client.value.port == q
            else f.reply == Failure(508, [], None) && f.client == None && f.pool == pool
  {
    hide Lifetime, Num;
  }

  /** From the pair to its second half: whatever happens in between, as long as nobody presents the token and the
      even port is kept, the token's holder is given the port after it. */
  lemma TokenHolderGetsNextPort(cfg: Config, es: seq<Event>, a: Slot, x: Input, late: bool) returns (p: nat)
    requires ValidRange(cfg.range) && AsksForPair(x) && a !in After(cfg, es).clients
    requires exists p :: Suits(cfg.range, After(cfg, es).pool.ports, EvenPair, p)
    ensures OwnedBy(After(cfg, es + [Arrive(a, x, late)]), p, a) && p % 2 == 0
    ensures forall fs, b, y, late' :: UntilClaimed(cfg, es + [Arrive(a, x, late)], fs, p, b, y) ==>
              OwnedBy(After(cfg, es + [Arrive(a, x, late)] + fs + [Arrive(b, y, late')]), p + 1, b)
  {
    var before := es + [Arrive(a, x, late)];
    hide Step, Sound, AsksForPair, HoldsToken, After, IsReserved, Suits, UntilClaimed;
    AfterOneMore(cfg, es, Arrive(a, x, late));
    PairIsReserved(cfg, After(cfg, es), a, x, late);
    p := After(cfg, before).clients[a].port;
    forall fs, b, y, late' | UntilClaimed(cfg, before, fs, p, b, y)
      ensures OwnedBy(After(cfg, before + fs + [Arrive(b, y, late')]), p + 1, b)
    {
      UntilClaimedGets(cfg, before, fs, p, b, y, late');
    }
  }

  /** Nobody presents the token of p + 1 while p stays in use, until a newcomer does. */
  ghost predicate UntilClaimed(cfg: Config, before: seq<Event>, fs: seq<Event>, p: nat, b: Slot, y: Input)
    requires ValidRange(cfg.range)
  {
    && (forall i :: 0 <= i < |fs| ==> !Presents(fs[i], p + 1))
    && StaysInUse(cfg, before, fs, p)
    && b !in After(cfg, before + fs).clients && HoldsToken(y, p + 1)
  }

  lemma UntilClaimedGets(cfg: Config, before: seq<Event>, fs: seq<Event>, p: nat, b: Slot, y: Input, late: bool)
    requires ValidRange(cfg.range) && UntilClaimed(cfg, before, fs, p, b, y) && IsReserved(After(cfg, before).pool, p + 1)
    ensures OwnedBy(After(cfg, before + fs + [Arrive(b, y, late)]), p + 1, b)
  {
    hide Step, Sound, HoldsToken, After, IsReserved;
    ReservationIsStable(cfg, before, fs, p);
    AfterOneMore(cfg, before + fs, Arrive(b, y, late));
    TokenGetsPort(cfg, After(cfg, before + fs), b, y, late, p + 1);
  }

  // ---------------------------------------------------------------- who may change what

  /** Two records of a client that agree on everything at a moment. */
  ghost predicate SameNow(c: Client, d: Client, now: nat) {
    && d.port == c.port && d.user == c.user && d.secret == c.secret && d.expires == c.expires
    && Current(d.relay, now) == Current(c.relay, now)
  }

  /** A message under other credentials than the allocation's own changes neither ports nor allocation. */
  lemma StrangersChangeNothing(cfg: Config, pool: Pool, c: Client, key: Key, x: Input, now: nat)
    requires ValidPool(cfg.range, pool) && x.verdict != Accepted(c.user, c.secret)
    ensures var f := Process(cfg, pool, Some(c), key, x, now);
            f.pool == pool && f.granted == None && f.client.Some? && SameNow(c, f.client.value, now)
  {
    AtLater(c.relay, now, now);
    hide TakePort, Release, Lifetime, PermitAll, Bind, Has, Num, Current;
  }

  /** So over the server: whatever arrives elsewhere, or under other credentials, leaves an allocation and the end of
      its lifetime as they are. */
  lemma OnlyOwnerChanges(cfg: Config, s: Server, e: Event, a: Slot)
    requires Sound(cfg, s) && a in s.clients && e.Arrive?
    requires e.slot != a || e.x.verdict != Accepted(s.clients[a].user, s.clients[a].secret)
    ensures var s' := Step(cfg, s, e).0;
            && a in s'.clients && SameNow(s.clients[a], s'.clients[a], Seconds(s))
            && HasTimer(s, a) && HasTimer(s', a) && EndOf(s', a) == EndOf(s, a)
  {
    assert HasTimer(s, a);
    StepSound(cfg, s, e);
    var f := StepArrive(cfg, s, e.slot, e.x, e.late);
    var s' := Step(cfg, s, e).0;
    if e.slot == a {
      StrangersChangeNothing(cfg, s.pool, s.clients[a], a.key, e.x, Seconds(s));
      hide Process, Accounts, Step, SameNow, ValidPool;
      assert s' == s.(pool := f.pool, clients := s.clients[a := f.client.value]);
    } else {
      SettleElsewhere(cfg, s, e.slot, f, e.x.start, e.late, a);
      hide Process, Accounts, Step, Settle, ValidPool;
    }
  }

  /** An allocation's own callback is the same before and after. */
  ghost predicate SameTimer(s: Server, s': Server, a: Slot) {
    && a in s.own && s.own[a] in s.pending && a in s'.own && s'.own[a] == s.own[a]
    && s.own[a] in s'.pending && s'.pending[s.own[a]] == s.pending[s.own[a]]
  }

  lemma CancelElsewhere(s: Server, b: Slot, late: bool, a: Slot)
    requires TimersOwned(s) && a in s.clients && a != b
    ensures SameTimer(s, Cancel(s, b, late), a) && s.own[a] < s.nextId && Cancel(s, b, late).nextId == s.nextId
  {
    assert HasTimer(s, a);
    if b in s.clients {
      assert HasTimer(s, b);
    }
  }

  lemma SettleElsewhere(cfg: Config, s: Server, b: Slot, f: Effect, start: Start, late: bool, a: Slot)
    requires Sound(cfg, s) && a in s.clients && a != b
    ensures var s' := Settle(s, b, f, start, late);
            && a in s'.clients && s'.clients[a] == s.clients[a] && HasTimer(s, a) && HasTimer(s', a) && EndOf(s', a) == EndOf(s, a)
  {
    assert HasTimer(s, a);
    CancelElsewhere(s, b, late, a);
    SettleTimers(s, b, f, start, late, a);
    SettleClients(s, b, f, start, late);
    hide Sound, Cancel, Settle, Release;
  }

  lemma SettleTimers(s: Server, b: Slot, f: Effect, start: Start, late: bool, a: Slot)
    requires a != b && SameTimer(s, Cancel(s, b, late), a) && s.own[a] < s.nextId && Cancel(s, b, late).nextId == s.nextId
    ensures SameTimer(s, Settle(s, b, f, start, late), a)
  {
    var t := s.(pool := f.pool, clients := if f.client.Some? then s.clients[b := f.client.value] else s.clients);
    assert Cancel(t, b, late).own == Cancel(s, b, late).own && Cancel(t, b, late).pending == Cancel(s, b, late).pending
           && Cancel(t, b, late).nextId == Cancel(s, b, late).nextId;
    hide Cancel;
  }

  /** The granted lifetime: what was asked for, kept between the server's default and its maximum. */
  lemma LifetimeIsClamped(cfg: Config, m: Message)
    requires cfg.defaultLifetime <= cfg.maxLifetime
    ensures var asked := if Has(m, LIFETIME) then Num(m, LIFETIME) else 0;
            && cfg.defaultLifetime <= Lifetime(cfg, m) <= cfg.maxLifetime
            && (cfg.defaultLifetime <= asked <= cfg.maxLifetime ==> Lifetime(cfg, m) == asked)
            && (asked > cfg.maxLifetime ==> Lifetime(cfg, m) == cfg.maxLifetime)
            && (asked < cfg.defaultLifetime ==> Lifetime(cfg, m) == cfg.defaultLifetime)
  {
  }

  /** A well-formed request without token succeeds exactly when a port that suits it is free, and gets one; the reply
      names it, and it was free. */
  lemma FreePortIsGranted(cfg: Config, pool: Pool, key: Key, x: Input, now: nat, want: Want)
    requires Healthy(cfg, pool) && PlainAllocate(x) && !Has(x.m, RESERVATION_TOKEN)
    requires match want
             case AnyPort => !Has(x.m, EVEN_PORT)
             case EvenPort => Has(x.m, EVEN_PORT) && Num(x.m, EVEN_PORT) == EVEN_ONLY
             case EvenPair => Has(x.m, EVEN_PORT) && Num(x.m, EVEN_PORT) == EVEN_AND_NEXT
    ensures var f := Process(cfg, pool, None, key, x, now);
            if exists p :: Suits(cfg.range, pool.ports, want, p)
            then f.client.Some? && Suits(cfg.range, pool.ports, want, f.client.value.port)
                 && f.reply.Success? && f.reply.relayed == Some(f.client.value.port)
                 && f.client.value.user == x.verdict.user && f.client.value.secret == x.verdict.secret
                 && f.client.value.relay == NoRelay
            else f.reply.Failure? && f.reply.code == 508 && f.client == None && f.pool.ports == pool.ports
  {
    ScanIsComplete(cfg.range, pool, want);
    AllocateKeeps(cfg, pool, want);
    hide Choose, Lifetime, Healthy, Gains, Paired, Suits, Has, Num;
  }

  /** A ChannelBind request under the allocation's credentials succeeds exactly when it names a peer and a number in
      range, and the pair is bound already or neither side is. */
  lemma ChannelBindSucceedsExactlyWhen(cfg: Config, pool: Pool, c: Client, key: Key, x: Input, now: nat)
    requires ValidPool(cfg.range, pool) && OneToOne(Current(c.relay, now).bonds)
    requires x.m.cls == REQUEST && x.m.verb == CHANNEL_BIND && x.unknown == [] && x.verdict == Accepted(c.user, c.secret)
    ensures var f := Process(cfg, pool, Some(c), key, x, now);
            var n, r := Num(x.m, CHANNEL_NUMBER), Current(c.relay, now);
            f.reply == Agreed <==>
              && x.m.peers != [] && Has(x.m, CHANNEL_NUMBER) && MIN_CHANNEL <= n <= MAX_CHANNEL
              && (Pairs(r, x.m.peers[0], n) || forall b :: b in r.bonds ==> b.peer != x.m.peers[0] && b.channel != n)
  {
    if x.m.peers != [] {
      BindLaws(Current(c.relay, now).bonds, x.m.peers[0], Num(x.m, CHANNEL_NUMBER), now);
    }
    hide TakePort, Release, Lifetime, PermitAll, Bind, Current, OneToOne;
  }

  lemma {:induction false} PermitAllGives(r: Relay, peers: seq<Address>, now: nat, h: Host)
    ensures var r' := PermitAll(r, peers, now);
            && r'.bonds == r.bonds
            && (h in r'.permits <==> h in r.permits || exists p :: p in peers && HostOf(p) == h)
            && (h in r'.permits ==> r'.permits[h] == if exists p :: p in peers && HostOf(p) == h then now + PERMISSION_LIFETIME else r.permits[h])
  {
    if peers != [] {
      var last := |peers| - 1;
      PermitAllGives(r, peers[..last], now, h);
      assert forall p :: p in peers <==> p in peers[..last] || p == peers[last];
    }
  }

  predicate OwnRequest(x: Input, verb: nat, c: Client) {
    x.m.cls == REQUEST && x.m.verb == verb && x.unknown == [] && x.verdict == Accepted(c.user, c.secret)
  }

  /** The owner's refresh removes the allocation exactly when it asks for no lifetime at all, and then its port is free
      again; otherwise the allocation stays, for the granted lifetime from now. */
  lemma RefreshRemovesExactlyWhenZero(cfg: Config, pool: Pool, c: Client, key: Key, x: Input, now: nat)
    requires Healthy(cfg, pool) && InUse(pool, c.port) && OwnRequest(x, REFRESH, c)
    ensures var f := Process(cfg, pool, Some(c), key, x, now);
            && f.reply.Success? && f.reply.lifetime.Some? && (f.client == None <==> f.reply.lifetime == Some(0) && f.granted == None)
            && (f.client == None <==> Has(x.m, LIFETIME) && Num(x.m, LIFETIME) == 0)
            && (f.client == None <==> !InUse(f.pool, c.port))
            && (f.client.Some? ==> f.client.value == c.(expires := now + f.reply.lifetime.value) && f.granted == f.reply.lifetime)
  {
    ReleaseKeeps(cfg, pool, c.port);
    hide TakePort, Release, PermitAll, Relayed, Has, Num, Lifetime, Healthy;
  }

  /** The owner's CreatePermission succeeds exactly when it names a peer; then exactly the named hosts are added to those
      permitted, each for 300 seconds from now, and nothing else changes. */
  lemma CreatePermissionGrants(cfg: Config, pool: Pool, c: Client, key: Key, x: Input, now: nat, h: Host)
    requires ValidPool(cfg.range, pool) && OwnRequest(x, CREATE_PERMISSION, c)
    ensures var f := Process(cfg, pool, Some(c), key, x, now);
            var named := exists p :: p in x.m.peers && HostOf(p) == h;
            && f.pool == pool && f.client.Some? && (f.reply == Agreed <==> x.m.peers != [])
            && var before, after := Current(c.relay, now), f.client.value.relay;
               (f.reply == Agreed ==>
                  && after.bonds == before.bonds
                  && (h in after.permits <==> h in before.permits || named)
                  && (h in after.permits ==> after.permits[h] == if named then now + PERMISSION_LIFETIME else before.permits[h]))
  {
    PermitAllGives(Current(c.relay, now), x.m.peers, now, h);
    hide TakePort, Release, PermitAll, Relayed, Has, Num, Lifetime, Current;
  }

  // ---------------------------------------------------------------- expiry

  /** When, to the millisecond, the last granted lifetime of a live allocation ends. */
  ghost function EndOf(s: Server, a: Slot): nat
    requires HasTimer(s, a)
  {
    s.pending[s.own[a]].due
  }

  /** A lifetime granted now ends that many seconds from now. */
  lemma GrantSetsEnd(cfg: Config, s: Server, a: Slot, x: Input, late: bool)
    requires Sound(cfg, s)
    ensures var (s', reply, _) := Step(cfg, s, Arrive(a, x, late));
            Sound(cfg, s') && (reply.Success? && reply.lifetime.Some? && a in s'.clients ==>
              HasTimer(s', a) && EndOf(s', a) == s.now + 1000 * reply.lifetime.value)
  {
    StepSound(cfg, s, Arrive(a, x, late));
    var f := StepArrive(cfg, s, a, x, late);
    GrantReply(cfg, s.pool, ClientAt(s, a), a.key, x, Seconds(s));
    var s' := Settle(s, a, f, x.start, late);
    if a in s'.clients {
      assert HasTimer(s', a);
    }
    assert f.client.Some? && f.granted.Some? ==>
        a in s'.own && s'.own[a] in s'.pending && s'.pending[s'.own[a]].due == s.now + 1000 * f.granted.value;
    SettleClients(s, a, f, x.start, late);
    hide Process, Healthy, Sound, ValidPool, Accounts, Step, Settle;
  }

  lemma GrantReply(cfg: Config, pool: Pool, client: Option<Client>, key: Key, x: Input, now: nat)
    requires ValidPool(cfg.range, pool)
    ensures var f := Process(cfg, pool, client, key, x, now);
            f.reply.Success? && f.reply.lifetime.Some? && f.client.Some? ==> f.granted == f.reply.lifetime
  {
    hide TakePort, Release, Lifetime, PermitAll, Relayed, Has, Num;
  }

  /** An allocation goes only by a due callback of its own 5-tuple, at or after the second its lifetime ends in, by a refresh to zero under
      its own credentials, or with its socket. */
  lemma RemovedOnlyBy(cfg: Config, s: Server, e: Event, a: Slot)
    requires Sound(cfg, s) && a in s.clients && a !in Step(cfg, s, e).0.clients
    ensures || (e.Fire? && e.id in s.pending && s.pending[e.id].slot == a && s.pending[e.id].due <= s.now
                && Seconds(s) >= s.clients[a].expires)
            || (e.SocketGone? && e.slot == a)
            || (e.Arrive? && e.slot == a && e.x.m.verb == REFRESH && Num(e.x.m, LIFETIME) == 0
                && e.x.verdict == Accepted(s.clients[a].user, s.clients[a].secret))
  {
    match e
    case Arrive(b, x, late) =>
      var f := StepArrive(cfg, s, b, x, late);
      SettleClients(s, b, f, x.start, late);
      if b == a {
        hide *;
        assert ClientAt(s, b) == Some(s.clients[b]) && f.client == None;
        ProcessRemoves(cfg, s.pool, ClientAt(s, a), a.key, x, Seconds(s));
      }
    case RelayOp(b, op) =>
      StepRelay(cfg, s, b, op);
    case _ =>
      StepOther(cfg, s, e);
  }

  lemma ProcessRemoves(cfg: Config, pool: Pool, client: Option<Client>, key: Key, x: Input, now: nat)
    requires ValidPool(cfg.range, pool) && client.Some? && Process(cfg, pool, client, key, x, now).client == None
    ensures x.m.verb == REFRESH && Num(x.m, LIFETIME) == 0 && x.verdict == Accepted(client.value.user, client.value.secret)
  {
    hide TakePort, Release, Lifetime, PermitAll, Relayed, Num;
  }

  /** A due callback for a live allocation removes it exactly when the clock has reached the second in which the
      lifetime ends. So it comes early, by less than a second, exactly when it is an older callback that runs within
      that very second; the allocation's own callback never is. */
  lemma CallbackRemovesExactlyWhen(cfg: Config, s: Server, id: nat, late: bool)
    requires Sound(cfg, s) && id in s.pending && s.pending[id].due <= s.now && s.pending[id].slot in s.clients
    ensures var a := s.pending[id].slot;
            var gone := a !in Step(cfg, s, Fire(id, late)).0.clients;
            && HasTimer(s, a)
            && (gone <==> s.now / 1000 >= EndOf(s, a) / 1000)
            && (gone && s.now < EndOf(s, a) <==> s.now / 1000 == EndOf(s, a) / 1000 && s.now % 1000 < EndOf(s, a) % 1000)
            && (id == s.own[a] ==> gone && s.now >= EndOf(s, a))
  {
    assert HasTimer(s, s.pending[id].slot);
    hide Healthy, Release;
  }

  /** Once every due callback has run, no live allocation is past its lifetime, not even by a millisecond. */
  lemma NothingOutlivesItsLifetime(cfg: Config, es: seq<Event>)
    requires ValidRange(cfg.range)
    requires forall id :: id in After(cfg, es).pending ==> After(cfg, es).pending[id].due > After(cfg, es).now
    ensures var s := After(cfg, es);
            forall a :: a in s.clients ==> HasTimer(s, a) && s.now < EndOf(s, a) && Seconds(s) <= s.clients[a].expires
  {
    var s := After(cfg, es);
    forall a | a in s.clients ensures HasTimer(s, a) && s.now < EndOf(s, a) && Seconds(s) <= s.clients[a].expires {
      assert HasTimer(s, a);
    }
  }

  /** A request that takes any free port for the default lifetime. */
  predicate Simplest(x: Input) {
    PlainAllocate(x) && !Has(x.m, EVEN_PORT) && !Has(x.m, RESERVATION_TOKEN) && !Has(x.m, LIFETIME)
  }

  predicate RefreshOf(y: Input, x: Input) {
    y.m.cls == REQUEST && y.m.verb == REFRESH && y.unknown == [] && y.verdict == x.verdict && !Has(y.m, LIFETIME)
  }

  /** An allocation made at 500 ms whose callback is queued, overtaken by a refresh, and run only in the last second
      of the refreshed lifetime. */
  function LateCallback(cfg: Config, a: Slot, x: Input, y: Input): seq<Event>
    requires cfg.defaultLifetime >= 1
  {
    var ms := 1000 * cfg.defaultLifetime;
    [Tick(500), Arrive(a, x, false), Tick(ms), Arrive(a, y, true), Tick(ms - 500)]
  }

  lemma FirstAllocation(cfg: Config, s: Server, a: Slot, x: Input)
    requires Sound(cfg, s) && s.pool == Fresh(cfg.range) && s.clients == map[] && Simplest(x)
    ensures var s' := Step(cfg, s, Arrive(a, x, false)).0;
            && a in s'.clients && s'.clients[a].expires == Seconds(s) + cfg.defaultLifetime
            && s'.clients[a].user == x.verdict.user && s'.clients[a].secret == x.verdict.secret
            && s'.pending == s.pending[s.nextId := Callback(a, s.now + 1000 * cfg.defaultLifetime)]
            && s'.own == map[a := s.nextId] && s'.nextId == s.nextId + 1 && s'.now == s.now
  {
    var f := StepArrive(cfg, s, a, x, false);
    assert s.own.Keys == s.clients.Keys;
    assert s.own == map[];
    var r := cfg.range;
    ScanIsComplete(r, s.pool, AnyPort);
    assert Suits(r, s.pool.ports, AnyPort, r.min);
    hide Choose, Sound, Accounts, Healthy, Release;
  }

  lemma QueuedRefresh(cfg: Config, s: Server, a: Slot, y: Input, id: nat)
    requires Sound(cfg, s) && a in s.clients && a in s.own && s.own[a] == id && id in s.pending && s.pending[id].due <= s.now
    requires y.m.cls == REQUEST && y.m.verb == REFRESH && y.unknown == [] && !Has(y.m, LIFETIME)
    requires y.verdict == Accepted(s.clients[a].user, s.clients[a].secret)
    ensures var s' := Step(cfg, s, Arrive(a, y, true)).0;
            && a in s'.clients && s'.clients[a].expires == Seconds(s) + cfg.defaultLifetime
            && s'.pending == s.pending[s.nextId := Callback(a, s.now + 1000 * cfg.defaultLifetime)]
            && a in s'.own && s'.own[a] == s.nextId && s'.now == s.now
  {
    hide Sound, Accounts, Healthy, Release, Step, ValidPool, TakePort, PermitAll, Relayed;
    var f := StepArrive(cfg, s, a, y, true);
  }

  lemma StepTick(cfg: Config, s: Server, ms: nat)
    requires Sound(cfg, s)
    ensures Step(cfg, s, Tick(ms)).0 == s.(now := s.now + ms)
  {
    hide Sound;
  }

  lemma AfterStart(cfg: Config)
    requires ValidRange(cfg.range)
    ensures After(cfg, []) == Server(Fresh(cfg.range), map[], map[], map[], 0, 0, {})
  {
  }

  lemma FirstHalf(cfg: Config, a: Slot, x: Input, y: Input)
    requires ValidRange(cfg.range) && cfg.defaultLifetime >= 1 && Simplest(x) && RefreshOf(y, x)
    ensures var s := After(cfg, LateCallback(cfg, a, x, y)[..3]);
            && s.now == 500 + 1000 * cfg.defaultLifetime
            && a in s.clients && s.clients[a].user == x.verdict.user && s.clients[a].secret == x.verdict.secret
            && s.pending == map[0 := Callback(a, s.now)] && s.own == map[a := 0] && s.nextId == 1
  {
    hide Step, After, Sound, Simplest;
    var es := LateCallback(cfg, a, x, y);
    AfterStart(cfg);
    assert es[..1] == [] + [es[0]] && es[..2] == es[..1] + [es[1]] && es[..3] == es[..2] + [es[2]];
    AfterOneMore(cfg, [], es[0]);
    StepTick(cfg, After(cfg, []), 500);
    AfterOneMore(cfg, es[..1], es[1]);
    FirstAllocation(cfg, After(cfg, es[..1]), a, x);
    AfterOneMore(cfg, es[..2], es[2]);
    StepTick(cfg, After(cfg, es[..2]), 1000 * cfg.defaultLifetime);
  }

  lemma SecondHalf(cfg: Config, a: Slot, x: Input, y: Input)
    requires ValidRange(cfg.range) && cfg.defaultLifetime >= 1 && Simplest(x) && RefreshOf(y, x)
    ensures var ms := 1000 * cfg.defaultLifetime;
            var s := After(cfg, LateCallback(cfg, a, x, y));
            && s.now == 2 * ms && a in s.clients && s.own.Keys >= {a} && s.own[a] == 1
            && s.pending == map[0 := Callback(a, 500 + ms), 1 := Callback(a, 500 + 2 * ms)]
  {
    hide Step, After, Sound;
    var es := LateCallback(cfg, a, x, y);
    FirstHalf(cfg, a, x, y);
    assert es[..4] == es[..3] + [es[3]] && es == es[..4] + [es[4]];
    AfterOneMore(cfg, es[..3], es[3]);
    QueuedRefresh(cfg, After(cfg, es[..3]), a, y, 0);
    AfterOneMore(cfg, es[..4], es[4]);
    StepTick(cfg, After(cfg, es[..4]), 1000 * cfg.defaultLifetime - 500);
  }

  /** Expiry can come early: in that run the older callback removes the allocation 500 ms before its refreshed
      lifetime ends. */
  lemma EarlyRemoval(cfg: Config, a: Slot, x: Input, y: Input)
    requires ValidRange(cfg.range) && cfg.defaultLifetime >= 1 && Simplest(x) && RefreshOf(y, x)
    ensures var es := LateCallback(cfg, a, x, y);
            var s := After(cfg, es);
            && a in s.clients && HasTimer(s, a) && s.now + 500 == EndOf(s, a)
            && a !in After(cfg, es + [Fire(0, false)]).clients
  {
    hide *;
    var es := LateCallback(cfg, a, x, y);
    var s := After(cfg, es);
    SecondHalf(cfg, a, x, y);
    AfterOneMore(cfg, es, Fire(0, false));
    var L := cfg.defaultLifetime;
    OldCallback(cfg, s, a, 500 + 2000 * L);
    assert (2000 * L) / 1000 == 2 * L == (500 + 2000 * L) / 1000 && (2000 * L) % 1000 == 0;
  }

  lemma OldCallback(cfg: Config, s: Server, a: Slot, end: nat)
    requires Sound(cfg, s) && a in s.clients && a in s.own && s.own[a] == 1
    requires 0 in s.pending && 1 in s.pending && s.pending[0].slot == a && s.pending[0].due <= s.now && s.pending[1].due == end
    requires s.now / 1000 == end / 1000
    ensures HasTimer(s, a) && EndOf(s, a) == end && a !in Step(cfg, s, Fire(0, false)).0.clients
  {
    CallbackRemovesExactlyWhen(cfg, s, 0, false);
    hide Step, Sound;
  }
}
