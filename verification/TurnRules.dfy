/** The relay ports and the answers of the TURN server message by message, in terms of port states, attributes and
    response codes alone. */
module TurnRules {
  import opened Wire
  import opened Stun
  import opened StunCodec
  import opened StunWire
  import opened Channels
  import opened Sockets
  import opened Allocation
  import opened TurnPorts
  import opened TurnHandler
  import opened TurnServer
  import opened TurnTheorems

  // ---------------------------------------------------------------- one port

  /** after differs from before in the states of port p and its successor at most, which become a and b. */
  ghost predicate Becomes(before: Pool, after: Pool, p: nat, a: PortState, b: PortState) {
    && after.ports.Keys == before.ports.Keys
    && p in after.ports && after.ports[p] == a
    && forall q :: q in before.ports && q != p ==> after.ports[q] == if q == p + 1 then b else before.ports[q]
  }

  function StateOf(pool: Pool, p: nat): PortState {
    if p in pool.ports then pool.ports[p] else Unallocated
  }

  /** A released port is free again. Only an even port's successor may change with it, from reserved to free. */
  lemma ReleaseFrees(r: Range, pool: Pool, p: nat)
    requires ValidPool(r, pool)
    ensures var after := Release(r, pool, p);
            && after.last == pool.last
            && (p in pool.ports ==>
                  Becomes(pool, after, p, Unallocated,
                          if p % 2 == 0 && StateOf(pool, p + 1) == Reserved then Unallocated else StateOf(pool, p + 1)))
            && (p !in pool.ports ==> after == pool)
  {
  }

  /** The port a scan looks at first: the next one round the range, or the next even one. */
  function NextLook(r: Range, last: nat, want: Want): nat {
    var next := if want != AnyPort && last % 2 == 0 then last + 2 else last + 1;
    if next > r.max then r.min else next
  }

  /** What a scan grants: a free port, even if an even one was wanted, with its successor free if a pair was; it is then
      taken, a pair's successor reserved, and the cursor on it. No other port changes. With no such port none changes. */
  lemma GrantTakes(r: Range, pool: Pool, want: Want)
    requires ValidPool(r, pool)
    ensures var (p, after) := Allocate(r, pool, want);
            && (p != 0 ==>
                  && p in pool.ports && pool.ports[p] == Unallocated && after.last == p
                  && (want != AnyPort ==> p % 2 == 0)
                  && (want == EvenPair ==> p + 1 in pool.ports && pool.ports[p + 1] == Unallocated)
                  && Becomes(pool, after, p, Allocated, if want == EvenPair then Reserved else StateOf(pool, p + 1)))
            && (p == 0 ==>
                  && after.ports == pool.ports && after.last == NextLook(r, pool.last, want)
                  && forall q :: q in pool.ports && (want != AnyPort ==> q % 2 == 0) ==>
                       pool.ports[q] != Unallocated || (want == EvenPair && StateOf(pool, q + 1) != Unallocated))
  {
    ScanIsComplete(r, pool, want);
    LooksNext(r, pool.last, want);
    hide Choose, NextLook, PortAt, First;
    var p := Choose(r, pool, want, 1);
    if p == 0 {
      forall q | q in pool.ports && (want != AnyPort ==> q % 2 == 0)
        ensures pool.ports[q] != Unallocated || (want == EvenPair && StateOf(pool, q + 1) != Unallocated)
      {
        assert !Suits(r, pool.ports, want, q);
      }
    }
  }

  lemma LooksNext(r: Range, last: nat, want: Want)
    requires ValidRange(r) && r.min - 1 <= last <= r.max
    ensures PortAt(r, last, First(r, last, want)) == NextLook(r, last, want)
  {
  }

  /** The very first port granted is the least. */
  lemma FirstGrantIsLeast(r: Range, want: Want)
    requires ValidRange(r)
    ensures Allocate(r, Fresh(r), want).0 == r.min
  {
    ScanIsComplete(r, Fresh(r), want);
    assert Suits(r, Fresh(r).ports, want, r.min);
    hide Choose;
  }

  /** A token's claim is granted exactly for a reserved port, which is then taken; no other port changes. */
  lemma ClaimTakes(r: Range, pool: Pool, p: nat)
    requires ValidPool(r, pool)
    ensures var (ok, after) := Claim(r, pool, p);
            && (ok <==> p in pool.ports && pool.ports[p] == Reserved)
            && (if ok then Becomes(pool, after, p, Allocated, StateOf(pool, p + 1)) && after.last == pool.last else after == pool)
  {
  }

  // ---------------------------------------------------------------- the ports over one event

  predicate WantsPair(m: Message) {
    Has(m, EVEN_PORT) && Num(m, EVEN_PORT) == EVEN_AND_NEXT
  }

  predicate WithToken(m: Message, q: nat) {
    !Has(m, EVEN_PORT) && Has(m, RESERVATION_TOKEN) && Num(m, RESERVATION_TOKEN) % 0x1_0000 == q
  }

  /** Whatever a request asks of the ports, it gets one free port, or the one reserved under its token. */
  lemma TakePortTakes(cfg: Config, pool: Pool, m: Message)
    requires ValidPool(cfg.range, pool)
    ensures var (p, after, _) := TakePort(cfg, pool, m);
            if p == 0 then after.ports == pool.ports
            else
              && p in pool.ports && pool.ports[p] == (if WithToken(m, p) then Reserved else Unallocated)
              && (WantsPair(m) ==> p % 2 == 0 && p + 1 in pool.ports && pool.ports[p + 1] == Unallocated)
              && Becomes(pool, after, p, Allocated, if WantsPair(m) then Reserved else StateOf(pool, p + 1))
  {
    if Has(m, EVEN_PORT) && Num(m, EVEN_PORT) == EVEN_ONLY {
      GrantTakes(cfg.range, pool, EvenPort);
    } else if WantsPair(m) {
      GrantTakes(cfg.range, pool, EvenPair);
    } else if !Has(m, EVEN_PORT) && Has(m, RESERVATION_TOKEN) {
      ClaimTakes(cfg.range, pool, Num(m, RESERVATION_TOKEN) % 0x1_0000);
    } else if !Has(m, EVEN_PORT) {
      GrantTakes(cfg.range, pool, AnyPort);
    }
    hide Allocate, Claim, Becomes, ValidPool, Num, Has;
  }

  /** A message leaves the ports alone, takes one for a client that comes up or for nobody, or releases its client's. */
  lemma ProcessPorts(cfg: Config, pool: Pool, client: Option<Client>, key: Key, x: Input, now: nat)
    requires ValidPool(cfg.range, pool)
    ensures var f := Process(cfg, pool, client, key, x, now);
            var (p, after, _) := TakePort(cfg, pool, x.m);
            || (f.pool == pool && f.leaked == None && (f.client.None? <==> client.None?))
            || (client.None? && f.pool == after && p == 0 && f.leaked == None && f.client.None?)
            || (client.None? && f.pool == after && p != 0 && f.leaked == Some(p) && f.client.None?)
            || (client.None? && f.pool == after && p != 0 && f.leaked == None && f.client.Some? && f.client.value.port == p)
            || (client.Some? && f.client.None? && f.leaked == None && f.pool == Release(cfg.range, pool, client.value.port))
  {
    hide TakePort, Release, Lifetime, PermitAll, Relayed, Has, Num, ValidPool;
  }

  /** An allocation that goes gives its port back, so that any request may have it next, and with an even port the odd
      one kept beside it; no other port changes. */
  lemma RemovalFreesPort(cfg: Config, s: Server, e: Event, a: Slot)
    requires Sound(cfg, s) && a in s.clients && a !in Step(cfg, s, e).0.clients
    ensures var (p, after) := (s.clients[a].port, Step(cfg, s, e).0.pool);
            && Becomes(s.pool, after, p, Unallocated,
                       if p % 2 == 0 && StateOf(s.pool, p + 1) == Reserved then Unallocated else StateOf(s.pool, p + 1))
            && Suits(cfg.range, after.ports, AnyPort, p)
  {
    ClientPort(s, a);
    SoundPool(cfg, s);
    RemovalReleases(cfg, s, e, a);
    hide Step, Sound, Release;
    ReleaseFrees(cfg.range, s.pool, s.clients[a].port);
  }

  lemma RemovalReleases(cfg: Config, s: Server, e: Event, a: Slot)
    requires Sound(cfg, s) && a in s.clients && a !in Step(cfg, s, e).0.clients
    ensures Step(cfg, s, e).0.pool == Release(cfg.range, s.pool, s.clients[a].port)
  {
    match e
    case Arrive(b, x, late) =>
      var f := StepArrive(cfg, s, b, x, late);
      hide Sound, Process, Step, Accounts, ValidPool, Release, Settle, TakePort;
      SettleClients(s, b, f, x.start, late);
      ProcessPorts(cfg, s.pool, ClientAt(s, b), b.key, x, Seconds(s));
    case RelayOp(b, op) =>
      StepRelay(cfg, s, b, op);
    case _ =>
      hide Sound, Release;
  }

  /** How a port's state may change, and at what: free to taken or reserved to taken with an allocation or a leak, the
      latter by its token; free to reserved as the odd half of a pair whose even half is taken; taken to free with the
      allocation that held it; reserved to free with the even half. Nothing else, and never from taken to reserved. */
  ghost predicate RightMove(s: Server, e: Event, s': Server, q: nat) {
    match (StateOf(s.pool, q), StateOf(s'.pool, q))
    case (Unallocated, Allocated) => NewlyHeld(s, e, s', q) && !WithToken(e.x.m, q)
    case (Reserved, Allocated) => NewlyHeld(s, e, s', q) && WithToken(e.x.m, q)
    case (Unallocated, Reserved) =>
      q % 2 == 1 && NewlyHeld(s, e, s', q - 1) && WantsPair(e.x.m) && StateOf(s.pool, q - 1) == Unallocated
    case (Allocated, Unallocated) => Released(s, s', q)
    case (Reserved, Unallocated) => q % 2 == 1 && Released(s, s', q - 1)
    case (was, now) => was == now
  }

  /** An arriving request's port: its new allocation's, or leaked. */
  ghost predicate NewlyHeld(s: Server, e: Event, s': Server, q: nat) {
    && e.Arrive? && e.slot !in s.clients && !InUse(s.pool, q) && InUse(s'.pool, q)
    && (OwnedBy(s', q, e.slot) || (q in s'.leaked && q !in s.leaked))
  }

  ghost predicate Released(s: Server, s': Server, q: nat) {
    StateOf(s'.pool, q) == Unallocated && exists a :: OwnedBy(s, q, a) && a !in s'.clients
  }

  lemma ReleasedMoves(cfg: Config, s: Server, e: Event, s': Server, a: Slot, q: nat)
    requires Sound(cfg, s) && a in s.clients && a !in s'.clients && s'.pool == Release(cfg.range, s.pool, s.clients[a].port)
    ensures RightMove(s, e, s', q)
  {
    ClientPort(s, a);
    SoundPool(cfg, s);
    ReleaseFrees(cfg.range, s.pool, s.clients[a].port);
    assert OwnedBy(s, s.clients[a].port, a);
    hide Sound, Release, ValidPool;
  }

  lemma TakenMoves(cfg: Config, s: Server, a: Slot, x: Input, late: bool, s': Server, p: nat, q: nat)
    requires Sound(cfg, s) && a !in s.clients && s'.pool.ports == TakePort(cfg, s.pool, x.m).1.ports
    requires p == TakePort(cfg, s.pool, x.m).0
    requires p != 0 ==> OwnedBy(s', p, a) || p in s'.leaked
    ensures RightMove(s, Arrive(a, x, late), s', q)
  {
    SoundPool(cfg, s);
    TakePortTakes(cfg, s.pool, x.m);
    assert forall l :: l in s.leaked ==> InUse(s.pool, l);
    hide Sound, TakePort, ValidPool, Num, Has;
  }

  lemma PortMoves(cfg: Config, s: Server, e: Event, q: nat)
    requires Sound(cfg, s)
    ensures RightMove(s, e, Step(cfg, s, e).0, q)
  {
    SoundPool(cfg, s);
    var s' := Step(cfg, s, e).0;
    match e
    case Arrive(a, x, late) =>
      var f := StepArrive(cfg, s, a, x, late);
      ProcessPorts(cfg, s.pool, ClientAt(s, a), a.key, x, Seconds(s));
      SettleClients(s, a, f, x.start, late);
      SettledLeaks(s, a, f, x.start, late);
      hide Sound, Process, Step, Accounts, ValidPool, Release, Settle, TakePort, RightMove;
      if f.pool == s.pool {
        StillMoves(s, e, s', q);
      } else if a in s.clients {
        ReleasedMoves(cfg, s, e, s', a, q);
      } else {
        TakenMoves(cfg, s, a, x, late, s', TakePort(cfg, s.pool, x.m).0, q);
      }
    case RelayOp(a, op) =>
      StepRelay(cfg, s, a, op);
      hide Sound, Step, Relayed, RightMove;
      StillMoves(s, e, s', q);
    case _ =>
      hide Sound, Release, RightMove, Step;
      OtherPorts(cfg, s, e);
      if a :| a in s.clients && a !in s'.clients && s'.pool == Release(cfg.range, s.pool, s.clients[a].port) {
        ReleasedMoves(cfg, s, e, s', a, q);
      } else {
        StillMoves(s, e, s', q);
      }
  }

  lemma StillMoves(s: Server, e: Event, s': Server, q: nat)
    requires s'.pool == s.pool
    ensures RightMove(s, e, s', q)
  {
  }

  lemma SettledLeaks(s: Server, a: Slot, f: Effect, start: Start, late: bool)
    requires f.leaked.Some? ==> f.granted.Some? && f.client.None?
    ensures Settle(s, a, f, start, late).leaked == s.leaked + (if f.leaked.Some? then {f.leaked.value} else {})
  {
  }

  lemma OtherPorts(cfg: Config, s: Server, e: Event)
    requires Sound(cfg, s) && !e.Arrive? && !e.RelayOp?
    ensures var s' := Step(cfg, s, e).0;
            || s'.pool == s.pool
            || exists a :: a in s.clients && a !in s'.clients && s'.pool == Release(cfg.range, s.pool, s.clients[a].port)
  {
    hide Sound, Release;
    var s' := Step(cfg, s, e).0;
    if s'.pool != s.pool {
      var a := if e.Fire? then s.pending[e.id].slot else e.slot;
      assert a in s.clients && a !in s'.clients;
    }
  }

  // ---------------------------------------------------------------- the answers

  /** What the handlers take from a parsed message: an attribute is there exactly when the parser put it there, and its
      number, or the data, is what the parser read. */
  lemma AttributesAreRead(buf: Bytes, t: nat)
    requires Parse(buf).Some?
    ensures var m := Parse(buf).value.msg;
            && (Has(m, t) <==> t in m.fields)
            && (t in {0x000C, 0x000D, 0x0018, 0x0019, 0x0022} ==> if t in m.fields then m.fields[t] == Number(Num(m, t)) else Num(m, t) == 0)
            && (if 0x0013 in m.fields then m.fields[0x0013] == Text(Payloads(m)) else Payloads(m) == [])
  {
    AcceptedIsWellTyped(buf);
    AttributeTable();
    hide Parse, KindOf, PrintKind;
  }

  /** The code of an error response; 0 for any other answer. */
  function CodeOf(r: Reply): nat {
    if r.Failure? then r.code else 0
  }

  /** An authenticated allocate request's answer, each code exactly where it belongs. */
  lemma AllocateAnswers(cfg: Config, pool: Pool, client: Option<Client>, key: Key, x: Input, now: nat)
    requires Healthy(cfg, pool) && x.m.cls == REQUEST && x.m.verb == ALLOCATE && x.unknown == [] && x.verdict.Accepted?
    ensures var reply := Process(cfg, pool, client, key, x, now).reply;
            var (code, m) := (CodeOf(reply), x.m);
            var udp := Has(m, REQUESTED_TRANSPORT) && Num(m, REQUESTED_TRANSPORT) == 17;
            && (code == 437 <==> client.Some?)
            && (client.None? ==>
                  && (code == 442 <==> Has(m, REQUESTED_TRANSPORT) && Num(m, REQUESTED_TRANSPORT) != 17)
                  && (code == 420 <==> udp && Has(m, DONT_FRAGMENT))
                  && (code == 400 <==>
                        !Has(m, REQUESTED_TRANSPORT)
                        || (udp && !Has(m, DONT_FRAGMENT) && Has(m, EVEN_PORT) && Has(m, RESERVATION_TOKEN)))
                  && (code == 508 <==> Allocatable(x) && !PortAvailable(cfg, pool, m))
                  && (code == 500 <==> Allocatable(x) && PortAvailable(cfg, pool, m) && x.start != Up)
                  && (reply.Success? <==> Allocatable(x) && PortAvailable(cfg, pool, m) && x.start == Up))
  {
    if Allocatable(x) {
      TakesPortExactlyWhen(cfg, pool, x.m);
    }
    hide TakePort, Release, Lifetime, PermitAll, Relayed, Has, Num, PortAvailable;
  }

  /** An authenticated request that needs an allocation: 437 without one, 441 under other credentials, and then 400 or
      success, for a refresh always success. */
  lemma OwnedAnswers(cfg: Config, pool: Pool, client: Option<Client>, key: Key, x: Input, now: nat)
    requires ValidPool(cfg.range, pool) && x.m.cls == REQUEST && x.m.verb in {REFRESH, CREATE_PERMISSION, CHANNEL_BIND}
    requires x.unknown == [] && x.verdict.Accepted?
    ensures var reply := Process(cfg, pool, client, key, x, now).reply;
            && (CodeOf(reply) == 437 <==> client.None?)
            && (CodeOf(reply) == 441 <==> client.Some? && x.verdict != Accepted(client.value.user, client.value.secret))
            && (client.Some? && x.verdict == Accepted(client.value.user, client.value.secret) ==>
                  if x.m.verb == REFRESH then reply.Success? else reply == Agreed || reply == Failure(400, [], None))
  {
    hide TakePort, Release, Lifetime, PermitAll, Relayed, Has, Num;
  }

  /** Any other message: refused for its credentials, for what it does not understand, or for its method; only an
      indication, and a response once its credentials hold, get no answer. */
  lemma OtherAnswers(cfg: Config, pool: Pool, client: Option<Client>, key: Key, x: Input, now: nat)
    requires ValidPool(cfg.range, pool)
    ensures var (m, reply) := (x.m, Process(cfg, pool, client, key, x, now).reply);
            var free := m.cls == INDICATION || (m.cls == REQUEST && (m.verb == BINDING || m.verb == SHARED_SECRET));
            if !free && x.verdict.Rejected? then
              reply == Failure(match x.verdict.why case BadRequest => 400 case Unauthenticated => 401 case StaleNonce => 438, [], None)
            else if x.unknown != [] then reply == Failure(420, x.unknown, None)
            else
              && (reply == Silent <==> m.cls != REQUEST)
              && (m.cls == REQUEST && m.verb == BINDING ==> reply == Agreed)
              && (m.cls == REQUEST && m.verb == SHARED_SECRET ==>
                    reply == if key.local.transport == TLS then Agreed else Failure(433, [], None))
              && (m.cls == REQUEST && m.verb !in {BINDING, SHARED_SECRET, ALLOCATE, REFRESH, CREATE_PERMISSION, CHANNEL_BIND} ==>
                    reply == Failure(400, [], None))
  {
    hide TakePort, Release, Lifetime, PermitAll, Relayed, Has, Num, ValidPool;
  }

  /** Nothing is changed but by time. */
  ghost predicate Unmoved(pool: Pool, client: Option<Client>, f: Effect, now: nat) {
    && f.pool.ports == pool.ports && f.granted == None && f.leaked == None
    && match (client, f.client)
       case (None, None) => true
       case (Some(c), Some(d)) => SameNow(c, d, now)
       case _ => false
  }

  lemma ProcessFailed(cfg: Config, pool: Pool, client: Option<Client>, key: Key, x: Input, now: nat)
    requires Healthy(cfg, pool) && !Process(cfg, pool, client, key, x, now).reply.Success?
    requires !ServerError(Process(cfg, pool, client, key, x, now).reply)
    ensures Unmoved(pool, client, Process(cfg, pool, client, key, x, now), now)
  {
    hide HandleAllocate, HandleOwned, HandleSend, Healthy, Current;
    CurrentTwice(client, now);
    if x.verdict.Accepted? {
      AllocateFailed(cfg, pool, client, x.m, x.verdict.user, x.verdict.secret, x.start, now);
      OwnedFailed(cfg, pool, client, x.m, x.verdict.user, x.verdict.secret, now);
    }
    SendKeeps(cfg, pool, client, x.m, now);
  }

  lemma AllocateFailed(cfg: Config, pool: Pool, client: Option<Client>, m: Message, user: Bytes, secret: Bytes, start: Start, now: nat)
    requires Healthy(cfg, pool)
    ensures var f := HandleAllocate(cfg, pool, client, m, user, secret, start, now);
            !f.reply.Success? && !ServerError(f.reply) ==> Unmoved(pool, client, f, now)
  {
    TakePortKeeps(cfg, pool, m);
    hide TakePort, Lifetime, Has, Num, Current, Healthy, Gains;
  }

  lemma OwnedFailed(cfg: Config, pool: Pool, client: Option<Client>, m: Message, user: Bytes, secret: Bytes, now: nat)
    ensures var f := HandleOwned(cfg, pool, client, m, user, secret, now);
            !f.reply.Success? ==> Unmoved(pool, client, f, now)
  {
    CurrentTwice(client, now);
    hide Release, Lifetime, PermitAll, Has, Num, Current, PeerOf, Outward, Bind;
  }

  lemma SendKeeps(cfg: Config, pool: Pool, client: Option<Client>, m: Message, now: nat)
    ensures Unmoved(pool, client, HandleSend(cfg, pool, client, m, now), now)
  {
    CurrentTwice(client, now);
    hide Has, Current, Outward, Payloads;
  }

  lemma CurrentTwice(client: Option<Client>, now: nat)
    ensures client.Some? ==> Current(Current(client.value.relay, now), now) == Current(client.value.relay, now)
  {
    if client.Some? {
      var r := Current(client.value.relay, now);
      assert Current(r, now).permits == r.permits && Current(r, now).bonds == r.bonds;
    }
  }

  /** A message that is refused, or gets no answer, changes nothing: not the ports, nor any allocation, nor when it
      ends. The one exception is the 500 for a relay that does not come up. */
  lemma FailureChangesNothing(cfg: Config, s: Server, a: Slot, x: Input, late: bool, b: Slot)
    requires Sound(cfg, s)
    requires var reply := Step(cfg, s, Arrive(a, x, late)).1; !reply.Success? && !ServerError(reply)
    ensures var s' := Step(cfg, s, Arrive(a, x, late)).0;
            && s'.pool.ports == s.pool.ports && s'.leaked == s.leaked && (b in s'.clients <==> b in s.clients)
            && (b in s.clients ==>
                  SameNow(s.clients[b], s'.clients[b], Seconds(s)) && HasTimer(s, b) && HasTimer(s', b) && EndOf(s', b) == EndOf(s, b))
  {
    var f := StepArrive(cfg, s, a, x, late);
    assert Healthy(cfg, s.pool);
    ProcessFailed(cfg, s.pool, ClientAt(s, a), a.key, x, Seconds(s));
    SettleClients(s, a, f, x.start, late);
    assert b in s.clients ==> HasTimer(s, b);
    hide Sound, Process, Step, Accounts, ValidPool, Healthy, Current;
    if b in s.clients && b != a {
      SettleElsewhere(cfg, s, a, f, x.start, late, b);
    }
  }

  /** When the control connection goes, so does the allocation, and no other. */
  lemma SocketGoneRemoves(cfg: Config, s: Server, a: Slot, late: bool)
    requires Sound(cfg, s)
    ensures Step(cfg, s, SocketGone(a, late)).0.clients == s.clients - {a}
  {
    hide Sound, Release;
    if a !in s.clients {
      WithoutAbsent(s.clients, a);
    }
  }

  /** What such a request leaves of its timer: nothing after a failed bind; after an exception a callback for its slot
      that no allocation cancels. */
  lemma LeakedTimer(cfg: Config, s: Server, a: Slot, x: Input, late: bool)
    requires Sound(cfg, s) && Leaks(cfg, s.pool, ClientAt(s, a), x)
    ensures var s' := Step(cfg, s, Arrive(a, x, late)).0;
            && s'.own == s.own
            && s'.pending == if x.start == Threw then s.pending[s.nextId := Callback(a, s.now + 1000 * Lifetime(cfg, x.m))]
                             else s.pending
  {
    var f := StepArrive(cfg, s, a, x, late);
    assert Healthy(cfg, s.pool);
    LeaksExactlyWhen(cfg, s.pool, ClientAt(s, a), a.key, x, Seconds(s));
    LeakGrants(cfg, s.pool, a.key, x, Seconds(s));
    OwnKeys(s);
    hide Sound, Process, Step, Accounts, ValidPool, Healthy, Leaks, Lifetime;
  }

  lemma LeakGrants(cfg: Config, pool: Pool, key: Key, x: Input, now: nat)
    requires ValidPool(cfg.range, pool)
    ensures var f := Process(cfg, pool, None, key, x, now); f.leaked.Some? ==> f.granted == Some(Lifetime(cfg, x.m)) && f.client == None
  {
    hide TakePort, Release, Lifetime, PermitAll, Relayed, Has, Num, ValidPool;
  }
}
