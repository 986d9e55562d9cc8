/** RequestHandler and TurnAllocationManager as they run: handlers change ports and heap objects step by step and fill
    in the reply; together they are proved to do exactly what the specification in TurnHandler says. */
module TurnRequests {
  import opened Wire
  import opened Stun
  import opened Channels
  import opened Sockets
  import opened Allocation
  import opened TurnPorts
  import opened TurnHandler

  /** The client an allocation object stands for at a moment. */
  ghost function ClientOf(a: TurnAllocation, now: nat): Client
    reads a.Repr()
  {
    Client(a.port, a.user, a.secret, a.expires, a.View(now))
  }

  ghost function ClientIn(a: TurnAllocation?, now: nat): Option<Client>
    reads if a == null then {} else a.Repr()
  {
    if a == null then None else Some(ClientOf(a, now))
  }

  class RequestHandler {
    const cfg: Config
    const ports: TurnManager

    ghost predicate Valid()
      reads ports
    {
      ports.Valid() && ports.range == cfg.range
    }

    constructor (cfg: Config)
      requires ValidRange(cfg.range)
      ensures Valid() && fresh(ports) && this.cfg == cfg && ports.State() == Fresh(cfg.range)
    {
      this.cfg := cfg;
      ports := new TurnManager(cfg.range);
    }

    /** The port part of processTurnAllocateRequest. */
    method AllocatePort(m: Message) returns (port: nat, token: Option<nat>)
      requires Valid()
      modifies ports
      ensures Valid() && (port, ports.State(), token) == TakePort(cfg, old(ports.State()), m)
    {
      port, token := 0, None;
      if Has(m, EVEN_PORT) {
        if Num(m, EVEN_PORT) == EVEN_ONLY {
          port := ports.AllocateEven(EvenPort);
        } else if Num(m, EVEN_PORT) == EVEN_AND_NEXT {
          port := ports.AllocateEven(EvenPair);
          token := Some(port + 1);
        }
      } else if Has(m, RESERVATION_TOKEN) {
        port := Num(m, RESERVATION_TOKEN) % 0x1_0000;
        var ok := ports.AllocateReserved(port);
        if !ok {
          port := 0;
        }
      } else {
        port := ports.AllocateAnyPort();
      }
    }

    method GrantedLifetime(m: Message) returns (lifetime: nat)
      ensures lifetime == Lifetime(cfg, m)
    {
      lifetime := cfg.defaultLifetime;
      if Has(m, LIFETIME) {
        if Num(m, LIFETIME) > cfg.maxLifetime {
          lifetime := cfg.maxLifetime;
        } else if Num(m, LIFETIME) > cfg.defaultLifetime {
          lifetime := Num(m, LIFETIME);
        }
      }
    }

    method ProcessAllocate(found: TurnAllocation?, m: Message, user: Bytes, secret: Bytes, start: Start, now: nat)
      returns (reply: Reply, made: TurnAllocation?)
      requires Valid()
      modifies ports
      ensures Valid()
      ensures found != null ==> made == null
      ensures made != null ==> fresh(made.Repr()) && made.Valid() && made.crypto == cfg.crypto
      ensures var client := old(ClientIn(found, now));
              var e := HandleAllocate(cfg, old(ports.State()), client, m, user, secret, start, now);
              reply == e.reply && ports.State() == e.pool && (if found != null then e.client == client else ClientIn(made, now) == e.client)
    {
      made := null;
      if found != null {
        return Fails(437), null;
      }
      if Has(m, REQUESTED_TRANSPORT) {
        if Num(m, REQUESTED_TRANSPORT) != UDP_RELAY {
          return Fails(442), null;
        }
      } else {
        return Fails(400), null;
      }
      if Has(m, DONT_FRAGMENT) {
        return Fails(420), null;
      }
      if Has(m, EVEN_PORT) && Has(m, RESERVATION_TOKEN) {
        return Fails(400), null;
      }
      var port, token := AllocatePort(m);
      if port == 0 {
        return Failure(508, [], token), null;
      }
      var lifetime := GrantedLifetime(m);
      if start != Up {
        return Failure(500, [], token), null;
      }
      made := new TurnAllocation(port, user, secret, cfg.crypto, lifetime, now);
      reply := Success(Some(lifetime), Some(port), token);
    }

    /** keep: whether the allocation stays. */
    method ProcessRefresh(a: TurnAllocation, m: Message, now: nat) returns (reply: Reply, keep: bool)
      requires Valid() && a.Valid() && ports !in a.Repr()
      modifies ports, a`expires
      ensures Valid() && a.Valid() && a.Repr() == old(a.Repr())
      ensures var e := HandleRefresh(cfg, old(ports.State()), old(ClientOf(a, now)), m, now);
              reply == e.reply && ports.State() == e.pool && (keep <==> e.client.Some?) && (keep ==> e.client == Some(ClientOf(a, now)))
    {
      if Has(m, LIFETIME) && Num(m, LIFETIME) == 0 {
        ports.DeallocatePort(a.port);
        return Success(Some(0), None, None), false;
      }
      var lifetime := GrantedLifetime(m);
      a.Refresh(lifetime, now);
      return Success(Some(lifetime), None, None), true;
    }

    method ProcessCreatePermission(a: TurnAllocation, m: Message, now: nat) returns (reply: Reply)
      requires Valid() && a.Valid() && ports !in a.Repr()
      modifies a`permits
      ensures Valid() && a.Valid() && a.Repr() == old(a.Repr())
      ensures var e := HandleCreatePermission(ports.State(), old(ClientOf(a, now)), m, now);
              reply == e.reply && e.client == Some(ClientOf(a, now))
    {
      if m.peers == [] {
        return Fails(400);
      }
      ghost var view := a.View(now);
      ViewNow(a, now);
      assert m.peers[..0] == [];
      for i := 0 to |m.peers|
        invariant a.Valid() && a.View(now) == PermitAll(view, m.peers[..i], now)
      {
        assert m.peers[..i + 1][..i] == m.peers[..i];
        a.RefreshPermission(HostOf(m.peers[i]), now);
      }
      assert m.peers[..|m.peers|] == m.peers;
      reply := Agreed;
    }

    method ProcessChannelBind(a: TurnAllocation, m: Message, now: nat) returns (reply: Reply)
      requires Valid() && a.Valid() && ports !in a.Repr() && a.crypto == cfg.crypto
      modifies a.Repr()
      ensures Valid() && a.Valid() && fresh(a.Repr() - old(a.Repr()))
      ensures var e := HandleChannelBind(cfg, ports.State(), old(ClientOf(a, now)), m, now);
              reply == e.reply && e.client == Some(ClientOf(a, now))
    {
      if m.peers == [] || !Has(m, CHANNEL_NUMBER) {
        return Fails(400);
      }
      if Num(m, CHANNEL_NUMBER) < MIN_CHANNEL || Num(m, CHANNEL_NUMBER) > MAX_CHANNEL {
        return Fails(400);
      }
      ViewNow(a, now);
      var ok := a.AddChannelBinding(m.peers[0], Num(m, CHANNEL_NUMBER), now);
      return if ok then Agreed else Fails(400);
    }

    method ProcessSend(a: TurnAllocation?, m: Message, now: nat) returns (out: Outcome)
      requires Valid() && (a != null ==> a.Valid() && ports !in a.Repr())
      modifies if a == null then {} else {a as object}
      ensures Valid() && (a != null ==> a.Valid() && a.Repr() == old(a.Repr()))
      ensures var e := HandleSend(cfg, ports.State(), old(ClientIn(a, now)), m, now);
              e.reply == Silent && out == e.out && e.pool == ports.State() && e.client == ClientIn(a, now)
    {
      if a == null || m.peers == [] || !Has(m, DATA) || Has(m, DONT_FRAGMENT) {
        return Dropped;
      }
      ViewNow(a, now);
      out := a.SendDataToPeer(m.peers[0], Payloads(m), false, now);
    }

    /** Refresh, CreatePermission and ChannelBind: the allocation must exist and the credentials be its own. */
    method ProcessOwned(found: TurnAllocation?, m: Message, user: Bytes, secret: Bytes, now: nat)
      returns (reply: Reply, a: TurnAllocation?)
      requires Valid() && Ours(found)
      modifies ports, if found == null then {} else found.Repr()
      ensures Valid() && Ours(a) && (a == null || a == found)
      ensures a != null ==> fresh(a.Repr() - old(found.Repr()))
      ensures var e := HandleOwned(cfg, old(ports.State()), old(ClientIn(found, now)), m, user, secret, now);
              reply == e.reply && ports.State() == e.pool && ClientIn(a, now) == e.client
    {
      a := found;
      if found == null {
        return Fails(437), null;
      }
      if found.user != user || found.secret != secret {
        return Fails(441), found;
      }
      if m.verb == REFRESH {
        var keep;
        reply, keep := ProcessRefresh(found, m, now);
        if !keep {
          a := null;
        }
      } else if m.verb == CREATE_PERMISSION {
        reply := ProcessCreatePermission(found, m, now);
      } else {
        reply := ProcessChannelBind(found, m, now);
      }
    }

    /** An allocation as this server makes them. */
    ghost predicate Ours(a: TurnAllocation?)
      reads if a == null then {} else {a, a.channels}
    {
      a == null || (a.Valid() && ports !in a.Repr() && a.crypto == cfg.crypto)
    }

    /** processStunMessage, on the allocation found under the message's 5-tuple; what is left there comes back. */
    method ProcessStunMessage(found: TurnAllocation?, key: Key, x: Input, now: nat)
      returns (reply: Reply, out: Outcome, a: TurnAllocation?)
      requires Valid() && Ours(found)
      modifies ports, if found == null then {} else found.Repr()
      ensures Valid() && Ours(a) && (found != null ==> a == null || a == found)
      ensures a != null ==> fresh(a.Repr() - old(if found == null then {} else found.Repr()))
      ensures var e := Process(cfg, old(ports.State()), old(ClientIn(found, now)), key, x, now);
              reply == e.reply && out == e.out && ports.State() == e.pool && ClientIn(a, now) == e.client
    {
      assert found != null ==> found in found.Repr();
      hide Requested, TurnAllocation.View, TurnAllocation.Repr;
      var m := x.m;
      out, a := Dropped, found;
      if !Exempt(m) && x.verdict.Rejected? {
        return Refuses(x.verdict.why), out, a;
      }
      if x.unknown != [] {
        return Failure(420, x.unknown, None), out, a;
      }
      if m.cls == INDICATION {
        reply := Silent;
        if m.verb == SEND {
          out := ProcessSend(found, m, now);
        }
      } else if m.cls != REQUEST {
        reply := Silent;
      } else if m.verb == BINDING {
        reply := Agreed;
      } else if m.verb == SHARED_SECRET {
        reply := if key.local.transport == TLS then Agreed else Fails(433);
      } else {
        reply, a := ProcessRequest(found, x, now);
      }
    }

    method ProcessRequest(found: TurnAllocation?, x: Input, now: nat) returns (reply: Reply, a: TurnAllocation?)
      requires Valid() && Ours(found) && x.verdict.Accepted?
      modifies ports, if found == null then {} else found.Repr()
      ensures Valid() && Ours(a) && (found != null ==> a == null || a == found)
      ensures a != null ==> fresh(a.Repr() - old(if found == null then {} else found.Repr()))
      ensures var e := Requested(cfg, old(ports.State()), old(ClientIn(found, now)), x, now);
              reply == e.reply && ports.State() == e.pool && ClientIn(a, now) == e.client
    {
      a := found;
      if x.m.verb == ALLOCATE {
        var made;
        reply, made := ProcessAllocate(found, x.m, x.verdict.user, x.verdict.secret, x.start, now);
        if found == null {
          a := made;
        }
      } else if x.m.verb == REFRESH || x.m.verb == CREATE_PERMISSION || x.m.verb == CHANNEL_BIND {
        reply, a := ProcessOwned(found, x.m, x.verdict.user, x.verdict.secret, now);
      } else {
        reply := Fails(400);
      }
    }
  }

  type Owner = map<object, Key>

  /** An allocation stored under a key, all of whose objects the owner map lists under that key. */
  ghost predicate Holds(h: RequestHandler, own: Owner, k: Key, a: TurnAllocation)
    reads own.Keys
  {
    && a in own && a.channels in own
    && (forall o :: o in a.Repr() ==> o in own && own[o] == k)
    && h.Ours(a)
  }

  ghost predicate HoldsAll(h: RequestHandler, own: Owner, m: map<Key, TurnAllocation>)
    reads own.Keys
  {
    forall k :: k in m ==> Holds(h, own, k, m[k])
  }

  /** The clients that some allocations stand for at a moment. */
  ghost function Views(h: RequestHandler, own: Owner, m: map<Key, TurnAllocation>, t: nat): map<Key, Client>
    requires HoldsAll(h, own, m)
    reads own.Keys
  {
    map k | k in m :: (assert Holds(h, own, k, m[k]); ClientOf(m[k], t))
  }

  function Without(own: Owner, key: Key): Owner {
    map o | o in own && own[o] != key :: own[o]
  }

  lemma WithoutKeys(own: Owner, key: Key)
    ensures Without(own, key).Keys <= own.Keys
  {
  }

  lemma HoldsOthers(h: RequestHandler, own: Owner, m: map<Key, TurnAllocation>, key: Key, t: nat)
    requires HoldsAll(h, own, m)
    ensures HoldsAll(h, Without(own, key), m - {key})
    ensures Views(h, Without(own, key), m - {key}, t) == Views(h, own, m, t) - {key}
  {
    forall k | k in m - {key} ensures Holds(h, Without(own, key), k, m[k]) {
      assert Holds(h, own, k, m[k]);
      assert m[k] in m[k].Repr() && m[k].channels in m[k].Repr();
    }
    hide ClientOf, Holds, Without;
  }

  function With(own: Owner, parts: set<object>, key: Key): Owner {
    own + map o | o in parts :: key
  }

  lemma HoldsWith(h: RequestHandler, rest: Owner, others: map<Key, TurnAllocation>, key: Key, a: TurnAllocation, t: nat)
    requires HoldsAll(h, rest, others) && key !in others && h.Ours(a) && a.Repr() !! rest.Keys
    ensures HoldsAll(h, With(rest, a.Repr(), key), others[key := a])
    ensures Views(h, With(rest, a.Repr(), key), others[key := a], t) == Views(h, rest, others, t)[key := ClientOf(a, t)]
  {
    var own := With(rest, a.Repr(), key);
    var all := others[key := a];
    forall k | k in all ensures Holds(h, own, k, all[k]) {
      if k == key {
        assert a in a.Repr() && a.channels in a.Repr();
      } else {
        assert Holds(h, rest, k, others[k]);
      }
    }
    hide ClientOf, Holds, With;
  }

  /** What is found under a key shares no object with the rest. */
  lemma FoundApart(h: RequestHandler, own: Owner, m: map<Key, TurnAllocation>, key: Key, now: nat)
    requires HoldsAll(h, own, m) && key in m
    ensures m[key].Repr() !! Without(own, key).Keys && m[key].Repr() <= own.Keys && h.Ours(m[key])
    ensures Views(h, own, m, now)[key] == ClientOf(m[key], now)
  {
    assert Holds(h, own, key, m[key]);
    hide ClientOf;
  }

  function Lookup(m: map<Key, Client>, k: Key): Option<Client> {
    if k in m then Some(m[k]) else None
  }

  function StoredAs(m: map<Key, Client>, k: Key, c: Option<Client>): map<Key, Client> {
    if c.None? then m - {k} else m[k := c.value]
  }

  lemma StoredOver(m: map<Key, Client>, k: Key, c: Option<Client>)
    ensures StoredAs(m - {k}, k, c) == StoredAs(m, k, c)
  {
  }

  class TurnAllocationManager {
    const handler: RequestHandler
    var allocations: map<Key, TurnAllocation>
    /** The key whose allocation an object is part of. */
    ghost var owner: Owner

    ghost predicate Valid()
      reads this, owner.Keys
    {
      this !in owner && handler.ports !in owner && HoldsAll(handler, owner, allocations)
    }

    ghost function Clients(t: nat): map<Key, Client>
      requires Valid()
      reads this, owner.Keys
    {
      Views(handler, owner, allocations, t)
    }

    constructor (h: RequestHandler)
      ensures Valid() && handler == h && forall t :: Clients(t) == map[]
    {
      handler, allocations, owner := h, map[], map[];
    }

    method FindTurnAllocation(k: Key) returns (a: TurnAllocation?)
      ensures a == if k in allocations then allocations[k] else null
    {
      a := if k in allocations then allocations[k] else null;
    }

    /** addTurnAllocation, or nothing new when it is there already. */
    method AddTurnAllocation(key: Key, a: TurnAllocation, ghost rest: Owner, ghost t: nat)
      requires handler.Ours(a) && HoldsAll(handler, rest, allocations - {key})
      requires this !in a.Repr() && this !in rest && handler.ports !in rest && a.Repr() !! rest.Keys
      modifies this
      ensures Valid() && allocations == old(allocations)[key := a] && owner == With(rest, a.Repr(), key)
      ensures Clients(t) == old(Views(handler, rest, allocations - {key}, t))[key := old(ClientOf(a, t))]
    {
      hide HoldsAll, ClientOf, Views, TurnAllocation.Repr;
      ghost var others := allocations - {key};
      HoldsWith(handler, rest, others, key, a, t);
      assert others[key := a] == allocations[key := a];
      assert handler.ports !in a.Repr();
      allocations := allocations[key := a];
      owner := With(rest, a.Repr(), key);
    }

    /** The map half of removeTurnAllocation. */
    method RemoveTurnAllocation(key: Key, ghost rest: Owner, ghost t: nat)
      requires this !in rest && handler.ports !in rest && HoldsAll(handler, rest, allocations - {key})
      modifies this
      ensures Valid() && allocations == old(allocations) - {key} && owner == rest
      ensures Clients(t) == old(Views(handler, rest, allocations - {key}, t))
    {
      hide Holds, ClientOf;
      allocations := allocations - {key};
      owner := rest;
    }

    /** Put back what a message left under its key. */
    method Put(key: Key, a: TurnAllocation?, ghost rest: Owner, ghost t: nat)
      requires handler.Ours(a) && HoldsAll(handler, rest, allocations - {key})
      requires this !in rest && handler.ports !in rest && (a != null ==> this !in a.Repr() && a.Repr() !! rest.Keys)
      modifies this
      ensures Valid() && owner.Keys == rest.Keys + if a == null then {} else a.Repr()
      ensures Clients(t) == StoredAs(old(Views(handler, rest, allocations - {key}, t)), key, old(ClientIn(a, t)))
    {
      hide HoldsAll, ClientOf, TurnAllocation.Repr, RequestHandler.Ours;
      assert key !in Views(handler, rest, allocations - {key}, t);
      if a == null {
        RemoveTurnAllocation(key, rest, t);
      } else {
        AddTurnAllocation(key, a, rest, t);
      }
    }

    /** What a message finds under its key, apart from everything else. */
    method Take(key: Key, ghost now: nat, ghost t: nat) returns (found: TurnAllocation?, ghost rest: Owner)
      requires handler.Valid() && Valid()
      ensures handler.Ours(found) && rest.Keys <= owner.Keys && HoldsAll(handler, rest, allocations - {key})
      ensures found != null ==> found.Repr() !! rest.Keys && found.Repr() <= owner.Keys
      ensures ClientIn(found, now) == Lookup(Clients(now), key)
      ensures Views(handler, rest, allocations - {key}, t) == Clients(t) - {key}
    {
      hide ClientOf, Holds, HoldsAll, Without, TurnAllocation.Repr, TurnAllocation.View;
      HoldsOthers(handler, owner, allocations, key, t);
      rest := Without(owner, key);
      WithoutKeys(owner, key);
      found := FindTurnAllocation(key);
      if found != null {
        FoundApart(handler, owner, allocations, key, now);
      }
    }

    /** processStunMessage: the rest shares nothing with what is found, so it stays as it is. */
    method Handle(found: TurnAllocation?, key: Key, x: Input, now: nat, ghost others: map<Key, TurnAllocation>, ghost rest: Owner)
      returns (reply: Reply, out: Outcome, a: TurnAllocation?)
      requires handler.Valid() && handler.Ours(found) && HoldsAll(handler, rest, others)
      requires this !in rest && handler.ports !in rest
      requires found != null ==> this !in found.Repr() && found.Repr() !! rest.Keys
      modifies handler.ports, if found == null then {} else found.Repr()
      ensures handler.Valid() && handler.Ours(a) && HoldsAll(handler, rest, others)
      ensures Views(handler, rest, others, now) == old(Views(handler, rest, others, now))
      ensures a != null ==> this !in a.Repr() && a.Repr() !! rest.Keys
      ensures a != null ==> fresh(a.Repr() - old(if found == null then {} else found.Repr()))
      ensures var e := Process(handler.cfg, old(handler.ports.State()), old(ClientIn(found, now)), key, x, now);
              reply == e.reply && out == e.out && handler.ports.State() == e.pool && ClientIn(a, now) == e.client
    {
      hide *;
      reply, out, a := handler.ProcessStunMessage(found, key, x, now);
    }

    method HandleAndPut(found: TurnAllocation?, key: Key, x: Input, now: nat, ghost rest: Owner)
      returns (reply: Reply, out: Outcome)
      requires handler.Valid() && handler.Ours(found) && HoldsAll(handler, rest, allocations - {key})
      requires this !in rest && handler.ports !in rest
      requires found != null ==> this !in found.Repr() && found.Repr() !! rest.Keys
      modifies handler.ports, this, if found == null then {} else found.Repr()
      ensures handler.Valid() && Valid()
      ensures fresh(owner.Keys - rest.Keys - old(if found == null then {} else found.Repr()))
      ensures var e := Process(handler.cfg, old(handler.ports.State()), old(ClientIn(found, now)), key, x, now);
              reply == e.reply && out == e.out && handler.ports.State() == e.pool
              && Clients(now) == StoredAs(old(Views(handler, rest, allocations - {key}, now)), key, e.client)
    {
      hide *;
      var a;
      reply, out, a := Handle(found, key, x, now, allocations - {key}, rest);
      Put(key, a, rest, now);
    }

    /** A message for this manager: the reply, what is relayed, the ports and the one client concerned change as
        specified; every other client is untouched. */
    method Receive(key: Key, x: Input, now: nat) returns (reply: Reply, out: Outcome)
      requires handler.Valid() && Valid()
      modifies handler.ports, this, owner.Keys
      ensures handler.Valid() && Valid() && fresh(owner.Keys - old(owner.Keys))
      ensures var e := Process(handler.cfg, old(handler.ports.State()), Lookup(old(Clients(now)), key), key, x, now);
              reply == e.reply && out == e.out && handler.ports.State() == e.pool
              && Clients(now) == StoredAs(old(Clients(now)), key, e.client)
    {
      assert this !in owner && handler.ports !in owner;
      assert ValidPool(handler.cfg.range, handler.ports.State());
      hide *;
      var found, rest := Take(key, now, now);
      StoredOver(Clients(now), key, Process(handler.cfg, handler.ports.State(), ClientIn(found, now), key, x, now).client);
      reply, out := HandleAndPut(found, key, x, now, rest);
    }

    /** removeTurnAllocation: the destructor gives the port back. */
    method Remove(found: TurnAllocation, key: Key, ghost rest: Owner, ghost now: nat)
      requires handler.Valid() && HoldsAll(handler, rest, allocations - {key})
      requires this !in rest && handler.ports !in rest
      modifies handler.ports, this
      ensures handler.Valid() && Valid() && owner == rest
      ensures handler.ports.State() == Release(handler.cfg.range, old(handler.ports.State()), found.port)
      ensures Clients(now) == old(Views(handler, rest, allocations - {key}, now))
    {
      hide HoldsAll, Views;
      handler.ports.DeallocatePort(found.port);
      RemoveTurnAllocation(key, rest, now);
    }

    /** allocationExpired, run by a timer: the allocation goes exactly when its last whole second has come. */
    method AllocationExpired(key: Key, now: nat)
      requires handler.Valid() && Valid()
      modifies handler.ports, this
      ensures handler.Valid() && Valid() && owner.Keys <= old(owner.Keys)
      ensures var c := Lookup(old(Clients(now)), key);
              if c.Some? && now >= c.value.expires
              then handler.ports.State() == Release(handler.cfg.range, old(handler.ports.State()), c.value.port)
                   && Clients(now) == old(Clients(now)) - {key}
              else handler.ports.State() == old(handler.ports.State()) && Clients(now) == old(Clients(now))
    {
      assert this !in owner && handler.ports !in owner;
      hide HoldsAll, Views, TurnAllocation.View, TurnAllocation.Repr, RequestHandler.Ours;
      var found, rest := Take(key, now, now);
      if found != null && now >= found.expires {
        Remove(found, key, rest, now);
      }
    }
  }

  /** A view holds nothing expired. */
  lemma ViewNow(a: TurnAllocation, now: nat)
    ensures Current(a.View(now), now) == a.View(now)
  {
    ViewLater(a, now, now);
  }
}
