/** What one allocation's history in a run of the whole server says of its permissions and bindings, and of what
    crosses. */
module TurnHistory {
  import opened Wire
  import opened Stun
  import opened StunCodec
  import opened StunTheorems
  import opened Channels
  import opened Sockets
  import opened Allocation
  import opened TurnPorts
  import opened TurnHandler
  import opened TurnServer
  import opened TurnTheorems

  // ---------------------------------------------------------------- one allocation, one request

  /** The same allocation has been under a key from event i of a run on: no event removes one and makes another. */
  ghost predicate HeldSince(cfg: Config, es: seq<Event>, a: Slot, i: nat)
    requires ValidRange(cfg.range)
  {
    forall j :: i <= j <= |es| ==> a in After(cfg, es[..j]).clients
  }

  lemma StepKeepsIdentity(cfg: Config, s: Server, e: Event, a: Slot)
    requires Sound(cfg, s) && a in s.clients && a in Step(cfg, s, e).0.clients
    ensures var c, d := s.clients[a], Step(cfg, s, e).0.clients[a];
            d.port == c.port && d.user == c.user && d.secret == c.secret
  {
    hide Process, Sound, Step, Settle, ValidPool, Healthy, Gains, Loses, Apply, Release;
    match e
    case Arrive(b, x, late) =>
      var f := StepArrive(cfg, s, b, x, late);
      SettleClients(s, b, f, x.start, late);
    case RelayOp(b, op) =>
      StepRelay(cfg, s, b, op);
    case _ =>
      StepOther(cfg, s, e);
  }

  /** So it is one allocation: port and credentials are what they were. */
  lemma {:induction false} HeldIsTheSame(cfg: Config, es: seq<Event>, a: Slot, i: nat)
    requires ValidRange(cfg.range) && i <= |es| && HeldSince(cfg, es, a, i)
    ensures a in After(cfg, es[..i]).clients && a in After(cfg, es).clients
    ensures var c, d := After(cfg, es[..i]).clients[a], After(cfg, es).clients[a];
            d.port == c.port && d.user == c.user && d.secret == c.secret
    decreases |es|
  {
    hide After, Step, Sound;
    assert es[..|es|] == es;
    if i < |es| {
      var n := |es| - 1;
      assert es[..n][..i] == es[..i] && es == es[..n] + [es[n]];
      HeldShorter(cfg, es, a, i);
      HeldIsTheSame(cfg, es[..n], a, i);
      AfterOneMore(cfg, es[..n], es[n]);
      StepKeepsIdentity(cfg, After(cfg, es[..n]), es[n], a);
    }
  }

  lemma HeldShorter(cfg: Config, es: seq<Event>, a: Slot, i: nat)
    requires ValidRange(cfg.range) && i < |es| && HeldSince(cfg, es, a, i)
    ensures HeldSince(cfg, es[..|es| - 1], a, i)
  {
    hide After;
    var shorter := es[..|es| - 1];
    forall j | i <= j <= |shorter| ensures a in After(cfg, shorter[..j]).clients {
      assert shorter[..j] == es[..j];
    }
  }

  lemma HeldLonger(cfg: Config, es: seq<Event>, e: Event, a: Slot, i: nat)
    requires ValidRange(cfg.range) && i <= |es| && HeldSince(cfg, es, a, i) && a in After(cfg, es + [e]).clients
    ensures HeldSince(cfg, es + [e], a, i)
  {
    hide After;
    var longer := es + [e];
    assert longer[..|longer|] == longer;
    forall j | i <= j <= |longer| ensures a in After(cfg, longer[..j]).clients {
      if j <= |es| {
        assert longer[..j] == es[..j];
      }
    }
  }

  // ---------------------------------------------------------------- permissions over whole runs

  /** Event e asks, for slot a and under these credentials, that host h be permitted. */
  ghost predicate AsksFor(e: Event, a: Slot, user: Bytes, secret: Bytes, h: Host) {
    && e.Arrive? && e.slot == a && e.x.verdict == Accepted(user, secret) && e.x.m.cls == REQUEST
    && ( || (e.x.m.verb == CREATE_PERMISSION && exists p :: p in e.x.m.peers && HostOf(p) == h)
         || (e.x.m.verb == CHANNEL_BIND && e.x.m.peers != [] && HostOf(e.x.m.peers[0]) == h))
  }

  /** Such a request, answered with success. */
  ghost predicate Gives(cfg: Config, s: Server, e: Event, a: Slot, h: Host)
    requires Sound(cfg, s)
  {
    a in s.clients && AsksFor(e, a, s.clients[a].user, s.clients[a].secret, h) && Step(cfg, s, e).1 == Agreed
  }

  /** Where a permission seen after one message comes from, and whether it lasts until t. */
  lemma ProcessPermits(cfg: Config, pool: Pool, c: Client, a: Slot, x: Input, late: bool, now: nat, h: Host, t: nat)
    requires ValidPool(cfg.range, pool) && now <= t
    ensures var f := Process(cfg, pool, Some(c), a.key, x, now);
            f.client.Some? ==>
              (h in Current(f.client.value.relay, t).permits <==>
                if f.reply == Agreed && AsksFor(Arrive(a, x, late), a, c.user, c.secret, h) then t <= now + PERMISSION_LIFETIME
                else h in Current(c.relay, t).permits)
  {
    PermitAllGives(Current(c.relay, now), x.m.peers, now, h);
    CurrentPermits(c.relay, now, t, h);
    hide TakePort, Release, Lifetime, PermitAll, Has, Num, Bind, Live;
  }

  lemma CurrentPermits(r: Relay, now: nat, t: nat, h: Host)
    requires now <= t
    ensures h in Current(Current(r, now), t).permits <==> h in Current(r, t).permits
  {
    AtLater(r, now, t);
    hide Current;
  }

  lemma StepPermits(cfg: Config, s: Server, e: Event, a: Slot, h: Host, t: nat)
    requires Sound(cfg, s) && a in s.clients && a in Step(cfg, s, e).0.clients && Seconds(s) <= t
    ensures h in Current(Step(cfg, s, e).0.clients[a].relay, t).permits <==>
              (if Gives(cfg, s, e, a, h) then t <= Seconds(s) + PERMISSION_LIFETIME else h in Current(s.clients[a].relay, t).permits)
  {
    hide AsksFor, Process, Sound, Accounts, Step, Settle, ValidPool, Current, Relayed, Release;
    match e
    case Arrive(b, x, late) =>
      var f := StepArrive(cfg, s, b, x, late);
      SettleClients(s, b, f, x.start, late);
      NotForOthers(e, b, a, s.clients[a].user, s.clients[a].secret, h);
      if b == a {
        ProcessPermits(cfg, s.pool, s.clients[a], a, x, late, Seconds(s), h, t);
      }
    case RelayOp(b, op) =>
      StepRelay(cfg, s, b, op);
      if b == a && !op.Permit? && !op.BindChannel? {
        RelayPermits(cfg, s, a, op, h, t);
      }
    case _ =>
      StepOther(cfg, s, e);
      NoMessageAsks(e, a, s.clients[a].user, s.clients[a].secret, h);
  }

  lemma NotForOthers(e: Event, b: Slot, a: Slot, user: Bytes, secret: Bytes, h: Host)
    requires e.Arrive? && e.slot == b
    ensures AsksFor(e, a, user, secret, h) ==> b == a
  {
  }

  lemma NoMessageAsks(e: Event, a: Slot, user: Bytes, secret: Bytes, h: Host)
    requires !e.Arrive?
    ensures !AsksFor(e, a, user, secret, h)
  {
  }

  lemma RelayPermits(cfg: Config, s: Server, a: Slot, op: Op, h: Host, t: nat)
    requires a in s.clients && !op.Permit? && !op.BindChannel? && Seconds(s) <= t
    ensures h in Current(Relayed(cfg, s.clients[a], op, Seconds(s)).1.relay, t).permits <==> h in Current(s.clients[a].relay, t).permits
  {
    CurrentPermits(s.clients[a].relay, Seconds(s), t, h);
    hide PeerOf, ChannelOf, Encode, Outward, Current;
  }

  /** The whole second that event i of a run happened in. */
  ghost function TimeOf(cfg: Config, es: seq<Event>, i: nat): nat
    requires ValidRange(cfg.range) && i <= |es|
  {
    Seconds(After(cfg, es[..i]))
  }

  lemma TimeIs(cfg: Config, es: seq<Event>, i: nat)
    requires ValidRange(cfg.range) && i <= |es|
    ensures TimeOf(cfg, es, i) == Seconds(After(cfg, es[..i]))
  {
    hide After;
  }

  /** Event i of the run gave host h permission on the very allocation that slot a holds at its end. */
  ghost predicate GivenBy(cfg: Config, es: seq<Event>, i: nat, a: Slot, h: Host)
    requires ValidRange(cfg.range) && i < |es|
  {
    Gives(cfg, After(cfg, es[..i]), es[i], a, h) && HeldSince(cfg, es, a, i)
  }

  ghost predicate GivenWithin(cfg: Config, es: seq<Event>, a: Slot, h: Host, t: nat)
    requires ValidRange(cfg.range)
  {
    exists i :: 0 <= i < |es| && GivenBy(cfg, es, i, a, h) && TimeOf(cfg, es, i) <= t <= TimeOf(cfg, es, i) + PERMISSION_LIFETIME
  }

  lemma GivenByLonger(cfg: Config, es: seq<Event>, i: nat, a: Slot, h: Host)
    requires ValidRange(cfg.range) && es != [] && i < |es| - 1 && a in After(cfg, es).clients
    ensures GivenBy(cfg, es, i, a, h) <==> GivenBy(cfg, es[..|es| - 1], i, a, h)
    ensures TimeOf(cfg, es, i) == TimeOf(cfg, es[..|es| - 1], i)
  {
    hide After, Gives, HeldSince;
    var n := |es| - 1;
    assert es[..n][..i] == es[..i] && es == es[..n] + [es[n]];
    if HeldSince(cfg, es, a, i) {
      HeldShorter(cfg, es, a, i);
    }
    if HeldSince(cfg, es[..n], a, i) {
      HeldLonger(cfg, es[..n], es[n], a, i);
    }
  }

  lemma GivenWithinOneMore(cfg: Config, es: seq<Event>, a: Slot, h: Host, t: nat)
    requires ValidRange(cfg.range) && es != [] && a in After(cfg, es).clients
    ensures var n := |es| - 1;
            var now := TimeOf(cfg, es, n);
            GivenWithin(cfg, es, a, h, t) <==>
              GivenWithin(cfg, es[..n], a, h, t) || (GivenBy(cfg, es, n, a, h) && now <= t <= now + PERMISSION_LIFETIME)
  {
    hide After, GivenBy, TimeOf;
    var n := |es| - 1;
    forall i: nat | i < n
      ensures (GivenBy(cfg, es, i, a, h) <==> GivenBy(cfg, es[..n], i, a, h)) && TimeOf(cfg, es, i) == TimeOf(cfg, es[..n], i)
    {
      GivenByLonger(cfg, es, i, a, h);
    }
  }

  /** The last event of a run gave the permission: the slot then held the allocation, and still does. */
  lemma GivenByLast(cfg: Config, es: seq<Event>, a: Slot, h: Host)
    requires ValidRange(cfg.range) && es != [] && a in After(cfg, es).clients
    ensures GivenBy(cfg, es, |es| - 1, a, h) <==> Gives(cfg, After(cfg, es[..|es| - 1]), es[|es| - 1], a, h)
  {
    hide After, Gives, Step, Sound;
    var n := |es| - 1;
    assert es[..|es|] == es;
    GivesHolds(cfg, After(cfg, es[..n]), es[n], a, h);
    if a in After(cfg, es[..n]).clients {
      forall j | n <= j <= |es| ensures a in After(cfg, es[..j]).clients {
        assert j == n || es[..j] == es;
      }
    }
  }

  lemma GivesHolds(cfg: Config, s: Server, e: Event, a: Slot, h: Host)
    requires Sound(cfg, s)
    ensures Gives(cfg, s, e, a, h) ==> a in s.clients
  {
  }

  /** Nobody was permitted anything before the allocation was there. */
  lemma GivenNeedsHolding(cfg: Config, es: seq<Event>, a: Slot, h: Host, t: nat)
    requires ValidRange(cfg.range) && a !in After(cfg, es).clients
    ensures !GivenWithin(cfg, es, a, h, t)
  {
    hide After, Gives;
    assert es[..|es|] == es;
  }

  /** In every reachable state a host has permission on an allocation until t exactly when some request, under the
      allocation's own credentials and answered with success, gave it on this very allocation within the 300 seconds
      before t. */
  lemma {:induction false} PermittedExactlyWhenGiven(cfg: Config, es: seq<Event>, a: Slot, h: Host, t: nat)
    requires ValidRange(cfg.range) && a in After(cfg, es).clients && Seconds(After(cfg, es)) <= t
    ensures h in Current(After(cfg, es).clients[a].relay, t).permits <==> GivenWithin(cfg, es, a, h, t)
    decreases |es|
  {
    hide After, Step, Sound, Gives, GivenWithin, GivenBy, Current, Process, TimeOf;
    if es == [] {
      AfterStart(cfg);
    } else {
      var n := |es| - 1;
      var s := After(cfg, es[..n]);
      assert es == es[..n] + [es[n]];
      assert TimeOf(cfg, es, n) == Seconds(s) by { TimeIs(cfg, es, n); }
      AfterOneMore(cfg, es[..n], es[n]);
      StepTime(cfg, s, es[n]);
      GivenWithinOneMore(cfg, es, a, h, t);
      GivenByLast(cfg, es, a, h);
      if a in s.clients {
        PermittedExactlyWhenGiven(cfg, es[..n], a, h, t);
        StepPermits(cfg, s, es[n], a, h, t);
        if Gives(cfg, s, es[n], a, h) && t > Seconds(s) + PERMISSION_LIFETIME {
          GivenInThePast(cfg, es[..n], a, h, t);
        }
      } else {
        GivenNeedsHolding(cfg, es[..n], a, h, t);
        GivesNeedsHolding(cfg, s, es[n], a, h);
        NewHasNoRelay(cfg, s, es[n], a, t);
      }
    }
  }

  lemma GivesNeedsHolding(cfg: Config, s: Server, e: Event, a: Slot, h: Host)
    requires Sound(cfg, s) && a !in s.clients
    ensures !Gives(cfg, s, e, a, h)
  {
  }

  lemma GivenInThePast(cfg: Config, es: seq<Event>, a: Slot, h: Host, t: nat)
    requires ValidRange(cfg.range) && t > Seconds(After(cfg, es)) + PERMISSION_LIFETIME
    ensures !GivenWithin(cfg, es, a, h, t)
  {
    hide After, GivenBy;
    forall i | 0 <= i < |es| ensures TimeOf(cfg, es, i) <= Seconds(After(cfg, es)) {
      TimePasses(cfg, es, i);
    }
  }

  /** A new allocation starts with nothing permitted and nothing bound. */
  lemma NewIsEmpty(cfg: Config, s: Server, e: Event, a: Slot)
    requires Sound(cfg, s) && a !in s.clients && a in Step(cfg, s, e).0.clients
    ensures Step(cfg, s, e).0.clients[a].relay == NoRelay
  {
    if e.Arrive? {
      var f := StepArrive(cfg, s, e.slot, e.x, e.late);
      SettleClients(s, e.slot, f, e.x.start, e.late);
      ProcessMakesEmpty(cfg, s.pool, a.key, e.x, Seconds(s));
      hide Process, Sound, Step, Settle, ValidPool, Accounts;
    } else if e.RelayOp? {
      StepRelay(cfg, s, e.slot, e.op);
      hide Sound, Step;
    } else {
      StepOther(cfg, s, e);
      hide Sound, Step;
    }
  }

  lemma ProcessMakesEmpty(cfg: Config, pool: Pool, key: Key, x: Input, now: nat)
    requires ValidPool(cfg.range, pool)
    ensures var f := Process(cfg, pool, None, key, x, now); f.client.Some? ==> f.client.value.relay == NoRelay
  {
    hide TakePort, Lifetime, Has, Num;
  }

  lemma NewHasNoRelay(cfg: Config, s: Server, e: Event, a: Slot, t: nat)
    requires Sound(cfg, s) && a !in s.clients && a in Step(cfg, s, e).0.clients
    ensures Current(Step(cfg, s, e).0.clients[a].relay, t).permits == map[]
  {
    NewIsEmpty(cfg, s, e, a);
  }

  /** The far end of data that crossed, in either direction. */
  function FarEnd(e: Event, out: Outcome): Option<Address> {
    if out.ToPeer? then Some(out.peer)
    else if (out.OnChannel? || out.Indication?) && e.RelayOp? && e.op.PeerData? then Some(e.op.peer)
    else None
  }

  lemma CrossingIsPermitted(cfg: Config, s: Server, e: Event)
    requires Sound(cfg, s)
    requires FarEnd(e, Step(cfg, s, e).2).Some?
    ensures e.Arrive? || e.RelayOp?
    ensures var peer := FarEnd(e, Step(cfg, s, e).2).value;
            e.slot in s.clients && HostOf(peer) in Current(s.clients[e.slot].relay, Seconds(s)).permits
  {
    match e
    case Arrive(a, x, late) =>
      var f := StepArrive(cfg, s, a, x, late);
      ProcessCrosses(cfg, s.pool, ClientAt(s, a), a.key, x, Seconds(s));
      hide Process, Sound, Accounts, Step, ValidPool, Settle;
    case RelayOp(a, op) =>
      StepRelay(cfg, s, a, op);
      hide Sound, ChannelOf, PeerOf, Encode, Step;
    case _ =>
      StepOther(cfg, s, e);
      hide Sound, Step, Release;
  }

  lemma ProcessCrosses(cfg: Config, pool: Pool, client: Option<Client>, key: Key, x: Input, now: nat)
    requires ValidPool(cfg.range, pool)
    ensures var f := Process(cfg, pool, client, key, x, now);
            && (f.out.ToPeer? ==> client.Some? && HostOf(f.out.peer) in Current(client.value.relay, now).permits)
            && (f.out == Dropped || f.out.ToPeer?)
  {
    hide TakePort, Release, Lifetime, PermitAll, Has, Num, Bind, Current;
  }

  /** Event i of the run named the peer's address, whatever the port, in a request under the allocation's own credentials
      that was answered with success, and the slot has held that very allocation ever since. */
  ghost predicate NamedBy(cfg: Config, es: seq<Event>, i: nat, a: Slot, peer: Address)
    requires ValidRange(cfg.range) && i < |es|
  {
    var s, e := After(cfg, es[..i]), es[i];
    && a in s.clients && HeldSince(cfg, es, a, i) && e.Arrive? && e.slot == a && Step(cfg, s, e).1 == Agreed
    && e.x.m.cls == REQUEST && e.x.verdict == Accepted(s.clients[a].user, s.clients[a].secret)
    && ( || (e.x.m.verb == CREATE_PERMISSION && exists p :: p in e.x.m.peers && SameIp(p, peer))
         || (e.x.m.verb == CHANNEL_BIND && e.x.m.peers != [] && SameIp(e.x.m.peers[0], peer)))
  }

  ghost predicate NamedWithin(cfg: Config, es: seq<Event>, a: Slot, peer: Address, t: nat)
    requires ValidRange(cfg.range)
  {
    exists i :: 0 <= i < |es| && NamedBy(cfg, es, i, a, peer) && TimeOf(cfg, es, i) <= t <= TimeOf(cfg, es, i) + 300
  }

  lemma GivenIsNamed(cfg: Config, es: seq<Event>, i: nat, a: Slot, peer: Address)
    requires ValidRange(cfg.range) && i < |es|
    ensures GivenBy(cfg, es, i, a, HostOf(peer)) <==> NamedBy(cfg, es, i, a, peer)
  {
    hide After, Step, HeldSince, HostOf, SameIp;
    forall p ensures HostOf(p) == HostOf(peer) <==> SameIp(p, peer) {
      HostsAreAddresses(p, peer);
    }
  }

  /** In every reachable state data from or to a peer is let through exactly when its address was so named within the last
      300 seconds. */
  lemma PeerPermittedExactlyWhenNamed(cfg: Config, es: seq<Event>, a: Slot, peer: Address)
    requires ValidRange(cfg.range) && a in After(cfg, es).clients
    ensures var s := After(cfg, es);
            HostOf(peer) in Current(s.clients[a].relay, Seconds(s)).permits <==> NamedWithin(cfg, es, a, peer, Seconds(s))
  {
    hide After, GivenBy, NamedBy, TimeOf, Current;
    var t := Seconds(After(cfg, es));
    PermittedExactlyWhenGiven(cfg, es, a, HostOf(peer), t);
    forall i: nat | i < |es| ensures GivenBy(cfg, es, i, a, HostOf(peer)) <==> NamedBy(cfg, es, i, a, peer) {
      GivenIsNamed(cfg, es, i, a, peer);
    }
  }

  /** Nothing crosses, in either direction, unless a request under the allocation's own credentials, answered with
      success, named the far end's address on this very allocation within the last 300 seconds. */
  lemma NothingCrossesUnpermitted(cfg: Config, es: seq<Event>, e: Event)
    requires ValidRange(cfg.range)
    requires FarEnd(e, Step(cfg, After(cfg, es), e).2).Some?
    ensures e.Arrive? || e.RelayOp?
    ensures var s := After(cfg, es);
            e.slot in s.clients && NamedWithin(cfg, es, e.slot, FarEnd(e, Step(cfg, s, e).2).value, Seconds(s))
  {
    hide Step, Sound, After, NamedWithin, FarEnd;
    var s := After(cfg, es);
    CrossingIsPermitted(cfg, s, e);
    PeerPermittedExactlyWhenNamed(cfg, es, e.slot, FarEnd(e, Step(cfg, s, e).2).value);
  }

  // ---------------------------------------------------------------- bindings over whole runs

  ghost predicate InRange(r: Relay) {
    forall b :: b in r.bonds ==> MIN_CHANNEL <= b.channel <= MAX_CHANNEL
  }

  ghost predicate WellBound(r: Relay) {
    InRange(r) && OneToOne(r.bonds)
  }

  lemma CurrentWellBound(r: Relay, now: nat)
    requires WellBound(r)
    ensures WellBound(Current(r, now))
  {
  }

  lemma BindWellBound(r: Relay, p: Address, c: nat, now: nat)
    requires WellBound(r) && MIN_CHANNEL <= c <= MAX_CHANNEL
    ensures WellBound(r.(bonds := Bind(r.bonds, p, c, now).1))
  {
    BindLaws(r.bonds, p, c, now);
    hide Bind;
  }

  lemma ProcessWellBound(cfg: Config, pool: Pool, client: Option<Client>, key: Key, x: Input, now: nat)
    requires ValidPool(cfg.range, pool) && (client.Some? ==> WellBound(client.value.relay))
    ensures var f := Process(cfg, pool, client, key, x, now); f.client.Some? ==> WellBound(f.client.value.relay)
  {
    if client.Some? {
      var r := Current(client.value.relay, now);
      CurrentWellBound(client.value.relay, now);
      if x.m.peers != [] {
        PermitAllGives(r, x.m.peers, now, HostOf(x.m.peers[0]));
        if MIN_CHANNEL <= Num(x.m, CHANNEL_NUMBER) <= MAX_CHANNEL {
          BindWellBound(r, x.m.peers[0], Num(x.m, CHANNEL_NUMBER), now);
        }
      }
    }
    assert WellBound(NoRelay);
    hide TakePort, Release, Lifetime, PermitAll, Has, Num, Bind, Current, InRange, OneToOne;
  }

  lemma StepWellBound(cfg: Config, s: Server, e: Event)
    requires Sound(cfg, s) && forall a :: a in s.clients ==> WellBound(s.clients[a].relay)
    ensures forall a :: a in Step(cfg, s, e).0.clients ==> WellBound(Step(cfg, s, e).0.clients[a].relay)
  {
    hide WellBound, Process, Accounts, Step, Settle, Sound, Relayed;
    match e
    case Arrive(b, x, late) =>
      var f := StepArrive(cfg, s, b, x, late);
      SettleClients(s, b, f, x.start, late);
      ProcessWellBound(cfg, s.pool, ClientAt(s, b), b.key, x, Seconds(s));
    case RelayOp(b, op) =>
      StepRelay(cfg, s, b, op);
      if b in s.clients && !op.Permit? && !op.BindChannel? {
        RelayWellBound(cfg, s, b, op);
      }
    case _ =>
      StepOther(cfg, s, e);
  }

  lemma RelayWellBound(cfg: Config, s: Server, a: Slot, op: Op)
    requires a in s.clients && WellBound(s.clients[a].relay) && !op.Permit? && !op.BindChannel?
    ensures WellBound(Relayed(cfg, s.clients[a], op, Seconds(s)).1.relay)
  {
    CurrentWellBound(s.clients[a].relay, Seconds(s));
    hide PeerOf, ChannelOf, Encode, Outward, WellBound, Current;
  }

  ghost predicate AllWellBound(s: Server) {
    forall a :: a in s.clients ==> WellBound(s.clients[a].relay)
  }

  lemma {:induction false} AlwaysWellBound(cfg: Config, es: seq<Event>)
    requires ValidRange(cfg.range)
    ensures AllWellBound(After(cfg, es))
    decreases |es|
  {
    AfterStart(cfg);
    if es != [] {
      hide After, Step, Sound, WellBound;
      var n := |es| - 1;
      assert es == es[..n] + [es[n]];
      AfterOneMore(cfg, es[..n], es[n]);
      AlwaysWellBound(cfg, es[..n]);
      StepWellBound(cfg, After(cfg, es[..n]), es[n]);
    }
  }

  /** In every reachable state each allocation's bindings are one-to-one and their numbers between 0x4000 and 0x7FFF. */
  lemma BindingsAreWellFormed(cfg: Config, es: seq<Event>, a: Slot)
    requires ValidRange(cfg.range) && a in After(cfg, es).clients
    ensures WellBound(After(cfg, es).clients[a].relay)
  {
    hide After, WellBound;
    AlwaysWellBound(cfg, es);
  }

  // ---------------------------------------------------------------- an allocation's own history

  function Permits(peers: seq<Address>, now: nat): (ops: seq<Timed>)
    ensures |ops| == |peers|
  {
    seq(|peers|, i requires 0 <= i < |peers| => Timed(now, Permit(HostOf(peers[i]))))
  }

  /** The relay operations a message performs on the client it is for. */
  function MessageOps(c: Client, x: Input, now: nat): seq<Timed> {
    var m := x.m;
    if x.unknown != [] then []
    else if m.cls == INDICATION && m.verb == SEND then
      if m.peers == [] || !Has(m, DATA) || Has(m, DONT_FRAGMENT) then []
      else [Timed(now, ClientTo(m.peers[0], Payloads(m)))]
    else if m.cls == REQUEST && x.verdict == Accepted(c.user, c.secret) then
      if m.verb == CREATE_PERMISSION then Permits(m.peers, now)
      else if m.verb == CHANNEL_BIND && m.peers != [] && Has(m, CHANNEL_NUMBER)
              && MIN_CHANNEL <= Num(m, CHANNEL_NUMBER) <= MAX_CHANNEL
      then [Timed(now, BindChannel(m.peers[0], Num(m, CHANNEL_NUMBER)))]
      else []
    else []
  }

  /** The relay operations an event performs on slot a's client. */
  function EventOps(s: Server, e: Event, a: Slot): seq<Timed> {
    if a !in s.clients then []
    else match e
         case Arrive(b, x, _) => if b == a then MessageOps(s.clients[a], x, Seconds(s)) else []
         case RelayOp(b, op) => if b == a && !op.Permit? && !op.BindChannel? then [Timed(Seconds(s), op)] else []
         case _ => []
  }

  /** The operations performed, since it was made, on the allocation that slot a holds after a run. */
  ghost function History(cfg: Config, es: seq<Event>, a: Slot): seq<Timed>
    requires ValidRange(cfg.range)
  {
    if es == [] then []
    else
      var n := |es| - 1;
      var s := After(cfg, es[..n]);
      if a in s.clients && a in After(cfg, es).clients then History(cfg, es[..n], a) + EventOps(s, es[n], a) else []
  }

  lemma {:induction false} RunOnward(r: Relay, ops: seq<Timed>, more: seq<Timed>, k: Crypto)
    ensures Run(r, ops + more, k).1 == Run(Run(r, ops, k).1, more, k).1
    decreases |more|
  {
    if more == [] {
      assert ops + more == ops;
    } else {
      var last := |more| - 1;
      assert (ops + more)[..|ops + more| - 1] == ops + more[..last];
      RunOnward(r, ops, more[..last], k);
      hide Apply, Current;
    }
  }

  lemma RunOfOne(r: Relay, x: Timed, k: Crypto)
    ensures Run(r, [x], k).1 == Apply(Current(r, x.at), x.op, x.at, k).1
  {
    assert [x][..0] == [];
    assert Run(r, [], k) == ([], r);
    hide Apply, Current;
  }

  /** Naming several peers at once is permitting one host after the other. */
  lemma {:induction false} RunOfPermits(r: Relay, peers: seq<Address>, now: nat, k: Crypto)
    requires peers != []
    ensures Run(r, Permits(peers, now), k).1 == PermitAll(Current(r, now), peers, now)
    decreases |peers|
  {
    var last := |peers| - 1;
    var ops := Permits(peers, now);
    assert ops[..last] == Permits(peers[..last], now) && ops[last] == Timed(now, Permit(HostOf(peers[last])));
    if last == 0 {
      assert ops[..0] == [] && peers[..0] == [];
      assert Run(r, [], k) == ([], r);
    } else {
      RunOfPermits(r, peers[..last], now, k);
      PermitAllIsCurrent(r, peers[..last], now);
      hide Current, PermitAll;
    }
  }

  lemma {:induction false} PermitAllIsCurrent(r: Relay, peers: seq<Address>, now: nat)
    ensures var r' := PermitAll(Current(r, now), peers, now); Current(r', now) == r'
    decreases |peers|
  {
    AtLater(r, now, now);
    if peers != [] {
      PermitAllIsCurrent(r, peers[..|peers| - 1], now);
      PermittedIsCurrent(PermitAll(Current(r, now), peers[..|peers| - 1], now), HostOf(peers[|peers| - 1]), now);
      hide Current;
    }
  }

  lemma PermittedIsCurrent(r: Relay, h: Host, now: nat)
    requires Current(r, now) == r
    ensures Current(Permitted(r, h, now), now) == Permitted(r, h, now)
  {
    assert Unexpired(Permitted(r, h, now).permits, now) == Permitted(r, h, now).permits;
  }

  /** What a message does to its client's relay is what its operations do. */
  lemma ProcessHistory(cfg: Config, pool: Pool, c: Client, key: Key, x: Input, now: nat)
    requires ValidPool(cfg.range, pool)
    ensures var f := Process(cfg, pool, Some(c), key, x, now);
            f.client.Some? ==> f.client.value.relay == Run(c.relay, MessageOps(c, x, now), cfg.crypto).1
  {
    var m := x.m;
    var ops := MessageOps(c, x, now);
    assert Run(c.relay, [], cfg.crypto).1 == c.relay;
    if |ops| == 1 {
      assert ops == [ops[0]];
      RunOfOne(c.relay, ops[0], cfg.crypto);
    }
    if m.peers != [] {
      RunOfPermits(c.relay, m.peers, now, cfg.crypto);
    }
    hide TakePort, Release, Lifetime, PermitAll, Has, Num, Current, Run, Bind, Payloads, Encode;
  }

  lemma StepHistory(cfg: Config, s: Server, e: Event, a: Slot)
    requires Sound(cfg, s) && a in s.clients && a in Step(cfg, s, e).0.clients
    ensures Step(cfg, s, e).0.clients[a].relay == Run(s.clients[a].relay, EventOps(s, e, a), cfg.crypto).1
  {
    assert Run(s.clients[a].relay, [], cfg.crypto).1 == s.clients[a].relay;
    hide Process, Sound, Step, Settle, ValidPool, Accounts, Apply, Release, Run, MessageOps, Current;
    match e
    case Arrive(b, x, late) =>
      var f := StepArrive(cfg, s, b, x, late);
      SettleClients(s, b, f, x.start, late);
      if b == a {
        ProcessHistory(cfg, s.pool, s.clients[a], a.key, x, Seconds(s));
      }
    case RelayOp(b, op) =>
      StepRelay(cfg, s, b, op);
      RunOfOne(s.clients[a].relay, Timed(Seconds(s), op), cfg.crypto);
    case _ =>
      StepOther(cfg, s, e);
  }

  lemma HistoryOneMore(cfg: Config, es: seq<Event>, a: Slot)
    requires ValidRange(cfg.range) && es != []
    ensures var n := |es| - 1;
            var s := After(cfg, es[..n]);
            History(cfg, es, a) ==
              if a in s.clients && a in After(cfg, es).clients then History(cfg, es[..n], a) + EventOps(s, es[n], a) else []
  {
    hide After, EventOps;
  }

  /** In every reachable state an allocation's relay is the run of its own history. */
  lemma {:induction false} RelayIsItsHistory(cfg: Config, es: seq<Event>, a: Slot)
    requires ValidRange(cfg.range) && a in After(cfg, es).clients
    ensures After(cfg, es).clients[a].relay == Run(NoRelay, History(cfg, es, a), cfg.crypto).1
    decreases |es|
  {
    hide After, Step, Sound, EventOps, Run, NoRelay, History, HeldSince;
    RunNone(cfg.crypto);
    if es == [] {
      AfterStart(cfg);
    } else {
      HistoryOneMore(cfg, es, a);
      var n := |es| - 1;
      var s := After(cfg, es[..n]);
      assert es == es[..n] + [es[n]];
      AfterOneMore(cfg, es[..n], es[n]);
      if a in s.clients {
        RelayIsItsHistory(cfg, es[..n], a);
        StepHistory(cfg, s, es[n], a);
        RunOnward(NoRelay, History(cfg, es[..n], a), EventOps(s, es[n], a), cfg.crypto);
      } else {
        NewIsEmpty(cfg, s, es[n], a);
      }
    }
  }

  lemma EventOpsAreNow(s: Server, e: Event, a: Slot)
    ensures forall x :: x in EventOps(s, e, a) ==> x.at == Seconds(s)
  {
  }

  /** A history's times do not decrease, and do not lie in the future. */
  lemma {:induction false} HistoryIsMonotone(cfg: Config, es: seq<Event>, a: Slot)
    requires ValidRange(cfg.range)
    ensures Monotone(History(cfg, es, a))
    ensures forall x :: x in History(cfg, es, a) ==> x.at <= Seconds(After(cfg, es))
    decreases |es|
  {
    hide After, Step, Sound, EventOps;
    if es != [] {
      var n := |es| - 1;
      var s := After(cfg, es[..n]);
      assert es == es[..n] + [es[n]];
      AfterOneMore(cfg, es[..n], es[n]);
      StepTime(cfg, s, es[n]);
      HistoryIsMonotone(cfg, es[..n], a);
      EventOpsAreNow(s, es[n], a);
      MonotoneOnward(History(cfg, es[..n], a), EventOps(s, es[n], a), Seconds(s));
    }
  }

  lemma MonotoneOnward(ops: seq<Timed>, more: seq<Timed>, now: nat)
    requires Monotone(ops) && (forall x :: x in ops ==> x.at <= now) && forall x :: x in more ==> x.at == now
    ensures Monotone(ops + more)
  {
    forall i, j | 0 <= i <= j < |ops + more| ensures (ops + more)[i].at <= (ops + more)[j].at {
      assert i < |ops| ==> (ops + more)[i] in ops;
      assert i >= |ops| ==> (ops + more)[i] in more;
      assert j >= |ops| ==> (ops + more)[j] in more;
    }
  }

  /** What the server relays next for an allocation is what its history, with that operation after it, yields last. */
  lemma ServerRelays(cfg: Config, es: seq<Event>, a: Slot, op: Op) returns (ops: seq<Timed>)
    requires ValidRange(cfg.range) && a in After(cfg, es).clients && !op.Permit? && !op.BindChannel?
    ensures ops == History(cfg, es, a) + [Timed(Seconds(After(cfg, es)), op)] && Monotone(ops)
    ensures |Run(NoRelay, ops, cfg.crypto).0| == |ops|
    ensures Step(cfg, After(cfg, es), RelayOp(a, op)).2 == Run(NoRelay, ops, cfg.crypto).0[|ops| - 1]
  {
    hide After, Step, Sound, Run, Current, Apply, NoRelay;
    var s := After(cfg, es);
    var x := Timed(Seconds(s), op);
    ops := History(cfg, es, a) + [x];
    HistoryIsMonotone(cfg, es, a);
    MonotoneOnward(History(cfg, es, a), [x], Seconds(s));
    RelayIsItsHistory(cfg, es, a);
    StepRelay(cfg, s, a, op);
    OutcomeAt(ops, |ops| - 1, cfg.crypto);
    assert ops[..|ops| - 1] == History(cfg, es, a);
  }

  /** Over every run of the server: ChannelData for an allocation reaches a peer exactly when that peer was bound to the
      channel on it within 600 seconds and its host permitted on it within 300, and then the payload is unchanged. */
  lemma ServerChannelDataCrosses(cfg: Config, es: seq<Event>, a: Slot, peer: Address, channel: nat, frame: Bytes)
    requires ValidRange(cfg.range) && a in After(cfg, es).clients
    ensures var (s, ops, k) := (After(cfg, es), History(cfg, es, a), cfg.crypto);
            Step(cfg, s, RelayOp(a, ClientOnChannel(channel, frame))).2 == ToPeer(peer, Unframed(frame)) <==>
              BoundWithin(ops, peer, channel, Seconds(s), k) && GrantedWithin(ops, HostOf(peer), Seconds(s), k)
  {
    hide After, Step, Sound, Run, History, BoundWithin, GrantedWithin, NoRelay;
    var ops := ServerRelays(cfg, es, a, ClientOnChannel(channel, frame));
    var n := |ops| - 1;
    assert ops[..n] == History(cfg, es, a);
    ChannelDataCrosses(ops, n, peer, channel, frame, cfg.crypto);
  }

  /** A Send indication's data, and a peer's data: as for one allocation alone, by its history in the run. */
  lemma ServerSentDataCrosses(cfg: Config, es: seq<Event>, a: Slot, peer: Address, data: Bytes)
    requires ValidRange(cfg.range) && a in After(cfg, es).clients
    ensures var (s, ops, k) := (After(cfg, es), History(cfg, es, a), cfg.crypto);
            Step(cfg, s, RelayOp(a, ClientTo(peer, data))).2 ==
            if GrantedWithin(ops, HostOf(peer), Seconds(s), k) then ToPeer(peer, data) else Dropped
  {
    hide After, Step, Sound, Run, History, GrantedWithin, NoRelay;
    var ops := ServerRelays(cfg, es, a, ClientTo(peer, data));
    var n := |ops| - 1;
    assert ops[..n] == History(cfg, es, a);
    SentDataCrosses(ops, n, peer, data, cfg.crypto);
  }

  lemma ServerPeerDataCrosses(cfg: Config, es: seq<Event>, a: Slot, peer: Address, data: Bytes, id: Octets16)
    requires ValidRange(cfg.range) && a in After(cfg, es).clients
    ensures var (s, ops, k) := (After(cfg, es), History(cfg, es, a), cfg.crypto);
            var out := Step(cfg, s, RelayOp(a, PeerData(peer, data, id))).2;
            && (out == Dropped <==> !GrantedWithin(ops, HostOf(peer), Seconds(s), k))
            && (forall c: nat :: out == OnChannel(c, data) <==> out != Dropped && BoundWithin(ops, peer, c, Seconds(s), k))
            && (out != Dropped && (forall c: nat :: !BoundWithin(ops, peer, c, Seconds(s), k)) ==> out.Indication?)
            && (out.Indication? && |data| <= 0x1_0000 - 36 ==>
                  Parse(out.octets) == Some(Parsed(DataIndication(id, peer, data), [], 0)))
  {
    hide After, Step, Sound, Run, History, GrantedWithin, BoundWithin, NoRelay, Parse, DataIndication;
    var ops := ServerRelays(cfg, es, a, PeerData(peer, data, id));
    var n := |ops| - 1;
    assert ops[..n] == History(cfg, es, a);
    PeerDataCrosses(ops, n, peer, data, id, cfg.crypto);
  }

  /** A Send indication with a peer and data, and nothing the server refuses. */
  predicate SendIndication(x: Input) {
    && x.m.cls == INDICATION && x.m.verb == SEND && x.unknown == [] && x.m.peers != []
    && DATA in x.m.fields && x.m.fields[DATA].Text? && DONT_FRAGMENT !in x.m.fields
  }

  /** Over every run: a Send indication's data reaches the peer it names first exactly when an allocation is there and
      that address was named within the last 300 seconds; it never gets a reply. */
  lemma SendIndicationCrossesExactlyWhen(cfg: Config, es: seq<Event>, a: Slot, x: Input, late: bool)
    requires ValidRange(cfg.range) && SendIndication(x)
    ensures var s := After(cfg, es);
            var (_, reply, out) := Step(cfg, s, Arrive(a, x, late));
            && reply == Silent
            && out == (if a in s.clients && NamedWithin(cfg, es, a, x.m.peers[0], Seconds(s))
                       then ToPeer(x.m.peers[0], x.m.fields[DATA].text) else Dropped)
  {
    assert x.m.peers != [];
    hide After, Sound, NamedWithin, Process, Settle, Accounts, Step, ValidPool, Current, SendIndication;
    var s := After(cfg, es);
    var f := StepArrive(cfg, s, a, x, late);
    SendIsProcessed(cfg, s.pool, ClientAt(s, a), a.key, x, Seconds(s));
    if a in s.clients {
      PeerPermittedExactlyWhenNamed(cfg, es, a, x.m.peers[0]);
    }
  }

  /** One step: an arriving Send indication relays, and leaves behind, what sending its data to the peer named first on
      its client's allocation does. */
  lemma SendIsRelayed(cfg: Config, s: Server, a: Slot, x: Input, late: bool)
    requires Sound(cfg, s) && SendIndication(x)
    ensures var relayed := Step(cfg, s, RelayOp(a, ClientTo(x.m.peers[0], x.m.fields[DATA].text)));
            && Step(cfg, s, Arrive(a, x, late)).2 == relayed.2
            && Step(cfg, s, Arrive(a, x, late)).0.pool == relayed.0.pool
            && Step(cfg, s, Arrive(a, x, late)).0.clients == relayed.0.clients
  {
    var op := ClientTo(x.m.peers[0], x.m.fields[DATA].text);
    var f := StepArrive(cfg, s, a, x, late);
    StepRelay(cfg, s, a, op);
    SettleClients(s, a, f, x.start, late);
    SendIsOperation(cfg, s.pool, ClientAt(s, a), a.key, x, Seconds(s));
    if a !in s.clients {
      WithoutAbsent(s.clients, a);
    }
    hide Process, Relayed, Step, Settle, Sound, Accounts, ValidPool, SendIndication;
  }

  lemma SendIsOperation(cfg: Config, pool: Pool, client: Option<Client>, key: Key, x: Input, now: nat)
    requires ValidPool(cfg.range, pool) && SendIndication(x)
    ensures var f := Process(cfg, pool, client, key, x, now);
            && f.pool == pool
            && if client.None? then f.client == None && f.out == Dropped
               else var r := Relayed(cfg, client.value, ClientTo(x.m.peers[0], x.m.fields[DATA].text), now);
                    f.client == Some(r.1) && f.out == r.0
  {
    hide Relayed;
  }

  lemma SendIsProcessed(cfg: Config, pool: Pool, client: Option<Client>, key: Key, x: Input, now: nat)
    requires ValidPool(cfg.range, pool) && SendIndication(x)
    ensures var f := Process(cfg, pool, client, key, x, now);
            && f.reply == Silent
            && f.out == (if client.Some? && HostOf(x.m.peers[0]) in Current(client.value.relay, now).permits
                         then ToPeer(x.m.peers[0], x.m.fields[DATA].text) else Dropped)
  {
    hide Current, HostOf;
  }

  lemma BindAgreed(cfg: Config, pool: Pool, c: Client, key: Key, x: Input, now: nat)
    requires ValidPool(cfg.range, pool) && x.m.cls == REQUEST && x.m.verb == CHANNEL_BIND
    requires Process(cfg, pool, Some(c), key, x, now).reply == Agreed
    ensures x.m.peers != []
    ensures var op := BindChannel(x.m.peers[0], Num(x.m, CHANNEL_NUMBER));
            MessageOps(c, x, now) == [Timed(now, op)] && Apply(Current(c.relay, now), op, now, cfg.crypto).0 == Done
  {
    hide TakePort, Release, Lifetime, PermitAll, Current, Bind, Num;
  }

  /** A channel bind answered with success is in the history, as a successful one. */
  lemma BindEventIsBound(cfg: Config, es: seq<Event>, a: Slot, x: Input, late: bool)
    requires ValidRange(cfg.range) && a in After(cfg, es).clients && a in After(cfg, es + [Arrive(a, x, late)]).clients
    requires x.m.cls == REQUEST && x.m.verb == CHANNEL_BIND
    requires Step(cfg, After(cfg, es), Arrive(a, x, late)).1 == Agreed
    ensures x.m.peers != []
    ensures var ops := History(cfg, es + [Arrive(a, x, late)], a);
            var j := |History(cfg, es, a)|;
            && j < |ops| && ops[j].at == Seconds(After(cfg, es))
            && Bound(ops, j, x.m.peers[0], Num(x.m, CHANNEL_NUMBER), cfg.crypto)
  {
    hide After, Step, Sound, Process, MessageOps, Run, Apply, Current, NoRelay, Settle, Accounts, ValidPool;
    var s := After(cfg, es);
    var e := Arrive(a, x, late);
    var f := StepArrive(cfg, s, a, x, late);
    BindAgreed(cfg, s.pool, s.clients[a], a.key, x, Seconds(s));
    RelayIsItsHistory(cfg, es, a);
    assert (es + [e])[..|es + [e]| - 1] == es;
    var ops := History(cfg, es + [e], a);
    assert ops == History(cfg, es, a) + EventOps(s, e, a);
    assert ops[..|History(cfg, es, a)|] == History(cfg, es, a);
  }

  /** A history is only added to while the allocation is held. */
  lemma {:induction false} HistoryGrows(cfg: Config, es: seq<Event>, fs: seq<Event>, a: Slot)
    requires ValidRange(cfg.range) && HeldSince(cfg, es + fs, a, |es|)
    ensures History(cfg, es, a) <= History(cfg, es + fs, a)
    decreases |fs|
  {
    hide After, Step, Sound, EventOps;
    if fs == [] {
      assert es + fs == es;
    } else {
      var n := |fs| - 1;
      var all := es + fs;
      assert all[..|all| - 1] == es + fs[..n] && all[..|all|] == all;
      HeldShorter(cfg, all, a, |es|);
      HistoryGrows(cfg, es, fs[..n], a);
      assert a in After(cfg, all[..|all| - 1]).clients && a in After(cfg, all).clients;
    }
  }

  /** Relay transparency over the server: after a channel bind answered with success, whatever else arrives anywhere in
      the next 300 seconds, as long as the allocation is held its client and the bound peer exchange data unchanged, in
      both directions, over that channel. */
  lemma ServerIsTransparent(cfg: Config, es: seq<Event>, a: Slot, x: Input, late: bool, fs: seq<Event>, data: Bytes, id: Octets16)
    requires ValidRange(cfg.range) && a in After(cfg, es).clients && x.m.cls == REQUEST && x.m.verb == CHANNEL_BIND
    requires Step(cfg, After(cfg, es), Arrive(a, x, late)).1 == Agreed
    requires HeldSince(cfg, es + [Arrive(a, x, late)] + fs, a, |es| + 1)
    requires Seconds(After(cfg, es + [Arrive(a, x, late)] + fs)) <= Seconds(After(cfg, es)) + PERMISSION_LIFETIME
    ensures x.m.peers != []
    ensures a in After(cfg, es + [Arrive(a, x, late)] + fs).clients
    ensures var s := After(cfg, es + [Arrive(a, x, late)] + fs);
            var peer, channel := x.m.peers[0], Num(x.m, CHANNEL_NUMBER);
            && Step(cfg, s, RelayOp(a, ClientOnChannel(channel, ChannelFrame(channel, data) + data))).2 == ToPeer(peer, data)
            && Step(cfg, s, RelayOp(a, PeerData(peer, data, id))).2 == OnChannel(channel, data)
  {
    hide After, Step, Sound, History, Bound, BoundWithin, GrantedWithin, Num, Parse, DataIndication;
    var first := es + [Arrive(a, x, late)];
    var all := first + fs;
    HeldEnds(cfg, first, fs, a);
    BindEventIsBound(cfg, es, a, x, late);
    HistoryGrows(cfg, first, fs, a);
    var j := |History(cfg, es, a)|;
    var ops := History(cfg, all, a);
    var peer, channel := x.m.peers[0], Num(x.m, CHANNEL_NUMBER);
    HistoryIsMonotone(cfg, all, a);
    assert ops[..|History(cfg, first, a)|] == History(cfg, first, a);
    BoundInPrefix(ops, |History(cfg, first, a)|, j, peer, channel, Seconds(After(cfg, all)), cfg.crypto);
    var frame := ChannelFrame(channel, data) + data;
    assert Unframed(frame) == data;
    ServerChannelDataCrosses(cfg, all, a, peer, channel, frame);
    ServerPeerDataCrosses(cfg, all, a, peer, data, id);
  }

  lemma HeldEnds(cfg: Config, first: seq<Event>, fs: seq<Event>, a: Slot)
    requires ValidRange(cfg.range) && HeldSince(cfg, first + fs, a, |first|)
    ensures a in After(cfg, first).clients && a in After(cfg, first + fs).clients
  {
    hide After;
    assert (first + fs)[..|first|] == first && (first + fs)[..|first + fs|] == first + fs;
  }

  lemma BoundInPrefix(ops: seq<Timed>, n: nat, j: nat, peer: Address, channel: nat, now: nat, k: Crypto)
    requires j < n <= |ops| && Bound(ops[..n], j, peer, channel, k)
    requires ops[j].at <= now <= ops[j].at + PERMISSION_LIFETIME
    ensures BoundWithin(ops, peer, channel, now, k) && GrantedWithin(ops, HostOf(peer), now, k)
  {
    PrefixGrants(ops, n, k);
    assert Bound(ops, j, peer, channel, k) && Granted(ops, j, HostOf(peer), k);
  }
}
