/** The whole TURN server as a state machine: one relay port pool, allocations in any number of allocation managers,
    and the timer callbacks that expire them, run in any order and arbitrarily late. Time is in milliseconds;
    time(0) sees whole seconds of it. */
module TurnServer {
  import opened Wire
  import opened Stun
  import opened Channels
  import opened Allocation
  import opened TurnPorts
  import opened TurnHandler

  /** An allocation manager and a key in it. */
  datatype Slot = Slot(manager: nat, key: Key)

  /** A call of allocationExpired that the timer service still owes. */
  datatype Callback = Callback(slot: Slot, due: nat)

  /** own: the callback of each live allocation's timer. leaked: ports of requests that ended in a 500. */
  datatype Server = Server(pool: Pool, clients: map<Slot, Client>, own: map<Slot, nat>, pending: map<nat, Callback>,
                           nextId: nat, now: nat, leaked: set<nat>)

  /** late: the cancelled timer had run out and its callback was already queued, so that it runs all the same. */
  datatype Event =
    | Tick(ms: nat)
    | Arrive(slot: Slot, x: Input, late: bool)
    | RelayOp(slot: Slot, op: Op)
    | Fire(id: nat, late: bool)
    | SocketGone(slot: Slot, late: bool)

  function Start(cfg: Config): Server
    requires ValidRange(cfg.range)
  {
    Server(Fresh(cfg.range), map[], map[], map[], 0, 0, {})
  }

  function Seconds(s: Server): nat {
    s.now / 1000
  }

  function ClientAt(s: Server, a: Slot): Option<Client> {
    if a in s.clients then Some(s.clients[a]) else None
  }

  // ---------------------------------------------------------------- timers

  /** Cancelling a timer drops its callback, unless that is queued already. */
  function Cancel(s: Server, a: Slot, late: bool): Server {
    if a !in s.own then s
    else
      var id := s.own[a];
      s.(own := s.own - {a},
         pending := if late && id in s.pending && s.pending[id].due <= s.now then s.pending else s.pending - {id})
  }

  /** A timer set for so many seconds from now. */
  function Arm(s: Server, a: Slot, lifetime: nat): Server {
    s.(own := s.own[a := s.nextId], pending := s.pending[s.nextId := Callback(a, s.now + 1000 * lifetime)], nextId := s.nextId + 1)
  }

  /** The timer of an allocation that never came up: cancelled after a failed bind, left running after an exception. */
  function Orphan(s: Server, a: Slot, lifetime: nat, start: Start): Server {
    if start == Threw
    then s.(pending := s.pending[s.nextId := Callback(a, s.now + 1000 * lifetime)], nextId := s.nextId + 1) else s
  }

  // ---------------------------------------------------------------- steps

  /** The destructor's part: port, timer, map entry. */
  function Remove(cfg: Config, s: Server, a: Slot, late: bool): Server
    requires a in s.clients
  {
    Cancel(s, a, late).(clients := s.clients - {a}, pool := Release(cfg.range, s.pool, s.clients[a].port))
  }

  function Settle(s: Server, a: Slot, e: Effect, start: Start, late: bool): Server {
    match e.client
    case None =>
      var s' := Cancel(s, a, late).(pool := e.pool, clients := s.clients - {a});
      if e.leaked.Some? && e.granted.Some?
      then Orphan(s'.(leaked := s.leaked + {e.leaked.value}), a, e.granted.value, start) else s'
    case Some(c) =>
      var s' := s.(pool := e.pool, clients := s.clients[a := c]);
      if e.granted.Some? then Arm(Cancel(s', a, late), a, e.granted.value) else s'
  }

  /** The server after an event, what it replied, and what it relayed. Callbacks that are not due do not run. */
  ghost function Step(cfg: Config, s: Server, e: Event): (Server, Reply, Outcome)
    requires Sound(cfg, s)
  {
    SoundPool(cfg, s);
    match e
    case Tick(ms) => (s.(now := s.now + ms), Silent, Dropped)
    case Arrive(a, x, late) =>
      var f := Process(cfg, s.pool, ClientAt(s, a), a.key, x, Seconds(s));
      (Settle(s, a, f, x.start, late), f.reply, f.out)
    case RelayOp(a, op) =>
      if a !in s.clients || op.Permit? || op.BindChannel? then (s, Silent, Dropped)
      else
        var (out, c) := Relayed(cfg, s.clients[a], op, Seconds(s));
        (s.(clients := s.clients[a := c]), Silent, out)
    case Fire(id, late) =>
      if id !in s.pending || s.pending[id].due > s.now then (s, Silent, Dropped)
      else
        var a := s.pending[id].slot;
        var s' := s.(pending := s.pending - {id});
        if a in s'.clients && Seconds(s) >= s'.clients[a].expires then (Remove(cfg, s', a, late), Silent, Dropped)
        else (s', Silent, Dropped)
    case SocketGone(a, late) =>
      if a in s.clients then (Remove(cfg, s, a, late), Silent, Dropped) else (s, Silent, Dropped)
  }

  // ---------------------------------------------------------------- the invariant

  ghost predicate PortsDistinct(s: Server) {
    forall a, b :: a in s.clients && b in s.clients && s.clients[a].port == s.clients[b].port ==> a == b
  }

  ghost predicate OwnedBy(s: Server, p: nat, a: Slot) {
    a in s.clients && s.clients[a].port == p
  }

  /** The ports in use are exactly the live allocations' and the leaked ones, and no port is both. */
  ghost predicate PortsOwned(s: Server) {
    && (forall a :: a in s.clients ==> InUse(s.pool, s.clients[a].port) && s.clients[a].port !in s.leaked)
    && (forall p :: p in s.leaked ==> InUse(s.pool, p))
    && (forall p: nat :: InUse(s.pool, p) ==> p in s.leaked || exists a :: OwnedBy(s, p, a))
  }

  /** Every live allocation has a callback of its own pending, due when its lifetime, to the millisecond, ends. */
  ghost predicate HasTimer(s: Server, a: Slot) {
    && a in s.clients && a in s.own && s.own[a] in s.pending
    && s.pending[s.own[a]].slot == a
    && 1000 * s.clients[a].expires <= s.pending[s.own[a]].due < 1000 * s.clients[a].expires + 1000
  }

  ghost predicate TimersOwned(s: Server) {
    && s.own.Keys == s.clients.Keys
    && (forall a :: a in s.clients ==> HasTimer(s, a))
    && forall i :: i in s.pending ==> i < s.nextId
  }

  ghost predicate Sound(cfg: Config, s: Server) {
    Healthy(cfg, s.pool) && PortsDistinct(s) && PortsOwned(s) && TimersOwned(s)
  }

  lemma StartSound(cfg: Config)
    requires ValidRange(cfg.range)
    ensures Sound(cfg, Start(cfg))
  {
  }

  // ---------------------------------------------------------------- every step keeps it

  lemma CancelTimers(s: Server, a: Slot, late: bool, b: Slot)
    requires TimersOwned(s) && b != a && b in s.clients
    ensures HasTimer(Cancel(s, a, late), b)
  {
    assert HasTimer(s, b);
    if a in s.clients {
      assert HasTimer(s, a);
    }
  }

  lemma RemovePorts(cfg: Config, s: Server, s': Server, a: Slot)
    requires PortsDistinct(s) && PortsOwned(s) && a in s.clients
    requires s'.clients == s.clients - {a} && s'.leaked == s.leaked && Loses(s.pool, s'.pool, s.clients[a].port)
    ensures PortsDistinct(s') && PortsOwned(s')
  {
    forall p: nat | InUse(s'.pool, p) && p !in s'.leaked ensures exists b :: OwnedBy(s', p, b) {
      assert InUse(s.pool, p);
      var b :| OwnedBy(s, p, b);
      assert OwnedBy(s', p, b);
    }
  }

  lemma AddPorts(s: Server, s': Server, a: Slot, c: Client)
    requires PortsDistinct(s) && PortsOwned(s) && a !in s.clients
    requires s'.clients == s.clients[a := c] && s'.leaked == s.leaked && Gains(s.pool, s'.pool, c.port)
    ensures PortsDistinct(s') && PortsOwned(s')
  {
    assert OwnedBy(s', c.port, a);
    forall p: nat | InUse(s'.pool, p) && p !in s'.leaked ensures exists b :: OwnedBy(s', p, b) {
      if p != c.port {
        assert InUse(s.pool, p);
        var b :| OwnedBy(s, p, b);
        assert OwnedBy(s', p, b);
      }
    }
  }

  lemma LeakPorts(s: Server, s': Server, p0: nat)
    requires PortsDistinct(s) && PortsOwned(s)
    requires s'.clients == s.clients && s'.leaked == s.leaked + {p0} && Gains(s.pool, s'.pool, p0)
    ensures PortsDistinct(s') && PortsOwned(s')
  {
    forall p: nat | InUse(s'.pool, p) && p !in s'.leaked ensures exists b :: OwnedBy(s', p, b) {
      assert InUse(s.pool, p);
      var b :| OwnedBy(s, p, b);
      assert OwnedBy(s', p, b);
    }
  }

  lemma KeepPorts(s: Server, s': Server)
    requires PortsDistinct(s) && PortsOwned(s)
    requires s'.clients.Keys == s.clients.Keys && s'.leaked == s.leaked && s'.pool.ports == s.pool.ports
    requires forall a :: a in s.clients ==> s'.clients[a].port == s.clients[a].port
    ensures PortsDistinct(s') && PortsOwned(s')
  {
    forall p: nat ensures InUse(s'.pool, p) == InUse(s.pool, p) {
    }
    forall p: nat | InUse(s'.pool, p) && p !in s'.leaked ensures exists b :: OwnedBy(s', p, b) {
      assert InUse(s.pool, p);
      var b :| OwnedBy(s, p, b);
      assert OwnedBy(s', p, b);
    }
  }

  lemma RemoveTimers(s: Server, a: Slot, late: bool, s': Server)
    requires TimersOwned(s)
    requires s'.clients == s.clients - {a} && s'.own == Cancel(s, a, late).own && s'.pending == Cancel(s, a, late).pending
    requires s'.nextId == s.nextId
    ensures TimersOwned(s')
  {
    forall b | b in s'.clients ensures HasTimer(s', b) {
      CancelTimers(s, a, late, b);
    }
  }

  lemma ArmTimers(s: Server, a: Slot, late: bool, lifetime: nat, c: Client, s': Server)
    requires TimersOwned(s) && c.expires == Seconds(s) + lifetime
    requires s'.clients == s.clients[a := c]
    requires var t := Arm(Cancel(s, a, late), a, lifetime);
             s'.own == t.own && s'.pending == t.pending && s'.nextId == t.nextId
    ensures TimersOwned(s') && s'.pending[s'.own[a]].due == s.now + 1000 * lifetime
  {
    assert 1000 * Seconds(s) <= s.now < 1000 * Seconds(s) + 1000;
    forall b | b in s'.clients ensures HasTimer(s', b) {
      if b != a {
        CancelTimers(s, a, late, b);
      }
    }
  }

  lemma KeepTimers(s: Server, s': Server)
    requires TimersOwned(s)
    requires s'.clients.Keys == s.clients.Keys && s'.own == s.own && s'.pending == s.pending && s'.nextId == s.nextId
    requires forall a :: a in s.clients ==> s'.clients[a].expires == s.clients[a].expires
    ensures TimersOwned(s')
  {
    forall b | b in s'.clients ensures HasTimer(s', b) {
      assert HasTimer(s, b);
    }
  }

  lemma OrphanTimers(s: Server, a: Slot, lifetime: nat, start: Start)
    requires TimersOwned(s)
    ensures TimersOwned(Orphan(s, a, lifetime, start))
  {
    forall b | b in s.clients ensures HasTimer(Orphan(s, a, lifetime, start), b) {
      assert HasTimer(s, b);
    }
  }

  /** A callback that is nobody's own goes. */
  lemma DropTimer(s: Server, id: nat)
    requires TimersOwned(s) && forall a :: a in s.own ==> s.own[a] != id
    ensures TimersOwned(s.(pending := s.pending - {id}))
  {
    var s' := s.(pending := s.pending - {id});
    forall b | b in s.clients ensures HasTimer(s', b) {
      assert HasTimer(s, b);
    }
  }

  lemma RemoveSound(cfg: Config, s: Server, a: Slot, late: bool)
    requires Sound(cfg, s) && a in s.clients
    ensures Sound(cfg, Remove(cfg, s, a, late))
  {
    ReleaseKeeps(cfg, s.pool, s.clients[a].port);
    RemovePorts(cfg, s, Remove(cfg, s, a, late), a);
    RemoveTimers(s, a, late, Remove(cfg, s, a, late));
    hide Healthy, PortsDistinct, PortsOwned, TimersOwned, Release;
  }

  lemma SettleGone(cfg: Config, s: Server, a: Slot, e: Effect, start: Start, late: bool)
    requires Sound(cfg, s) && a in s.clients && e.client == None && Accounts(cfg, s.pool, ClientAt(s, a), e, Seconds(s))
    ensures Sound(cfg, Settle(s, a, e, start, late))
  {
    hide Healthy, PortsDistinct, PortsOwned, TimersOwned, Gains, Loses;
    var s' := Settle(s, a, e, start, late);
    RemovePorts(cfg, s, s', a);
    RemoveTimers(s, a, late, s');
  }

  lemma SettleNothing(cfg: Config, s: Server, a: Slot, e: Effect, start: Start, late: bool)
    requires Sound(cfg, s) && a !in s.clients && e.client == None && Accounts(cfg, s.pool, ClientAt(s, a), e, Seconds(s))
    ensures Sound(cfg, Settle(s, a, e, start, late))
  {
    hide Healthy, PortsDistinct, PortsOwned, TimersOwned, Gains, Loses;
    var s' := Settle(s, a, e, start, late);
    assert s.clients - {a} == s.clients;
    assert a !in s.own by { OwnKeys(s); }
    if e.leaked.Some? {
      LeakPorts(s, s', e.leaked.value);
      var t := s.(pool := e.pool, leaked := s.leaked + {e.leaked.value});
      KeepTimers(s, t);
      OrphanTimers(t, a, e.granted.value, start);
    } else {
      KeepPorts(s, s');
      KeepTimers(s, s');
    }
  }

  lemma SettleClientPorts(cfg: Config, s: Server, a: Slot, e: Effect, start: Start, late: bool)
    requires Sound(cfg, s) && e.client.Some? && Accounts(cfg, s.pool, ClientAt(s, a), e, Seconds(s))
    ensures PortsDistinct(Settle(s, a, e, start, late)) && PortsOwned(Settle(s, a, e, start, late))
  {
    hide Healthy, PortsDistinct, PortsOwned, TimersOwned, Gains, Loses;
    var s' := Settle(s, a, e, start, late);
    var c := e.client.value;
    assert s'.clients == s.clients[a := c] && s'.leaked == s.leaked && s'.pool == e.pool;
    hide Settle;
    if a in s.clients {
      assert s.clients[a := c].Keys == s.clients.Keys;
      KeepPorts(s, s');
    } else {
      AddPorts(s, s', a, c);
    }
  }

  lemma SettleClientTimers(cfg: Config, s: Server, a: Slot, e: Effect, start: Start, late: bool)
    requires Sound(cfg, s) && e.client.Some? && Accounts(cfg, s.pool, ClientAt(s, a), e, Seconds(s))
    ensures TimersOwned(Settle(s, a, e, start, late))
  {
    hide Healthy, PortsDistinct, PortsOwned, TimersOwned, Gains, Loses;
    var s' := Settle(s, a, e, start, late);
    var c := e.client.value;
    if e.granted.Some? {
      ArmTimers(s, a, late, e.granted.value, c, s');
    } else {
      assert s.clients[a := c].Keys == s.clients.Keys;
      KeepTimers(s, s');
    }
  }

  lemma SettleClient(cfg: Config, s: Server, a: Slot, e: Effect, start: Start, late: bool)
    requires Sound(cfg, s) && e.client.Some? && Accounts(cfg, s.pool, ClientAt(s, a), e, Seconds(s))
    ensures Sound(cfg, Settle(s, a, e, start, late))
  {
    hide Healthy, PortsDistinct, PortsOwned, TimersOwned, Gains, Loses;
    SettleClientPorts(cfg, s, a, e, start, late);
    SettleClientTimers(cfg, s, a, e, start, late);
  }

  lemma SettleSound(cfg: Config, s: Server, a: Slot, e: Effect, start: Start, late: bool)
    requires Sound(cfg, s) && Accounts(cfg, s.pool, ClientAt(s, a), e, Seconds(s))
    ensures Sound(cfg, Settle(s, a, e, start, late))
  {
    hide Sound, Accounts, Settle;
    if e.client.Some? {
      SettleClient(cfg, s, a, e, start, late);
    } else if a in s.clients {
      SettleGone(cfg, s, a, e, start, late);
    } else {
      SettleNothing(cfg, s, a, e, start, late);
    }
  }

  lemma OwnKeys(s: Server)
    requires TimersOwned(s)
    ensures s.own.Keys == s.clients.Keys
  {
  }

  lemma FireSound(cfg: Config, s: Server, id: nat, late: bool)
    requires Sound(cfg, s)
    ensures Sound(cfg, Step(cfg, s, Fire(id, late)).0)
  {
    hide Healthy, PortsDistinct, PortsOwned;
    if id in s.pending && s.pending[id].due <= s.now {
      var a := s.pending[id].slot;
      var s' := s.(pending := s.pending - {id});
      KeepPorts(s, s');
      if a in s.own && s.own[a] == id {
        OwnCallbackRemoves(s, a, id);
        ReleaseKeeps(cfg, s.pool, s.clients[a].port) by { ClientPort(s, a); }
        var r := Remove(cfg, s', a, late);
        assert r.pending == s.pending - {id} == Cancel(s, a, false).pending;
        RemovePorts(cfg, s, r, a);
        RemoveTimers(s, a, false, r);
      } else {
        forall b | b in s.own ensures s.own[b] != id {
          assert HasTimer(s, b);
        }
        DropTimer(s, id);
        if a in s.clients {
          RemoveSound(cfg, s', a, late);
        }
      }
    }
  }

  lemma ClientPort(s: Server, a: Slot)
    requires PortsOwned(s) && a in s.clients
    ensures InUse(s.pool, s.clients[a].port)
  {
  }

  /** An allocation's own callback, once due, always finds the allocation past its expiry. */
  lemma OwnCallbackRemoves(s: Server, a: Slot, id: nat)
    requires TimersOwned(s) && a in s.own && s.own[a] == id && id in s.pending && s.pending[id].due <= s.now
    ensures a in s.clients && Seconds(s) >= s.clients[a].expires && s.pending[id].slot == a
  {
    assert HasTimer(s, a);
  }

  lemma TickSound(cfg: Config, s: Server, ms: nat)
    requires Sound(cfg, s)
    ensures Sound(cfg, s.(now := s.now + ms))
  {
    KeepPorts(s, s.(now := s.now + ms));
    KeepTimers(s, s.(now := s.now + ms));
  }

  lemma ArriveSound(cfg: Config, s: Server, a: Slot, x: Input, late: bool)
    requires Sound(cfg, s)
    ensures Sound(cfg, Step(cfg, s, Arrive(a, x, late)).0)
  {
    assert a in s.clients ==> InUse(s.pool, s.clients[a].port);
    ProcessAccounts(cfg, s.pool, ClientAt(s, a), a.key, x, Seconds(s));
    assert ValidPool(cfg.range, s.pool);
    hide Process, Accounts, Sound, Settle, InUse;
    SettleSound(cfg, s, a, Process(cfg, s.pool, ClientAt(s, a), a.key, x, Seconds(s)), x.start, late);
  }

  lemma RelaySound(cfg: Config, s: Server, a: Slot, op: Op)
    requires Sound(cfg, s)
    ensures Sound(cfg, Step(cfg, s, RelayOp(a, op)).0)
  {
    if a in s.clients {
      var c := Relayed(cfg, s.clients[a], op, Seconds(s)).1;
      var s' := s.(clients := s.clients[a := c]);
      assert c.port == s.clients[a].port && c.expires == s.clients[a].expires;
      assert s'.clients.Keys == s.clients.Keys;
      hide Relayed, Healthy, PortsDistinct, PortsOwned, TimersOwned;
      KeepPorts(s, s');
      KeepTimers(s, s');
    }
  }

  lemma GoneSound(cfg: Config, s: Server, a: Slot, late: bool)
    requires Sound(cfg, s)
    ensures Sound(cfg, Step(cfg, s, SocketGone(a, late)).0)
  {
    SoundPool(cfg, s);
    hide Sound, Remove;
    if a in s.clients {
      RemoveSound(cfg, s, a, late);
    }
  }

  /** Everything an event can do keeps the invariant. */
  lemma StepSound(cfg: Config, s: Server, e: Event)
    requires Sound(cfg, s)
    ensures Sound(cfg, Step(cfg, s, e).0)
  {
    SoundPool(cfg, s);
    hide Sound, Process, Relayed, Remove, Settle, Release, ValidPool;
    match e
    case Tick(ms) => TickSound(cfg, s, ms);
    case Arrive(a, x, late) => ArriveSound(cfg, s, a, x, late);
    case RelayOp(a, op) => RelaySound(cfg, s, a, op);
    case Fire(id, late) => FireSound(cfg, s, id, late);
    case SocketGone(a, late) => GoneSound(cfg, s, a, late);
  }

  lemma SoundPool(cfg: Config, s: Server)
    requires Sound(cfg, s)
    ensures ValidPool(cfg.range, s.pool)
  {
  }

  // ---------------------------------------------------------------- runs

  /** The server after any sequence of events from the start. */
  ghost function After(cfg: Config, es: seq<Event>): (s: Server)
    requires ValidRange(cfg.range)
    ensures Sound(cfg, s)
  {
    if es == [] then StartSound(cfg); Start(cfg)
    else
      var s := After(cfg, es[..|es| - 1]);
      StepSound(cfg, s, es[|es| - 1]);
      Step(cfg, s, es[|es| - 1]).0
  }
}
