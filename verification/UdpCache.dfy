/** UdpServer's response cache: a request whose transaction is cached is answered from the cache, and each cached
    response is dropped by a clean-up timer of its own, ten seconds after it was stored. */
module UdpCache {
  import opened Wire
  import opened Stun
  import opened StunCodec
  import opened StunTheorems
  import opened StunBuffer
  import opened StunChecks
  import opened Allocation
  import opened TurnHandler
  import TurnPorts
  import opened TurnServer
  import opened TurnTheorems
  import opened TurnRequests

  type Tid = Octets16

  const CACHE_MS := 10000

  /** A response as handlers leave it: message, integrity key, and when it was stored. */
  datatype Entry = Entry(msg: Message, key: Bytes, at: nat)

  /** A call of cleanupResponseMap that the timer service still owes. */
  datatype Cleanup = Cleanup(tid: Tid, due: nat)

  datatype Cache = Cache(server: Server, entries: map<Tid, Entry>, cleanups: map<nat, Cleanup>, nextId: nat)

  /** How the handlers word a reply: the response message and the key its integrity is computed under. */
  type Wording = Reply -> (Message, Bytes)

  datatype CacheEvent =
    | Datagram(slot: Slot, tid: Tid, x: Input, late: bool, wording: Wording)
    | CleanupFires(id: nat)
    | Elsewhere(e: Event)

  function Printed(e: Entry, k: Crypto): Option<Bytes> {
    if WellTyped(e.msg) then Some(Encode(e.msg, e.key, [], k.hmac, k.crc)) else None
  }

  function Worded(wording: Wording, reply: Reply, now: nat): Entry {
    Entry(wording(reply).0, wording(reply).1, now)
  }

  ghost function StepCache(cfg: Config, c: Cache, e: CacheEvent): (Cache, Option<Bytes>)
    requires Sound(cfg, c.server)
  {
    match e
    case Datagram(a, tid, x, late, wording) =>
      if tid in c.entries then (c, Printed(c.entries[tid], cfg.crypto))
      else
        var (s, reply, _) := Step(cfg, c.server, Arrive(a, x, late));
        if reply == Silent then (c.(server := s), None)
        else
          var entry := Worded(wording, reply, s.now);
          (Cache(s, c.entries[tid := entry], c.cleanups[c.nextId := Cleanup(tid, s.now + CACHE_MS)], c.nextId + 1),
           Printed(entry, cfg.crypto))
    case CleanupFires(id) =>
      if id !in c.cleanups || c.cleanups[id].due > c.server.now then (c, None)
      else (c.(cleanups := c.cleanups - {id}, entries := c.entries - {c.cleanups[id].tid}), None)
    case Elsewhere(f) => (c.(server := Step(cfg, c.server, f).0), None)
  }

  /** Clean-up id is the one that will drop transaction tid. */
  ghost predicate CleansUp(c: Cache, id: nat, tid: Tid) {
    id in c.cleanups && c.cleanups[id].tid == tid
  }

  /** Every cached response has exactly one clean-up pending, due ten seconds after it was stored, and no clean-up
      is pending for anything else. */
  ghost predicate OneCleanupEach(c: Cache) {
    && (forall tid :: tid in c.entries ==> exists id :: CleansUp(c, id, tid))
    && (forall i, j, tid :: CleansUp(c, i, tid) && CleansUp(c, j, tid) ==> i == j)
    && (forall i: nat, tid :: CleansUp(c, i, tid) ==>
          i < c.nextId && tid in c.entries && c.cleanups[i].due == c.entries[tid].at + CACHE_MS)
  }

  ghost predicate SoundCache(cfg: Config, c: Cache) {
    Sound(cfg, c.server) && OneCleanupEach(c)
  }

  lemma AddKeeps(c: Cache, tid: Tid, entry: Entry, c': Cache)
    requires OneCleanupEach(c) && tid !in c.entries
    requires c'.entries == c.entries[tid := entry] && c'.nextId == c.nextId + 1
    requires c'.cleanups == c.cleanups[c.nextId := Cleanup(tid, entry.at + CACHE_MS)]
    ensures OneCleanupEach(c')
  {
    assert forall i, t :: CleansUp(c', i, t) ==> (i == c.nextId && t == tid) || CleansUp(c, i, t);
    forall t | t in c'.entries ensures exists id :: CleansUp(c', id, t) {
      if t == tid {
        assert CleansUp(c', c.nextId, t);
      } else {
        var id :| CleansUp(c, id, t);
        assert CleansUp(c', id, t);
      }
    }
  }

  lemma DropKeeps(c: Cache, id: nat)
    requires OneCleanupEach(c) && id in c.cleanups
    ensures OneCleanupEach(c.(cleanups := c.cleanups - {id}, entries := c.entries - {c.cleanups[id].tid}))
  {
    var c' := c.(cleanups := c.cleanups - {id}, entries := c.entries - {c.cleanups[id].tid});
    assert CleansUp(c, id, c.cleanups[id].tid);
    assert forall i, t :: CleansUp(c', i, t) ==> CleansUp(c, i, t) && i != id;
    forall t | t in c'.entries ensures exists i :: CleansUp(c', i, t) {
      var i :| CleansUp(c, i, t);
      assert CleansUp(c', i, t);
    }
  }

  lemma OtherKeeps(c: Cache, s: Server)
    requires OneCleanupEach(c)
    ensures OneCleanupEach(c.(server := s))
  {
    var c' := c.(server := s);
    assert forall i, t :: CleansUp(c', i, t) <==> CleansUp(c, i, t);
    forall t | t in c'.entries ensures exists i :: CleansUp(c', i, t) {
      var i :| CleansUp(c, i, t);
      assert CleansUp(c', i, t);
    }
  }

  lemma StepCacheSound(cfg: Config, c: Cache, e: CacheEvent)
    requires SoundCache(cfg, c)
    ensures SoundCache(cfg, StepCache(cfg, c, e).0)
  {
    hide Sound, Step, OneCleanupEach, Printed;
    match e
    case Datagram(a, tid, x, late, wording) =>
      if tid !in c.entries {
        StepSound(cfg, c.server, Arrive(a, x, late));
        var (s, reply, _) := Step(cfg, c.server, Arrive(a, x, late));
        OtherKeeps(c, s);
        if reply != Silent {
          AddKeeps(c, tid, Worded(wording, reply, s.now), StepCache(cfg, c, e).0);
        }
      }
    case CleanupFires(id) =>
      if id in c.cleanups {
        DropKeeps(c, id);
      }
    case Elsewhere(f) =>
      StepSound(cfg, c.server, f);
      OtherKeeps(c, Step(cfg, c.server, f).0);
  }

  // ---------------------------------------------------------------- runs

  function StartCache(s: Server): Cache {
    Cache(s, map[], map[], 0)
  }

  lemma StartCacheSound(cfg: Config, s: Server)
    requires Sound(cfg, s)
    ensures SoundCache(cfg, StartCache(s))
  {
  }

  ghost function RunCache(cfg: Config, c: Cache, es: seq<CacheEvent>): (c': Cache)
    requires SoundCache(cfg, c)
    ensures SoundCache(cfg, c')
    decreases |es|
  {
    if es == [] then c
    else
      var c' := RunCache(cfg, c, es[..|es| - 1]);
      StepCacheSound(cfg, c', es[|es| - 1]);
      StepCache(cfg, c', es[|es| - 1]).0
  }

  lemma StepCacheTime(cfg: Config, c: Cache, e: CacheEvent)
    requires SoundCache(cfg, c)
    ensures c.server.now <= StepCache(cfg, c, e).0.server.now
  {
    hide Sound, Step, OneCleanupEach, Printed;
    match e
    case Datagram(a, tid, x, late, _) => StepTime(cfg, c.server, Arrive(a, x, late));
    case CleanupFires(id) =>
    case Elsewhere(f) => StepTime(cfg, c.server, f);
  }

  lemma StepHolds(cfg: Config, c: Cache, e: CacheEvent, tid: Tid)
    requires SoundCache(cfg, c) && tid in c.entries && c.server.now < c.entries[tid].at + CACHE_MS
    ensures tid in StepCache(cfg, c, e).0.entries && StepCache(cfg, c, e).0.entries[tid] == c.entries[tid]
  {
    hide Sound, Step, Printed;
    if e.CleanupFires? && e.id in c.cleanups {
      assert CleansUp(c, e.id, c.cleanups[e.id].tid);
    }
  }

  /** Nothing evicts a response, nor replaces it, before its ten seconds are over. */
  lemma {:induction false} CachedForTenSeconds(cfg: Config, c: Cache, es: seq<CacheEvent>, tid: Tid)
    requires SoundCache(cfg, c) && tid in c.entries
    requires RunCache(cfg, c, es).server.now < c.entries[tid].at + CACHE_MS
    ensures c.server.now <= RunCache(cfg, c, es).server.now
    ensures tid in RunCache(cfg, c, es).entries && RunCache(cfg, c, es).entries[tid] == c.entries[tid]
  {
    hide SoundCache, StepCache;
    if es != [] {
      var n := |es| - 1;
      var c' := RunCache(cfg, c, es[..n]);
      StepCacheTime(cfg, c', es[n]);
      CachedForTenSeconds(cfg, c, es[..n], tid);
      StepHolds(cfg, c', es[n], tid);
    }
  }

  /** Once every due clean-up has run, no response older than ten seconds is left. */
  lemma NothingStale(cfg: Config, c: Cache, tid: Tid)
    requires SoundCache(cfg, c) && tid in c.entries
    requires forall id :: id in c.cleanups ==> c.cleanups[id].due > c.server.now
    ensures c.server.now < c.entries[tid].at + CACHE_MS
  {
    hide Sound;
    var id :| CleansUp(c, id, tid);
  }

  /** A first request that gets a reply is answered with it and remembered; whatever happens in the next ten seconds, a
      retransmission then leaves ports, allocations, permissions, bindings and timers exactly as they are, and gets the
      same octets. */
  lemma RetransmissionIsIdempotent(cfg: Config, c: Cache, a: Slot, tid: Tid, x: Input, late: bool, wording: Wording,
                                   es: seq<CacheEvent>, a': Slot, x': Input, late': bool, wording': Wording)
    requires SoundCache(cfg, c) && tid !in c.entries
    requires Step(cfg, c.server, Arrive(a, x, late)).1 != Silent
    ensures var (s, reply, _) := Step(cfg, c.server, Arrive(a, x, late));
            var first := StepCache(cfg, c, Datagram(a, tid, x, late, wording));
            && SoundCache(cfg, first.0) && first.0.server == s && first.1 == Printed(Worded(wording, reply, s.now), cfg.crypto)
            && var later := RunCache(cfg, first.0, es);
               later.server.now < s.now + CACHE_MS ==>
                 StepCache(cfg, later, Datagram(a', tid, x', late', wording')) == (later, first.1)
  {
    var first := StepCache(cfg, c, Datagram(a, tid, x, late, wording));
    StepCacheSound(cfg, c, Datagram(a, tid, x, late, wording));
    hide SoundCache, Sound, Step, Printed;
    var later := RunCache(cfg, first.0, es);
    if later.server.now < first.0.server.now + CACHE_MS {
      CachedForTenSeconds(cfg, first.0, es, tid);
    }
  }

  /** What is sent is the reply as the handlers worded it: a client reads that message back, and the integrity it carries
      is the one under the key they gave, refused under every other key whose HMAC of it differs. */
  lemma SentIsTheReply(wording: Wording, reply: Reply, now: nat, other: Bytes, k: Crypto)
    requires var (m, _) := wording(reply); WellTyped(m) && BodyLength(m, []) < 0x1_0000 && ReasonFits(m)
    ensures var (m, key) := wording(reply);
            var sent := Printed(Worded(wording, reply, now), k);
            && sent.Some? && Parse(sent.value).Some? && |sent.value| >= 20
            && var (buf, p) := (sent.value, Parse(sent.value).value);
            && p.msg == Received(m, Mac(m, key, [], k.hmac), Checksum(m, key, [], k.hmac, k.crc))
            && FingerprintHolds(p, buf, k.crc)
            && (MESSAGE_INTEGRITY in m.fields ==>
                  && MESSAGE_INTEGRITY in p.msg.fields && p.msg.fields[MESSAGE_INTEGRITY].Text?
                  && 24 <= p.integrityLength <= |buf| - 20
                  && IntegrityHolds(p, buf, key, k.hmac)
                  && var covered := Header(m, IntegrityEnd(m, [])) + Attributes(m, []);
                  (IntegrityHolds(p, buf, other, k.hmac) <==> k.hmac(other, covered) == k.hmac(key, covered)))
  {
    hide WellTyped, Parse, Attributes, Header, Encode, BodyLength, IntegrityEnd, Checksum, ReasonFits, Mac, IntegrityHolds, FingerprintHolds;
    var (m, key) := wording(reply);
    RoundTrip(m, key, [], k.hmac, k.crc);
    SelfVerification(m, key, [], k.hmac, k.crc);
    if MESSAGE_INTEGRITY in m.fields {
      OtherKeyHoldsExactlyWhen(m, key, other, k.hmac, k.crc);
    }
  }

  /** The server in front of which nothing has arrived yet, and what any events make of it. */
  ghost function AfterCache(cfg: Config, es: seq<CacheEvent>): (c: Cache)
    requires TurnPorts.ValidRange(cfg.range)
    ensures SoundCache(cfg, c)
  {
    StartCacheSound(cfg, After(cfg, []));
    RunCache(cfg, StartCache(After(cfg, [])), es)
  }

  /** In every reachable state each cached response has exactly one clean-up pending, due ten seconds after it was
      stored, and no clean-up is pending for anything else; and once the due ones have run, no response is older. */
  lemma EveryResponseHasItsCleanup(cfg: Config, es: seq<CacheEvent>, tid: Tid)
    requires TurnPorts.ValidRange(cfg.range)
    ensures var c := AfterCache(cfg, es);
            && OneCleanupEach(c)
            && (tid in c.entries && (forall id :: id in c.cleanups ==> c.cleanups[id].due > c.server.now) ==>
                  c.server.now < c.entries[tid].at + CACHE_MS)
  {
    var c := AfterCache(cfg, es);
    hide Sound, AfterCache, OneCleanupEach;
    if tid in c.entries && forall id :: id in c.cleanups ==> c.cleanups[id].due > c.server.now {
      NothingStale(cfg, c, tid);
    }
  }

  // ---------------------------------------------------------------- the server as it runs

  class UdpServer {
    const manager: TurnAllocationManager
    var responses: map<Tid, Entry>

    constructor (m: TurnAllocationManager)
      ensures manager == m && responses == map[]
    {
      manager, responses := m, map[];
    }

    /** What a message for a key of this server's does: the effect specified, on ports and on that one client. */
    ghost function Effected(key: Key, x: Input, nowMs: nat): Effect
      requires manager.handler.Valid() && manager.Valid()
      reads manager, manager.owner.Keys, manager.handler.ports
    {
      var h, now := manager.handler, nowMs / 1000;
      Process(h.cfg, h.ports.State(), Lookup(manager.Clients(now), key), key, x, now)
    }

    /** A transaction not seen before goes to the handlers; a reply, if there is one, is worded and remembered. */
    method HandleNew(key: Key, tid: Tid, x: Input, nowMs: nat, wording: Wording) returns (entry: Option<Entry>)
      requires manager.handler.Valid() && manager.Valid() && this !in manager.owner && tid !in responses
      modifies this, manager, manager.handler.ports, manager.owner.Keys
      ensures manager.handler.Valid() && manager.Valid()
      ensures var e, now := old(Effected(key, x, nowMs)), nowMs / 1000;
              && manager.handler.ports.State() == e.pool
              && manager.Clients(now) == StoredAs(old(manager.Clients(now)), key, e.client)
              && entry == (if e.reply == Silent then None else Some(Worded(wording, e.reply, nowMs)))
      ensures responses == if entry == None then old(responses) else old(responses)[tid := entry.value]
    {
      hide Process, Worded, TurnAllocationManager.Clients, RequestHandler.Valid, TurnAllocationManager.Valid;
      var reply, out := manager.Receive(key, x, nowMs / 1000);
      if reply == Silent {
        return None;
      }
      entry := Some(Worded(wording, reply, nowMs));
      responses := responses[tid := entry.value];
    }

    method SendEntry(entry: Entry, bufferSize: nat) returns (octets: Bytes)
      requires WellTyped(entry.msg) && 20 + BodyLength(entry.msg, []) <= bufferSize
      ensures Printed(entry, manager.handler.cfg.crypto) == Some(octets)
    {
      hide Encode, BodyLength, WellTyped;
      var crypto := manager.handler.cfg.crypto;
      octets := PrintMessage(entry.msg, entry.key, crypto.hmac, crypto.crc, bufferSize);
    }

    ghost predicate Printable(e: Entry, bufferSize: nat) {
      WellTyped(e.msg) && 20 + BodyLength(e.msg, []) <= bufferSize
    }

    /** The STUN half of onReceiveSuccess. A cached transaction changes nothing at all and is sent its entry again; a new
        one changes ports and its one client as specified, and what is sent and remembered is the handlers' own reply. */
    method OnReceive(key: Key, tid: Tid, x: Input, nowMs: nat, wording: Wording, bufferSize: nat) returns (sent: Option<Bytes>)
      requires manager.handler.Valid() && manager.Valid() && this !in manager.owner
      requires forall e :: e in responses.Values ==> Printable(e, bufferSize)
      requires forall r: Reply :: r != Silent ==> Printable(Worded(wording, r, nowMs), bufferSize)
      modifies if tid in responses then {} else {this, manager, manager.handler.ports as object} + manager.owner.Keys
      ensures manager.handler.Valid() && manager.Valid()
      ensures tid in old(responses) ==> sent == Printed(old(responses[tid]), manager.handler.cfg.crypto)
      ensures tid !in old(responses) ==>
                var e, now := old(Effected(key, x, nowMs)), nowMs / 1000;
                && manager.handler.ports.State() == e.pool
                && manager.Clients(now) == StoredAs(old(manager.Clients(now)), key, e.client)
                && if e.reply == Silent then sent == None && responses == old(responses)
                   else var entry := Worded(wording, e.reply, nowMs);
                        sent == Printed(entry, manager.handler.cfg.crypto) && responses == old(responses)[tid := entry]
    {
      sent := None;
      if tid in responses {
        assert Printable(responses[tid], bufferSize);
        hide Process, Worded, Encode, TurnAllocationManager.Clients, TurnAllocationManager.Valid, WellTyped, BodyLength;
        var octets := SendEntry(responses[tid], bufferSize);
        sent := Some(octets);
      } else {
        hide Process, Worded, Encode, Effected, TurnAllocationManager.Clients, TurnAllocationManager.Valid, WellTyped, BodyLength;
        var entry := HandleNew(key, tid, x, nowMs, wording);
        if entry.Some? {
          var octets := SendEntry(entry.value, bufferSize);
          sent := Some(octets);
        }
      }
    }

    /** cleanupResponseMap, whatever ended the timer: the transaction will be handled anew, every other one is still
        answered as before. */
    method CleanupResponseMap(tid: Tid)
      modifies this`responses
      ensures tid !in responses
      ensures forall t :: t != tid ==> (t in responses <==> t in old(responses)) && (t in responses ==> responses[t] == old(responses)[t])
    {
      if tid in responses {
        responses := responses - {tid};
      }
    }
  }
}
