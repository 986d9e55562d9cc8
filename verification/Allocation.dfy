/** What one TURN allocation relays: permissions, channel bindings and the data that crosses in either direction.
    The specification forgets permissions and bindings the moment they expire; the class forgets them lazily. */
module Allocation {
  import opened Wire
  import opened Stun
  import opened StunCodec
  import opened StunTheorems
  import opened StunBuffer
  import opened Channels
  import opened Sockets

  const PERMISSION_LIFETIME := 300

  /** An address without its port: what a permission names. */
  datatype Host = Host4(ip: U32) | Host6(ip6: Octets16)

  function HostOf(a: Address): Host {
    match a
    case V4(_, ip) => Host4(ip)
    case V6(_, ip6) => Host6(ip6)
  }

  /** The same address, whatever the port. */
  predicate SameIp(a: Address, b: Address) {
    (a.V4? && b.V4? && a.ip == b.ip) || (a.V6? && b.V6? && a.ip6 == b.ip6)
  }

  /** Permissions tell exactly addresses apart: not ports, and never an IPv4 from an IPv6 address's octets. */
  lemma HostsAreAddresses(a: Address, b: Address)
    ensures HostOf(a) == HostOf(b) <==> SameIp(a, b)
  {
  }

  /** HMAC and CRC-32 are any two functions. */
  datatype Crypto = Crypto(hmac: Hmac, crc: Crc)

  // ---------------------------------------------------------------- the specification

  datatype Relay = Relay(permits: map<Host, nat>, bonds: Relation)

  const NoRelay := Relay(map[], {})

  datatype Op =
    | Permit(host: Host)
    | BindChannel(peer: Address, channel: nat)
    | ClientOnChannel(channel: nat, frame: Bytes)
    | ClientTo(peer: Address, data: Bytes)
    | PeerData(peer: Address, data: Bytes, id: Octets16)

  datatype Outcome =
    | Done
    | Refused
    | Dropped
    | ToPeer(peer: Address, data: Bytes)
    | OnChannel(channel: nat, data: Bytes)
    | Indication(octets: Bytes)

  function Unexpired(m: map<Host, nat>, now: nat): map<Host, nat> {
    map h | h in m && now <= m[h] :: m[h]
  }

  function Current(r: Relay, now: nat): Relay {
    Relay(Unexpired(r.permits, now), Live(r.bonds, now))
  }

  function Permitted(r: Relay, host: Host, now: nat): Relay {
    r.(permits := r.permits[host := now + PERMISSION_LIFETIME])
  }

  /** The peer a channel is bound to, and the channel of a peer. */
  ghost function PeerOf(r: Relation, c: nat): Option<Address> {
    if b :| b in r && b.channel == c then Some(b.peer) else None
  }

  ghost function ChannelOf(r: Relation, p: Address): Option<nat> {
    if b :| b in r && b.peer == p then Some(b.channel) else None
  }

  function Outward(r: Relay, peer: Address, data: Bytes): Outcome {
    if HostOf(peer) in r.permits then ToPeer(peer, data) else Dropped
  }

  /** The payload of a ChannelData message: what follows its four-octet frame. */
  function Unframed(frame: Bytes): Bytes {
    if |frame| < 4 then [] else frame[4..]
  }

  /** One operation on a relay that holds nothing expired. */
  ghost function Apply(r: Relay, op: Op, now: nat, k: Crypto): (Outcome, Relay) {
    match op
    case Permit(host) => (Done, Permitted(r, host, now))
    case BindChannel(peer, channel) =>
      var (ok, bonds) := Bind(r.bonds, peer, channel, now);
      if ok then (Done, Permitted(r.(bonds := bonds), HostOf(peer), now)) else (Refused, r)
    case ClientOnChannel(channel, frame) =>
      (match PeerOf(r.bonds, channel)
       case None => Dropped
       case Some(peer) => Outward(r, peer, Unframed(frame)), r)
    case ClientTo(peer, data) => (Outward(r, peer, data), r)
    case PeerData(peer, data, id) =>
      if HostOf(peer) !in r.permits then (Dropped, r)
      else match ChannelOf(r.bonds, peer)
           case Some(channel) => (OnChannel(channel, data), r)
           case None => (Indication(Encode(DataIndication(id, peer, data), [], [], k.hmac, k.crc)), r)
  }

  datatype Timed = Timed(at: nat, op: Op)

  ghost predicate Monotone(ops: seq<Timed>) {
    forall i, j :: 0 <= i <= j < |ops| ==> ops[i].at <= ops[j].at
  }

  /** Outcomes and final relay of a run, with expired entries dropped before every operation. */
  ghost function Run(r: Relay, ops: seq<Timed>, k: Crypto): (seq<Outcome>, Relay) {
    if ops == [] then ([], r)
    else
      var last := |ops| - 1;
      var (outs, r1) := Run(r, ops[..last], k);
      var (out, r2) := Apply(Current(r1, ops[last].at), ops[last].op, ops[last].at, k);
      (outs + [out], r2)
  }

  // ---------------------------------------------------------------- the class

  class TurnAllocation {
    const port: nat
    const user: Bytes
    const secret: Bytes
    const crypto: Crypto
    const channels: ChannelManager
    var permits: map<Host, nat>
    var expires: nat

    ghost predicate Valid()
      reads this, channels
    {
      channels.Valid()
    }

    ghost function Repr(): set<object>
      reads this, channels
    {
      {this, channels} + (set o: RemotePeer | o in channels.Objects())
    }

    /** The relay this object stands for at a moment. */
    ghost function View(now: nat): Relay
      reads Repr()
    {
      Relay(Unexpired(permits, now), channels.View(now))
    }

    constructor (port: nat, user: Bytes, secret: Bytes, crypto: Crypto, lifetime: nat, now: nat)
      ensures Valid() && fresh(Repr())
      ensures this.port == port && this.user == user && this.secret == secret && this.crypto == crypto
      ensures expires == now + lifetime && forall t :: View(t) == NoRelay
    {
      this.port, this.user, this.secret, this.crypto := port, user, secret, crypto;
      channels := new ChannelManager();
      permits := map[];
      expires := now + lifetime;
    }

    method Refresh(lifetime: nat, now: nat)
      modifies this`expires
      ensures expires == now + lifetime
    {
      expires := now + lifetime;
    }

    method ExistsPermission(host: Host, now: nat) returns (ok: bool)
      modifies this`permits
      ensures Unexpired(permits, now) == old(Unexpired(permits, now))
      ensures ok <==> host in Unexpired(permits, now)
    {
      if host in permits {
        if now > permits[host] {
          permits := permits - {host};
          return false;
        }
        return true;
      }
      return false;
    }

    method RefreshPermission(host: Host, now: nat)
      requires Valid()
      modifies this`permits
      ensures Valid() && View(now) == Permitted(old(View(now)), host, now)
    {
      permits := permits[host := now + PERMISSION_LIFETIME];
    }

    method AddChannelBinding(peer: Address, channel: nat, now: nat) returns (ok: bool)
      requires Valid()
      modifies Repr()
      ensures Valid() && fresh(Repr() - old(Repr())) && expires == old(expires)
      ensures (if ok then Done else Refused, View(now)) == Apply(old(View(now)), BindChannel(peer, channel), now, crypto)
    {
      ok := channels.AddBinding(peer, channel, now);
      if ok {
        RefreshPermission(HostOf(peer), now);
      }
    }

    method SendDataToPeer(peer: Address, data: Bytes, isFramed: bool, now: nat) returns (out: Outcome)
      requires Valid()
      modifies this`permits
      ensures Valid() && View(now) == old(View(now))
      ensures out == Outward(View(now), peer, if isFramed then Unframed(data) else data)
    {
      var ok := ExistsPermission(HostOf(peer), now);
      if !ok {
        return Dropped;
      }
      return ToPeer(peer, if isFramed then Unframed(data) else data);
    }

    method SendOnChannel(channel: nat, frame: Bytes, now: nat) returns (out: Outcome)
      requires Valid()
      modifies this`permits, channels
      ensures Valid() && Repr() <= old(Repr())
      ensures (out, View(now)) == Apply(old(View(now)), ClientOnChannel(channel, frame), now, crypto)
    {
      ghost var all := channels.All();
      var it := channels.FindByChannel(channel, now);
      PurgedView(all, channels.All(), now, now);
      channels.ChannelInView(channel, now);
      channels.AllIsOneToOne();
      if it != null {
        PeerOfOne(channels.View(now), it.Bonded());
        out := SendDataToPeer(it.peer, frame, true, now);
      } else {
        PeerOfNone(channels.View(now), channel);
        out := Dropped;
      }
    }

    method SendDataToClient(peer: Address, data: Bytes, id: Octets16, now: nat) returns (out: Outcome)
      requires Valid()
      modifies this`permits, channels
      ensures Valid() && Repr() <= old(Repr())
      ensures (out, View(now)) == Apply(old(View(now)), PeerData(peer, data, id), now, crypto)
    {
      var ok := ExistsPermission(HostOf(peer), now);
      if !ok {
        return Dropped;
      }
      ghost var all := channels.All();
      var it := channels.FindByPeer(peer, now);
      PurgedView(all, channels.All(), now, now);
      channels.PeerInView(peer, now);
      channels.AllIsOneToOne();
      if it != null {
        ChannelOfOne(channels.View(now), it.Bonded());
        return OnChannel(it.channel, data);
      } else {
        ChannelOfNone(channels.View(now), peer);
        var octets := PrintIndication(id, peer, data, crypto);
        return Indication(octets);
      }
    }
  }

  /** The Data indication, printed into a buffer 52 octets longer than the payload. */
  method PrintIndication(id: Octets16, peer: Address, data: Bytes, k: Crypto) returns (octets: Bytes)
    ensures octets == Encode(DataIndication(id, peer, data), [], [], k.hmac, k.crc)
  {
    var m := DataIndication(id, peer, data);
    DataIndicationFits(id, peer, data, [], [], k.hmac, k.crc);
    EncodeIsFramed(m, [], [], k.hmac, k.crc);
    octets := PrintMessage(m, [], k.hmac, k.crc, |data| + 8 + 36 + 8);
  }

  lemma PeerOfOne(r: Relation, b: Bond)
    requires OneToOne(r) && b in r
    ensures PeerOf(r, b.channel) == Some(b.peer)
  {
  }

  lemma PeerOfNone(r: Relation, c: nat)
    requires WithChannel(r, c) == {}
    ensures PeerOf(r, c) == None
  {
    forall b | b in r ensures b.channel != c {
      assert b !in WithChannel(r, c);
    }
  }

  lemma ChannelOfOne(r: Relation, b: Bond)
    requires OneToOne(r) && b in r
    ensures ChannelOf(r, b.peer) == Some(b.channel)
  {
  }

  lemma ChannelOfNone(r: Relation, p: Address)
    requires WithPeer(r, p) == {}
    ensures ChannelOf(r, p) == None
  {
    forall b | b in r ensures b.peer != p {
      assert b !in WithPeer(r, p);
    }
  }

  // ---------------------------------------------------------------- lazy against eager

  lemma AtLater(r: Relay, t: nat, later: nat)
    requires t <= later
    ensures Current(Current(r, t), later) == Current(r, later)
  {
    LiveLater(r.bonds, t, later);
  }

  method Perform(a: TurnAllocation, x: Timed) returns (out: Outcome)
    requires a.Valid()
    modifies a.Repr()
    ensures a.Valid() && fresh(a.Repr() - old(a.Repr()))
    ensures (out, a.View(x.at)) == Apply(old(a.View(x.at)), x.op, x.at, a.crypto)
  {
    match x.op
    case Permit(host) =>
      a.RefreshPermission(host, x.at);
      out := Done;
    case BindChannel(peer, channel) =>
      var ok := a.AddChannelBinding(peer, channel, x.at);
      out := if ok then Done else Refused;
    case ClientOnChannel(channel, frame) =>
      out := a.SendOnChannel(channel, frame, x.at);
    case ClientTo(peer, data) =>
      out := a.SendDataToPeer(peer, data, false, x.at);
    case PeerData(peer, data, id) =>
      out := a.SendDataToClient(peer, data, id, x.at);
  }

  /** A new allocation with its two lazily purged channel maps and its lazily purged permission map answers every
      sequence of operations exactly as the eager specification does. */
  method RunAllocation(ops: seq<Timed>, k: Crypto) returns (outs: seq<Outcome>)
    requires Monotone(ops)
    ensures outs == Run(NoRelay, ops, k).0
  {
    hide Apply, Current, Run, NoRelay;
    var a := new TurnAllocation(0, [], [], k, 0, 0);
    outs := [];
    ghost var time: nat := 0;
    RunNone(k);
    for i := 0 to |ops|
      invariant a.Valid() && fresh(a.Repr()) && a.crypto == k
      invariant i < |ops| ==> time <= ops[i].at
      invariant a.View(time) == Current(Run(NoRelay, ops[..i], k).1, time)
      invariant outs == Run(NoRelay, ops[..i], k).0
    {
      var x := ops[i];
      ghost var r := Run(NoRelay, ops[..i], k).1;
      ViewLater(a, time, x.at);
      AtLater(r, time, x.at);
      var out := Perform(a, x);
      RunOneMore(NoRelay, ops, i, k);
      outs := outs + [out];
      time := x.at;
      ViewLater(a, time, time);
    }
    assert ops[..|ops|] == ops;
  }

  lemma RunNone(k: Crypto)
    ensures Run(NoRelay, [], k) == ([], NoRelay) && Current(NoRelay, 0) == NoRelay
  {
  }

  lemma ViewLater(a: TurnAllocation, t: nat, later: nat)
    requires t <= later
    ensures a.View(later) == Current(a.View(t), later)
  {
    LiveLater(a.channels.All(), t, later);
  }

  lemma RunOneMore(r: Relay, ops: seq<Timed>, i: nat, k: Crypto)
    requires i < |ops|
    ensures var before := Run(r, ops[..i], k);
            var next := Apply(Current(before.1, ops[i].at), ops[i].op, ops[i].at, k);
            Run(r, ops[..i + 1], k) == (before.0 + [next.0], next.1)
  {
    assert ops[..i + 1][..i] == ops[..i];
  }

  // ---------------------------------------------------------------- what the history decides

  lemma {:induction false} OneOutcomeEach(r: Relay, ops: seq<Timed>, k: Crypto)
    ensures |Run(r, ops, k).0| == |ops|
  {
    if ops != [] {
      OneOutcomeEach(r, ops[..|ops| - 1], k);
    }
  }

  /** The outcome of operation i depends on what came before it only. */
  lemma {:induction false} OutcomeAt(ops: seq<Timed>, i: nat, k: Crypto)
    requires i < |ops|
    ensures |Run(NoRelay, ops, k).0| == |ops|
    ensures Run(NoRelay, ops, k).0[i] == Apply(Current(Run(NoRelay, ops[..i], k).1, ops[i].at), ops[i].op, ops[i].at, k).0
    decreases |ops|
  {
    var last := |ops| - 1;
    OneOutcomeEach(NoRelay, ops, k);
    OneOutcomeEach(NoRelay, ops[..last], k);
    RunOneMore(NoRelay, ops, last, k);
    assert ops[..last + 1] == ops;
    hide Apply, Current, Run;
    if i < last {
      OutcomeAt(ops[..last], i, k);
      assert ops[..last][..i] == ops[..i];
    }
  }

  ghost function OutcomeOf(ops: seq<Timed>, i: nat, k: Crypto): Outcome
    requires i < |ops|
  {
    Apply(Current(Run(NoRelay, ops[..i], k).1, ops[i].at), ops[i].op, ops[i].at, k).0
  }

  /** Operation i bound peer to channel. */
  ghost predicate Bound(ops: seq<Timed>, i: nat, peer: Address, channel: nat, k: Crypto)
    requires i < |ops|
  {
    ops[i].op == BindChannel(peer, channel) && OutcomeOf(ops, i, k) == Done
  }

  /** Operation i gave a host permission: by name, or by binding a channel to one of its ports. */
  ghost predicate Granted(ops: seq<Timed>, i: nat, host: Host, k: Crypto)
    requires i < |ops|
  {
    || ops[i].op == Permit(host)
    || (ops[i].op.BindChannel? && HostOf(ops[i].op.peer) == host && OutcomeOf(ops, i, k) == Done)
  }

  ghost predicate GrantedWithin(ops: seq<Timed>, host: Host, t: nat, k: Crypto) {
    exists i :: 0 <= i < |ops| && Granted(ops, i, host, k) && ops[i].at <= t <= ops[i].at + PERMISSION_LIFETIME
  }

  ghost predicate BoundWithin(ops: seq<Timed>, peer: Address, channel: nat, t: nat, k: Crypto) {
    exists i :: 0 <= i < |ops| && Bound(ops, i, peer, channel, k) && ops[i].at <= t <= ops[i].at + BINDING_LIFETIME
  }

  lemma PrefixGrants(ops: seq<Timed>, n: nat, k: Crypto)
    requires n <= |ops|
    ensures forall i, host :: 0 <= i < n ==> Granted(ops[..n], i, host, k) == Granted(ops, i, host, k)
    ensures forall i, p, c :: 0 <= i < n ==> Bound(ops[..n], i, p, c, k) == Bound(ops, i, p, c, k)
  {
    forall i | 0 <= i < n ensures OutcomeOf(ops[..n], i, k) == OutcomeOf(ops, i, k) {
      assert ops[..n][..i] == ops[..i];
    }
  }

  lemma {:induction false} PermitsAreGrants(ops: seq<Timed>, host: Host, t: nat, k: Crypto)
    requires Monotone(ops) && (ops == [] || ops[|ops| - 1].at <= t)
    ensures host in Current(Run(NoRelay, ops, k).1, t).permits <==> GrantedWithin(ops, host, t, k)
  {
    if ops != [] {
      var n := |ops| - 1;
      var x := ops[n];
      assert Monotone(ops[..n]);
      PermitsAreGrants(ops[..n], host, t, k);
      PrefixGrants(ops, n, k);
      GrantedWithinOneMore(ops, host, t, k);
      var r := Run(NoRelay, ops[..n], k).1;
      AtLater(r, x.at, t);
      PermitStep(Current(r, x.at), x, host, t, k);
      if Granted(ops, n, host, k) && t > x.at + PERMISSION_LIFETIME {
        assert !GrantedWithin(ops[..n], host, t, k);
      }
    }
  }

  lemma GrantedWithinOneMore(ops: seq<Timed>, host: Host, t: nat, k: Crypto)
    requires ops != []
    ensures var n := |ops| - 1;
            GrantedWithin(ops, host, t, k) <==>
              GrantedWithin(ops[..n], host, t, k) || (Granted(ops, n, host, k) && ops[n].at <= t <= ops[n].at + PERMISSION_LIFETIME)
  {
    var n := |ops| - 1;
    PrefixGrants(ops, n, k);
    if GrantedWithin(ops[..n], host, t, k) {
      var i :| 0 <= i < n && Granted(ops[..n], i, host, k) && ops[i].at <= t <= ops[i].at + PERMISSION_LIFETIME;
      assert Granted(ops, i, host, k);
    }
    if GrantedWithin(ops, host, t, k) {
      var i :| 0 <= i <= n && Granted(ops, i, host, k) && ops[i].at <= t <= ops[i].at + PERMISSION_LIFETIME;
      if i < n {
        assert Granted(ops[..n], i, host, k);
      }
    }
  }

  lemma PermitStep(r: Relay, x: Timed, host: Host, t: nat, k: Crypto)
    requires x.at <= t
    ensures var (out, r') := Apply(r, x.op, x.at, k);
            var granted := x.op == Permit(host) || (x.op.BindChannel? && HostOf(x.op.peer) == host && out == Done);
            host in Current(r', t).permits <==> if granted then t <= x.at + PERMISSION_LIFETIME else host in Current(r, t).permits
  {
  }

  ghost predicate Pairs(r: Relay, peer: Address, channel: nat) {
    exists b :: b in r.bonds && b.peer == peer && b.channel == channel
  }

  lemma {:induction false} BondsAreBinds(ops: seq<Timed>, peer: Address, channel: nat, t: nat, k: Crypto)
    requires Monotone(ops) && (ops == [] || ops[|ops| - 1].at <= t)
    ensures Pairs(Current(Run(NoRelay, ops, k).1, t), peer, channel) <==> BoundWithin(ops, peer, channel, t, k)
  {
    if ops != [] {
      var n := |ops| - 1;
      var x := ops[n];
      assert Monotone(ops[..n]);
      BondsAreBinds(ops[..n], peer, channel, t, k);
      PrefixGrants(ops, n, k);
      BoundWithinOneMore(ops, peer, channel, t, k);
      var r := Run(NoRelay, ops[..n], k).1;
      AtLater(r, x.at, t);
      BondStep(Current(r, x.at), x, peer, channel, t, k);
      if Bound(ops, n, peer, channel, k) && t > x.at + BINDING_LIFETIME {
        assert !BoundWithin(ops[..n], peer, channel, t, k);
      }
    }
  }

  lemma BoundWithinOneMore(ops: seq<Timed>, peer: Address, channel: nat, t: nat, k: Crypto)
    requires ops != []
    ensures var n := |ops| - 1;
            BoundWithin(ops, peer, channel, t, k) <==>
              || BoundWithin(ops[..n], peer, channel, t, k)
              || (Bound(ops, n, peer, channel, k) && ops[n].at <= t <= ops[n].at + BINDING_LIFETIME)
  {
    var n := |ops| - 1;
    PrefixGrants(ops, n, k);
    if BoundWithin(ops[..n], peer, channel, t, k) {
      var i :| 0 <= i < n && Bound(ops[..n], i, peer, channel, k) && ops[i].at <= t <= ops[i].at + BINDING_LIFETIME;
      assert Bound(ops, i, peer, channel, k);
    }
    if BoundWithin(ops, peer, channel, t, k) {
      var i :| 0 <= i <= n && Bound(ops, i, peer, channel, k) && ops[i].at <= t <= ops[i].at + BINDING_LIFETIME;
      if i < n {
        assert Bound(ops[..n], i, peer, channel, k);
      }
    }
  }

  lemma BondStep(r: Relay, x: Timed, peer: Address, channel: nat, t: nat, k: Crypto)
    requires x.at <= t
    ensures var (out, r') := Apply(r, x.op, x.at, k);
            Pairs(Current(r', t), peer, channel) <==>
              if x.op == BindChannel(peer, channel) && out == Done then t <= x.at + BINDING_LIFETIME
              else Pairs(Current(r, t), peer, channel)
  {
    if x.op.BindChannel? {
      BindKeeps(r.bonds, x.op.peer, x.op.channel, x.at, peer, channel);
    }
  }

  lemma BindKeeps(r: Relation, p: Address, c: nat, now: nat, peer: Address, channel: nat)
    ensures var (ok, r') := Bind(r, p, c, now);
            forall b :: b in r' && b.peer == peer && b.channel == channel <==>
                        if ok && p == peer && c == channel then b == Bond(p, c, now + BINDING_LIFETIME)
                        else b in r && b.peer == peer && b.channel == channel
  {
  }

  lemma {:induction false} RunIsOneToOne(ops: seq<Timed>, k: Crypto)
    ensures OneToOne(Run(NoRelay, ops, k).1.bonds)
  {
    if ops != [] {
      var n := |ops| - 1;
      RunIsOneToOne(ops[..n], k);
      var r := Run(NoRelay, ops[..n], k).1;
      OneToOneLive(r.bonds, ops[n].at);
      if ops[n].op.BindChannel? {
        BindLaws(Live(r.bonds, ops[n].at), ops[n].op.peer, ops[n].op.channel, ops[n].at);
      }
    }
  }

  lemma Lookups(r: Relay, peer: Address, channel: nat)
    requires OneToOne(r.bonds)
    ensures PeerOf(r.bonds, channel) == Some(peer) <==> Pairs(r, peer, channel)
    ensures ChannelOf(r.bonds, peer) == Some(channel) <==> Pairs(r, peer, channel)
  {
  }

  /** The state operation i meets: permissions and pairs read off the history before it. */
  lemma StateAt(ops: seq<Timed>, i: nat, k: Crypto) returns (r: Relay)
    requires Monotone(ops) && i < |ops|
    ensures r == Current(Run(NoRelay, ops[..i], k).1, ops[i].at) && OneToOne(r.bonds)
    ensures |Run(NoRelay, ops, k).0| == |ops| && Run(NoRelay, ops, k).0[i] == Apply(r, ops[i].op, ops[i].at, k).0
    ensures forall host :: host in r.permits <==> GrantedWithin(ops[..i], host, ops[i].at, k)
    ensures forall p, c :: Pairs(r, p, c) <==> BoundWithin(ops[..i], p, c, ops[i].at, k)
  {
    hide Apply, Current, Run, GrantedWithin, BoundWithin, Pairs;
    r := Current(Run(NoRelay, ops[..i], k).1, ops[i].at);
    RunIsOneToOne(ops[..i], k);
    AtBonds(Run(NoRelay, ops[..i], k).1, ops[i].at);
    OneToOneLive(Run(NoRelay, ops[..i], k).1.bonds, ops[i].at);
    OutcomeAt(ops, i, k);
    forall host ensures host in r.permits <==> GrantedWithin(ops[..i], host, ops[i].at, k) {
      PermitsAreGrants(ops[..i], host, ops[i].at, k);
    }
    forall p, c ensures Pairs(r, p, c) <==> BoundWithin(ops[..i], p, c, ops[i].at, k) {
      BondsAreBinds(ops[..i], p, c, ops[i].at, k);
    }
  }

  lemma AtBonds(r: Relay, t: nat)
    ensures Current(r, t).bonds == Live(r.bonds, t)
  {
  }

  /** ChannelData reaches a peer exactly when that peer was bound to the channel within 600 s and its host was
      given permission within 300 s; then the payload arrives unchanged. */
  lemma ChannelDataCrosses(ops: seq<Timed>, i: nat, peer: Address, channel: nat, frame: Bytes, k: Crypto)
    requires Monotone(ops) && i < |ops| && ops[i].op == ClientOnChannel(channel, frame)
    ensures i < |Run(NoRelay, ops, k).0|
    ensures var out, t := Run(NoRelay, ops, k).0[i], ops[i].at;
            && (out == ToPeer(peer, Unframed(frame)) <==>
                  BoundWithin(ops[..i], peer, channel, t, k) && GrantedWithin(ops[..i], HostOf(peer), t, k))
            && (out == Dropped || exists p :: out == ToPeer(p, Unframed(frame)))
  {
    var r := StateAt(ops, i, k);
    Lookups(r, peer, channel);
  }

  /** A Send indication's data reaches the peer it names exactly when that host has permission. */
  lemma SentDataCrosses(ops: seq<Timed>, i: nat, peer: Address, data: Bytes, k: Crypto)
    requires Monotone(ops) && i < |ops| && ops[i].op == ClientTo(peer, data)
    ensures i < |Run(NoRelay, ops, k).0|
    ensures Run(NoRelay, ops, k).0[i] ==
            if GrantedWithin(ops[..i], HostOf(peer), ops[i].at, k) then ToPeer(peer, data) else Dropped
  {
    var r := StateAt(ops, i, k);
  }

  /** A peer's data is dropped without a permission; goes out on the peer's channel exactly when one was bound
      within 600 s; and otherwise goes out in a Data indication that reads back as the same peer and payload. */
  lemma PeerDataCrosses(ops: seq<Timed>, i: nat, peer: Address, data: Bytes, id: Octets16, k: Crypto)
    requires Monotone(ops) && i < |ops| && ops[i].op == PeerData(peer, data, id)
    ensures i < |Run(NoRelay, ops, k).0|
    ensures var out, t := Run(NoRelay, ops, k).0[i], ops[i].at;
            && (out == Dropped <==> !GrantedWithin(ops[..i], HostOf(peer), t, k))
            && (forall c: nat :: out == OnChannel(c, data) <==> out != Dropped && BoundWithin(ops[..i], peer, c, t, k))
            && (out != Dropped && (forall c: nat :: !BoundWithin(ops[..i], peer, c, t, k)) ==> out.Indication?)
            && (out.Indication? && |data| <= 0x1_0000 - 36 ==>
                  Parse(out.octets) == Some(Parsed(DataIndication(id, peer, data), [], 0)))
  {
    var r := StateAt(ops, i, k);
    var t := ops[i].at;
    forall c: nat ensures ChannelOf(r.bonds, peer) == Some(c) <==> BoundWithin(ops[..i], peer, c, t, k) {
      Lookups(r, peer, c);
    }
    if |data| <= 0x1_0000 - 36 {
      IndicationReadsBack(id, peer, data, k);
    }
    hide Encode, Parse, DataIndication, Run, BoundWithin, GrantedWithin, Pairs, Current;
  }

  lemma IndicationReadsBack(id: Octets16, peer: Address, data: Bytes, k: Crypto)
    requires |data| <= 0x1_0000 - 36
    ensures Parse(Encode(DataIndication(id, peer, data), [], [], k.hmac, k.crc)) ==
            Some(Parsed(DataIndication(id, peer, data), [], 0))
    ensures DataIndication(id, peer, data) == Message(0x010, 7, id, map[0x0013 := Text(data)], [peer])
  {
    var m := DataIndication(id, peer, data);
    hide Encode, Parse, BodyLength, Mac, Checksum;
    DataIndicationFits(id, peer, data, [], [], k.hmac, k.crc);
    EncodeIsFramed(m, [], [], k.hmac, k.crc);
    RoundTrip(m, [], [], k.hmac, k.crc);
    assert Received(m, Mac(m, [], [], k.hmac), Checksum(m, [], [], k.hmac, k.crc)) == m;
  }

  // ---------------------------------------------------------------- ChannelData, from end to end

  /** UdpServer.onReceiveSuccess on a datagram that is not a STUN message: the channel and all that arrived. */
  function ReceiveChannelData(d: Bytes): Option<Op> {
    if |d| > 4 && d[0] >= 0x40 && |d| >= Val(d[2..4]) + 4 then Some(ClientOnChannel(Val(d[..2]), d)) else None
  }

  /** A ChannelData message followed by padding is understood, but the padding goes on to the peer with the payload:
      the payload comes out unchanged exactly when there is none. */
  lemma PaddingIsForwarded(channel: nat, data: Bytes, padding: Bytes)
    requires MIN_CHANNEL <= channel <= MAX_CHANNEL && 0 < |data| < 0x1_0000
    ensures var d := ChannelFrame(channel, data) + data + padding;
            && ReceiveChannelData(d) == Some(ClientOnChannel(channel, d))
            && Unframed(d) == data + padding
            && (Unframed(d) == data <==> padding == [])
  {
    var d := ChannelFrame(channel, data) + data + padding;
    var a, b := BE(2, channel), BE(2, |data|);
    FirstOctet(channel);
    assert d[0] == a[0];
    PowersOf256();
    ReadBack(2, channel);
    ReadBack(2, |data|);
    hide BE, Val;
    assert d[..2] == a && d[2..4] == b && d[4..] == data + padding;
    assert data + [] == data && |data + padding| == |data| + |padding|;
  }

  /** After a successful bind, and until the permission it gave expires, whatever else happens in between:
      ChannelData on that channel reaches exactly the bound peer, and that peer's data comes back on the channel. */
  lemma RelayIsTransparent(ops: seq<Timed>, j: nat, i: nat, peer: Address, channel: nat, data: Bytes, id: Octets16, k: Crypto)
    requires Monotone(ops) && j < i < |ops|
    requires Bound(ops, j, peer, channel, k)
    requires ops[i].at <= ops[j].at + PERMISSION_LIFETIME
    ensures i < |Run(NoRelay, ops, k).0|
    ensures ops[i].op == ClientOnChannel(channel, ChannelFrame(channel, data) + data) ==>
              Run(NoRelay, ops, k).0[i] == ToPeer(peer, data)
    ensures ops[i].op == PeerData(peer, data, id) ==> Run(NoRelay, ops, k).0[i] == OnChannel(channel, data)
  {
    OutcomeAt(ops, i, k);
    PrefixGrants(ops, i, k);
    assert Bound(ops, j, peer, channel, k) && Granted(ops, j, HostOf(peer), k);
    assert Bound(ops[..i], j, peer, channel, k) && Granted(ops[..i], j, HostOf(peer), k);
    hide Run, Bound, Granted;
    var frame := ChannelFrame(channel, data) + data;
    assert Unframed(frame) == data;
    if ops[i].op == ClientOnChannel(channel, frame) {
      ChannelDataCrosses(ops, i, peer, channel, frame, k);
    }
    if ops[i].op == PeerData(peer, data, id) {
      PeerDataCrosses(ops, i, peer, data, id, k);
    }
  }

  /** A permission refreshed by CreatePermission outlives the binding: the channel then goes silent although
      the peer still has permission. */
  lemma PermissionOutlivesBinding(peer: Address, channel: nat, data: Bytes, k: Crypto)
    ensures var ops := [Timed(0, BindChannel(peer, channel)), Timed(400, Permit(HostOf(peer))),
                        Timed(601, ClientOnChannel(channel, data)), Timed(601, ClientTo(peer, data))];
            Run(NoRelay, ops, k).0 == [Done, Done, Dropped, ToPeer(peer, data)]
  {
    var ops := [Timed(0, BindChannel(peer, channel)), Timed(400, Permit(HostOf(peer))),
                Timed(601, ClientOnChannel(channel, data)), Timed(601, ClientTo(peer, data))];
    hide Apply, Current, Run, NoRelay;
    RunNone(k);
    SilentStates(peer, channel, data, k);
    assert ops[..0] == [] && ops[..4] == ops;
    RunOneMore(NoRelay, ops, 0, k);
    RunOneMore(NoRelay, ops, 1, k);
    RunOneMore(NoRelay, ops, 2, k);
    RunOneMore(NoRelay, ops, 3, k);
  }

  /** The states and outcomes along that run. */
  lemma SilentStates(peer: Address, channel: nat, data: Bytes, k: Crypto)
    ensures var bond := {Bond(peer, channel, 600)};
            var r1, r2, r3 := Relay(map[HostOf(peer) := 300], bond), Relay(map[HostOf(peer) := 700], bond),
                              Relay(map[HostOf(peer) := 700], {});
            && Apply(NoRelay, BindChannel(peer, channel), 0, k) == (Done, r1)
            && Apply(Current(r1, 400), Permit(HostOf(peer)), 400, k) == (Done, r2)
            && Current(r2, 601) == r3 == Current(r3, 601)
            && Apply(r3, ClientOnChannel(channel, data), 601, k) == (Dropped, r3)
            && Apply(r3, ClientTo(peer, data), 601, k) == (ToPeer(peer, data), r3)
  {
    var bond := {Bond(peer, channel, 600)};
    BindFree({}, peer, channel, 0);
    PeerOfNone({}, channel);
    assert NoRelay.permits[HostOf(peer) := 300] == map[HostOf(peer) := 300] && {} + bond == bond;
    assert Current(Relay(map[HostOf(peer) := 300], bond), 400) == Relay(map[], bond);
    hide Bind;
  }
}
