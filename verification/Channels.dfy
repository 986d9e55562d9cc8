/** Channel bindings: ChannelManager's two lazily purged maps over shared RemotePeer objects, and the timed
    one-to-one relation they stand for. Times are whole seconds, as time(0) counts them. */
module Channels {
  import opened Wire
  import opened Stun

  const BINDING_LIFETIME := 600

  /** A peer bound to a channel until a moment, that second included. */
  datatype Bond = Bond(peer: Address, channel: nat, expires: nat)

  // ---------------------------------------------------------------- the relation, purged eagerly

  type Relation = set<Bond>

  function Live(r: Relation, now: nat): Relation {
    set b | b in r && now <= b.expires
  }

  ghost predicate OneToOne(r: Relation) {
    forall a, b :: a in r && b in r && (a.peer == b.peer || a.channel == b.channel) ==> a == b
  }

  function WithChannel(r: Relation, c: nat): Relation {
    set b | b in r && b.channel == c
  }

  function WithPeer(r: Relation, p: Address): Relation {
    set b | b in r && b.peer == p
  }

  /** Bind on a relation holding live pairs only: refresh the pair, refuse when either side is taken, or add it. */
  function Bind(r: Relation, p: Address, c: nat, now: nat): (bool, Relation) {
    var pair := WithChannel(WithPeer(r, p), c);
    if pair != {} then (true, (r - pair) + {Bond(p, c, now + BINDING_LIFETIME)})
    else if WithChannel(r, c) != {} || WithPeer(r, p) != {} then (false, r)
    else (true, r + {Bond(p, c, now + BINDING_LIFETIME)})
  }

  /** Pairs that vanish stay gone: looking later is the same with or without having looked before. */
  lemma LiveLater(r: Relation, t: nat, later: nat)
    requires t <= later
    ensures Live(Live(r, t), later) == Live(r, later)
  {
  }

  /** Binding keeps the relation one-to-one, and succeeds exactly when the pair is live or neither side is. */
  lemma BindLaws(r: Relation, p: Address, c: nat, now: nat)
    requires OneToOne(r)
    ensures OneToOne(Bind(r, p, c, now).1)
    ensures Bind(r, p, c, now).0 <==>
              (exists b :: b in r && b.peer == p && b.channel == c) || (forall b :: b in r ==> b.peer != p && b.channel != c)
    ensures Bind(r, p, c, now).0 ==> Bond(p, c, now + BINDING_LIFETIME) in Bind(r, p, c, now).1
    ensures forall b :: b in r && b.peer != p ==> b in Bind(r, p, c, now).1
    ensures forall b :: b in Bind(r, p, c, now).1 ==> b in r || b == Bond(p, c, now + BINDING_LIFETIME)
    ensures !Bind(r, p, c, now).0 ==> Bind(r, p, c, now).1 == r
    ensures Bind(r, p, c, now).0 ==> forall b :: b in Bind(r, p, c, now).1 <==>
              b == Bond(p, c, now + BINDING_LIFETIME) || (b in r && !(b.peer == p && b.channel == c))
  {
    if b :| b in r && b.peer == p && b.channel == c {
      assert b in WithChannel(WithPeer(r, p), c);
    } else {
      if b :| b in r && b.channel == c {
        assert b in WithChannel(r, c);
      }
      if b :| b in r && b.peer == p {
        assert b in WithPeer(r, p);
      }
    }
  }

  /** Only expired pairs have gone. */
  ghost predicate Purged(before: Relation, after: Relation, now: nat) {
    after <= before && forall b :: b in before && b !in after ==> b.expires < now
  }

  lemma PurgedView(before: Relation, after: Relation, now: nat, t: nat)
    requires Purged(before, after, now) && now <= t
    ensures Live(after, t) == Live(before, t)
  {
  }

  lemma OneToOneLive(r: Relation, now: nat)
    requires OneToOne(r)
    ensures OneToOne(Live(r, now))
  {
  }

  lemma BindTaken(r: Relation, b: Bond, p: Address, c: nat, now: nat)
    requires OneToOne(r) && b in r && (b.channel == c) != (b.peer == p)
    ensures Bind(r, p, c, now) == (false, r)
  {
    assert b in WithChannel(r, c) || b in WithPeer(r, p);
  }

  lemma BindFree(r: Relation, p: Address, c: nat, now: nat)
    requires WithChannel(r, c) == {} && WithPeer(r, p) == {}
    ensures Bind(r, p, c, now) == (true, r + {Bond(p, c, now + BINDING_LIFETIME)})
  {
  }

  lemma LiveAdd(r: Relation, p: Address, c: nat, now: nat)
    ensures Live(r + {Bond(p, c, now + BINDING_LIFETIME)}, now) == Live(r, now) + {Bond(p, c, now + BINDING_LIFETIME)}
  {
  }

  lemma LiveRefresh(r: Relation, b: Bond, now: nat)
    ensures var next := Bond(b.peer, b.channel, now + BINDING_LIFETIME);
            Live((r - {b}) + {next}, now) == (Live(r, now) - {b}) + {next}
  {
  }

  lemma RefreshOnly(r: Relation, b: Bond, now: nat)
    requires OneToOne(r) && b in r
    ensures Bind(r, b.peer, b.channel, now) == (true, (r - {b}) + {Bond(b.peer, b.channel, now + BINDING_LIFETIME)})
  {
    assert WithChannel(WithPeer(r, b.peer), b.channel) == {b};
  }

  // ---------------------------------------------------------------- the two maps

  class RemotePeer {
    const peer: Address
    const channel: nat
    var expires: nat

    constructor (p: Address, c: nat, now: nat)
      ensures peer == p && channel == c && expires == now + BINDING_LIFETIME
    {
      peer, channel, expires := p, c, now + BINDING_LIFETIME;
    }

    ghost function Bonded(): Bond
      reads this
    {
      Bond(peer, channel, expires)
    }

    predicate IsExpired(now: nat)
      reads this
    {
      now > expires
    }

    method Refresh(now: nat)
      modifies this
      ensures expires == now + BINDING_LIFETIME
    {
      expires := now + BINDING_LIFETIME;
    }
  }

  class ChannelManager {
    var byPeer: map<Address, RemotePeer>
    var byChannel: map<nat, RemotePeer>

    /** The maps are mutual inverses, expired entries included. */
    ghost predicate Valid()
      reads this
    {
      && (forall p :: p in byPeer ==>
            byPeer[p].peer == p && byPeer[p].channel in byChannel && byChannel[byPeer[p].channel] == byPeer[p])
      && (forall c :: c in byChannel ==>
            byChannel[c].channel == c && byChannel[c].peer in byPeer && byPeer[byChannel[c].peer] == byChannel[c])
    }

    ghost function Objects(): set<RemotePeer>
      reads this
    {
      byPeer.Values
    }

    ghost function All(): Relation
      reads this, Objects()
    {
      set p | p in byPeer :: byPeer[p].Bonded()
    }

    /** The relation the maps stand for at a moment. */
    ghost function View(now: nat): Relation
      reads this, Objects()
    {
      Live(All(), now)
    }

    lemma InAll()
      requires Valid()
      ensures forall b :: b in All() <==> b.peer in byPeer && byPeer[b.peer].Bonded() == b
    {
      forall b: Bond | b.peer in byPeer && byPeer[b.peer].Bonded() == b ensures b in All() {
        var p := b.peer;
        assert p in byPeer;
      }
    }

    constructor ()
      ensures Valid() && Objects() == {} && All() == {}
    {
      byPeer, byChannel := map[], map[];
    }

    method FindByChannel(channel: nat, now: nat) returns (r: RemotePeer?)
      requires Valid()
      modifies this
      ensures Valid() && Objects() <= old(Objects())
      ensures Purged(old(All()), All(), now)
      ensures r == null ==> channel !in byChannel
      ensures r != null ==> channel in byChannel && byChannel[channel] == r && now <= r.expires
    {
      r := null;
      InAll();
      if channel in byChannel {
        var it := byChannel[channel];
        if !it.IsExpired(now) {
          r := it;
        } else {
          byPeer := byPeer - {it.peer};
          byChannel := byChannel - {channel};
          InAll();
        }
      }
    }

    method FindByPeer(peer: Address, now: nat) returns (r: RemotePeer?)
      requires Valid()
      modifies this
      ensures Valid() && Objects() <= old(Objects())
      ensures Purged(old(All()), All(), now)
      ensures byChannel.Keys <= old(byChannel.Keys)
      ensures r == null ==> peer !in byPeer
      ensures r != null ==> peer in byPeer && byPeer[peer] == r && now <= r.expires
    {
      r := null;
      InAll();
      if peer in byPeer {
        var it := byPeer[peer];
        if !it.IsExpired(now) {
          r := it;
        } else {
          byChannel := byChannel - {it.channel};
          byPeer := byPeer - {peer};
          InAll();
        }
      }
    }

    /** createChannelBinding: the caller has found both sides free. */
    method CreateChannelBinding(peer: Address, channel: nat, now: nat) returns (r: RemotePeer)
      requires Valid() && peer !in byPeer && channel !in byChannel
      modifies this
      ensures Valid() && fresh(r) && Objects() <= old(Objects()) + {r}
      ensures All() == old(All()) + {Bond(peer, channel, now + BINDING_LIFETIME)}
    {
      hide ChannelManager.All;
      InAll();
      ghost var all := All();
      r := new RemotePeer(peer, channel, now);
      assert r.Bonded() == Bond(peer, channel, now + BINDING_LIFETIME);
      byPeer := byPeer[peer := r];
      byChannel := byChannel[channel := r];
      InAll();
      assert forall b :: b in All() <==> b in all || b == r.Bonded();
      assert All() == all + {r.Bonded()};
    }

    /** Refresh through one map: the other sees it, since both hold the same object. */
    method RefreshBinding(it: RemotePeer, now: nat)
      requires Valid() && it in Objects()
      modifies it
      ensures Valid()
      ensures All() == (old(All()) - {old(it.Bonded())}) + {Bond(it.peer, it.channel, now + BINDING_LIFETIME)}
    {
      InAll();
      ghost var all := All();
      ghost var was := it.Bonded();
      it.Refresh(now);
      InAll();
      assert All() == (all - {was}) + {it.Bonded()};
    }

    lemma AllIsOneToOne()
      requires Valid()
      ensures OneToOne(All())
    {
      InAll();
    }

    /** What the maps say of a channel or a peer, in terms of the relation at this moment. */
    lemma ChannelInView(channel: nat, now: nat)
      requires Valid()
      ensures channel !in byChannel ==> WithChannel(View(now), channel) == {}
      ensures channel in byChannel && now <= byChannel[channel].expires ==>
                byChannel[channel].Bonded() in View(now)
    {
      InAll();
    }

    lemma PeerInView(peer: Address, now: nat)
      requires Valid()
      ensures peer !in byPeer ==> WithPeer(View(now), peer) == {}
      ensures peer in byPeer && now <= byPeer[peer].expires ==> byPeer[peer].Bonded() in View(now)
    {
      InAll();
    }

    /** The binding half of TurnAllocation.addChannelBinding. */
    method AddBinding(peer: Address, channel: nat, now: nat) returns (ok: bool)
      requires Valid()
      modifies this, Objects()
      ensures Valid() && fresh(Objects() - old(Objects()))
      ensures (ok, View(now)) == Bind(old(View(now)), peer, channel, now)
    {
      hide ChannelManager.All, Bind, Live, OneToOne;
      ghost var all0 := All();
      var it := FindByChannel(channel, now);
      ghost var all1 := All();
      AllIsOneToOne();
      ChannelInView(channel, now);
      PurgedView(all0, all1, now, now);
      OneToOneLive(all1, now);
      if it != null {
        if it.peer != peer {
          BindTaken(View(now), it.Bonded(), peer, channel, now);
          return false;
        }
        ghost var was := it.Bonded();
        RefreshOnly(View(now), was, now);
        RefreshBinding(it, now);
        LiveRefresh(all1, was, now);
        ok := true;
      } else {
        it := FindByPeer(peer, now);
        ghost var all2 := All();
        AllIsOneToOne();
        PeerInView(peer, now);
        PurgedView(all1, all2, now, now);
        if it != null {
          BindTaken(View(now), it.Bonded(), peer, channel, now);
          return false;
        }
        ChannelInView(channel, now);
        BindFree(View(now), peer, channel, now);
        it := CreateChannelBinding(peer, channel, now);
        LiveAdd(all2, peer, channel, now);
        ok := true;
      }
    }
  }
}
