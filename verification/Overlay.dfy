/** Routing in the RELOAD overlay: the forwarding loop over a message's destination list, the hop limit, the via list
    grown on every arrival, and responses that travel it backwards. */
module Overlay {
  import opened Wire

  const MESSAGE_TTL := 0x20

  /** A node or resource is named by a 128-bit number. */
  datatype Destination = Peer(id: nat) | Resource(name: nat) | Compressed

  datatype Header = Header(ttl: nat, overlay: nat, transaction: nat, vias: seq<Destination>, dests: seq<Destination>)

  /** What one node knows, as its topology plug-in and flow map answer: any answers at all. nextHop is None where the
      topology fails an assertion. */
  datatype Node = Node(id: nat, connected: nat -> bool, ownsNode: nat -> bool, ownsResource: nat -> bool,
                       nextHop: Destination -> Option<nat>, flows: nat -> bool)

  datatype Decision = Post(h: Header) | Send(next: nat, h: Header) | Drop | Abort

  function Hop(next: Option<nat>, h: Header): Decision {
    if next.Some? then Send(next.value, h) else Abort
  }

  /** ForwardingLayer.forward. */
  function Forward(n: Node, h: Header): Decision
    decreases |h.dests|
  {
    if h.dests == [] then Abort
    else
      var popped := h.(dests := h.dests[1..]);
      match h.dests[0]
      case Compressed => Abort
      case Peer(id) =>
        if id == n.id then if popped.dests != [] then Forward(n, popped) else Post(popped)
        else if n.connected(id) then Send(id, h)
        else if n.ownsNode(id) then Drop
        else Hop(n.nextHop(h.dests[0]), h)
      case Resource(name) =>
        if n.ownsResource(name) then if popped.dests == [] then Post(popped) else Drop
        else Hop(n.nextHop(h.dests[0]), h)
  }

  /** The loop in closed form: a node's own entries at the front do not matter, and the first other one decides. */
  lemma {:induction false} FirstForeignDecides(n: Node, h: Header, k: nat)
    requires h.dests != [] && k <= |h.dests| && forall i :: 0 <= i < k ==> h.dests[i] == Peer(n.id)
    requires k < |h.dests| ==> h.dests[k] != Peer(n.id)
    ensures var rest := h.(dests := h.dests[k..]);
            Forward(n, h) ==
            if k == |h.dests| then Post(rest)
            else match h.dests[k]
                 case Compressed => Abort
                 case Peer(id) =>
                   if n.connected(id) then Send(id, rest) else if n.ownsNode(id) then Drop else Hop(n.nextHop(h.dests[k]), rest)
                 case Resource(name) =>
                   if !n.ownsResource(name) then Hop(n.nextHop(h.dests[k]), rest)
                   else if k + 1 == |h.dests| then Post(h.(dests := [])) else Drop
    decreases k
  {
    if k == 0 {
      assert h.dests[0..] == h.dests;
    } else if |h.dests| > 1 {
      var popped := h.(dests := h.dests[1..]);
      assert popped.dests[k - 1..] == h.dests[k..];
      FirstForeignDecides(n, popped, k - 1);
    }
  }

  /** SelectTransporter.sendImpl: what leaves for the next node, if anything does. */
  function Transmit(n: Node, next: nat, h: Header): Option<Header> {
    if h.ttl <= 1 then None
    else if !n.flows(next) then None
    else Some(h.(ttl := h.ttl - 1))
  }

  // ---------------------------------------------------------------- as it runs

  class Message {
    var ttl: nat
    var overlay: nat
    var transaction: nat
    var vias: seq<Destination>
    var dests: seq<Destination>

    ghost function View(): Header
      reads this
    {
      Header(ttl, overlay, transaction, vias, dests)
    }

    /** initForwardingData. */
    constructor (overlay: nat, transaction: nat)
      ensures View() == Header(MESSAGE_TTL, overlay, transaction, [], [])
    {
      this.ttl, this.overlay, this.transaction, vias, dests := MESSAGE_TTL, overlay, transaction, [], [];
    }

    method PopNextDestinationId()
      requires dests != []
      modifies this`dests
      ensures dests == old(dests)[1..]
    {
      dests := dests[1..];
    }

    method PushVia(d: Destination)
      requires !d.Resource?
      modifies this`vias
      ensures vias == old(vias) + [d]
    {
      vias := vias + [d];
    }

    method PushDestinationId(d: Destination)
      modifies this`dests
      ensures dests == old(dests) + [d]
    {
      dests := dests + [d];
    }

    method DecrementTTL()
      requires ttl > 0
      modifies this`ttl
      ensures ttl == old(ttl) - 1
    {
      ttl := ttl - 1;
    }

    /** A response's header, from the request's: the vias become the destinations, last first. */
    method CopyForwardingData(request: Message)
      requires dests == [] && request != this
      modifies this`overlay, this`transaction, this`dests
      ensures View() == old(View()).(overlay := request.overlay, transaction := request.transaction,
                                     dests := Reversed(request.vias))
    {
      overlay, transaction := request.overlay, request.transaction;
      var i := |request.vias|;
      assert request.vias[i..] == [];
      while i > 0
        invariant 0 <= i <= |request.vias| && dests == Reversed(request.vias[i..])
        invariant overlay == request.overlay && transaction == request.transaction
      {
        i := i - 1;
        assert request.vias[i..] == [request.vias[i]] + request.vias[i + 1..];
        PushDestinationId(request.vias[i]);
      }
      assert request.vias[0..] == request.vias;
    }
  }

  function Reversed<T>(s: seq<T>): (r: seq<T>)
    ensures |r| == |s|
  {
    if s == [] then [] else Reversed(s[1..]) + [s[0]]
  }

  datatype Fate = Posted | SentTo(next: nat) | Dropped | Aborted

  class ForwardingLayer {
    const node: Node

    constructor (n: Node)
      ensures node == n
    {
      node := n;
    }

    /** The loop pops this node's own entries; it ends, since every turn shortens the destination list. */
    method ForwardMessage(m: Message) returns (fate: Fate)
      modifies m`dests
      ensures match Forward(node, old(m.View()))
              case Post(h) => fate == Posted && m.View() == h
              case Send(next, h) => fate == SentTo(next) && m.View() == h
              case Drop => fate == Dropped
              case Abort => fate == Aborted
    {
      while true
        invariant Forward(node, m.View()) == Forward(node, old(m.View()))
        decreases |m.dests|
      {
        if m.dests == [] {
          return Aborted;
        }
        var did := m.dests[0];
        match did {
          case Compressed =>
            return Aborted;
          case Peer(id) =>
            if id == node.id {
              m.PopNextDestinationId();
              if m.dests == [] {
                return Posted;
              }
            } else {
              if node.connected(id) {
                return SentTo(id);
              } else if node.ownsNode(id) {
                return Dropped;
              }
              var next := node.nextHop(did);
              return if next.Some? then SentTo(next.value) else Aborted;
            }
          case Resource(name) =>
            if node.ownsResource(name) {
              m.PopNextDestinationId();
              return if m.dests == [] then Posted else Dropped;
            }
            var next := node.nextHop(did);
            return if next.Some? then SentTo(next.value) else Aborted;
        }
      }
    }

    /** sendImpl up to the socket: whether the message goes out. */
    method SendImpl(next: nat, m: Message) returns (sent: bool)
      modifies m`ttl
      ensures sent <==> Transmit(node, next, old(m.View())).Some?
      ensures sent ==> m.View() == Transmit(node, next, old(m.View())).value
    {
      if m.ttl <= 1 {
        return false;
      }
      m.DecrementTTL();
      return node.flows(next);
    }
  }

  // ---------------------------------------------------------------- journeys through a network

  /** What each node knows, by moment and name: tables may change at any time. */
  type Network = (nat, nat) -> Node

  ghost predicate Named(net: Network) {
    forall t, i :: net(t, i).id == i
  }

  datatype End = Delivered(h: Header) | Lost | Crashed

  /** The nodes a message visits from one that has it at a moment, a link at a time, and how that ends. Each arrival
      pushes the sender as a via. */
  function Journey(net: Network, t: nat, at: nat, h: Header): (j: (seq<nat>, End))
    ensures |j.0| >= 1 && j.0[0] == at
    ensures |j.0| - 1 <= if h.ttl == 0 then 0 else h.ttl - 1
    decreases h.ttl
  {
    match Forward(net(t, at), h)
    case Post(h') => ([at], Delivered(h'))
    case Drop => ([at], Lost)
    case Abort => ([at], Crashed)
    case Send(next, h') =>
      ForwardKeeps(net(t, at), h);
      match Transmit(net(t, at), next, h')
      case None => ([at], Lost)
      case Some(out) =>
        var (path, end) := Journey(net, t + 1, next, out.(vias := out.vias + [Peer(at)]));
        ([at] + path, end)
  }

  /** Forwarding only ever shortens the destination list. */
  lemma {:induction false} ForwardKeeps(n: Node, h: Header)
    ensures var d := Forward(n, h);
            (d.Post? || d.Send? ==> exists i :: 0 <= i <= |h.dests| && d.h == h.(dests := h.dests[i..]))
    ensures Forward(n, h).Post? ==> Forward(n, h).h.dests == []
    decreases |h.dests|
  {
    if h.dests != [] && h.dests[0] == Peer(n.id) && |h.dests| > 1 {
      var popped := h.(dests := h.dests[1..]);
      ForwardKeeps(n, popped);
      var d := Forward(n, popped);
      if d.Post? || d.Send? {
        var i :| 0 <= i <= |popped.dests| && d.h == popped.(dests := popped.dests[i..]);
        assert popped.dests[i..] == h.dests[i + 1..];
      }
    } else {
      assert h.dests[0..] == h.dests;
    }
  }

  /** In any network, however wrong its tables and however they change, a message crosses fewer links than its hop limit,
      and its journey ends: delivered with no destination left, lost, or in a failed assertion. */
  lemma {:induction false} BoundedForwarding(net: Network, t: nat, at: nat, h: Header)
    ensures var (path, end) := Journey(net, t, at, h);
            && (h.ttl >= 1 ==> |path| <= h.ttl)
            && (end.Delivered? ==> end.h.dests == [])
    decreases h.ttl
  {
    ForwardKeeps(net(t, at), h);
    match Forward(net(t, at), h)
    case Send(next, h') =>
      if Transmit(net(t, at), next, h').Some? {
        var out := Transmit(net(t, at), next, h').value;
        BoundedForwarding(net, t + 1, next, out.(vias := out.vias + [Peer(at)]));
      }
    case _ =>
  }

  /** Every link of a journey is crossed over a flow that the sending node then has to the next, and costs a hop. */
  lemma {:induction false} LinksAreFlows(net: Network, t: nat, at: nat, h: Header, i: nat)
    requires i + 1 < |Journey(net, t, at, h).0|
    ensures var path := Journey(net, t, at, h).0; net(t + i, path[i]).flows(path[i + 1])
    ensures i + 1 < h.ttl
    decreases h.ttl
  {
    ForwardKeeps(net(t, at), h);
    match Forward(net(t, at), h)
    case Send(next, h') =>
      if i > 0 {
        var out := Transmit(net(t, at), next, h').value;
        LinksAreFlows(net, t + 1, next, out.(vias := out.vias + [Peer(at)]), i - 1);
      }
  }

  /** A message carried through the network by its nodes' forwarding layers and transporters, as they run. */
  method Carry(net: Network, start: nat, from: nat, h: Header) returns (path: seq<nat>, end: End)
    ensures (path, end) == Journey(net, start, from, h)
  {
    var m := new Message(h.overlay, h.transaction);
    m.ttl, m.vias, m.dests := h.ttl, h.vias, h.dests;
    var t, at := start, from;
    path := [at];
    assert [] + Journey(net, t, at, h).0 == Journey(net, t, at, h).0;
    while true
      invariant |path| >= 1 && path[|path| - 1] == at
      invariant Journey(net, start, from, h) ==
                (Front(path) + Journey(net, t, at, m.View()).0, Journey(net, t, at, m.View()).1)
      decreases m.ttl
    {
      ghost var before := m.View();
      ghost var limit := m.ttl;
      ForwardKeeps(net(t, at), before);
      assert Front(path) + [at] == path;
      var layer := new ForwardingLayer(net(t, at));
      var fate := layer.ForwardMessage(m);
      match fate {
        case Posted =>
          return path, Delivered(Header(m.ttl, m.overlay, m.transaction, m.vias, m.dests));
        case Dropped =>
          return path, Lost;
        case Aborted =>
          return path, Crashed;
        case SentTo(next) =>
          assert Forward(net(t, at), before).Send?;
          assert m.ttl == limit;
          var sent := layer.SendImpl(next, m);
          if !sent {
            return path, Lost;
          }
          m.PushVia(Peer(at));
          assert m.ttl < limit;
          ghost var onward := Journey(net, t + 1, next, m.View()).0;
          assert Journey(net, t, at, before).0 == [at] + onward;
          Regroup(Front(path), [at], onward);
          assert Front(path + [next]) == path;
          t, at := t + 1, next;
          path := path + [at];
      }
    }
  }

  function Peers(path: seq<nat>): (ps: seq<Destination>)
    ensures |ps| == |path|
  {
    seq(|path|, i requires 0 <= i < |path| => Peer(path[i]))
  }

  function Front<T>(s: seq<T>): seq<T>
    requires s != []
  {
    s[..|s| - 1]
  }

  /** A delivered message's vias are the nodes it came through, in order, and each link cost it one hop. */
  lemma {:induction false} ViasAreThePath(net: Network, t: nat, at: nat, h: Header)
    requires Journey(net, t, at, h).1.Delivered?
    ensures var (path, end) := Journey(net, t, at, h);
            && end.h.vias == h.vias + Peers(Front(path))
            && end.h.ttl == h.ttl - (|path| - 1)
            && end.h.overlay == h.overlay && end.h.transaction == h.transaction
    decreases h.ttl
  {
    ForwardKeeps(net(t, at), h);
    match Forward(net(t, at), h)
    case Post(_) =>
      assert Peers(Front([at])) == [];
    case Send(next, h') =>
      var out := Transmit(net(t, at), next, h').value;
      var sent := out.(vias := out.vias + [Peer(at)]);
      ViasAreThePath(net, t + 1, next, sent);
      var path := Journey(net, t + 1, next, sent).0;
      assert Peers(Front([at] + path)) == [Peer(at)] + Peers(Front(path));
      Regroup(h.vias, [Peer(at)], Peers(Front(path)));
  }

  // ---------------------------------------------------------------- the way back

  /** Every node on the way, when the message is back there, knows the one before it as directly connected and has a
      flow to it; the message starts back from the last one at moment t. */
  ghost predicate Reversible(net: Network, t: nat, path: seq<nat>) {
    forall i :: 0 < i < |path| ==> KnowsPrevious(net, t, path, i)
  }

  ghost predicate KnowsPrevious(net: Network, t: nat, path: seq<nat>, i: int)
    requires 0 < i < |path|
  {
    var node := net(t + (|path| - 1 - i), path[i]);
    path[i - 1] != path[i] && node.connected(path[i - 1]) && node.flows(path[i - 1])
  }

  /** A header whose destinations are the rest of a way back travels exactly that way. */
  lemma {:induction false} FollowsBack(net: Network, t: nat, path: seq<nat>, h: Header)
    requires Named(net) && Reversible(net, t, path) && |path| >= 1
    requires h.dests == Reversed(Peers(Front(path))) || h.dests == [Peer(path[|path| - 1])] + Reversed(Peers(Front(path)))
    requires h.dests != [] && h.ttl >= |path|
    ensures var (way, end) := Journey(net, t, path[|path| - 1], h);
            && way == Reversed(path)
            && end.Delivered? && end.h.dests == [] && end.h.ttl == h.ttl - (|path| - 1)
    decreases |path|
  {
    hide Forward, Reversed, Peers, Transmit, Reversible, KnowsPrevious;
    var at := path[|path| - 1];
    assert net(t, at).id == at;
    WayBack(path);
    if |path| == 1 {
      assert h.dests == [Peer(at)];
      FirstForeignDecides(net(t, at), h, 1);
    } else {
      var shorter := Front(path);
      var prev := shorter[|shorter| - 1];
      PreviousKnown(net, t, path);
      var rest := Reversed(Peers(shorter));
      var k := if h.dests == rest then 0 else 1;
      assert h.dests[k..] == rest && h.dests[k] == Peer(prev);
      FirstForeignDecides(net(t, at), h, k);
      var out := h.(dests := rest, ttl := h.ttl - 1);
      TransmitGoes(net(t, at), prev, h.(dests := rest));
      FollowsBack(net, t + 1, shorter, out.(vias := out.vias + [Peer(at)]));
    }
  }

  lemma TransmitGoes(n: Node, next: nat, h: Header)
    requires h.ttl > 1 && n.flows(next)
    ensures Transmit(n, next, h) == Some(h.(ttl := h.ttl - 1))
  {
  }

  lemma PreviousKnown(net: Network, t: nat, path: seq<nat>)
    requires Reversible(net, t, path) && |path| >= 2
    ensures var prev, at := path[|path| - 2], path[|path| - 1];
            prev != at && net(t, at).connected(prev) && net(t, at).flows(prev)
    ensures Reversible(net, t + 1, Front(path))
  {
    assert KnowsPrevious(net, t, path, |path| - 1);
    var later, shorter := t + 1, Front(path);
    forall i | 0 < i < |shorter| ensures KnowsPrevious(net, later, shorter, i) {
      assert KnowsPrevious(net, t, path, i);
    }
  }

  /** The lists along a way back: what is left to visit, and the nodes themselves in reverse. */
  lemma WayBack(path: seq<nat>)
    requires |path| >= 1
    ensures var shorter := Front(path);
            && Reversed(path) == [path[|path| - 1]] + Reversed(shorter)
            && (|path| == 1 ==> Reversed(Peers(shorter)) == [] && Reversed(path) == [path[0]])
            && (|path| >= 2 ==> Reversed(Peers(shorter)) == [Peer(shorter[|shorter| - 1])] + Reversed(Peers(Front(shorter))))
  {
    var shorter := Front(path);
    assert path == shorter + [path[|path| - 1]];
    ReversedLast(shorter, path[|path| - 1]);
    if |path| >= 2 {
      assert Peers(shorter) == Peers(Front(shorter)) + [Peer(shorter[|shorter| - 1])];
      ReversedLast(Peers(Front(shorter)), Peer(shorter[|shorter| - 1]));
    } else {
      assert shorter == [] && Peers(shorter) == [];
    }
  }

  lemma {:induction false} ReversedAt<T>(s: seq<T>, k: nat)
    requires k < |s|
    ensures Reversed(s)[k] == s[|s| - 1 - k]
  {
    if k < |s| - 1 {
      ReversedAt(s[1..], k);
    }
  }

  lemma {:induction false} ReversedLast<T>(s: seq<T>, x: T)
    ensures Reversed(s + [x]) == [x] + Reversed(s)
  {
    if s != [] {
      assert (s + [x])[1..] == s[1..] + [x];
      ReversedLast(s[1..], x);
      assert ([x] + Reversed(s[1..])) + [s[0]] == [x] + (Reversed(s[1..]) + [s[0]]);
    } else {
      assert [x][1..] == [];
    }
  }

  /** The header a response starts with. */
  function Response(request: Header): Header {
    Header(MESSAGE_TTL, request.overlay, request.transaction, [], Reversed(request.vias))
  }

  /** Reverse-path delivery: a request sent out with the standard hop limit and delivered over at least one link is
      answered over exactly the same nodes backwards, if each, when the answer comes by, knows the one before it; the
      answer reaches the sender with no destination left, and never runs out of hops. */
  lemma ResponseFollowsRequestBack(net: Network, t0: nat, from: nat, h: Header, t: nat)
    requires Named(net) && h.ttl == MESSAGE_TTL && h.vias == []
    requires Journey(net, t0, from, h).1.Delivered? && |Journey(net, t0, from, h).0| >= 2
    requires Reversible(net, t, Journey(net, t0, from, h).0)
    ensures var (path, end) := Journey(net, t0, from, h);
            var (way, end') := Journey(net, t, path[|path| - 1], Response(end.h));
            && way == Reversed(path) && path[0] == from
            && end'.Delivered? && end'.h.dests == [] && end'.h.transaction == h.transaction
            && end'.h.ttl == MESSAGE_TTL - (|path| - 1) >= 1
  {
    var (path, end) := Journey(net, t0, from, h);
    ViasAreThePath(net, t0, from, h);
    assert [] + Peers(Front(path)) == Peers(Front(path));
    var r := Response(end.h);
    assert r.dests != [];
    FollowsBack(net, t, path, r);
    ViasAreThePath(net, t, path[|path| - 1], r);
  }

  /** A response to a request without vias has no destination, and forwarding it fails an assertion. */
  lemma NoViasCrashes(net: Network, t: nat, at: nat, request: Header)
    requires request.vias == []
    ensures Journey(net, t, at, Response(request)) == ([at], Crashed)
  {
  }

  /** In a network where everybody is connected to everybody, every path without standing still can be gone back. */
  lemma ConnectedIsReversible(net: Network, t: nat, path: seq<nat>)
    requires forall u, i, j :: net(u, i).connected(j) && net(u, i).flows(j)
    requires forall i :: 0 < i < |path| ==> path[i - 1] != path[i]
    ensures Reversible(net, t, path)
  {
    forall i | 0 < i < |path| ensures KnowsPrevious(net, t, path, i) {
    }
  }

  /** What a responder can test on the request it holds: its response gets through, back to the sender, exactly when the
      request has a via. */
  lemma ResponseGetsThroughExactlyWhenVias(net: Network, t0: nat, from: nat, h: Header, t: nat)
    requires Named(net) && h.ttl == MESSAGE_TTL && h.vias == [] && Journey(net, t0, from, h).1.Delivered?
    requires Reversible(net, t, Journey(net, t0, from, h).0)
    ensures var (path, end) := Journey(net, t0, from, h);
            var (way, end') := Journey(net, t, path[|path| - 1], Response(end.h));
            end'.Delivered? && way == Reversed(path) && path[0] == from <==> end.h.vias != []
  {
    var (path, end) := Journey(net, t0, from, h);
    ViasAreThePath(net, t0, from, h);
    assert end.h.vias == Peers(Front(path));
    if |path| >= 2 {
      ResponseFollowsRequestBack(net, t0, from, h, t);
    } else {
      NoViasCrashes(net, t, path[|path| - 1], end.h);
    }
  }

  /** A request that cannot be answered: one addressed to the node that sends it. */
  lemma SelfAddressedCrashes(net: Network, t0: nat, from: nat, h: Header, t: nat)
    requires Named(net) && h.vias == [] && h.dests == [Peer(from)]
    ensures Journey(net, t0, from, h) == ([from], Delivered(h.(dests := [])))
    ensures Journey(net, t, from, Response(h.(dests := []))) == ([from], Crashed)
  {
    assert net(t0, from).id == from;
    FirstForeignDecides(net(t0, from), h, 1);
    NoViasCrashes(net, t, from, h.(dests := []));
  }
}
