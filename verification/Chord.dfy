/** Next-hop choice on the Chord ring: 128-bit names as two 64-bit words, and the scan of the ordered finger table. */
module Chord {
  import opened Wire

  const WORD := 0x1_0000_0000_0000_0000
  const RING := 0x1_0000_0000_0000_0000_0000_0000_0000_0000

  type Word = x: int | 0 <= x < 0x1_0000_0000_0000_0000

  datatype NodeId = NodeId(high: Word, low: Word)

  /** The comparison operators, word by word. */
  predicate Less(a: NodeId, b: NodeId) {
    a.high < b.high || (a.high == b.high && a.low < b.low)
  }

  predicate Equal(a: NodeId, b: NodeId) {
    !Less(a, b) && !Less(b, a)
  }

  predicate LessEq(a: NodeId, b: NodeId) {
    Equal(a, b) || Less(a, b)
  }

  /** The name as one number. */
  function Number(a: NodeId): (n: nat)
    ensures n < RING
  {
    a.high * WORD + a.low
  }

  /** It is the number its sixteen octets on the wire spell. */
  lemma NumberIsOnTheWire(a: NodeId)
    ensures Val(BE(8, a.high) + BE(8, a.low)) == Number(a)
  {
    PowersOf256();
    ReadBack(8, a.high);
    ReadBack(8, a.low);
    ValConcat(BE(8, a.high), BE(8, a.low));
  }

  /** The word order is the order of the 128-bit numbers. */
  lemma WordOrderIsNumberOrder(a: NodeId, b: NodeId)
    ensures Less(a, b) <==> Number(a) < Number(b)
    ensures Equal(a, b) <==> Number(a) == Number(b)
    ensures Equal(a, b) <==> a == b
    ensures LessEq(a, b) <==> Number(a) <= Number(b)
  {
  }

  /** How far a target lies ahead of a finger, going round the ring upwards. */
  function Ahead(finger: NodeId, target: NodeId): (d: int)
    ensures 0 <= d < RING
  {
    (Number(target) - Number(finger)) % RING
  }

  lemma AheadIs(finger: NodeId, target: NodeId)
    ensures Ahead(finger, target) ==
            if Number(finger) <= Number(target) then Number(target) - Number(finger) else Number(target) - Number(finger) + RING
  {
  }

  /** The fingers as the ordered set iterates over them. */
  ghost predicate Ordered(fingers: seq<NodeId>) {
    forall i, j :: 0 <= i < j < |fingers| ==> Less(fingers[i], fingers[j])
  }

  ghost predicate Closest(fingers: seq<NodeId>, target: NodeId, hop: NodeId) {
    hop in fingers && forall f :: f in fingers ==> Ahead(hop, target) <= Ahead(f, target)
  }

  /** Closest behind the target means that no finger lies between it and the target, going up round the ring. */
  lemma ClosestExactlyWhenNoneBetween(fingers: seq<NodeId>, target: NodeId, hop: NodeId)
    ensures Closest(fingers, target, hop) <==>
              hop in fingers && forall f :: f in fingers ==>
                if Number(hop) <= Number(target) then !(Number(hop) < Number(f) <= Number(target))
                else Number(target) < Number(f) <= Number(hop)
  {
    AheadIs(hop, target);
    forall f | f in fingers
      ensures Ahead(hop, target) <= Ahead(f, target) <==>
                if Number(hop) <= Number(target) then !(Number(hop) < Number(f) <= Number(target))
                else Number(target) < Number(f) <= Number(hop)
    {
      AheadIs(f, target);
    }
    hide Ahead, Number;
  }

  lemma BetweenIsClosest(fingers: seq<NodeId>, target: NodeId, i: nat)
    requires Ordered(fingers) && i < |fingers|
    requires LessEq(fingers[i], target) && (i + 1 < |fingers| ==> Less(target, fingers[i + 1]))
    ensures Closest(fingers, target, fingers[i])
  {
    forall f | f in fingers ensures Ahead(fingers[i], target) <= Ahead(f, target) {
      var j :| 0 <= j < |fingers| && fingers[j] == f;
      WordOrderIsNumberOrder(fingers[i], target);
      AheadIs(fingers[i], target);
      AheadIs(f, target);
      WordOrderIsNumberOrder(fingers[i], f);
      WordOrderIsNumberOrder(f, fingers[i]);
      if i < j {
        WordOrderIsNumberOrder(target, fingers[i + 1]);
        WordOrderIsNumberOrder(fingers[i + 1], f);
        assert i + 1 < j ==> Less(fingers[i + 1], f);
      }
    }
  }

  /** The wrap: with the target below every finger, the greatest one is closest behind it. */
  lemma LastIsClosest(fingers: seq<NodeId>, target: NodeId)
    requires Ordered(fingers) && fingers != [] && Less(target, fingers[0])
    ensures Closest(fingers, target, fingers[|fingers| - 1])
  {
    var last := fingers[|fingers| - 1];
    forall f | f in fingers ensures Ahead(last, target) <= Ahead(f, target) {
      var j :| 0 <= j < |fingers| && fingers[j] == f;
      WordOrderIsNumberOrder(target, fingers[0]);
      WordOrderIsNumberOrder(fingers[0], f);
      WordOrderIsNumberOrder(fingers[0], last);
      WordOrderIsNumberOrder(f, last);
      AheadIs(last, target);
      AheadIs(f, target);
      assert j == 0 || Less(fingers[0], f);
      assert j == |fingers| - 1 || Less(f, last);
    }
  }

  /** The closest finger is unique: no two names are equally far behind a target. */
  lemma ClosestIsUnique(fingers: seq<NodeId>, target: NodeId, a: NodeId, b: NodeId)
    requires Closest(fingers, target, a) && Closest(fingers, target, b)
    ensures a == b
  {
    AheadIs(a, target);
    AheadIs(b, target);
    WordOrderIsNumberOrder(a, b);
  }

  class ChordTopology {
    /** In ascending order, as a set iterates. */
    var fingerTable: seq<NodeId>
    var nextTable: seq<NodeId>

    ghost predicate Valid()
      reads this
    {
      Ordered(fingerTable)
    }

    constructor ()
      ensures Valid() && fingerTable == [] && nextTable == []
    {
      fingerTable, nextTable := [], [];
    }

    /** A node is directly connected exactly when no finger, not even another one, comes closer to it than itself: then
        routing towards it ends with it. */
    method IsConnected(node: NodeId) returns (found: bool)
      ensures found <==> Closest(fingerTable, node, node)
    {
      found := node in fingerTable;
      AheadIs(node, node);
    }

    /** findNextHop for a node this one is not responsible for: with fingers, the one closest behind the target on
        the ring; without, the successor; with neither, a failed assertion. */
    method FindNextHop(node: NodeId) returns (hop: Option<NodeId>)
      requires Valid()
      ensures fingerTable != [] ==> hop.Some? && Closest(fingerTable, node, hop.value)
      ensures fingerTable == [] ==> hop == if nextTable == [] then None else Some(nextTable[0])
    {
      if |fingerTable| == 0 {
        return if |nextTable| == 0 then None else Some(nextTable[0]);
      }
      var it := 0;
      while it + 1 < |fingerTable|
        invariant it < |fingerTable|
        invariant it > 0 ==> Less(node, fingerTable[0]) || LessEq(fingerTable[it], node)
      {
        if LessEq(fingerTable[it], node) && Less(node, fingerTable[it + 1]) {
          BetweenIsClosest(fingerTable, node, it);
          return Some(fingerTable[it]);
        }
        NextFinger(fingerTable, node, it);
        it := it + 1;
      }
      WordOrderIsNumberOrder(fingerTable[it], node);
      WordOrderIsNumberOrder(node, fingerTable[it]);
      if Less(node, fingerTable[0]) {
        LastIsClosest(fingerTable, node);
      } else {
        BetweenIsClosest(fingerTable, node, it);
      }
      return Some(fingerTable[it]);
    }
  }

  lemma NextFinger(fingers: seq<NodeId>, node: NodeId, i: nat)
    requires Ordered(fingers) && i + 1 < |fingers|
    requires i > 0 ==> Less(node, fingers[0]) || LessEq(fingers[i], node)
    requires !(LessEq(fingers[i], node) && Less(node, fingers[i + 1]))
    ensures Less(node, fingers[0]) || LessEq(fingers[i + 1], node)
  {
    WordOrderIsNumberOrder(fingers[i], node);
    WordOrderIsNumberOrder(node, fingers[i]);
    WordOrderIsNumberOrder(node, fingers[i + 1]);
    WordOrderIsNumberOrder(fingers[i + 1], node);
  }
}
