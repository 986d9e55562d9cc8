/** RELOAD structures as p2p/s2c generates their coders: length-prefixed fields, nested lists, selects on an earlier
    enumeration, and structures that carry their own length. One schema stands for one generated class. */
module Reload {
  import opened Wire

  datatype Schema =
    | Nothing
    | UInt(width: nat)
    | Enum(width: nat)                                   // a later select in the same structure switches on it
    | Opaque(width: nat)
    | List(width: nat, elem: Schema)
    | Struct(body: Schema)
    | Then(first: Schema, rest: Schema)
    | Case(value: nat, arm: Schema, others: Schema)
    | NoCase                                             // the default of a select: an assertion fails
    | AutoLen(width: nat, rest: Schema)                  // the rest of the structure, behind its length

  datatype Value =
    | Unit
    | Num(n: nat)
    | Data(b: Bytes)
    | Items(vs: seq<Value>)
    | Pair(fst: Value, snd: Value)

  /** What a select would switch on after a field. */
  function Tag(s: Schema, tag: nat, v: Value): nat {
    match s
    case Enum(_) => if v.Num? then v.n else 0
    case Then(first, rest) => if v.Pair? then Tag(rest, Tag(first, tag, v.fst), v.snd) else tag
    case Case(c, arm, others) => if tag == c then Tag(arm, tag, v) else Tag(others, tag, v)
    case AutoLen(_, rest) => Tag(rest, tag, v)
    case _ => tag
  }

  /** A value with the structure's members, arms and elements. */
  predicate Shaped(s: Schema, tag: nat, v: Value) {
    match s
    case Nothing => v == Unit
    case UInt(_) => v.Num?
    case Enum(_) => v.Num?
    case Opaque(_) => v.Data?
    case List(_, e) => v.Items? && forall i :: 0 <= i < |v.vs| ==> Shaped(e, 0, v.vs[i])
    case Struct(b) => Shaped(b, 0, v)
    case Then(first, rest) => v.Pair? && Shaped(first, tag, v.fst) && Shaped(rest, Tag(first, tag, v.fst), v.snd)
    case Case(c, arm, others) => if tag == c then Shaped(arm, tag, v) else Shaped(others, tag, v)
    case NoCase => false
    case AutoLen(_, rest) => Shaped(rest, tag, v)
  }

  /** The pure length-prefixed form. */
  function Enc(s: Schema, tag: nat, v: Value): Bytes
    requires Shaped(s, tag, v)
    decreases s, 0, v
  {
    match s
    case Nothing => []
    case UInt(w) => BE(w, v.n)
    case Enum(w) => BE(w, v.n)
    case Opaque(w) => BE(w, |v.b|) + v.b
    case List(w, e) => var items := EncItems(e, v.vs); BE(w, |items|) + items
    case Struct(b) => Enc(b, 0, v)
    case Then(first, rest) => Enc(first, tag, v.fst) + Enc(rest, Tag(first, tag, v.fst), v.snd)
    case Case(c, arm, others) => if tag == c then Enc(arm, tag, v) else Enc(others, tag, v)
    case AutoLen(w, rest) => var inner := Enc(rest, tag, v); BE(w, |inner|) + inner
  }

  function EncItems(e: Schema, vs: seq<Value>): Bytes
    requires forall i :: 0 <= i < |vs| ==> Shaped(e, 0, vs[i])
    decreases e, 1, |vs|
  {
    if vs == [] then [] else Enc(e, 0, vs[0]) + EncItems(e, vs[1..])
  }

  /** Every number, length and nested length fits its field, and no list element takes no octets. */
  predicate Fits(s: Schema, tag: nat, v: Value)
    requires Shaped(s, tag, v)
  {
    match s
    case Nothing => true
    case UInt(w) => v.n < Pow256(w)
    case Enum(w) => v.n < Pow256(w)
    case Opaque(w) => |v.b| < Pow256(w)
    case List(w, e) =>
      && |EncItems(e, v.vs)| < Pow256(w)
      && forall i :: 0 <= i < |v.vs| ==> Fits(e, 0, v.vs[i]) && Enc(e, 0, v.vs[i]) != []
    case Struct(b) => Fits(b, 0, v)
    case Then(first, rest) => Fits(first, tag, v.fst) && Fits(rest, Tag(first, tag, v.fst), v.snd)
    case Case(c, arm, others) => if tag == c then Fits(arm, tag, v) else Fits(others, tag, v)
    case AutoLen(w, rest) => |Enc(rest, tag, v)| < Pow256(w) && Fits(rest, tag, v)
  }

  /** What the generator accepts: one length per structure, and every list length takes at least an octet. */
  predicate Legal(s: Schema, inAuto: bool) {
    match s
    case List(w, e) => w >= 1 && Legal(e, false)
    case Struct(b) => Legal(b, false)
    case Then(first, rest) => Legal(first, inAuto) && Legal(rest, inAuto)
    case Case(_, arm, others) => Legal(arm, inAuto) && Legal(others, inAuto)
    case AutoLen(_, rest) => !inAuto && Legal(rest, true)
    case _ => true
  }

  // ---------------------------------------------------------------- decoding

  /** The stream a decoder was given and, behind a length of the structure's own, the one it cut from it. */
  datatype In = In(auto: Option<Bytes>, outer: Bytes)

  function Current(s: In): Bytes {
    if s.auto.Some? then s.auto.value else s.outer
  }

  function Advance(s: In, rest: Bytes): In {
    if s.auto.Some? then s.(auto := Some(rest)) else s.(outer := rest)
  }

  datatype Got = Got(v: Value, tag: nat, left: In)

  /** A number of w octets at the front. */
  function TakeNum(b: Bytes, w: nat): Option<(nat, Bytes)> {
    if |b| < w then None else Some((Val(b[..w]), b[w..]))
  }

  /** Octets behind their length. */
  function TakeData(b: Bytes, w: nat): Option<(Bytes, Bytes)> {
    match TakeNum(b, w)
    case None => None
    case Some((n, rest)) => if |rest| < n then None else Some((rest[..n], rest[n..]))
  }

  /** Decoding; None is an exception or a failed assertion. Lists are read from the stream the decoder was given,
      even behind a length of the structure's own. */
  function Dec(s: Schema, tag: nat, st: In): Option<Got>
    decreases s, 0, 0
  {
    match s
    case Nothing => Some(Got(Unit, tag, st))
    case UInt(w) =>
      (match TakeNum(Current(st), w)
       case None => None
       case Some((n, rest)) => Some(Got(Num(n), tag, Advance(st, rest))))
    case Enum(w) =>
      (match TakeNum(Current(st), w)
       case None => None
       case Some((n, rest)) => Some(Got(Num(n), n, Advance(st, rest))))
    case Opaque(w) =>
      (match TakeData(Current(st), w)
       case None => None
       case Some((d, rest)) => Some(Got(Data(d), tag, Advance(st, rest))))
    case List(w, e) =>
      (match TakeData(st.outer, w)
       case None => None
       case Some((d, rest)) =>
         match DecItems(e, d)
         case None => None
         case Some(vs) => Some(Got(Items(vs), tag, st.(outer := rest))))
    case Struct(b) =>
      (match Dec(b, 0, In(None, Current(st)))
       case None => None
       case Some(g) => Some(Got(g.v, tag, Advance(st, g.left.outer))))
    case Then(first, rest) =>
      (match Dec(first, tag, st)
       case None => None
       case Some(g) =>
         match Dec(rest, g.tag, g.left)
         case None => None
         case Some(h) => Some(Got(Pair(g.v, h.v), h.tag, h.left)))
    case Case(c, arm, others) => if tag == c then Dec(arm, tag, st) else Dec(others, tag, st)
    case NoCase => None
    case AutoLen(w, rest) =>
      if st.auto.Some? then None
      else match TakeData(st.outer, w)
           case None => None
           case Some((d, left)) =>
             match Dec(rest, tag, In(Some(d), left))
             case None => None
             case Some(g) => if g.left.auto == Some([]) then Some(g.(left := g.left.(auto := None))) else None
  }

  /** Elements until the octets run out. One that takes none would be read for ever. */
  function DecItems(e: Schema, d: Bytes): Option<seq<Value>>
    decreases e, 1, |d|
  {
    if d == [] then Some([])
    else match Dec(e, 0, In(None, d))
         case None => None
         case Some(g) =>
           if |g.left.outer| >= |d| then None
           else match DecItems(e, g.left.outer)
                case None => None
                case Some(vs) => Some([g.v] + vs)
  }

  // ---------------------------------------------------------------- when a value reads back

  /** A list in play directly behind the structure's own length, not inside a structure of its own. */
  predicate DirectList(s: Schema, tag: nat, v: Value)
    requires Shaped(s, tag, v)
  {
    match s
    case List(_, _) => true
    case Then(first, rest) => DirectList(first, tag, v.fst) || DirectList(rest, Tag(first, tag, v.fst), v.snd)
    case Case(c, arm, others) => if tag == c then DirectList(arm, tag, v) else DirectList(others, tag, v)
    case AutoLen(_, rest) => DirectList(rest, tag, v)
    case _ => false
  }

  /** Somewhere in the value such a list is in play. */
  predicate Misread(s: Schema, tag: nat, v: Value)
    requires Shaped(s, tag, v)
  {
    match s
    case List(_, e) => exists i :: 0 <= i < |v.vs| && Misread(e, 0, v.vs[i])
    case Struct(b) => Misread(b, 0, v)
    case Then(first, rest) => Misread(first, tag, v.fst) || Misread(rest, Tag(first, tag, v.fst), v.snd)
    case Case(c, arm, others) => if tag == c then Misread(arm, tag, v) else Misread(others, tag, v)
    case AutoLen(_, rest) => DirectList(rest, tag, v) || Misread(rest, tag, v)
    case _ => false
  }

  lemma NumReadsBack(w: nat, n: nat, tail: Bytes)
    requires n < Pow256(w)
    ensures TakeNum(BE(w, n) + tail, w) == Some((n, tail))
  {
    ReadBack(w, n);
    SplitConcat(BE(w, n), tail);
  }

  lemma DataReadsBack(w: nat, d: Bytes, tail: Bytes)
    requires |d| < Pow256(w)
    ensures TakeData(BE(w, |d|) + d + tail, w) == Some((d, tail))
  {
    Regroup(BE(w, |d|), d, tail);
    NumReadsBack(w, |d|, d + tail);
    SplitConcat(d, tail);
  }

  /** Outside lists behind an own length, what was encoded at the front of the stream is read back exactly. */
  lemma {:induction false} ReadsBack(s: Schema, tag: nat, v: Value, st: In, tail: Bytes)
    requires Shaped(s, tag, v) && Fits(s, tag, v) && Legal(s, st.auto.Some?) && !Misread(s, tag, v)
    requires st.auto.Some? ==> !DirectList(s, tag, v)
    requires Current(st) == Enc(s, tag, v) + tail
    ensures Dec(s, tag, st) == Some(Got(v, Tag(s, tag, v), Advance(st, tail)))
    decreases s, 0, v
  {
    match s
    case Nothing =>
      assert [] + tail == tail;
    case UInt(w) => NumReadsBack(w, v.n, tail);
    case Enum(w) => NumReadsBack(w, v.n, tail);
    case Opaque(w) => DataReadsBack(w, v.b, tail);
    case List(w, e) =>
      DataReadsBack(w, EncItems(e, v.vs), tail);
      ItemsReadBack(e, v.vs);
    case Struct(b) => ReadsBack(b, 0, v, In(None, Current(st)), tail);
    case Then(first, rest) =>
      var tag' := Tag(first, tag, v.fst);
      var more := Enc(rest, tag', v.snd) + tail;
      Regroup(Enc(first, tag, v.fst), Enc(rest, tag', v.snd), tail);
      ReadsBack(first, tag, v.fst, st, more);
      ReadsBack(rest, tag', v.snd, Advance(st, more), tail);
    case Case(c, arm, others) =>
      if tag == c {
        ReadsBack(arm, tag, v, st, tail);
      } else {
        ReadsBack(others, tag, v, st, tail);
      }
    case AutoLen(w, rest) =>
      var inner := Enc(rest, tag, v);
      DataReadsBack(w, inner, tail);
      assert inner + [] == inner;
      ReadsBack(rest, tag, v, In(Some(inner), tail), []);
  }

  lemma {:induction false} ItemsReadBack(e: Schema, vs: seq<Value>)
    requires Legal(e, false) && forall i :: 0 <= i < |vs| ==> Shaped(e, 0, vs[i])
    requires forall i :: 0 <= i < |vs| ==> Fits(e, 0, vs[i]) && Enc(e, 0, vs[i]) != [] && !Misread(e, 0, vs[i])
    ensures DecItems(e, EncItems(e, vs)) == Some(vs)
    decreases e, 1, vs
  {
    hide Enc, Dec, Fits, Misread, Shaped, Legal;
    if vs != [] {
      var d := EncItems(e, vs);
      ReadsBack(e, 0, vs[0], In(None, d), EncItems(e, vs[1..]));
      ItemsReadBack(e, vs[1..]);
      assert vs == [vs[0]] + vs[1..];
    }
  }

  // ---------------------------------------------------------------- what a decoder takes

  /** Octets of the encoding outside and inside lists in play directly in the structure. */
  function Around(s: Schema, tag: nat, v: Value): nat
    requires Shaped(s, tag, v)
  {
    match s
    case List(_, _) => 0
    case Then(first, rest) => Around(first, tag, v.fst) + Around(rest, Tag(first, tag, v.fst), v.snd)
    case Case(c, arm, others) => if tag == c then Around(arm, tag, v) else Around(others, tag, v)
    case _ => |Enc(s, tag, v)|
  }

  function Inside(s: Schema, tag: nat, v: Value): nat
    requires Shaped(s, tag, v)
  {
    match s
    case List(_, _) => |Enc(s, tag, v)|
    case Then(first, rest) => Inside(first, tag, v.fst) + Inside(rest, Tag(first, tag, v.fst), v.snd)
    case Case(c, arm, others) => if tag == c then Inside(arm, tag, v) else Inside(others, tag, v)
    case _ => 0
  }

  lemma {:induction false} AroundAndInside(s: Schema, tag: nat, v: Value)
    requires Shaped(s, tag, v) && Legal(s, true)
    ensures Around(s, tag, v) + Inside(s, tag, v) == |Enc(s, tag, v)|
    ensures DirectList(s, tag, v) ==> Inside(s, tag, v) > 0
  {
    match s
    case Then(first, rest) =>
      AroundAndInside(first, tag, v.fst);
      AroundAndInside(rest, Tag(first, tag, v.fst), v.snd);
    case Case(c, arm, others) =>
      if tag == c {
        AroundAndInside(arm, tag, v);
      } else {
        AroundAndInside(others, tag, v);
      }
    case _ =>
  }

  /** g is a value of the schema that took its encoding's octets from the streams. */
  predicate Took(s: Schema, tag: nat, st: In, g: Got) {
    && Shaped(s, tag, g.v) && g.tag == Tag(s, tag, g.v)
    && match st.auto
       case None => g.left.auto.None? && |st.outer| == |g.left.outer| + |Enc(s, tag, g.v)|
       case Some(d) =>
         && g.left.auto.Some? && |d| == |g.left.auto.value| + Around(s, tag, g.v)
         && |st.outer| == |g.left.outer| + Inside(s, tag, g.v)
  }

  lemma LeafTakes(s: Schema, tag: nat, st: In)
    requires (s.UInt? || s.Enum? || s.Opaque? || s.Nothing?) && Dec(s, tag, st).Some?
    ensures Took(s, tag, st, Dec(s, tag, st).value)
  {
  }

  lemma ListTakes(w: nat, e: Schema, tag: nat, st: In)
    requires Dec(List(w, e), tag, st).Some?
    requires var d := TakeData(st.outer, w).value.0;
             var vs := DecItems(e, d).value;
             (forall i :: 0 <= i < |vs| ==> Shaped(e, 0, vs[i])) && |EncItems(e, vs)| == |d|
    ensures Took(List(w, e), tag, st, Dec(List(w, e), tag, st).value)
  {
  }

  lemma StructTakes(b: Schema, tag: nat, st: In)
    requires Dec(b, 0, In(None, Current(st))).Some?
    requires Took(b, 0, In(None, Current(st)), Dec(b, 0, In(None, Current(st))).value)
    ensures Took(Struct(b), tag, st, Dec(Struct(b), tag, st).value)
  {
  }

  lemma ThenTakes(first: Schema, rest: Schema, tag: nat, st: In)
    requires Dec(first, tag, st).Some?
    requires var g := Dec(first, tag, st).value;
             Took(first, tag, st, g) && Dec(rest, g.tag, g.left).Some? && Took(rest, g.tag, g.left, Dec(rest, g.tag, g.left).value)
    ensures Took(Then(first, rest), tag, st, Dec(Then(first, rest), tag, st).value)
  {
  }

  lemma AutoTakes(w: nat, rest: Schema, tag: nat, st: In)
    requires Legal(rest, true) && Dec(AutoLen(w, rest), tag, st).Some?
    requires var (d, left) := TakeData(st.outer, w).value;
             Took(rest, tag, In(Some(d), left), Dec(rest, tag, In(Some(d), left)).value)
    ensures Took(AutoLen(w, rest), tag, st, Dec(AutoLen(w, rest), tag, st).value)
  {
    var (d, left) := TakeData(st.outer, w).value;
    AroundAndInside(rest, tag, Dec(rest, tag, In(Some(d), left)).value.v);
  }

  lemma CaseTakes(c: nat, arm: Schema, others: Schema, tag: nat, st: In)
    requires Dec(Case(c, arm, others), tag, st).Some?
    requires var s := if tag == c then arm else others; Took(s, tag, st, Dec(s, tag, st).value)
    ensures Took(Case(c, arm, others), tag, st, Dec(Case(c, arm, others), tag, st).value)
  {
  }

  /** Whatever decodes, decodes to a value of the schema, taking exactly as many octets as its encoding has. */
  lemma {:induction false} DecTakes(s: Schema, tag: nat, st: In)
    requires Legal(s, st.auto.Some?) && Dec(s, tag, st).Some?
    ensures Took(s, tag, st, Dec(s, tag, st).value)
    decreases s, 0, 0
  {
    hide Took, Enc, Around, Inside, Shaped;
    match s
    case Struct(b) =>
      DecTakes(b, 0, In(None, Current(st)));
      StructTakes(b, tag, st);
    case List(w, e) =>
      ItemsTake(e, TakeData(st.outer, w).value.0);
      ListTakes(w, e, tag, st);
    case Then(first, rest) =>
      var g := Dec(first, tag, st).value;
      DecTakes(first, tag, st);
      TookSide(first, tag, st, g);
      DecTakes(rest, g.tag, g.left);
      ThenTakes(first, rest, tag, st);
    case Case(c, arm, others) =>
      if tag == c {
        DecTakes(arm, tag, st);
      } else {
        DecTakes(others, tag, st);
      }
      CaseTakes(c, arm, others, tag, st);
    case AutoLen(w, rest) =>
      var (d, left) := TakeData(st.outer, w).value;
      DecTakes(rest, tag, In(Some(d), left));
      AutoTakes(w, rest, tag, st);
    case _ => LeafTakes(s, tag, st);
  }

  lemma TookSide(s: Schema, tag: nat, st: In, g: Got)
    requires Took(s, tag, st, g)
    ensures g.left.auto.Some? == st.auto.Some?
  {
  }

  lemma {:induction false} ItemsTake(e: Schema, d: Bytes)
    requires Legal(e, false) && DecItems(e, d).Some?
    ensures var vs := DecItems(e, d).value;
            (forall i :: 0 <= i < |vs| ==> Shaped(e, 0, vs[i])) && |EncItems(e, vs)| == |d|
    decreases e, 1, |d|
  {
    if d != [] {
      var g := Dec(e, 0, In(None, d)).value;
      DecTakes(e, 0, In(None, d));
      ItemsTake(e, g.left.outer);
      var more := DecItems(e, g.left.outer).value;
      assert ([g.v] + more)[1..] == more;
    }
  }

  // ---------------------------------------------------------------- and when it does not read back

  lemma {:induction false} NeverReadsBack(s: Schema, tag: nat, v: Value, st: In, tail: Bytes)
    requires Shaped(s, tag, v) && Fits(s, tag, v) && Legal(s, st.auto.Some?) && Misread(s, tag, v)
    requires st.auto.Some? ==> !DirectList(s, tag, v)
    requires Current(st) == Enc(s, tag, v) + tail
    ensures Dec(s, tag, st).None? || Dec(s, tag, st).value.v != v
    decreases s, 0, v
  {
    match s
    case List(w, e) =>
      DataReadsBack(w, EncItems(e, v.vs), tail);
      ItemsNeverReadBack(e, v.vs);
    case Struct(b) => NeverReadsBack(b, 0, v, In(None, Current(st)), tail);
    case Then(first, rest) =>
      var tag' := Tag(first, tag, v.fst);
      var more := Enc(rest, tag', v.snd) + tail;
      Regroup(Enc(first, tag, v.fst), Enc(rest, tag', v.snd), tail);
      if Misread(first, tag, v.fst) {
        NeverReadsBack(first, tag, v.fst, st, more);
      } else {
        ReadsBack(first, tag, v.fst, st, more);
        NeverReadsBack(rest, tag', v.snd, Advance(st, more), tail);
      }
    case Case(c, arm, others) =>
      if tag == c {
        NeverReadsBack(arm, tag, v, st, tail);
      } else {
        NeverReadsBack(others, tag, v, st, tail);
      }
    case AutoLen(w, rest) =>
      var inner := Enc(rest, tag, v);
      DataReadsBack(w, inner, tail);
      if DirectList(rest, tag, v) {
        var inside := In(Some(inner), tail);
        if Dec(rest, tag, inside).Some? {
          DecTakes(rest, tag, inside);
          AroundAndInside(rest, tag, v);
        }
      } else {
        assert inner + [] == inner;
        NeverReadsBack(rest, tag, v, In(Some(inner), tail), []);
      }
  }

  lemma {:induction false} ItemsNeverReadBack(e: Schema, vs: seq<Value>)
    requires Legal(e, false) && forall i :: 0 <= i < |vs| ==> Shaped(e, 0, vs[i])
    requires forall i :: 0 <= i < |vs| ==> Fits(e, 0, vs[i]) && Enc(e, 0, vs[i]) != []
    requires exists i :: 0 <= i < |vs| && Misread(e, 0, vs[i])
    ensures DecItems(e, EncItems(e, vs)) != Some(vs)
    decreases e, 1, vs
  {
    hide Enc, Dec, Fits, Misread, Shaped, Legal;
    var d := EncItems(e, vs);
    if Misread(e, 0, vs[0]) {
      NeverReadsBack(e, 0, vs[0], In(None, d), EncItems(e, vs[1..]));
    } else {
      ReadsBack(e, 0, vs[0], In(None, d), EncItems(e, vs[1..]));
      ItemsNeverReadBack(e, vs[1..]);
      assert vs == [vs[0]] + vs[1..];
    }
  }

  /** Encoding and decoding give back the same value and leave what follows it untouched exactly when no list stands
      directly behind its structure's own length. */
  lemma RoundTripExactlyWhen(s: Schema, v: Value, tail: Bytes)
    requires Legal(s, false) && Shaped(s, 0, v) && Fits(s, 0, v)
    ensures Dec(s, 0, In(None, Enc(s, 0, v) + tail)) == Some(Got(v, Tag(s, 0, v), In(None, tail))) <==> !Misread(s, 0, v)
  {
    var st := In(None, Enc(s, 0, v) + tail);
    if Misread(s, 0, v) {
      NeverReadsBack(s, 0, v, st, tail);
    } else {
      ReadsBack(s, 0, v, st, tail);
    }
  }
}
