/** The generated coders as they run: encoding writes zeros for a length, goes on, and seeks back to patch it;
    decoding consumes streams octet by octet. Both are proved equal to the pure forms in Reload. */
module ReloadStreams {
  import opened Wire
  import opened Reload

  // ---------------------------------------------------------------- output

  /** Octets with some of them, from a position on, written over; the end moves if the new ones reach past it. */
  function Written(buf: Bytes, pos: nat, x: Bytes): (r: Bytes)
    requires pos <= |buf|
    ensures |r| == if pos + |x| > |buf| then pos + |x| else |buf|
  {
    buf[..pos] + x + if pos + |x| < |buf| then buf[pos + |x|..] else []
  }

  class OutStream {
    var buf: Bytes
    var pos: nat

    ghost predicate Valid()
      reads this
    {
      pos <= |buf|
    }

    constructor ()
      ensures Valid() && buf == [] && pos == 0
    {
      buf, pos := [], 0;
    }

    method Put(c: Byte)
      requires Valid()
      modifies this
      ensures Valid() && buf == Written(old(buf), old(pos), [c]) && pos == old(pos) + 1
    {
      if pos < |buf| {
        buf := buf[pos := c];
      } else {
        buf := buf + [c];
      }
      pos := pos + 1;
    }

    method PutAll(x: Bytes)
      requires Valid()
      modifies this
      ensures Valid() && buf == Written(old(buf), old(pos), x) && pos == old(pos) + |x|
    {
      ghost var buf0 := buf;
      assert Written(buf, pos, []) == buf;
      for i := 0 to |x|
        invariant Valid() && pos == old(pos) + i && buf == Written(buf0, old(pos), x[..i])
      {
        WrittenOnward(buf0, old(pos), x[..i], [x[i]]);
        assert x[..i + 1] == x[..i] + [x[i]];
        Put(x[i]);
      }
      assert x[..|x|] == x;
    }

    /** encode_uintX: octets of the value from the highest of the field down. */
    method EncodeUInt(width: nat, value: nat)
      requires Valid()
      modifies this
      ensures Valid() && buf == Written(old(buf), old(pos), BE(width, value)) && pos == old(pos) + width
    {
      ghost var buf0 := buf;
      assert Written(buf, pos, []) == buf;
      for i := 0 to width
        invariant Valid() && pos == old(pos) + i && buf == Written(buf0, old(pos), BE(width, value)[..i])
      {
        BEOctet(width, value, i);
        var c := value / Pow256(width - 1 - i) % 256;
        WrittenOnward(buf0, old(pos), BE(width, value)[..i], [c]);
        assert BE(width, value)[..i + 1] == BE(width, value)[..i] + [c];
        Put(c);
      }
      assert BE(width, value)[..width] == BE(width, value);
    }

    method SeekP(p: nat)
      requires p <= |buf|
      modifies this`pos
      ensures Valid() && pos == p
    {
      pos := p;
    }
  }

  lemma WrittenOnward(buf: Bytes, pos: nat, x: Bytes, y: Bytes)
    requires pos <= |buf|
    ensures Written(Written(buf, pos, x), pos + |x|, y) == Written(buf, pos, x + y)
  {
  }

  lemma WrittenAtEnd(buf: Bytes, x: Bytes)
    ensures Written(buf, |buf|, x) == buf + x
  {
    assert buf[..|buf|] == buf;
  }

  /** Zeros patched over with the length that follows them. */
  lemma Patched(buf: Bytes, zeros: Bytes, inner: Bytes, len: Bytes)
    requires |len| == |zeros|
    ensures Written(buf + zeros + inner, |buf|, len) == buf + (len + inner)
  {
    var all := buf + zeros + inner;
    assert all[..|buf|] == buf;
    assert all[|buf| + |len|..] == inner;
    Regroup(buf, len, inner);
  }

  function Zeros(n: nat): (z: Bytes)
    ensures |z| == n
  {
    seq(n, _ => 0)
  }

  lemma {:induction false} ItemsOneMore(e: Schema, vs: seq<Value>, i: nat)
    requires i < |vs| && forall j :: 0 <= j < |vs| ==> Shaped(e, 0, vs[j])
    ensures EncItems(e, vs[..i + 1]) == EncItems(e, vs[..i]) + Enc(e, 0, vs[i])
    decreases i
  {
    if i == 0 {
      assert vs[..1][1..] == [] && vs[..0] == [];
      assert Enc(e, 0, vs[0]) + [] == [] + Enc(e, 0, vs[0]);
    } else {
      ItemsOneMore(e, vs[1..], i - 1);
      assert vs[..i + 1][1..] == vs[1..][..i] && vs[..i][1..] == vs[1..][..i - 1];
      Regroup(Enc(e, 0, vs[0]), EncItems(e, vs[1..][..i - 1]), Enc(e, 0, vs[i]));
    }
  }

  /** Every generated encoder, at the end of a stream: it appends the pure length-prefixed form. */
  method Encode(s: Schema, tag: nat, v: Value, out: OutStream)
    requires Shaped(s, tag, v) && out.pos == |out.buf|
    modifies out
    ensures out.pos == |out.buf| && out.buf == old(out.buf) + Enc(s, tag, v)
    decreases s, 0
  {
    match s {
      case Nothing =>
        assert out.buf + [] == out.buf;
      case UInt(w) =>
        WrittenAtEnd(out.buf, BE(w, v.n));
        out.EncodeUInt(w, v.n);
      case Enum(w) =>
        WrittenAtEnd(out.buf, BE(w, v.n));
        out.EncodeUInt(w, v.n);
      case Opaque(w) =>
        WrittenAtEnd(out.buf, BE(w, |v.b|));
        WrittenAtEnd(out.buf + BE(w, |v.b|), v.b);
        Regroup(out.buf, BE(w, |v.b|), v.b);
        out.EncodeUInt(w, |v.b|);
        out.PutAll(v.b);
      case List(w, e) =>
        EncodeList(w, e, v.vs, out);
      case Struct(b) =>
        Encode(b, 0, v, out);
      case Then(first, rest) =>
        Regroup(out.buf, Enc(first, tag, v.fst), Enc(rest, Tag(first, tag, v.fst), v.snd));
        Encode(first, tag, v.fst, out);
        Encode(rest, Tag(first, tag, v.fst), v.snd, out);
      case Case(c, arm, others) =>
        if tag == c {
          Encode(arm, tag, v, out);
        } else {
          Encode(others, tag, v, out);
        }
      case AutoLen(w, rest) =>
        EncodeAutoLen(w, rest, tag, v, out);
    }
  }

  /** A list: zeros, the elements, and back to patch the length. */
  method EncodeList(w: nat, e: Schema, vs: seq<Value>, out: OutStream)
    requires (forall i :: 0 <= i < |vs| ==> Shaped(e, 0, vs[i])) && out.pos == |out.buf|
    modifies out
    ensures out.pos == |out.buf|
    ensures out.buf == old(out.buf) + (BE(w, |EncItems(e, vs)|) + EncItems(e, vs))
    decreases e, 1
  {
    ghost var start := out.buf;
    var pos1 := out.pos;
    WrittenAtEnd(out.buf, Zeros(w));
    out.PutAll(Zeros(w));
    ghost var head := out.buf;
    assert vs[..0] == [] && head + [] == head;
    for i := 0 to |vs|
      invariant out.pos == |out.buf| && out.buf == head + EncItems(e, vs[..i])
    {
      ItemsOneMore(e, vs, i);
      Regroup(head, EncItems(e, vs[..i]), Enc(e, 0, vs[i]));
      Encode(e, 0, vs[i], out);
    }
    assert vs[..|vs|] == vs;
    var pos2 := out.pos;
    Patched(start, Zeros(w), EncItems(e, vs), BE(w, |EncItems(e, vs)|));
    out.SeekP(pos1);
    out.EncodeUInt(w, pos2 - pos1 - w);
    out.SeekP(pos2);
  }

  /** A structure's own length: zeros, the rest of the structure, and back to patch it. */
  method EncodeAutoLen(w: nat, rest: Schema, tag: nat, v: Value, out: OutStream)
    requires Shaped(rest, tag, v) && out.pos == |out.buf|
    modifies out
    ensures out.pos == |out.buf|
    ensures out.buf == old(out.buf) + (BE(w, |Enc(rest, tag, v)|) + Enc(rest, tag, v))
    decreases rest, 1
  {
    ghost var start := out.buf;
    var pos1 := out.pos;
    WrittenAtEnd(out.buf, Zeros(w));
    out.PutAll(Zeros(w));
    Encode(rest, tag, v, out);
    var pos2 := out.pos;
    Patched(start, Zeros(w), Enc(rest, tag, v), BE(w, |Enc(rest, tag, v)|));
    out.SeekP(pos1);
    out.EncodeUInt(w, pos2 - pos1 - w);
    out.SeekP(pos2);
  }

  // ---------------------------------------------------------------- input

  class InStream {
    const data: Bytes
    var pos: nat

    ghost predicate Valid()
      reads this
    {
      pos <= |data|
    }

    ghost function Rest(): Bytes
      requires Valid()
      reads this
    {
      data[pos..]
    }

    constructor (d: Bytes)
      ensures Valid() && data == d && pos == 0 && Rest() == d
    {
      data, pos := d, 0;
    }

    method AtEnd() returns (eof: bool)
      requires Valid()
      ensures eof <==> Rest() == []
    {
      eof := pos == |data|;
    }

    method Get() returns (c: Option<Byte>)
      requires Valid()
      modifies this`pos
      ensures Valid()
      ensures match c case None => old(Rest()) == [] && Rest() == [] case Some(x) => old(Rest()) == [x] + Rest()
    {
      if pos == |data| {
        return None;
      }
      c := Some(data[pos]);
      pos := pos + 1;
    }

    /** decode_uintX: shift and add, octet by octet. */
    method DecodeUInt(width: nat) returns (n: Option<nat>)
      requires Valid()
      modifies this`pos
      ensures Valid()
      ensures match n
              case None => TakeNum(old(Rest()), width) == None
              case Some(k) => TakeNum(old(Rest()), width) == Some((k, Rest()))
    {
      ghost var b := Rest();
      var value := 0;
      assert b[..0] == [];
      for i := 0 to width
        invariant Valid() && i <= |b| && Rest() == b[i..] && value == Val(b[..i])
      {
        var c := Get();
        if c == None {
          return None;
        }
        value := 256 * value + c.value;
        assert b[..i + 1][..i] == b[..i] && b[i..][0] == c.value;
      }
      n := Some(value);
    }

    /** Octets behind their length: read_varray1, and the loop generated for opaque members. */
    method ReadVarray(width: nat) returns (d: Option<Bytes>)
      requires Valid()
      modifies this`pos
      ensures Valid()
      ensures match d
              case None => TakeData(old(Rest()), width) == None
              case Some(x) => TakeData(old(Rest()), width) == Some((x, Rest()))
    {
      var len := DecodeUInt(width);
      if len == None {
        return None;
      }
      ghost var b := Rest();
      var x: Bytes := [];
      for i := 0 to len.value
        invariant Valid() && i <= |b| && Rest() == b[i..] && x == b[..i]
      {
        var c := Get();
        if c == None {
          return None;
        }
        assert b[..i + 1] == b[..i] + [b[i..][0]];
        x := x + [c.value];
      }
      d := Some(x);
    }
  }

  /** The pure state of a decoder's two streams. */
  ghost function Streams(auto: InStream?, given: InStream): In
    requires given.Valid() && (auto != null ==> auto.Valid())
    reads given, if auto == null then {} else {auto}
  {
    In(if auto == null then None else Some(auto.Rest()), given.Rest())
  }

  /** What a decoder gave: nothing after an exception, or a value, the switch tag, and the streams where they are. */
  ghost predicate Gave(d: Option<Got>, v: Option<Value>, tag: nat, left: In) {
    match v
    case None => d == None
    case Some(x) => d == Some(Got(x, tag, left))
  }

  /** Every generated decoder. */
  method Decode(s: Schema, tag: nat, auto: InStream?, given: InStream) returns (v: Option<Value>, tag': nat)
    requires given.Valid() && (auto != null ==> auto.Valid() && auto != given)
    modifies given, if auto == null then {} else {auto}
    ensures given.Valid() && (auto != null ==> auto.Valid())
    ensures Gave(Dec(s, tag, old(Streams(auto, given))), v, tag', Streams(auto, given))
    decreases s, 0, 0
  {
    v, tag' := None, tag;
    var current := if auto == null then given else auto;
    match s {
      case Nothing =>
        v := Some(Unit);
      case UInt(w) =>
        var n := current.DecodeUInt(w);
        if n.Some? {
          v := Some(Num(n.value));
        }
      case Enum(w) =>
        var n := current.DecodeUInt(w);
        if n.Some? {
          v, tag' := Some(Num(n.value)), n.value;
        }
      case Opaque(w) =>
        var d := current.ReadVarray(w);
        if d.Some? {
          v := Some(Data(d.value));
        }
      case List(w, e) =>
        var d := given.ReadVarray(w);
        if d.Some? {
          var vs := DecodeItems(e, d.value);
          if vs.Some? {
            v := Some(Items(vs.value));
          }
        }
      case Struct(b) =>
        var inner;
        v, inner := Decode(b, 0, null, current);
      case Then(first, rest) =>
        var x, y;
        x, tag' := Decode(first, tag, auto, given);
        if x.Some? {
          y, tag' := Decode(rest, tag', auto, given);
          if y.Some? {
            v := Some(Pair(x.value, y.value));
          }
        }
      case Case(c, arm, others) =>
        if tag == c {
          v, tag' := Decode(arm, tag, auto, given);
        } else {
          v, tag' := Decode(others, tag, auto, given);
        }
      case NoCase =>
      case AutoLen(w, rest) =>
        if auto == null {
          var d := given.ReadVarray(w);
          if d.Some? {
            var own := new InStream(d.value);
            v, tag' := Decode(rest, tag, own, given);
            var eof := own.AtEnd();
            if !eof {
              v := None;
            }
          }
        }
    }
  }

  /** The loop generated for a list: elements until the octets it was given run out. */
  method DecodeItems(e: Schema, d: Bytes) returns (vs: Option<seq<Value>>)
    ensures vs == DecItems(e, d)
    decreases e, 1, |d|
  {
    var in2 := new InStream(d);
    var done: seq<Value> := [];
    var eof := in2.AtEnd();
    assert match DecItems(e, d) case None => true case Some(more) => [] + more == more;
    while !eof
      invariant in2.Valid() && fresh(in2) && (eof <==> in2.Rest() == [])
      invariant DecItems(e, d) == match DecItems(e, in2.Rest()) case None => None case Some(more) => Some(done + more)
      decreases |in2.Rest()|
    {
      ghost var before := in2.Rest();
      var at := in2.pos;
      var v, _ := Decode(e, 0, null, in2);
      if v.None? || in2.pos <= at {
        return None;
      }
      ItemsOnward(e, before, in2.Rest(), done, v.value);
      done := done + [v.value];
      eof := in2.AtEnd();
    }
    assert done + [] == done;
    vs := Some(done);
  }

  lemma ItemsOnward(e: Schema, before: Bytes, after: Bytes, done: seq<Value>, v: Value)
    requires before != [] && |after| < |before|
    requires exists tag :: Dec(e, 0, In(None, before)) == Some(Got(v, tag, In(None, after)))
    ensures match DecItems(e, after)
            case None => DecItems(e, before) == None
            case Some(more) => DecItems(e, before) == Some([v] + more) && done + ([v] + more) == (done + [v]) + more
  {
  }

  /** The generated copy constructor: encode, then decode into the new object. It gives back what it was given
      exactly when no list stands directly behind its structure's own length. */
  method Copy(s: Schema, v: Value) returns (copy: Option<Value>)
    requires Legal(s, false) && Shaped(s, 0, v) && Fits(s, 0, v)
    ensures copy == Some(v) <==> !Misread(s, 0, v)
  {
    var out := new OutStream();
    Encode(s, 0, v, out);
    var given := new InStream(out.buf);
    assert out.buf == Enc(s, 0, v) + [];
    CopyDecides(s, v);
    var last;
    copy, last := Decode(s, 0, null, given);
  }

  lemma CopyDecides(s: Schema, v: Value)
    requires Legal(s, false) && Shaped(s, 0, v) && Fits(s, 0, v)
    ensures var d := Dec(s, 0, In(None, Enc(s, 0, v) + []));
            (d.Some? && d.value.v == v) <==> !Misread(s, 0, v)
  {
    if Misread(s, 0, v) {
      NeverReadsBack(s, 0, v, In(None, Enc(s, 0, v) + []), []);
    } else {
      ReadsBack(s, 0, v, In(None, Enc(s, 0, v) + []), []);
    }
  }
}
