/** Octets, big-endian integers and bitwise exclusive-or, as every codec below uses them. */
module Wire {

  type Byte = x: int | 0 <= x < 256
  type Bytes = seq<Byte>

  datatype Option<+T> = None | Some(value: T)

  function Pow256(n: nat): (p: nat)
    ensures p > 0
  {
    if n == 0 then 1 else 256 * Pow256(n - 1)
  }

  /** The low n octets of v, most significant first. A value that needs more octets loses its high ones. */
  function BE(n: nat, v: nat): (b: Bytes)
    ensures |b| == n
  {
    if n == 0 then [] else BE(n - 1, v / 256) + [v % 256]
  }

  function Val(b: Bytes): (v: nat)
    ensures v < Pow256(|b|)
  {
    if b == [] then 0 else 256 * Val(b[..|b| - 1]) + b[|b| - 1]
  }

  lemma {:induction false} ValOfBE(n: nat, v: nat)
    ensures Val(BE(n, v)) == v % Pow256(n)
  {
    if n > 0 {
      var b := BE(n, v);
      assert b[..n - 1] == BE(n - 1, v / 256);
      ValOfBE(n - 1, v / 256);
      ModSplit(v, Pow256(n - 1));
    }
  }

  lemma ModSplit(v: nat, p: nat)
    requires p > 0
    ensures v % (256 * p) == 256 * ((v / 256) % p) + v % 256
  {
    var q, r := v / 256, v % 256;
    var k, s := q / p, q % p;
    assert v == 256 * (k * p + s) + r;
    assert v == k * (256 * p) + (256 * s + r) by { assert 256 * (k * p) == k * (256 * p); }
    assert 256 * s + r < 256 * p;
    DivModUnique(v, 256 * p, k, 256 * s + r);
  }

  lemma DivModUnique(v: nat, d: nat, k: nat, r: nat)
    requires r < d
    requires v == k * d + r
    ensures v % d == r
  {
    var k', r' := v / d, v % d;
    assert (k - k') * d == r' - r && (k' - k) * d == r - r' by {
      assert v == k' * d + r';
      assert (k - k') * d == k * d - k' * d;
    }
    if k > k' {
      MulAtLeast(k - k', d);
    } else if k < k' {
      MulAtLeast(k' - k, d);
    }
  }

  lemma MulAtLeast(k: nat, d: nat)
    requires k >= 1
    ensures k * d >= d
  {
    assert k * d == (k - 1) * d + d;
  }

  lemma {:induction false} BEOfVal(b: Bytes)
    ensures BE(|b|, Val(b)) == b
  {
    if b != [] {
      BEOfVal(b[..|b| - 1]);
      assert b == b[..|b| - 1] + [b[|b| - 1]];
    }
  }

  /** An n-octet field read back: exact when the value fits. */
  lemma ReadBack(n: nat, v: nat)
    requires v < Pow256(n)
    ensures Val(BE(n, v)) == v
  {
    ValOfBE(n, v);
    DivModUnique(v, Pow256(n), 0, v);
  }

  lemma PowersOf256()
    ensures Pow256(1) == 0x100 && Pow256(2) == 0x1_0000 && Pow256(3) == 0x100_0000
    ensures Pow256(4) == 0x1_0000_0000 && Pow256(8) == 0x1_0000_0000_0000_0000
  {
    assert Pow256(4) == 256 * Pow256(3) == 0x1_0000_0000;
    assert Pow256(6) == 256 * Pow256(5) == 0x1_0000_0000_0000;
  }

  /** A longer number's octets are those of its upper part, then of its lower. */
  lemma {:induction false} ValConcat(a: Bytes, b: Bytes)
    ensures Val(a + b) == Val(a) * Pow256(|b|) + Val(b)
    decreases |b|
  {
    if b == [] {
      assert a + b == a;
    } else {
      var front, last := b[..|b| - 1], b[|b| - 1];
      assert (a + b)[..|a + b| - 1] == a + front && (a + b)[|a + b| - 1] == last;
      ValConcat(a, front);
      assert Val(a + b) == 256 * Val(a + front) + last && Val(b) == 256 * Val(front) + last;
      ShiftProduct(Val(a), Pow256(|front|));
      assert Pow256(|b|) == 256 * Pow256(|front|);
      hide Val, Pow256;
    }
  }

  lemma ShiftProduct(v: nat, p: nat)
    ensures v * (256 * p) == 256 * (v * p)
  {
  }

  /** An octet of a big-endian number, by shifting. */
  lemma {:induction false} BEOctet(w: nat, v: nat, i: nat)
    requires i < w
    ensures BE(w, v)[i] == v / Pow256(w - 1 - i) % 256
    decreases w
  {
    if i < w - 1 {
      BEOctet(w - 1, v / 256, i);
      DivTwice(v, 256, Pow256(w - 2 - i));
    }
  }

  lemma DivTwice(v: nat, a: nat, b: nat)
    requires a > 0 && b > 0
    ensures a * b > 0 && v / a / b == v / (a * b)
  {
    var q, r := v / a, v % a;
    var k, t := q / b, q % b;
    assert v == a * (b * k + t) + r;
    assert a * (b * k + t) == (a * b) * k + a * t by { assert a * (b * k) == (a * b) * k; }
    assert a * t + r < a * b by { MulMonotone(a, t + 1, b); }
    DivUnique(v, a * b, k, a * t + r);
  }

  lemma MulMonotone(a: nat, x: nat, y: nat)
    requires x <= y
    ensures a * x <= a * y
  {
    assert a * y == a * x + a * (y - x);
  }

  lemma MulStrict(a: nat, x: nat, y: nat)
    ensures x < y ==> a * x + a <= a * y
  {
    if x < y {
      MulMonotone(a, x + 1, y);
    }
  }

  lemma DivUnique(v: nat, d: nat, k: nat, r: nat)
    requires d > 0 && r < d && v == d * k + r
    ensures v / d == k
  {
    DivModUnique(v, d, k, r);
    assert v == d * (v / d) + v % d;
    MulStrict(d, v / d, k);
    MulStrict(d, k, v / d);
  }

  // ---------------------------------------------------------------- concatenations

  lemma SplitConcat<T>(a: seq<T>, b: seq<T>)
    ensures (a + b)[..|a|] == a && (a + b)[|a|..] == b
  {
  }

  lemma Regroup<T>(a: seq<T>, b: seq<T>, c: seq<T>)
    ensures (a + b) + c == a + (b + c)
  {
  }

  /** The pieces of a four-part frame inside a longer string. */
  lemma Pieces<T>(before: seq<T>, a: seq<T>, b: seq<T>, c: seq<T>, d: seq<T>, after: seq<T>)
    ensures var s := before + ((a + b + c + d) + after);
            var i, j := |before| + |a|, |before| + |a| + |b|;
            && s[|before|..i] == a && s[i..j] == b && s[j..] == c + (d + after)
            && s[j + |c| + |d|..] == after
  {
  }

  lemma Headed<T>(a: seq<T>, b: seq<T>, c: seq<T>, rest: seq<T>)
    ensures var s := (a + b + c) + rest;
            var i, j := |a| + |b|, |a| + |b| + |c|;
            s[..|a|] == a && s[|a|..i] == b && s[i..j] == c && s[j..] == rest
  {
  }

  // ---------------------------------------------------------------- exclusive-or

  function Xor(a: nat, b: nat): (x: nat)
    decreases a + b
  {
    if a == 0 && b == 0 then 0 else (a % 2 + b % 2) % 2 + 2 * Xor(a / 2, b / 2)
  }

  lemma XorUnfold(a: nat, b: nat)
    ensures Xor(a, b) == (a % 2 + b % 2) % 2 + 2 * Xor(a / 2, b / 2)
  {
  }

  lemma {:induction false} XorInvolution(a: nat, b: nat)
    ensures Xor(Xor(a, b), b) == a
    decreases a + b
  {
    hide Xor;
    if a == 0 && b == 0 {
      XorZero();
    } else {
      var x, bit := Xor(a, b), (a % 2 + b % 2) % 2;
      XorUnfold(a, b);
      XorInvolution(a / 2, b / 2);
      Halves(bit, Xor(a / 2, b / 2));
      XorUnfold(x, b);
      BitTwice(a % 2, b % 2);
    }
  }

  lemma XorZero()
    ensures Xor(0, 0) == 0
  {
  }

  lemma BitTwice(p: nat, q: nat)
    requires p < 2 && q < 2
    ensures ((p + q) % 2 + q) % 2 == p
  {
  }

  lemma Halves(bit: nat, h: nat)
    requires bit < 2
    ensures (bit + 2 * h) / 2 == h && (bit + 2 * h) % 2 == bit
  {
  }

  function Pow2(n: nat): (p: nat)
    ensures p > 0
  {
    if n == 0 then 1 else 2 * Pow2(n - 1)
  }

  lemma {:induction false} XorBound(a: nat, b: nat, bits: nat)
    requires a < Pow2(bits) && b < Pow2(bits)
    ensures Xor(a, b) < Pow2(bits)
  {
    if bits > 0 && (a != 0 || b != 0) {
      XorBound(a / 2, b / 2, bits - 1);
    }
  }

  lemma Pow2Widths()
    ensures Pow2(8) == 0x100 && Pow2(16) == 0x1_0000 && Pow2(32) == 0x1_0000_0000
  {
    assert Pow2(8) == 2 * Pow2(7) && Pow2(4) == 16 && Pow2(6) == 64;
    Pow2Add(8, 8);
    Pow2Add(16, 16);
  }

  lemma {:induction false} Pow2Add(m: nat, n: nat)
    ensures Pow2(m + n) == Pow2(m) * Pow2(n)
  {
    if n > 0 {
      Pow2Add(m, n - 1);
      assert Pow2(m + n) == 2 * (Pow2(m) * Pow2(n - 1)) == Pow2(m) * (2 * Pow2(n - 1));
    }
  }

  function XorByte(a: Byte, b: Byte): (x: Byte)
  {
    Pow2Widths();
    XorBound(a, b, 8);
    Xor(a, b)
  }

  /** Octet-wise exclusive-or of two strings of equal length. */
  function XorBytes(a: Bytes, b: Bytes): (x: Bytes)
    requires |a| == |b|
    ensures |x| == |a|
  {
    seq(|a|, i requires 0 <= i < |a| => XorByte(a[i], b[i]))
  }

  lemma XorBytesInvolution(a: Bytes, b: Bytes)
    requires |a| == |b|
    ensures XorBytes(XorBytes(a, b), b) == a
  {
    forall i | 0 <= i < |a| ensures XorBytes(XorBytes(a, b), b)[i] == a[i] {
      XorInvolution(a[i], b[i]);
    }
  }

  /** Bit k of a number. */
  predicate Bit(n: nat, k: nat) {
    if k == 0 then n % 2 == 1 else Bit(n / 2, k - 1)
  }

  /** Exclusive-or, bit by bit: set exactly where one of the two is. */
  lemma {:induction false} XorIsBitwise(a: nat, b: nat, k: nat)
    ensures Bit(Xor(a, b), k) <==> Bit(a, k) != Bit(b, k)
    decreases k
  {
    XorUnfold(a, b);
    Halves((a % 2 + b % 2) % 2, Xor(a / 2, b / 2));
    hide Xor;
    if k > 0 {
      XorIsBitwise(a / 2, b / 2, k - 1);
    }
  }

  /** The k low bits of a number, and the others. */
  function Low(n: nat, k: nat): nat {
    if k == 0 then 0 else n % 2 + 2 * Low(n / 2, k - 1)
  }

  function High(n: nat, k: nat): nat {
    if k == 0 then n else High(n / 2, k - 1)
  }

  /** Exclusive-or acts on them apart. */
  lemma {:induction false} XorSplits(a: nat, b: nat, k: nat)
    ensures High(Xor(a, b), k) == Xor(High(a, k), High(b, k))
    ensures Low(Xor(a, b), k) == Xor(Low(a, k), Low(b, k))
    decreases k
  {
    hide Xor;
    if k == 0 {
      XorZero();
    } else {
      XorUnfold(a, b);
      Halves((a % 2 + b % 2) % 2, Xor(a / 2, b / 2));
      XorSplits(a / 2, b / 2, k - 1);
      XorUnfold(Low(a, k), Low(b, k));
      Halves(a % 2, Low(a / 2, k - 1));
      Halves(b % 2, Low(b / 2, k - 1));
    }
  }

  lemma TwoBits(n: nat, k: nat)
    ensures High(n, k + 2) == High(n / 4, k) && Low(n, k + 2) == n % 4 + 4 * Low(n / 4, k)
  {
    assert High(n, k + 2) == High(n / 2, k + 1) && Low(n, k + 2) == n % 2 + 2 * Low(n / 2, k + 1);
    assert n / 2 / 2 == n / 4 && n % 2 + 2 * (n / 2 % 2) == n % 4;
  }

  lemma FourBits(n: nat, k: nat)
    ensures High(n, k + 4) == High(n / 16, k) && Low(n, k + 4) == n % 16 + 16 * Low(n / 16, k)
  {
    TwoBits(n, k + 2);
    TwoBits(n / 4, k);
    hide High, Low;
    assert n / 4 / 4 == n / 16 && n % 4 + 4 * (n / 4 % 4) == n % 16;
  }

  lemma OctetSplits(n: nat)
    ensures High(n, 8) == n / 256 && Low(n, 8) == n % 256
  {
    assert forall m: nat :: High(m, 0) == m && Low(m, 0) == 0;
    hide High, Low;
    FourBits(n, 4);
    FourBits(n / 16, 0);
    assert n / 16 / 16 == n / 256 && n % 16 + 16 * (n / 16 % 16) == n % 256;
  }

  /** The octets of an exclusive-or are the exclusive-ors of the octets. */
  lemma {:induction false} XorOctets(n: nat, a: nat, b: nat)
    ensures BE(n, Xor(a, b)) == XorBytes(BE(n, a), BE(n, b))
  {
    hide Xor;
    if n > 0 {
      XorSplits(a, b, 8);
      OctetSplits(a);
      OctetSplits(b);
      OctetSplits(Xor(a, b));
      hide High, Low;
      XorOctets(n - 1, a / 256, b / 256);
      assert XorByte(a % 256, b % 256) == Xor(a % 256, b % 256);
    }
  }
}
