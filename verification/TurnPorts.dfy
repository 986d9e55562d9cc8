/** Relay ports: one transport's half of TurnManager. A circular 16-bit cursor scans a map from port to state. */
module TurnPorts {

  datatype PortState = Unallocated | Allocated | Reserved

  /** The range has an even least and an odd greatest port, and leaves 0 free to mean "none". */
  datatype Range = Range(min: nat, max: nat)

  predicate ValidRange(r: Range) {
    2 <= r.min < r.max <= 65535 && r.min % 2 == 0 && r.max % 2 == 1
  }

  /** The port map and the port handed out or looked at last. */
  datatype Pool = Pool(ports: map<nat, PortState>, last: nat)

  ghost predicate ValidPool(r: Range, p: Pool) {
    && ValidRange(r)
    && (forall n :: n in p.ports <==> r.min <= n <= r.max)
    && r.min - 1 <= p.last <= r.max
  }

  function FreePorts(lo: nat, hi: nat): (m: map<nat, PortState>)
    ensures forall n :: n in m <==> lo <= n < hi
    ensures forall n :: n in m ==> m[n] == Unallocated
  {
    if hi <= lo then map[] else FreePorts(lo, hi - 1)[hi - 1 := Unallocated]
  }

  function Fresh(r: Range): Pool
    requires ValidRange(r)
  {
    Pool(FreePorts(r.min, r.max + 1), r.min - 1)
  }

  /** advanceLastAllocatedPort, in 16-bit arithmetic. */
  function Advance(r: Range, last: nat, step: nat): nat
    requires r.max <= 65535
  {
    var c := (last + step) % 0x1_0000;
    if c > r.max then (r.min + (c - r.max - 1)) % 0x1_0000
    else if c == 0 then r.min
    else c
  }

  // ---------------------------------------------------------------- what a scan should find

  datatype Want = AnyPort | EvenPort | EvenPair

  predicate Suits(r: Range, ports: map<nat, PortState>, want: Want, p: nat) {
    && p in ports && ports[p] == Unallocated
    && (want != AnyPort ==> p % 2 == 0)
    && (want == EvenPair ==> p + 1 in ports && ports[p + 1] == Unallocated)
  }

  function Size(r: Range): nat
    requires r.min <= r.max
  {
    r.max - r.min + 1
  }

  /** How many single steps lead from the cursor to a port, going round the end of the range. */
  function Distance(r: Range, last: nat, p: nat): int
    requires r.min <= r.max
  {
    if p > last then p - last else p - last + Size(r)
  }

  /** The port d single steps after the cursor. */
  function PortAt(r: Range, last: nat, d: nat): (p: nat)
    requires ValidRange(r) && r.min - 1 <= last <= r.max && 1 <= d <= Size(r)
    ensures r.min <= p <= r.max && Distance(r, last, p) == d
  {
    if last + d > r.max then last + d - Size(r) else last + d
  }

  /** One step of the cursor, or two from an even port: also where the range ends at 65535 and 16 bits wrap. */
  lemma CursorStep(r: Range, c: nat, step: nat)
    requires ValidRange(r) && r.min - 1 <= c <= r.max
    requires step == 1 || (step == 2 && c % 2 == 0 && r.min <= c)
    ensures Advance(r, c, step) == if c + step > r.max then c + step - Size(r) else c + step
  {
    if c + step <= 65535 {
      assert (c + step) % 0x1_0000 == c + step;
    } else {
      assert c + step == 0x1_0000;
    }
  }

  lemma AdvanceOne(r: Range, last: nat, d: nat)
    requires ValidRange(r) && r.min - 1 <= last <= r.max && 1 <= d <= Size(r)
    ensures Advance(r, last, 1) == PortAt(r, last, 1)
    ensures Advance(r, PortAt(r, last, d), 1) == PortAt(r, last, if d == Size(r) then 1 else d + 1)
  {
    hide Advance;
    CursorStep(r, last, 1);
    CursorStep(r, PortAt(r, last, d), 1);
  }

  lemma AdvanceTwo(r: Range, last: nat, d: nat)
    requires ValidRange(r) && r.min - 1 <= last <= r.max && 1 <= d <= Size(r) && PortAt(r, last, d) % 2 == 0
    ensures Advance(r, PortAt(r, last, d), 2) == PortAt(r, last, if d + 2 > Size(r) then d + 2 - Size(r) else d + 2)
  {
    hide Advance;
    CursorStep(r, PortAt(r, last, d), 2);
  }

  /** The first suitable port at distance d or more; 0 if there is none. */
  function Choose(r: Range, pool: Pool, want: Want, d: nat): nat
    requires ValidRange(r) && r.min - 1 <= pool.last <= r.max && 1 <= d <= Size(r) + 1
    decreases Size(r) + 1 - d
  {
    if d > Size(r) then 0
    else if Suits(r, pool.ports, want, PortAt(r, pool.last, d)) then PortAt(r, pool.last, d)
    else Choose(r, pool, want, d + 1)
  }

  lemma {:induction false} ChooseFrom(r: Range, pool: Pool, want: Want, d: nat)
    requires ValidPool(r, pool) && 1 <= d <= Size(r) + 1
    ensures var p := Choose(r, pool, want, d);
            && (p == 0 <==> forall q :: Suits(r, pool.ports, want, q) ==> Distance(r, pool.last, q) < d)
            && (p != 0 ==> Suits(r, pool.ports, want, p) && d <= Distance(r, pool.last, p))
            && (p != 0 ==> forall q :: Suits(r, pool.ports, want, q) && d <= Distance(r, pool.last, q) ==>
                             Distance(r, pool.last, p) <= Distance(r, pool.last, q))
    decreases Size(r) + 1 - d
  {
    if d <= Size(r) {
      ChooseFrom(r, pool, want, d + 1);
      var p := PortAt(r, pool.last, d);
      forall q | q in pool.ports && Distance(r, pool.last, q) == d ensures q == p {
      }
    }
  }

  /** A scan fails exactly when nothing suits; otherwise it finds the suitable port nearest after the cursor. */
  lemma ScanIsComplete(r: Range, pool: Pool, want: Want)
    requires ValidPool(r, pool)
    ensures var p := Choose(r, pool, want, 1);
            && (p == 0 <==> forall q :: !Suits(r, pool.ports, want, q))
            && (p != 0 ==> Suits(r, pool.ports, want, p) && r.min <= p <= r.max)
            && (p != 0 ==> forall q :: Suits(r, pool.ports, want, q) ==>
                             Distance(r, pool.last, p) <= Distance(r, pool.last, q))
  {
    ChooseFrom(r, pool, want, 1);
  }

  /** The distance of the first port a scan looks at. */
  function First(r: Range, last: nat, want: Want): nat
    requires ValidRange(r) && r.min - 1 <= last <= r.max
  {
    if want == AnyPort || PortAt(r, last, 1) % 2 == 0 then 1 else 2
  }

  function Taken(pool: Pool, want: Want, p: nat): Pool {
    Pool(if want == EvenPair then pool.ports[p := Allocated][p + 1 := Reserved] else pool.ports[p := Allocated], p)
  }

  /** Port and pool after allocateAnyPort, allocateEvenPort or allocateEvenPortPair. */
  function Allocate(r: Range, pool: Pool, want: Want): (nat, Pool)
    requires ValidRange(r) && r.min - 1 <= pool.last <= r.max
  {
    var p := Choose(r, pool, want, 1);
    if p == 0 then (0, pool.(last := PortAt(r, pool.last, First(r, pool.last, want))))
    else (p, Taken(pool, want, p))
  }

  /** allocatePort with the reserved flag: only a reserved port in range is granted. */
  function Claim(r: Range, pool: Pool, p: nat): (bool, Pool) {
    if r.min <= p <= r.max && p in pool.ports && pool.ports[p] == Reserved
    then (true, pool.(ports := pool.ports[p := Allocated])) else (false, pool)
  }

  /** deallocatePort: the port, and with an even port the odd one still reserved beside it. */
  function Release(r: Range, pool: Pool, p: nat): Pool {
    if !(r.min <= p <= r.max) then pool
    else
      var ports := pool.ports[p := Unallocated];
      pool.(ports := if p % 2 == 0 && p + 1 in ports && ports[p + 1] == Reserved then ports[p + 1 := Unallocated] else ports)
  }

  // ---------------------------------------------------------------- the scans as they run

  /** No port at a smaller distance suits. */
  ghost predicate Passed(r: Range, pool: Pool, want: Want, d: nat)
    requires ValidRange(r) && r.min - 1 <= pool.last <= r.max
  {
    forall e: nat {:trigger PortAt(r, pool.last, e)} :: 1 <= e < d && e <= Size(r) ==> !Suits(r, pool.ports, want, PortAt(r, pool.last, e))
  }

  lemma {:induction false} ChooseFound(r: Range, pool: Pool, want: Want, from: nat, d: nat)
    requires ValidRange(r) && r.min - 1 <= pool.last <= r.max && 1 <= from <= d <= Size(r) + 1
    requires Passed(r, pool, want, d)
    ensures Choose(r, pool, want, from) == Choose(r, pool, want, d)
    decreases d - from
  {
    if from < d {
      assert !Suits(r, pool.ports, want, PortAt(r, pool.last, from));
      ChooseFound(r, pool, want, from + 1, d);
    }
  }

  lemma NothingLeft(r: Range, pool: Pool, want: Want)
    requires ValidRange(r) && r.min - 1 <= pool.last <= r.max && Passed(r, pool, want, Size(r) + 1)
    ensures Allocate(r, pool, want) == (0, pool.(last := PortAt(r, pool.last, First(r, pool.last, want))))
  {
    ChooseFound(r, pool, want, 1, Size(r) + 1);
  }

  lemma FoundAt(r: Range, pool: Pool, want: Want, d: nat)
    requires ValidRange(r) && r.min - 1 <= pool.last <= r.max && 1 <= d <= Size(r) && Passed(r, pool, want, d)
    requires Suits(r, pool.ports, want, PortAt(r, pool.last, d))
    ensures Allocate(r, pool, want) == (PortAt(r, pool.last, d), Taken(pool, want, PortAt(r, pool.last, d)))
  {
    ChooseFound(r, pool, want, 1, d);
  }

  /** One more port looked at in vain. */
  lemma OneMore(r: Range, pool: Pool, want: Want, d: nat)
    requires ValidRange(r) && r.min - 1 <= pool.last <= r.max && 1 <= d <= Size(r) && Passed(r, pool, want, d)
    requires !Suits(r, pool.ports, want, PortAt(r, pool.last, d))
    ensures Passed(r, pool, want, d + 1)
  {
    hide Suits, PortAt, ValidRange;
  }

  /** An odd port is never wanted by the even scans. */
  lemma OddPassed(r: Range, pool: Pool, want: Want, d: nat)
    requires ValidRange(r) && r.min - 1 <= pool.last <= r.max && 1 <= d <= Size(r) && Passed(r, pool, want, d)
    requires want != AnyPort && PortAt(r, pool.last, d) % 2 == 1
    ensures Passed(r, pool, want, d + 1)
  {
    OneMore(r, pool, want, d);
  }

  /** The cursor at a distance of d, on an even port, every port before it looked at or odd. */
  ghost predicate AtEven(r: Range, pool: Pool, want: Want, d: nat) {
    && ValidRange(r) && r.min - 1 <= pool.last <= r.max && want != AnyPort
    && First(r, pool.last, want) <= d <= Size(r) && d % 2 == First(r, pool.last, want) % 2
    && PortAt(r, pool.last, d) % 2 == 0
    && Passed(r, pool, want, d)
  }

  lemma StepParity(r: Range, last: nat, d: nat)
    requires ValidRange(r) && r.min - 1 <= last <= r.max && 1 <= d < Size(r)
    ensures (PortAt(r, last, d) % 2 == 0) != (PortAt(r, last, d + 1) % 2 == 0)
  {
  }

  lemma SizeEven(r: Range)
    requires ValidRange(r)
    ensures Size(r) % 2 == 0 && 2 <= Size(r)
  {
  }

  /** Two steps on from an even port in vain: round to where the scan began, or on to the next even one. */
  lemma NextEven(r: Range, pool: Pool, want: Want, d: nat)
    requires AtEven(r, pool, want, d) && !Suits(r, pool.ports, want, PortAt(r, pool.last, d))
    ensures var next := Advance(r, PortAt(r, pool.last, d), 2);
            if next == PortAt(r, pool.last, First(r, pool.last, want)) then Passed(r, pool, want, Size(r) + 1)
            else AtEven(r, pool, want, d + 2) && next == PortAt(r, pool.last, d + 2)
  {
    var last := pool.last;
    var k := First(r, last, want);
    AdvanceTwo(r, last, d);
    SizeEven(r);
    OneMore(r, pool, want, d);
    if d + 1 <= Size(r) {
      StepParity(r, last, d);
      OddPassed(r, pool, want, d + 1);
    }
    if d + 2 <= Size(r) {
      StepParity(r, last, d + 1);
    }
    hide Advance, Suits, PortAt;
  }

  lemma FirstEven(r: Range, pool: Pool, want: Want)
    requires ValidRange(r) && r.min - 1 <= pool.last <= r.max && want != AnyPort
    ensures AtEven(r, pool, want, First(r, pool.last, want))
  {
    SizeEven(r);
    StepParity(r, pool.last, 1);
    if PortAt(r, pool.last, 1) % 2 != 0 {
      OddPassed(r, pool, want, 1);
    }
  }

  class TurnManager {
    const range: Range
    var ports: map<nat, PortState>
    var last: nat

    ghost function State(): Pool
      reads this
    {
      Pool(ports, last)
    }

    ghost predicate Valid()
      reads this
    {
      ValidPool(range, State())
    }

    constructor (r: Range)
      requires ValidRange(r)
      ensures Valid() && range == r && State() == Fresh(r)
    {
      range := r;
      last := r.min - 1;
      var all: map<nat, PortState> := map[];
      var i := r.min;
      while i <= r.max && i != 0
        invariant (r.min <= i <= r.max + 1 && i < 0x1_0000) || (i == 0 && r.max == 65535)
        invariant all == FreePorts(r.min, if i == 0 then 0x1_0000 else i)
        decreases if i == 0 then 0 else r.max + 1 - i + 1
      {
        all := all[i := Unallocated];
        i := (i + 1) % 0x1_0000;
      }
      ports := all;
    }

    method AllocateAnyPort() returns (port: nat)
      requires Valid()
      modifies this
      ensures Valid() && (port, State()) == Allocate(range, old(State()), AnyPort)
    {
      ghost var start := State();
      var startPort := Advance(range, last, 1);
      last := startPort;
      AdvanceOne(range, start.last, 1);
      ghost var d := 1;
      hide PortAt, Advance, Choose, Allocate, Passed, Suits;
      while ports[last] != Unallocated
        invariant 1 <= d <= Size(range) && last == PortAt(range, start.last, d)
        invariant ports == start.ports && Passed(range, start, AnyPort, d)
        decreases Size(range) - d
      {
        OneMore(range, start, AnyPort, d);
        AdvanceOne(range, start.last, d);
        last := Advance(range, last, 1);
        if last == startPort {
          NothingLeft(range, start, AnyPort);
          return 0;
        }
        d := d + 1;
      }
      FoundAt(range, start, AnyPort, d);
      ports := ports[last := Allocated];
      port := last;
    }

    /** Move the cursor to the first even port. */
    method StepToEven(want: Want)
      requires Valid() && want != AnyPort
      modifies this`last
      ensures last == PortAt(range, old(last), First(range, old(last), want)) && last % 2 == 0
    {
      ghost var from := last;
      AdvanceOne(range, from, 1);
      FirstEven(range, Pool(ports, from), want);
      hide PortAt, Advance, Passed;
      last := Advance(range, last, 1);
      ghost var d := 1;
      while last % 2 != 0 || (want == EvenPair && last + 1 > range.max)
        invariant 1 <= d <= First(range, from, want) && last == PortAt(range, from, d)
        decreases 2 - d
      {
        AdvanceOne(range, from, d);
        last := Advance(range, last, 1);
        d := d + 1;
      }
    }

    /** allocateEvenPort and allocateEvenPortPair: the two scans differ only in what suits. */
    method AllocateEven(want: Want) returns (port: nat)
      requires Valid() && want != AnyPort
      modifies this
      ensures Valid() && (port, State()) == Allocate(range, old(State()), want)
    {
      ghost var start := State();
      StepToEven(want);
      var startPort := last;
      ghost var d := First(range, start.last, want);
      FirstEven(range, start, want);
      hide PortAt, Advance, Choose, Allocate, Passed, First, AtEven, Suits;
      while ports[last] != Unallocated || (want == EvenPair && ports[last + 1] != Unallocated)
        invariant AtEven(range, start, want, d)
        invariant last == PortAt(range, start.last, d) && last % 2 == 0
        invariant ports == start.ports
        decreases Size(range) - d
      {
        NextEven(range, start, want, d);
        last := Advance(range, last, 2);
        if last == startPort {
          NothingLeft(range, start, want);
          return 0;
        }
        d := d + 2;
      }
      FoundAt(range, start, want, d);
      if want == EvenPair {
        ports := ports[last := Allocated][last + 1 := Reserved];
      } else {
        ports := ports[last := Allocated];
      }
      port := last;
    }

    method AllocateReserved(port: nat) returns (ok: bool)
      requires Valid()
      modifies this`ports
      ensures Valid() && (ok, State()) == Claim(range, old(State()), port)
    {
      ok := false;
      if range.min <= port <= range.max && ports[port] == Reserved {
        ports := ports[port := Allocated];
        ok := true;
      }
    }

    method DeallocatePort(port: nat)
      requires Valid()
      modifies this`ports
      ensures Valid() && State() == Release(range, old(State()), port)
    {
      if range.min <= port <= range.max {
        ports := ports[port := Unallocated];
        if port % 2 == 0 && ports[port + 1] == Reserved {
          ports := ports[port + 1 := Unallocated];
        }
      }
    }
  }
}
