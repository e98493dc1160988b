/** Whole runs of the RTP receiver: extended sequence numbers, loss reports and the
    jitter estimate. */
module RtpRuns {
  import opened Machine
  import opened RtpReceiver
  import Multiples

  // ----- extended sequence numbers -----

  /** The packets are numbered without bound; the wire carries the low 16 bits. */
  function Low(n: nat): u16 { n % SEQ_MOD }

  function High(n: nat): nat { n / SEQ_MOD }

  /** What the wire shows of the distance. */
  function Delta(highest: nat, n: nat): nat { (Low(n) - Low(highest)) % SEQ_MOD }

  /** The packets that leave the count right: those less than 3000 ahead, and, of those
      behind, all that do not look as if they were less than 3000 ahead. Distances ahead
      are seen no better than the count is kept, in 32 bits. */
  predicate Near(highest: nat, n: nat)
  {
    if n <= highest then Delta(highest, n) == 0 || Delta(highest, n) >= MAX_DROPOUT
    else (n - highest) % 0x1_0000_0000 < MAX_DROPOUT
  }

  /** Up to 2999 ahead and 62536 behind. */
  lemma NearBy(highest: nat, n: nat)
    requires n < highest + MAX_DROPOUT && highest <= n + (SEQ_MOD - MAX_DROPOUT)
    ensures Near(highest, n)
  {
    DeltaIs(highest, n);
    SeqMod(n - highest);
  }

  function Highest(highest: nat, arrivals: seq<nat>): nat
    decreases |arrivals|
  {
    if arrivals == [] then highest else Highest(if arrivals[0] > highest then arrivals[0] else highest, arrivals[1..])
  }

  predicate AllNear(highest: nat, arrivals: seq<nat>)
    decreases |arrivals|
  {
    arrivals == [] ||
    (Near(highest, arrivals[0]) && AllNear(if arrivals[0] > highest then arrivals[0] else highest, arrivals[1..]))
  }

  function Arrived(h: History, arrivals: seq<nat>): History
    decreases |arrivals|
  {
    if arrivals == [] then h else Arrived(SeqUpdated(h, Low(arrivals[0])).0, arrivals[1..])
  }

  /** The history tells the highest number, counted from the block of the first one. */
  predicate Tells(h: History, first: nat, highest: nat)
  {
    h.base == Low(first) && h.max == Low(highest) && h.cycles == Wrap(SEQ_MOD * (High(highest) - High(first)))
  }

  lemma SplitNumber(n: nat)
    ensures n == SEQ_MOD * High(n) + Low(n)
  {
  }

  lemma SeqMod(x: int)
    requires -SEQ_MOD < x < SEQ_MOD
    ensures x % SEQ_MOD == if x >= 0 then x else x + SEQ_MOD
  {
  }

  lemma DeltaIs(highest: nat, n: nat)
    ensures Delta(highest, n) == (n - highest) % SEQ_MOD
    ensures n - highest == SEQ_MOD * (High(n) - High(highest)) + Low(n) - Low(highest)
  {
    SplitNumber(n);
    SplitNumber(highest);
    SameResidue(n - highest, Low(n) - Low(highest), High(n) - High(highest));
  }

  lemma SameResidue(x: int, y: int, q: int)
    requires x == SEQ_MOD * q + y
    ensures x % SEQ_MOD == y % SEQ_MOD
  {
  }

  lemma DeltaWraps(highest: nat, n: nat)
    ensures Delta(highest, n) == Low(n) - Low(highest) + if Low(n) < Low(highest) then SEQ_MOD else 0
  {
    SeqMod(Low(n) - Low(highest));
  }

  /** A packet taken to be ahead moves the count to it exactly if its distance is what it seems. */
  lemma AheadTellsIff(h: History, first: nat, highest: nat, n: nat)
    requires Tells(h, first, highest) && Delta(highest, n) < MAX_DROPOUT
    ensures Tells(SeqUpdated(h, Low(n)).0, first, n) <==> (n - highest - Delta(highest, n)) % 0x1_0000_0000 == 0
  {
    DeltaIs(highest, n);
    DeltaWraps(highest, n);
    var x, y := SEQ_MOD * (High(highest) - High(first)), SEQ_MOD * (High(n) - High(highest));
    var step := if Low(n) < Low(highest) then SEQ_MOD else 0;
    assert SEQ_MOD * (High(n) - High(first)) == x + y;
    WrapAdd(x, step);
    WrapSameIff(x, step, y);
  }

  lemma WrapSameIff(x: int, a: int, b: int)
    ensures Wrap(x + a) == Wrap(x + b) <==> (b - a) % 0x1_0000_0000 == 0
  {
  }

  lemma Halves(x: int)
    ensures x % 0x1_0000_0000 % SEQ_MOD == x % SEQ_MOD
  {
    SameResidue(x, x % 0x1_0000_0000, SEQ_MOD * (x / 0x1_0000_0000));
  }

  lemma ResidueIs(x: int, d: nat)
    requires d < MAX_DROPOUT && x % SEQ_MOD == d
    ensures (x - d) % 0x1_0000_0000 == 0 <==> x % 0x1_0000_0000 < MAX_DROPOUT
  {
    Halves(x);
    var m := x % 0x1_0000_0000;
    if m < MAX_DROPOUT {
      SeqMod(m);
    }
    if (x - d) % 0x1_0000_0000 == 0 {
      Multiples.Quotient(x, (x - d) / 0x1_0000_0000, d, 0x1_0000_0000);
    }
  }

  /** One packet: afterwards the history tells the highest number if and only if the
      packet is near; it moves if the packet is ahead, and stays if it is behind. */
  lemma NearKeptIff(h: History, first: nat, highest: nat, n: nat)
    requires Tells(h, first, highest)
    ensures Tells(SeqUpdated(h, Low(n)).0, first, if n > highest then n else highest) <==> Near(highest, n)
  {
    DeltaIs(highest, n);
    DeltaWraps(highest, n);
    if n > highest && Delta(highest, n) < MAX_DROPOUT {
      AheadTellsIff(h, first, highest, n);
      ResidueIs(n - highest, Delta(highest, n));
    } else if n > highest {
      ResidueLarge(n - highest);
    }
  }

  lemma ResidueLarge(x: nat)
    requires x % SEQ_MOD >= MAX_DROPOUT
    ensures x % 0x1_0000_0000 >= MAX_DROPOUT
  {
    Halves(x);
    if x % 0x1_0000_0000 < MAX_DROPOUT {
      SeqMod(x % 0x1_0000_0000);
    }
  }

  lemma {:induction false} ArrivalsKept(h: History, first: nat, highest: nat, arrivals: seq<nat>)
    requires Tells(h, first, highest) && AllNear(highest, arrivals)
    ensures Tells(Arrived(h, arrivals), first, Highest(highest, arrivals))
    decreases |arrivals|
  {
    if arrivals != [] {
      NearKeptIff(h, first, highest, arrivals[0]);
      ArrivalsKept(SeqUpdated(h, Low(arrivals[0])).0, first,
                   if arrivals[0] > highest then arrivals[0] else highest, arrivals[1..]);
    }
  }

  /** For any order of arrival near the highest number each time, across any number of
      wraps, the extended number received is the highest minus the first. */
  lemma ExtendedNumber(h: History, first: nat, arrivals: seq<nat>)
    requires h.base == h.max == Low(first) && h.cycles == 0 && AllNear(first, arrivals)
    ensures var r := Arrived(h, arrivals);
            && Wrap(r.cycles + r.max - r.base) == Wrap(Highest(first, arrivals) - first)
            && (0 <= Highest(first, arrivals) - first < 0x1_0000_0000 - SEQ_MOD ==>
                  r.cycles + r.max - r.base == Highest(first, arrivals) - first)
  {
    var top := Highest(first, arrivals);
    ArrivalsKept(h, first, first, arrivals);
    SplitNumber(first);
    SplitNumber(top);
    var x := SEQ_MOD * (High(top) - High(first));
    assert top - first == x + Low(top) - Low(first);
    WrapAdd(x, Low(top) - Low(first));
    HighestAbove(first, arrivals);
    if top - first < 0x1_0000_0000 - SEQ_MOD {
      assert High(first) <= High(top);
      WrapExact(x);
    }
  }

  lemma {:induction false} HighestAbove(highest: nat, arrivals: seq<nat>)
    ensures Highest(highest, arrivals) >= highest
    decreases |arrivals|
  {
    if arrivals != [] {
      HighestAbove(if arrivals[0] > highest then arrivals[0] else highest, arrivals[1..]);
    }
  }

  lemma WrapAdd(x: int, y: int)
    ensures Wrap(Wrap(x) + y) == Wrap(x + y)
  {
  }

  // ----- jitter -----

  const JITTER_MAX := 16 * DEVIATION_THRESHOLD - 8

  lemma JitterBounded(jitter: u32, deviation: int)
    requires jitter <= JITTER_MAX && 0 <= deviation <= DEVIATION_THRESHOLD
    ensures JitterNext(jitter, deviation) == jitter + deviation - (jitter + 8) / 16 <= JITTER_MAX
  {
    WrapExact(jitter + 8);
    assert (jitter + 8) / 16 * 16 > jitter + 8 - 16;
    WrapExact(jitter + deviation - (jitter + 8) / 16);
  }

  // ----- invariants -----

  function Span(r: Rx): int { r.history.cycles + r.history.max - r.history.base }

  /** Nothing counted goes back since the last report, and without a packet nothing
      more is expected. */
  predicate Inv(r: Rx)
  {
    && r.prior.received <= r.stat.received && r.prior.discarded <= r.stat.discarded <= r.stat.received
    && (if r.stat.received == 0 then r.history.cycles == 0 && r.prior.expected == 0
        else 0 <= Span(r) < 0xFFFF_FFFF && r.prior.expected <= Span(r) + 1)
    && (r.prior.received == r.stat.received ==> r.prior.expected == if r.stat.received == 0 then 0 else Span(r) + 1)
  }

  /** Another packet does not take a counter past the 32-bit range. */
  predicate Roomy(r: Rx) { r.stat.received < 0xFFFF_FFFF && r.history.cycles < 0xFFFF_0000 - SEQ_MOD }

  lemma ExpectedIs(r: Rx)
    requires Inv(r)
    ensures Expected(r) == if r.stat.received == 0 then 0 else Span(r) + 1
  {
    if r.stat.received != 0 {
      WrapExact(Span(r) + 1);
    }
  }

  lemma RestartedInv(r: Rx)
    ensures Inv(Restarted(r)) && Restarted(r).stat.received == 0
  {
  }

  /** The first packet starts the count; each further one moves it by less than the dropout. */
  lemma CountedInv(r: Rx, seqNum: u16)
    requires Inv(r) && Roomy(r) && (r.stat.received == 0 ==> r.history.base == r.history.max == seqNum)
    ensures var n := Counted(r, seqNum);
            Inv(n) && n.stat.received == r.stat.received + 1 && n.prior.received < n.stat.received && Span(n) >= Span(r)
  {
    WrapExact(r.stat.received + 1);
    WrapExact(r.history.cycles + SEQ_MOD);
    SeqMod(seqNum - r.history.max);
  }

  lemma TsInv(c: Clock, r: Rx, p: Packet)
    requires Inv(r)
    ensures var (n, ok) := TsUpdated(c, r, p); Inv(n) && n.stat == r.stat
  {
  }

  lemma AcceptedInv(c: Clock, r: Rx, p: Packet)
    requires Inv(r) && Roomy(r) && (r.stat.received == 0 ==> r.history.base == r.history.max == p.seqNum)
    ensures Inv(Accepted(c, r, p))
  {
    CountedInv(r, p.seqNum);
    var n := Counted(r, p.seqNum);
    if p.kind == Codec {
      TsInv(c, n, p);
      RestartedInv(n);
      var (t, ok) := TsUpdated(c, n, p);
      if ok && !p.taken {
        DiscardedInv(t);
        RestartedInv(Discarded(t));
      }
    } else if p.kind == NamedEvent && !p.taken {
      DiscardedInv(n);
    }
  }

  lemma DiscardedInv(r: Rx)
    requires Inv(r) && r.stat.discarded < r.stat.received
    ensures Inv(Discarded(r))
  {
    WrapExact(r.stat.discarded + 1);
  }

  lemma ReceivedInv(c: Clock, r: Rx, p: Packet)
    requires Inv(r) && Roomy(r)
    ensures Inv(Received(c, r, p))
  {
    var i := if r.stat.received == 0 then Initialised(r, p) else r;
    var (n, result) := SourceUpdated(i, p.ssrc);
    match result
    case InProbation =>
    case Known => AcceptedInv(c, n, p);
    case NewSource =>
      RestartedInv(n);
      AcceptedInv(c, Initialised(Restarted(n), p), p);
  }

  // ----- reports -----

  lemma FractionFits(expected: u32, lost: u32)
    requires lost < expected
    ensures Fraction(expected, lost) < 0x100
    ensures lost < 0x100_0000 ==> Fraction(expected, lost) == 0x100 * lost / expected
  {
    if lost != 0 {
      var y := Wrap(lost * 0x100);
      WrapBelow(lost * 0x100);
      Multiples.Ordered(255, y / expected, expected);
      assert y == expected * (y / expected) + y % expected;
    }
  }

  /** What a report counts since the last one. */
  function ExpectedSince(r: Rx): int { Expected(r) - r.prior.expected }
  function ReceivedSince(r: Rx): int { r.stat.received - r.prior.received }
  function LostSince(r: Rx): int
  {
    if ExpectedSince(r) > ReceivedSince(r) then ExpectedSince(r) - ReceivedSince(r) else 0
  }

  predicate FractionOf(expected: int, lost: int, fraction: byte)
  {
    && (lost == 0 ==> fraction == 0)
    && (lost > 0 ==> expected > 0 && fraction == Wrap(lost * 0x100) / expected)
    && (lost < 0x100_0000 ==> Wrap(lost * 0x100) == lost * 0x100)
  }

  /** The intervals do not underflow, packets expected mean a packet received, and the
      fraction lost fits its eight bits; below 2^24 packets lost the shift is exact. */
  predicate ReportExact(r: Rx)
  {
    && ExpectedSince(r) >= 0 && ReceivedSince(r) >= 0
    && (ExpectedSince(r) > 0 ==> ReceivedSince(r) >= 1)
    && FractionOf(ExpectedSince(r), LostSince(r), Reported(r).report.fraction)
    && Reported(r).report.lost == (if Expected(r) > r.stat.received then Field24(Expected(r) - r.stat.received) else 0)
  }

  lemma IntervalsExact(r: Rx)
    requires Inv(r)
    ensures ExpectedSince(r) >= 0 && ReceivedSince(r) >= 0 && (ExpectedSince(r) > 0 ==> ReceivedSince(r) >= 1)
    ensures Wrap(Expected(r) - r.prior.expected) == ExpectedSince(r)
    ensures Wrap(r.stat.received - r.prior.received) == ReceivedSince(r)
  {
    ExpectedIs(r);
    WrapExact(ExpectedSince(r));
    WrapExact(ReceivedSince(r));
  }

  lemma FractionExact(r: Rx)
    requires Inv(r)
    ensures FractionOf(ExpectedSince(r), LostSince(r), Reported(r).report.fraction)
  {
    IntervalsExact(r);
    FractionIs(ExpectedSince(r), ReceivedSince(r), LostSince(r));
  }

  lemma FractionIs(expected: u32, received: u32, lost: u32)
    requires lost == if expected > received then expected - received else 0
    requires expected > 0 ==> received >= 1
    ensures Fraction(expected, lost) < 0x100 && FractionOf(expected, lost, IntervalFraction(expected, received))
  {
    WrapBelow(lost * 0x100);
    if lost > 0 {
      FractionFits(expected, lost);
    }
  }

  lemma ReportIsExact(r: Rx)
    requires Inv(r)
    ensures ReportExact(r)
  {
    IntervalsExact(r);
    FractionExact(r);
  }

  lemma ReportedInv(r: Rx)
    requires Inv(r)
    ensures Inv(Reported(r))
  {
    ExpectedIs(r);
  }

  // ----- whole runs -----

  datatype Op = Receive(packet: Packet) | ReceiveInvalid | SendReport

  function Step(c: Clock, r: Rx, op: Op): Rx
  {
    match op
    case Receive(p) => Received(c, r, p)
    case ReceiveInvalid => Invalid(r)
    case SendReport => Reported(r)
  }

  function Run(c: Clock, r: Rx, ops: seq<Op>): Rx
    decreases |ops|
  {
    if ops == [] then r else Run(c, Step(c, r, ops[0]), ops[1..])
  }

  predicate RunFits(c: Clock, r: Rx, ops: seq<Op>)
    decreases |ops|
  {
    ops == [] ||
    ((ops[0].Receive? ==> Roomy(r)) && RunFits(c, Step(c, r, ops[0]), ops[1..]))
  }

  lemma {:induction false} RunInv(c: Clock, r: Rx, ops: seq<Op>)
    requires Inv(r) && RunFits(c, r, ops)
    ensures Inv(Run(c, r, ops))
    decreases |ops|
  {
    if ops != [] {
      match ops[0] {
        case Receive(p) => ReceivedInv(c, r, p);
        case ReceiveInvalid =>
        case SendReport => ReportedInv(r);
      }
      RunInv(c, Step(c, r, ops[0]), ops[1..]);
    }
  }

  /** In every reachable state, restarts and changes of source included, a report is exact. */
  lemma ReportsExact(c: Clock, ops: seq<Op>)
    requires RunFits(c, CREATED, ops)
    ensures ReportExact(Run(c, CREATED, ops))
  {
    RunInv(c, CREATED, ops);
    ReportIsExact(Run(c, CREATED, ops));
  }

  // ----- the jitter over whole runs -----

  lemma Magnitude(d: int)
    requires -0x8000_0000 <= d < 0x8000_0000
    ensures (if d < 0 then Signed(-d) else d) == if d == -0x8000_0000 then d else if d < 0 then -d else d
  {
  }

  lemma JitterJumps(jitter: u32)
    requires jitter <= JITTER_MAX
    ensures JitterNext(jitter, -0x8000_0000) > JITTER_MAX
  {
    WrapExact(jitter + 8);
    WrapSigned(jitter - 0x8000_0000 - (jitter + 8) / 16);
  }

  /** The one transit difference without a magnitude passes for a small one, and takes
      any bounded jitter past its bound; every other leaves it bounded. */
  lemma JitterKeptIff(c: Clock, r: Rx, p: Packet)
    requires r.report.jitter <= JITTER_MAX
    ensures TsUpdated(c, r, p).0.report.jitter <= JITTER_MAX <==> Transit(c, r.history, p) != -0x8000_0000
  {
    var d := Transit(c, r.history, p);
    Magnitude(d);
    if d == -0x8000_0000 {
      JitterJumps(r.report.jitter);
    } else if Deviation(c, r.history, p) <= DEVIATION_THRESHOLD {
      JitterBounded(r.report.jitter, Deviation(c, r.history, p));
    }
  }

  /** The packet does not meet that difference: a packet of the source being received
      that is not the first one. */
  predicate TimeFits(c: Clock, r: Rx, p: Packet)
  {
    p.kind == Codec && r.stat.received != 0 && r.report.ssrc == p.ssrc ==> Transit(c, r.history, p) != -0x8000_0000
  }

  lemma FirstTransit(c: Clock, h: History, p: Packet)
    requires h.timeLast == p.time && h.tsLast == p.ts
    ensures Transit(c, h, p) == 0
  {
  }

  lemma AcceptedJitter(c: Clock, r: Rx, p: Packet)
    ensures Accepted(c, r, p).report.jitter
         == if p.kind == Codec then TsUpdated(c, Counted(r, p.seqNum), p).0.report.jitter else r.report.jitter
    ensures Transit(c, Counted(r, p.seqNum).history, p) == Transit(c, r.history, p)
  {
  }

  lemma AcceptedJitterIff(c: Clock, r: Rx, p: Packet)
    requires r.report.jitter <= JITTER_MAX
    ensures Accepted(c, r, p).report.jitter <= JITTER_MAX <==>
            p.kind == Codec ==> Transit(c, r.history, p) != -0x8000_0000
  {
    AcceptedJitter(c, r, p);
    JitterKeptIff(c, Counted(r, p.seqNum), p);
  }

  lemma ReceivedJitterIff(c: Clock, r: Rx, p: Packet)
    requires r.report.jitter <= JITTER_MAX
    ensures Received(c, r, p).report.jitter <= JITTER_MAX <==> TimeFits(c, r, p)
  {
    var i := if r.stat.received == 0 then Initialised(r, p) else r;
    var (n, result) := SourceUpdated(i, p.ssrc);
    SourceKeepsTimes(i, p.ssrc);
    match result
    case InProbation =>
    case Known =>
      AcceptedJitterIff(c, n, p);
      SameTransit(c, n.history, i.history, p);
      if r.stat.received == 0 {
        FirstTransit(c, i.history, p);
      }
    case NewSource =>
      var f := Initialised(Restarted(n), p);
      FirstTransit(c, f.history, p);
      AcceptedJitterIff(c, f, p);
  }

  lemma SourceKeepsTimes(r: Rx, ssrc: u32)
    ensures var (n, result) := SourceUpdated(r, ssrc);
            && n.report.jitter == r.report.jitter && n.stat == r.stat && (result == Known <==> r.report.ssrc == ssrc)
            && n.history.timeLast == r.history.timeLast && n.history.tsLast == r.history.tsLast
  {
  }

  lemma SameTransit(c: Clock, h: History, h': History, p: Packet)
    requires h.timeLast == h'.timeLast && h.tsLast == h'.tsLast
    ensures Transit(c, h, p) == Transit(c, h', p)
  {
  }

  predicate RunTimed(c: Clock, r: Rx, ops: seq<Op>)
    decreases |ops|
  {
    ops == []
    || ((ops[0].Receive? ==> TimeFits(c, r, ops[0].packet)) && RunTimed(c, Step(c, r, ops[0]), ops[1..]))
  }

  predicate RunBounded(c: Clock, r: Rx, ops: seq<Op>)
    decreases |ops|
  {
    r.report.jitter <= JITTER_MAX && (ops == [] || RunBounded(c, Step(c, r, ops[0]), ops[1..]))
  }

  lemma {:induction false} BoundedIff(c: Clock, r: Rx, ops: seq<Op>)
    requires r.report.jitter <= JITTER_MAX
    ensures RunBounded(c, r, ops) <==> RunTimed(c, r, ops)
    decreases |ops|
  {
    if ops != [] {
      if ops[0].Receive? {
        ReceivedJitterIff(c, r, ops[0].packet);
      }
      if Step(c, r, ops[0]).report.jitter <= JITTER_MAX {
        BoundedIff(c, Step(c, r, ops[0]), ops[1..]);
      }
    }
  }

  /** Over any run the jitter estimate stays within its bound if and only if no packet
      meets the transit difference without a magnitude. */
  lemma JitterBoundedIff(c: Clock, ops: seq<Op>)
    ensures RunBounded(c, CREATED, ops) <==> RunTimed(c, CREATED, ops)
  {
    BoundedIff(c, CREATED, ops);
  }

  /** The bound on the jitter is reached and kept by deviations at the threshold, and
      exceeded by any larger one. */
  lemma JitterBoundTight(deviation: int)
    requires 0 <= deviation < 0x8000_0000
    ensures JitterNext(JITTER_MAX, DEVIATION_THRESHOLD) == JITTER_MAX
    ensures JitterNext(JITTER_MAX, deviation) <= JITTER_MAX <==> deviation <= DEVIATION_THRESHOLD
  {
    WrapExact(JITTER_MAX + 8);
    WrapExact(JITTER_MAX + deviation - (JITTER_MAX + 8) / 16);
  }
}
