/** What single packets and streams of them do to the RTP receiver, told by arrival times,
    timestamps and counts (appendix A.8 of RFC 3550 for the jitter). */
module RtpPackets {
  import opened Machine
  import opened RtpReceiver
  import opened RtpRuns

  function Abs(x: int): nat { if x < 0 then -x else x }

  // ----- the deviation of a packet -----

  /** A packet of the source being received that is not the first one. */
  predicate Continues(r: Rx, p: Packet)
  {
    p.kind == Codec && r.stat.received != 0 && r.report.ssrc == p.ssrc && p.time >= r.history.timeLast
  }

  /** The whole milliseconds since the last packet. */
  function Millis(r: Rx, p: Packet): int { (p.time - r.history.timeLast) / 1000 }

  /** The samples that pass in that time, scaled by a thousand, fit a signed number, and so
      does what remains of them once `s` are subtracted. */
  predicate Fits(c: Clock, a: int, s: int)
  {
    && 0 <= a < 0x8000_0000 && a * c.channels * c.rate < 0x8000_0000
    && -0x8000_0000 < a * c.channels * c.rate / 1000 - s < 0x8000_0000
  }

  lemma TransitIs(c: Clock, h: History, p: Packet, a: int, s: int)
    requires p.time >= h.timeLast && a == (p.time - h.timeLast) / 1000 && p.ts == Wrap(h.tsLast + s) && Fits(c, a, s)
    ensures Transit(c, h, p) == a * c.channels * c.rate / 1000 - s
  {
    var n := a * c.channels * c.rate;
    Product(a, c.channels, c.rate);
    DiffIs(h, p, a);
    TransitOf(c, h, p, a, s, n);
  }

  lemma TransitOf(c: Clock, h: History, p: Packet, a: nat, s: int, n: nat)
    requires TimeDiff(h, p) == a && n == a * c.channels * c.rate < 0x8000_0000 && p.ts == Wrap(h.tsLast + s)
    requires -0x8000_0000 <= n / 1000 - s < 0x8000_0000
    ensures Transit(c, h, p) == n / 1000 - s
  {
    SignedExact(n);
    WrapDifference(h.tsLast, s);
    SignedOf(n / 1000, s);
  }

  lemma DiffIs(h: History, p: Packet, a: nat)
    requires p.time >= h.timeLast && a == (p.time - h.timeLast) / 1000 < 0x8000_0000
    ensures TimeDiff(h, p) == a
  {
    SignedExact(a);
  }

  lemma Product(a: nat, b: nat, d: nat)
    ensures a * b * d >= 0
  {
  }

  lemma WrapDifference(t: u32, s: int)
    ensures Wrap(Wrap(t + s) - t) == Wrap(s)
  {
  }

  lemma SignedOf(x: int, s: int)
    requires -0x8000_0000 <= x - s < 0x8000_0000
    ensures Signed(x - Wrap(s)) == x - s
  {
  }

  /** The new jitter, by the difference of the samples that passed and the timestamps. */
  function Smoothed(j: int, d: nat): int { j + d - (j + 8) / 16 }

  lemma NextIs(j: u32, d: nat)
    requires d <= 4000 && j + 4000 < 0x1_0000_0000
    ensures JitterNext(j, d) == Smoothed(j, d)
  {
    WrapExact(j + 8);
    WrapExact(Smoothed(j, d));
  }

  lemma DeviationIs(c: Clock, h: History, p: Packet, x: int)
    requires Transit(c, h, p) == x && -0x8000_0000 < x < 0x8000_0000
    ensures Deviation(c, h, p) == Abs(x)
  {
    Magnitude(x);
  }

  lemma TimesTaken(c: Clock, m: Rx, p: Packet, d: nat)
    requires Deviation(c, m.history, p) == d && m.report.jitter + 4000 < 0x1_0000_0000
    ensures d > 4000 ==> TsUpdated(c, m, p) == (m, false)
    ensures d <= 4000 ==>
              var (n, ok) := TsUpdated(c, m, p);
              && ok && n.report == m.report.(jitter := Smoothed(m.report.jitter, d)) && n.stat == m.stat
              && n.history == m.history.(timeLast := p.time, tsLast := p.ts)
              && n.prior.jitterMin == Least(m.prior.jitterMin, n.report.jitter)
              && n.prior.jitterMax == Greatest(m.prior.jitterMax, n.report.jitter)
  {
    if d <= 4000 {
      NextIs(m.report.jitter, d);
    }
  }

  function Least(a: int, b: int): int { if a < b then a else b }
  function Greatest(a: int, b: int): int { if a > b then a else b }

  /** Everything is counted anew, but for the restarts and the report. */
  predicate StartsAnew(r: Rx, n: Rx)
  {
    && n.stat == Stat(0, 0, 0, 0, (r.stat.restarts + 1) % 256) && n.history == History(0, 0, 0, 0, 0, 0, 0)
    && n.prior == Periodic(0, 0, 0, 0, 0) && n.report == r.report
  }

  /** The jitter has followed the deviation, and the next packet is compared with this one. */
  predicate Follows(r: Rx, n: Rx, p: Packet, d: nat)
  {
    && n.report.jitter == Smoothed(r.report.jitter, d) && n.report == r.report.(jitter := n.report.jitter)
    && n.history.timeLast == p.time && n.history.tsLast == p.ts
    && n.prior.jitterMin == Least(r.prior.jitterMin, n.report.jitter)
    && n.prior.jitterMax == Greatest(r.prior.jitterMax, n.report.jitter)
    && n.stat == r.stat.(received := Wrap(r.stat.received + 1))
  }

  lemma TakenFollows(c: Clock, r: Rx, p: Packet, m: Rx, d: nat)
    requires m.report == r.report && m.prior == r.prior && m.stat == r.stat.(received := Wrap(r.stat.received + 1))
    requires Deviation(c, m.history, p) == d && r.report.jitter + 4000 < 0x1_0000_0000
    ensures d > 4000 ==> StartsAnew(r, CodecAccepted(c, m, p))
    ensures d <= 4000 && p.taken ==> Follows(r, CodecAccepted(c, m, p), p, d)
    ensures d <= 4000 ==> CodecAccepted(c, m, p).report.jitter == Smoothed(r.report.jitter, d)
  {
    TimesTaken(c, m, p, d);
  }

  /** A packet deviates by the difference of the samples that passed since the last one and
      the step `s` of its timestamp: up to 4000 the jitter follows, and beyond the receiver
      restarts. */
  lemma JitterFollows(c: Clock, r: Rx, p: Packet, s: int)
    requires Continues(r, p) && Fits(c, Millis(r, p), s) && p.ts == Wrap(r.history.tsLast + s)
    requires r.report.jitter + 4000 < 0x1_0000_0000
    ensures var d, n := Abs(Millis(r, p) * c.channels * c.rate / 1000 - s), Received(c, r, p);
            && (d <= 4000 ==> n.report.jitter == Smoothed(r.report.jitter, d))
            && (d <= 4000 && p.taken ==> Follows(r, n, p, d))
            && (d > 4000 ==> StartsAnew(r, n))
  {
    var x := Millis(r, p) * c.channels * c.rate / 1000 - s;
    TransitIs(c, r.history, p, Millis(r, p), s);
    var m := AcceptedIs(c, r, p);
    DeviationIs(c, m.history, p, x);
    TakenFollows(c, r, p, m, Abs(x));
  }

  /** Nothing but the counts and the probation of another source comes before. */
  lemma AcceptedIs(c: Clock, r: Rx, p: Packet) returns (m: Rx)
    requires Continues(r, p)
    ensures Received(c, r, p) == CodecAccepted(c, m, p)
    ensures m.report == r.report && m.prior == r.prior && m.stat == r.stat.(received := Wrap(r.stat.received + 1))
    ensures Transit(c, m.history, p) == Transit(c, r.history, p)
  {
    var n := SourceUpdated(r, p.ssrc).0;
    m := Counted(n, p.seqNum);
    SourceKeepsTimes(r, p.ssrc);
    SameTransit(c, m.history, r.history, p);
  }

  // ----- a stream at its pace -----

  /** Each packet comes some milliseconds after the one before, with its timestamp as many
      samples later. */
  predicate OnPace(c: Clock, last: Packet, ps: seq<Packet>)
    decreases |ps|
  {
    ps == [] || (InPace(c, last, ps[0]) && OnPace(c, ps[0], ps[1..]))
  }

  predicate InPace(c: Clock, last: Packet, p: Packet)
  {
    && p.kind == Codec && p.taken && p.ssrc == last.ssrc && p.time >= last.time
    && var a := (p.time - last.time) / 1000;
       a < 0x8000_0000 && a * c.channels * c.rate < 0x8000_0000
       && p.ts == Wrap(last.ts + a * c.channels * c.rate / 1000)
  }

  function ReceivedAll(c: Clock, r: Rx, ps: seq<Packet>): Rx
    decreases |ps|
  {
    if ps == [] then r else ReceivedAll(c, Received(c, r, ps[0]), ps[1..])
  }

  /** No jitter and no restart so far, and the next packet is compared with `last`. */
  predicate Steady(r: Rx, last: Packet)
  {
    && r.report.jitter == 0 && r.stat.restarts == 0 && r.stat.discarded == 0
    && r.report.ssrc == last.ssrc && r.history.timeLast == last.time && r.history.tsLast == last.ts
  }

  lemma StepInPace(c: Clock, r: Rx, last: Packet, p: Packet)
    requires Steady(r, last) && InPace(c, last, p)
    ensures Steady(Received(c, r, p), p) && Received(c, r, p).stat.received == Wrap(r.stat.received + 1)
  {
    if r.stat.received == 0 {
      FirstPacket(c, r, p);
    } else {
      var a := Millis(r, p);
      Product(a, c.channels, c.rate);
      JitterFollows(c, r, p, a * c.channels * c.rate / 1000);
    }
  }

  /** The first packet of a source is compared with itself. */
  lemma FirstAccepted(c: Clock, i: Rx, p: Packet)
    requires i.history.timeLast == p.time && i.history.tsLast == p.ts && i.report.jitter + 4000 < 0x1_0000_0000
    requires i.history.base == i.history.max == p.seqNum && p.kind == Codec && p.taken
    ensures var n := Accepted(c, i, p);
            && n.report == i.report.(jitter := n.report.jitter) && n.report.jitter == Smoothed(i.report.jitter, 0)
            && n.stat.received == Wrap(i.stat.received + 1) && n.stat == i.stat.(received := n.stat.received)
            && n.history == i.history
  {
    var m := Counted(i, p.seqNum);
    assert m.history == i.history;
    FirstTransit(c, m.history, p);
    DeviationIs(c, m.history, p, 0);
    TimesTaken(c, m, p, 0);
  }

  lemma FirstPacket(c: Clock, r: Rx, p: Packet)
    requires r.stat.received == 0 && r.report.jitter == 0 && p.kind == Codec && p.taken
    ensures var n := Received(c, r, p);
            && n.stat.received == 1 && n.stat == r.stat.(received := n.stat.received)
            && n.report.jitter == 0 && n.report.ssrc == p.ssrc
            && n.history.timeLast == p.time && n.history.tsLast == p.ts
  {
    var i := FirstKnown(c, r, p);
    FirstAccepted(c, i, p);
    WrapExact(i.stat.received + 1);
  }

  lemma FirstKnown(c: Clock, r: Rx, p: Packet) returns (i: Rx)
    requires r.stat.received == 0
    ensures Received(c, r, p) == Accepted(c, i, p) && i.stat == r.stat && i.report == r.report.(ssrc := p.ssrc)
    ensures i.history.base == i.history.max == p.seqNum
    ensures i.history.timeLast == p.time && i.history.tsLast == p.ts
  {
    i := SourceUpdated(Initialised(r, p), p.ssrc).0;
  }

  predicate SteadyAfter(c: Clock, r: Rx, last: Packet, ps: seq<Packet>)
  {
    var n := ReceivedAll(c, r, ps);
    Steady(n, if ps == [] then last else ps[|ps| - 1]) && n.stat.received == Wrap(r.stat.received + |ps|)
  }

  lemma SteadyNext(c: Clock, r: Rx, last: Packet, ps: seq<Packet>, n: Rx)
    requires ps != [] && n == Received(c, r, ps[0]) && n.stat.received == Wrap(r.stat.received + 1)
    requires SteadyAfter(c, n, ps[0], ps[1..])
    ensures SteadyAfter(c, r, last, ps)
  {
    WrapAgain(r.stat.received, |ps| - 1);
  }

  lemma WrapAgain(x: u32, k: nat)
    ensures Wrap(Wrap(x + 1) + k) == Wrap(x + (k + 1))
  {
  }

  lemma {:induction false} StaysInPace(c: Clock, r: Rx, last: Packet, ps: seq<Packet>)
    requires Steady(r, last) && OnPace(c, last, ps)
    ensures SteadyAfter(c, r, last, ps)
    decreases |ps|
  {
    if ps != [] {
      var n := Received(c, r, ps[0]);
      StepInPace(c, r, last, ps[0]);
      StaysInPace(c, n, ps[0], ps[1..]);
      SteadyNext(c, r, last, ps, n);
    }
  }

  /** A stream whose timestamps keep pace with its arrivals has no jitter and causes no
      restart, however long it is. */
  lemma NominalPace(c: Clock, first: Packet, ps: seq<Packet>)
    requires first.kind == Codec && first.taken && OnPace(c, first, ps)
    ensures var n := ReceivedAll(c, CREATED, [first] + ps);
            && n.report.jitter == 0 && n.stat.restarts == 0 && n.stat.discarded == 0
            && n.stat.received == Wrap(1 + |ps|) && n.report.ssrc == first.ssrc
  {
    FirstPacket(c, CREATED, first);
    StaysInPace(c, Received(c, CREATED, first), first, ps);
    assert ([first] + ps)[1..] == ps;
    SameSource(c, first, ps);
  }

  lemma {:induction false} SameSource(c: Clock, last: Packet, ps: seq<Packet>)
    requires OnPace(c, last, ps)
    ensures ps != [] ==> ps[|ps| - 1].ssrc == last.ssrc
    decreases |ps|
  {
    if ps != [] {
      SameSource(c, ps[0], ps[1..]);
    }
  }

  // ----- a new source -----

  /** The packets of a new source that are still to come until it is taken over: a counter
      that is at zero already goes round its byte. */
  function ToCome(r: Rx, ssrc: u32): nat
  {
    if r.history.ssrcNew != ssrc then 6 else if r.history.probation == 0 then 256 else r.history.probation
  }

  /** Every packet of a source that is not the one received brings it one nearer to being
      taken over, and leaves no other trace than a count of invalid ones. */
  lemma StaysInProbation(c: Clock, r: Rx, p: Packet)
    requires r.stat.received != 0 && r.report.ssrc != p.ssrc && ToCome(r, p.ssrc) > 1
    ensures var n := Received(c, r, p);
            && ToCome(n, p.ssrc) == ToCome(r, p.ssrc) - 1 && n.report == r.report && n.prior == r.prior
            && n.stat.invalid == Wrap(r.stat.invalid + 1) && n.stat == r.stat.(invalid := n.stat.invalid)
            && n.history == r.history.(ssrcNew := p.ssrc, probation := n.history.probation)
  {
    var (s, result) := SourceUpdated(r, p.ssrc);
    assert result == InProbation && Received(c, r, p) == Invalid(s);
  }

  /** The last one does it: the receiver restarts with this packet as the first. */
  lemma TakenOver(c: Clock, r: Rx, p: Packet)
    requires r.stat.received != 0 && r.report.ssrc != p.ssrc && ToCome(r, p.ssrc) == 1
    requires p.kind == Codec && p.taken && r.report.jitter + 4000 < 0x1_0000_0000
    ensures var n := Received(c, r, p);
            && n.report.ssrc == p.ssrc && n.stat == Stat(1, 0, 0, 0, (r.stat.restarts + 1) % 256)
            && n.history.base == n.history.max == p.seqNum && n.history.cycles == 0
  {
    var i := NewKnown(c, r, p);
    FirstAccepted(c, i, p);
    WrapExact(i.stat.received + 1);
  }

  lemma NewKnown(c: Clock, r: Rx, p: Packet) returns (i: Rx)
    requires r.stat.received != 0 && r.report.ssrc != p.ssrc && ToCome(r, p.ssrc) == 1
    ensures Received(c, r, p) == Accepted(c, i, p) && i.report == r.report.(ssrc := p.ssrc)
    ensures i.stat == Stat(0, 0, 0, 0, (r.stat.restarts + 1) % 256)
    ensures i.history == History(0, p.seqNum, p.seqNum, p.ts, p.time, 0, 0)
  {
    var s := LastOfProbation(r, p.ssrc);
    i := StartedAnew(s, p);
  }

  lemma LastOfProbation(r: Rx, ssrc: u32) returns (s: Rx)
    requires r.report.ssrc != ssrc && ToCome(r, ssrc) == 1
    ensures SourceUpdated(r, ssrc) == (s, NewSource) && s.stat == r.stat && s.report == r.report.(ssrc := ssrc)
  {
    s := SourceUpdated(r, ssrc).0;
  }

  lemma StartedAnew(s: Rx, p: Packet) returns (i: Rx)
    ensures i == Initialised(Restarted(s), p) && i.report == s.report.(ssrc := p.ssrc)
    ensures i.stat == Stat(0, 0, 0, 0, (s.stat.restarts + 1) % 256)
    ensures i.history == History(0, p.seqNum, p.seqNum, p.ts, p.time, 0, 0)
  {
    i := Initialised(Restarted(s), p);
  }

  /** A source that was not heard before the last packet of the one received is taken over
      with its sixth packet in a row. */
  lemma SixthTakesOver(c: Clock, r: Rx, ps: seq<Packet>)
    requires r.stat.received != 0 && |ps| == 6 && forall k | 0 <= k < 6 :: ps[k].ssrc == ps[0].ssrc
    requires ps[0].ssrc != r.report.ssrc && ps[0].ssrc != r.history.ssrcNew
    requires ps[5].kind == Codec && ps[5].taken && r.report.jitter + 4000 < 0x1_0000_0000
    ensures forall k | 0 <= k < 6 :: ReceivedAll(c, r, ps[..k]).report == r.report
    ensures var n := ReceivedAll(c, r, ps);
            n.report.ssrc == ps[0].ssrc && n.stat == Stat(1, 0, 0, 0, (r.stat.restarts + 1) % 256)
  {
    forall k: nat | k < 6 ensures ReceivedAll(c, r, ps[..k]).report == r.report {
      InProbationFor(c, r, ps[..k]);
    }
    InProbationFor(c, r, ps[..5]);
    var before := ReceivedAll(c, r, ps[..5]);
    TakenOver(c, before, ps[5]);
    AllButLast(c, r, ps);
  }

  lemma {:induction false} InProbationFor(c: Clock, r: Rx, ps: seq<Packet>)
    requires r.stat.received != 0 && forall k | 0 <= k < |ps| :: ps[k].ssrc == ps[0].ssrc
    requires ps != [] ==> r.report.ssrc != ps[0].ssrc && |ps| < ToCome(r, ps[0].ssrc)
    ensures var n := ReceivedAll(c, r, ps);
            && n.report == r.report && n.stat.received == r.stat.received && n.stat.restarts == r.stat.restarts
            && (ps != [] ==> ToCome(n, ps[0].ssrc) == ToCome(r, ps[0].ssrc) - |ps|)
    decreases |ps|
  {
    if ps != [] {
      StaysInProbation(c, r, ps[0]);
      assert forall k | 0 <= k < |ps[1..]| :: ps[1..][k] == ps[k + 1];
      InProbationFor(c, Received(c, r, ps[0]), ps[1..]);
    }
  }

  lemma {:induction false} AllButLast(c: Clock, r: Rx, ps: seq<Packet>)
    requires ps != []
    ensures ReceivedAll(c, r, ps) == Received(c, ReceivedAll(c, r, ps[..|ps| - 1]), ps[|ps| - 1])
    decreases |ps|
  {
    if |ps| > 1 {
      AllButLast(c, Received(c, r, ps[0]), ps[1..]);
      assert ps[..|ps| - 1][1..] == ps[1..][..|ps[1..]| - 1];
    }
  }

  // ----- packets that are not taken, and other kinds -----

  /** A packet that the jitter buffer refuses is counted, and restarts the receiver if and
      only if the packets refused since the last report are more than 30 per cent of those
      received since. */
  lemma RefusedRestartsIff(c: Clock, r: Rx, p: Packet, s: int)
    requires Continues(r, p) && Fits(c, Millis(r, p), s) && p.ts == Wrap(r.history.tsLast + s) && !p.taken
    requires Abs(Millis(r, p) * c.channels * c.rate / 1000 - s) <= 4000 && r.report.jitter + 4000 < 0x1_0000_0000
    requires r.prior.received <= r.stat.received < 0x200_0000 && r.prior.discarded <= r.stat.discarded < 0x200_0000
    ensures var refused, received := r.stat.discarded + 1 - r.prior.discarded, r.stat.received + 1 - r.prior.received;
            var n := Received(c, r, p);
            if refused * 100 > received * 30 then
              n.stat == Stat(0, 0, 0, 0, (r.stat.restarts + 1) % 256)
            else
              n.stat == Stat(r.stat.received + 1, r.stat.invalid, r.stat.discarded + 1, r.stat.ignored, r.stat.restarts)
  {
    var x := Millis(r, p) * c.channels * c.rate / 1000 - s;
    TransitIs(c, r.history, p, Millis(r, p), s);
    var m := AcceptedIs(c, r, p);
    DeviationIs(c, m.history, p, x);
    TimesTaken(c, m, p, Abs(x));
    var (n, _) := TsUpdated(c, m, p);
    var d := Discarded(n);
    WrapExact(r.stat.received + 1);
    WrapExact(r.stat.discarded + 1);
    ThresholdIs(d, d.stat.received - d.prior.received, d.stat.discarded - d.prior.discarded);
  }

  lemma ThresholdIs(r: Rx, received: int, discarded: int)
    requires received == r.stat.received - r.prior.received && discarded == r.stat.discarded - r.prior.discarded
    requires 0 <= received < 0x201_0000 && 0 <= discarded < 0x201_0000
    ensures ThresholdChecked(r) == if discarded * 100 > received * 30 then Restarted(r) else r
  {
    WrapExact(received);
    WrapExact(discarded);
    WrapExact(received * 30);
    WrapExact(discarded * 100);
  }

  /** What is no codec packet touches neither jitter nor times; an event is counted if it is
      refused, and anything else is ignored. */
  lemma OtherKinds(c: Clock, r: Rx, p: Packet)
    requires r.stat.received != 0 && r.report.ssrc == p.ssrc && p.kind != Codec
    ensures var n := Received(c, r, p);
            && n.report == r.report && n.prior == r.prior
            && n.history.timeLast == r.history.timeLast && n.history.tsLast == r.history.tsLast
            && n.stat.received == Wrap(r.stat.received + 1)
            && n.stat.discarded == Wrap(r.stat.discarded + if p.kind == NamedEvent && !p.taken then 1 else 0)
            && n.stat.ignored == Wrap(r.stat.ignored + if p.kind == Other then 1 else 0)
            && n.stat.invalid == r.stat.invalid && n.stat.restarts == r.stat.restarts
  {
    WrapExact(r.stat.discarded);
    WrapExact(r.stat.ignored);
    SourceKeepsTimes(r, p.ssrc);
  }

  /** A packet of the source being received ends the probation of any other. */
  lemma KnownEndsProbation(c: Clock, r: Rx, p: Packet)
    requires r.stat.received != 0 && r.report.ssrc == p.ssrc
    ensures Received(c, r, p).history.probation == 0
    ensures r.history.probation != 0 ==> Received(c, r, p).history.ssrcNew == 0
  {
  }

  /** The number of lost packets that a report carries: what is expected beyond what came,
      kept to a signed field of 24 bits. */
  lemma LostField(r: Rx)
    ensures var lost := if Expected(r) > r.stat.received then Expected(r) - r.stat.received else 0;
            && -0x80_0000 <= Reported(r).report.lost < 0x80_0000
            && (Reported(r).report.lost - lost) % 0x100_0000 == 0
            && (lost < 0x80_0000 ==> Reported(r).report.lost == lost)
  {
    FieldIs(if Expected(r) > r.stat.received then Expected(r) - r.stat.received else 0);
  }

  lemma FieldIs(x: u32)
    ensures -0x80_0000 <= Field24(x) < 0x80_0000 && (Field24(x) - x) % 0x100_0000 == 0
    ensures x < 0x80_0000 ==> Field24(x) == x
  {
  }

  /** The answer to a packet by how far it is from the highest one: less than 3000 ahead it
      is in sequence, less than 100 behind it is misordered, and otherwise it drifted. */
  lemma SequenceAnswer(h: History, highest: nat, n: nat)
    requires h.max == Low(highest)
    ensures 0 <= n - highest < 3000 ==> SeqUpdated(h, Low(n)).1 == InSequence
    ensures 0 < highest - n < 100 ==> SeqUpdated(h, Low(n)).1 == Misordered
    ensures 3000 <= n - highest <= 65436 ==> SeqUpdated(h, Low(n)).1 == Drifted
  {
    LowDifference(n, highest);
  }

  lemma LowDifference(n: nat, m: nat)
    ensures (Low(n) - Low(m)) % 0x1_0000 == (n - m) % 0x1_0000
  {
  }

  // ----- from one report to the next -----

  /** None of the packets restarts the receiver. */
  predicate NoRestart(c: Clock, r: Rx, ps: seq<Packet>)
    decreases |ps|
  {
    ps == [] || (Received(c, r, ps[0]).stat.restarts == r.stat.restarts && NoRestart(c, Received(c, r, ps[0]), ps[1..]))
  }

  /** The figures that the next report counts from. */
  predicate SameMarks(p: Periodic, q: Periodic)
  {
    p.received == q.received && p.expected == q.expected && p.discarded == q.discarded
  }

  lemma PacketKeepsMarks(c: Clock, r: Rx, p: Packet)
    requires Received(c, r, p).stat.restarts == r.stat.restarts
    ensures SameMarks(Received(c, r, p).prior, r.prior)
  {
    var i := if r.stat.received == 0 then Initialised(r, p) else r;
    var (s, result) := SourceUpdated(i, p.ssrc);
    SourceKeepsTimes(i, p.ssrc);
    match result
    case InProbation =>
    case Known => AcceptedKeepsMarks(c, s, p);
    case NewSource => NewSourceRestarts(c, s, p);
  }

  lemma AcceptedKeepsMarks(c: Clock, r: Rx, p: Packet)
    requires Accepted(c, r, p).stat.restarts == r.stat.restarts
    ensures SameMarks(Accepted(c, r, p).prior, r.prior)
  {
  }

  lemma NewSourceRestarts(c: Clock, r: Rx, p: Packet)
    ensures Accepted(c, Initialised(Restarted(r), p), p).stat.restarts != r.stat.restarts
  {
    var i := Initialised(Restarted(r), p);
    FirstTransit(c, Counted(i, p.seqNum).history, p);
  }

  lemma {:induction false} PacketsKeepMarks(c: Clock, r: Rx, ps: seq<Packet>)
    requires NoRestart(c, r, ps)
    ensures SameMarks(ReceivedAll(c, r, ps).prior, r.prior)
    decreases |ps|
  {
    if ps != [] {
      PacketKeepsMarks(c, r, ps[0]);
      PacketsKeepMarks(c, Received(c, r, ps[0]), ps[1..]);
    }
  }

  /** A report speaks of what was expected and received since the one before, and its
      jitter is where the extremes of the next interval begin. */
  lemma SinceLastReport(c: Clock, r: Rx, ps: seq<Packet>)
    requires NoRestart(c, Reported(r), ps)
    ensures var n := ReceivedAll(c, Reported(r), ps);
            && ExpectedSince(n) == Expected(n) - Expected(r)
            && ReceivedSince(n) == n.stat.received - r.stat.received
            && n.stat.discarded - n.prior.discarded == n.stat.discarded - r.stat.discarded
    ensures Reported(r).prior.jitterMin == Reported(r).prior.jitterMax == Reported(r).report.jitter == r.report.jitter
    ensures Reported(r).stat == r.stat && Reported(r).history == r.history
  {
    PacketsKeepMarks(c, Reported(r), ps);
  }
}
