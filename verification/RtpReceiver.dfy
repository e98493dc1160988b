/** Statistics of an RTP receiver: sequence numbers, source changes, jitter, and the
    figures of receiver reports (appendices A.1, A.3 and A.8 of RFC 3550). */
module RtpReceiver {
  import opened Machine

  const SEQ_MOD := 0x1_0000
  const MAX_DROPOUT := 3000
  const MAX_MISORDER := 100
  const DISCARDED_THRESHOLD := 30 // per cent
  const DEVIATION_THRESHOLD := 4000
  const TALKSPURT_GAP := 1000 // ms
  const PROBATION := 5

  // ----- data -----

  datatype Stat = Stat(received: u32, invalid: u32, discarded: u32, ignored: u32, restarts: byte)

  datatype History = History(cycles: u32, base: u16, max: u16, tsLast: u32, timeLast: int, ssrcNew: u32,
                             probation: byte)

  datatype Periodic = Periodic(received: u32, expected: u32, discarded: u32, jitterMin: u32, jitterMax: u32)

  /** What goes into a receiver report; `lost` is a signed field of 24 bits. */
  datatype Report = Report(ssrc: u32, fraction: byte, lost: int, jitter: u32)

  datatype Rx = Rx(stat: Stat, history: History, prior: Periodic, report: Report)

  const CREATED := Rx(Stat(0, 0, 0, 0, 0), History(0, 0, 0, 0, 0, 0, 0), Periodic(0, 0, 0, 0, 0), Report(0, 0, 0, 0))

  datatype Kind = Codec | NamedEvent | Other

  /** A valid packet, the microsecond it arrived, and whether the jitter buffer takes it. */
  datatype Packet = Packet(ssrc: u32, seqNum: u16, ts: u32, marker: bool, kind: Kind, time: int, taken: bool)

  /** Samples per millisecond, times a thousand. */
  datatype Clock = Clock(channels: byte, rate: u16)

  // ----- restart and initialisation -----

  function Restarted(r: Rx): Rx
  {
    Rx(CREATED.stat.(restarts := (r.stat.restarts + 1) % 0x100), CREATED.history, CREATED.prior, r.report)
  }

  function Initialised(r: Rx, p: Packet): Rx
  {
    r.(report := r.report.(ssrc := p.ssrc),
       history := r.history.(base := p.seqNum, max := p.seqNum, tsLast := p.ts, timeLast := p.time))
  }

  // ----- sources -----

  datatype SourceResult = Known | InProbation | NewSource

  /** A new source is taken over after the packets of its probation. */
  function SourceUpdated(r: Rx, ssrc: u32): (Rx, SourceResult)
  {
    if r.report.ssrc == ssrc then
      (if r.history.probation != 0 then r.(history := r.history.(probation := 0, ssrcNew := 0)) else r, Known)
    else if r.history.ssrcNew == ssrc then
      var left := (r.history.probation - 1) % 0x100;
      var r := r.(history := r.history.(probation := left));
      if left == 0 then (r.(report := r.report.(ssrc := ssrc)), NewSource) else (r, InProbation)
    else (r.(history := r.history.(ssrcNew := ssrc, probation := PROBATION)), InProbation)
  }

  // ----- sequence numbers -----

  datatype SeqResult = InSequence | Misordered | Drifted

  function SeqUpdated(h: History, seqNum: u16): (History, SeqResult)
  {
    var delta := (seqNum - h.max) % SEQ_MOD;
    if delta < MAX_DROPOUT then
      (h.(cycles := if seqNum < h.max then Wrap(h.cycles + SEQ_MOD) else h.cycles, max := seqNum), InSequence)
    else (h, if delta <= SEQ_MOD - MAX_MISORDER then Drifted else Misordered)
  }

  function Counted(r: Rx, seqNum: u16): Rx
  {
    r.(history := SeqUpdated(r.history, seqNum).0, stat := r.stat.(received := Wrap(r.stat.received + 1)))
  }

  // ----- timestamps -----

  function TimeDiff(h: History, p: Packet): int { Signed(Divided(p.time - h.timeLast, 1000)) }

  /** The difference of arrival times less that of timestamps, in samples. */
  function Transit(c: Clock, h: History, p: Packet): int
  {
    Signed(Divided(Signed(TimeDiff(h, p) * c.channels * c.rate), 1000) - Wrap(p.ts - h.tsLast))
  }

  /** The magnitude in 32 bits; the least number has none. */
  function Deviation(c: Clock, h: History, p: Packet): int
  {
    var d := Transit(c, h, p);
    if d < 0 then Signed(-d) else d
  }

  function JitterNext(jitter: u32, deviation: int): u32 { Wrap(jitter + deviation - Wrap(jitter + 8) / 16) }

  /** The result is false when the timestamps drift. */
  function TsUpdated(c: Clock, r: Rx, p: Packet): (Rx, bool)
  {
    var deviation := Deviation(c, r.history, p);
    if deviation > DEVIATION_THRESHOLD then (r, false)
    else
      var jitter := JitterNext(r.report.jitter, deviation);
      (r.(report := r.report.(jitter := jitter), history := r.history.(timeLast := p.time, tsLast := p.ts),
          prior := r.prior.(jitterMin := if jitter < r.prior.jitterMin then jitter else r.prior.jitterMin,
                            jitterMax := if jitter > r.prior.jitterMax then jitter else r.prior.jitterMax)), true)
  }

  /** Too many packets discarded since the last report restart the receiver. */
  function ThresholdChecked(r: Rx): Rx
  {
    var received, discarded := Wrap(r.stat.received - r.prior.received), Wrap(r.stat.discarded - r.prior.discarded);
    if Wrap(discarded * 100) > Wrap(received * DISCARDED_THRESHOLD) then Restarted(r) else r
  }

  function Discarded(r: Rx): Rx { r.(stat := r.stat.(discarded := Wrap(r.stat.discarded + 1))) }
  function Ignored(r: Rx): Rx { r.(stat := r.stat.(ignored := Wrap(r.stat.ignored + 1))) }
  function Invalid(r: Rx): Rx { r.(stat := r.stat.(invalid := Wrap(r.stat.invalid + 1))) }

  // ----- receiving -----

  function CodecAccepted(c: Clock, r: Rx, p: Packet): Rx
  {
    var (r, ok) := TsUpdated(c, r, p);
    if !ok then Restarted(r) else if !p.taken then ThresholdChecked(Discarded(r)) else r
  }

  /** The packet belongs to the source being received. */
  function Accepted(c: Clock, r: Rx, p: Packet): Rx
  {
    var r := Counted(r, p.seqNum);
    match p.kind
    case Codec => CodecAccepted(c, r, p)
    case NamedEvent => if !p.taken then Discarded(r) else r
    case Other => Ignored(r)
  }

  function Received(c: Clock, r: Rx, p: Packet): Rx
  {
    var (r, result) := SourceUpdated(if r.stat.received == 0 then Initialised(r, p) else r, p.ssrc);
    match result
    case InProbation => Invalid(r)
    case NewSource => Accepted(c, Initialised(Restarted(r), p), p)
    case Known => Accepted(c, r, p)
  }

  // ----- reporting -----

  function Expected(r: Rx): u32
  {
    if r.stat.received == 0 then 0 else Wrap(r.history.cycles + r.history.max - r.history.base + 1)
  }

  function Fraction(expected: u32, lost: u32): u32
  {
    if expected == 0 || lost == 0 then 0 else Wrap(lost * 0x100) / expected
  }

  function Field24(x: u32): int
  {
    if x % 0x100_0000 < 0x80_0000 then x % 0x100_0000 else x % 0x100_0000 - 0x100_0000
  }

  /** The part of the packets expected since the last report that did not come, of 256. */
  function IntervalFraction(expected: u32, received: u32): byte
  {
    Fraction(expected, if expected > received then expected - received else 0) % 0x100
  }

  function Reported(r: Rx): Rx
  {
    var expected := Expected(r);
    r.(prior := Periodic(r.stat.received, expected, r.stat.discarded, r.report.jitter, r.report.jitter),
       report := r.report.(fraction := IntervalFraction(Wrap(expected - r.prior.expected),
                                                        Wrap(r.stat.received - r.prior.received)),
                           lost := if expected > r.stat.received then Field24(expected - r.stat.received) else 0))
  }

  // ----- the receiver as an object -----

  class Receiver {
    const clock: Clock
    var stat: Stat
    var history: History
    var periodicHistory: Periodic
    var rrStat: Report

    function Value(): Rx
      reads this
    {
      Rx(stat, history, periodicHistory, rrStat)
    }

    constructor (clock: Clock)
      ensures this.clock == clock && Value() == CREATED
    {
      this.clock := clock;
      stat, history, periodicHistory, rrStat := CREATED.stat, CREATED.history, CREATED.prior, CREATED.report;
    }

    method Restart()
      modifies this
      ensures Value() == Restarted(old(Value()))
    {
      var restarts := (stat.restarts + 1) % 0x100;
      stat, history, periodicHistory := CREATED.stat, CREATED.history, CREATED.prior;
      stat := stat.(restarts := restarts);
    }

    method StatInit(p: Packet)
      modifies this
      ensures Value() == Initialised(old(Value()), p)
    {
      rrStat := rrStat.(ssrc := p.ssrc);
      history := history.(base := p.seqNum, max := p.seqNum, tsLast := p.ts, timeLast := p.time);
    }

    method SsrcUpdate(ssrc: u32) returns (result: SourceResult)
      modifies this
      ensures (Value(), result) == SourceUpdated(old(Value()), ssrc)
    {
      result := Known;
      if rrStat.ssrc == ssrc {
        if history.probation != 0 {
          history := history.(probation := 0, ssrcNew := 0);
        }
      } else if history.ssrcNew == ssrc {
        history := history.(probation := (history.probation - 1) % 0x100);
        if history.probation == 0 {
          rrStat := rrStat.(ssrc := ssrc);
          result := NewSource;
        } else {
          result := InProbation;
        }
      } else {
        history := history.(ssrcNew := ssrc, probation := PROBATION);
        result := InProbation;
      }
    }

    method SeqUpdate(seqNum: u16) returns (result: SeqResult)
      modifies this
      ensures Value() == Counted(old(Value()), seqNum) && result == SeqUpdated(old(history), seqNum).1
    {
      result := InSequence;
      var delta := (seqNum - history.max) % SEQ_MOD;
      if delta < MAX_DROPOUT {
        if seqNum < history.max {
          history := history.(cycles := Wrap(history.cycles + SEQ_MOD));
        }
        history := history.(max := seqNum);
      } else if delta <= SEQ_MOD - MAX_MISORDER {
        result := Drifted;
      } else {
        result := Misordered;
      }
      stat := stat.(received := Wrap(stat.received + 1));
    }

    /** A gap without a marker is given the marker that is missing. */
    method TsUpdate(p: Packet) returns (ok: bool, marker: bool)
      modifies this
      ensures (Value(), ok) == TsUpdated(clock, old(Value()), p)
      ensures marker == (p.marker || TimeDiff(old(history), p) > 1000)
    {
      var timeDiff := TimeDiff(history, p);
      marker := p.marker || timeDiff > TALKSPURT_GAP;
      var deviation := Deviation(clock, history, p);
      if deviation > DEVIATION_THRESHOLD {
        return false, marker;
      }
      ok := true;
      rrStat := rrStat.(jitter := JitterNext(rrStat.jitter, deviation));
      history := history.(timeLast := p.time, tsLast := p.ts);
      if rrStat.jitter < periodicHistory.jitterMin {
        periodicHistory := periodicHistory.(jitterMin := rrStat.jitter);
      }
      if rrStat.jitter > periodicHistory.jitterMax {
        periodicHistory := periodicHistory.(jitterMax := rrStat.jitter);
      }
    }

    method ThresholdCheck()
      modifies this
      ensures Value() == ThresholdChecked(old(Value()))
    {
      var received: int := Wrap(stat.received - periodicHistory.received);
      var discarded: int := Wrap(stat.discarded - periodicHistory.discarded);
      if Wrap(discarded * 100) > Wrap(received * DISCARDED_THRESHOLD) {
        Restart();
      }
    }

    method Discard()
      modifies this
      ensures Value() == Discarded(old(Value()))
    {
      stat := stat.(discarded := Wrap(stat.discarded + 1));
    }

    method CodecReceive(p: Packet)
      modifies this
      ensures Value() == CodecAccepted(clock, old(Value()), p)
    {
      var ok, marker := TsUpdate(p);
      if !ok {
        Restart();
      } else if !p.taken {
        Discard();
        ThresholdCheck();
      }
    }

    method PayloadReceive(p: Packet)
      modifies this
      ensures Value() == Accepted(clock, old(Value()), p)
    {
      var _ := SeqUpdate(p.seqNum);
      match p.kind
      case Codec => CodecReceive(p);
      case NamedEvent =>
        if !p.taken {
          Discard();
        }
      case Other =>
        stat := stat.(ignored := Wrap(stat.ignored + 1));
    }

    method PacketReceive(p: Packet)
      modifies this
      ensures Value() == Received(clock, old(Value()), p)
    {
      if stat.received == 0 {
        StatInit(p);
      }
      var result := SsrcUpdate(p.ssrc);
      if result == InProbation {
        stat := stat.(invalid := Wrap(stat.invalid + 1));
        return;
      }
      if result == NewSource {
        Restart();
        StatInit(p);
      }
      PayloadReceive(p);
    }

    method FractionLost(expectedInterval: u32, receivedInterval: u32) returns (fraction: byte)
      ensures fraction == IntervalFraction(expectedInterval, receivedInterval)
    {
      var lost: u32 := 0;
      if expectedInterval > receivedInterval {
        lost := expectedInterval - receivedInterval;
      }
      fraction := Fraction(expectedInterval, lost) % 0x100;
    }

    method PeriodicHistoryUpdate()
      modifies this
      ensures Value() == Reported(old(Value()))
    {
      var expected := Expected(Value());
      var fraction := FractionLost(Wrap(expected - periodicHistory.expected),
                                   Wrap(stat.received - periodicHistory.received));
      rrStat := rrStat.(fraction := fraction);
      rrStat := rrStat.(lost := if expected > stat.received then Field24(expected - stat.received) else 0);
      periodicHistory := Periodic(stat.received, expected, stat.discarded, rrStat.jitter, rrStat.jitter);
    }
  }
}
