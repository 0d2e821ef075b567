/**
 `dispatcher_handler` of tcptop: from each statistics sample, the delay since the previous one and
 the rates in bits and packets per second. `long` is 32 bits and `LONGLONG` 64, and a signed
 operation that overflows, or a division by zero, has no defined result.
 */
module TcpTop {
  import opened Common

  const MICRO := 1000000

  datatype Stamp = Stamp(sec: int, usec: int)

  predicate FitsLong(x: int) { -0x8000_0000 <= x < 0x8000_0000 }
  predicate FitsLongLong(x: int) { -0x8000_0000_0000_0000 <= x < 0x8000_0000_0000_0000 }

  /** A time stamp as the driver fills it. */
  predicate Normal(t: Stamp) { FitsLong(t.sec) && 0 <= t.usec < MICRO }

  function Micros(t: Stamp): int { t.sec * MICRO + t.usec }

  /** The 32-bit expression, assigned to an unsigned variable. */
  function Delay(old_ts: Stamp, ts: Stamp): Option<nat> {
    var seconds := ts.sec - old_ts.sec;
    var micros := seconds * MICRO;
    var less := micros - old_ts.usec;
    var all := less + ts.usec;
    if FitsLong(seconds) && FitsLong(micros) && FitsLong(less) && FitsLong(all) then Some(all % UINT_RANGE)
    else None
  }

  /** The 64-bit quotient of a count scaled by `scale` and then to microseconds. */
  function Rate(count: nat, scale: nat, delay: nat): Option<nat> {
    if delay > 0 && FitsLongLong(count * scale) && FitsLongLong(count * scale * MICRO)
    then Some(count * scale * MICRO / delay)
    else None
  }

  /** One sample from the driver, with its two 64-bit counters in the order they are stored, and one printed line. */
  datatype Stat = Stat(ts: Stamp, packets: nat, bytes: nat)
  datatype Line = Line(ts: Stamp, delay: nat, bps: nat, pps: nat)

  function Report(old_ts: Stamp, s: Stat): Option<Line> {
    match Delay(old_ts, s.ts)
    case None => None
    case Some(delay) =>
      match (Rate(s.bytes, 8, delay), Rate(s.packets, 1, delay))
      case (Some(bps), Some(pps)) => Some(Line(s.ts, delay, bps, pps))
      case _ => None
  }

  class Monitor {
    /** The time stamp kept from the previous sample. */
    var old_ts: Stamp

    constructor (start: Stamp)
      ensures old_ts == start
    {
      old_ts := start;
    }

    /** One call of the handler; `None` when the arithmetic has no defined result. */
    method DispatcherHandler(s: Stat) returns (line: Option<Line>)
      modifies this
      ensures line == Report(old(old_ts), s)
      ensures old_ts == if line.Some? then s.ts else old(old_ts)
    {
      var delay := Delay(old_ts, s.ts);
      if delay == None {
        return None;
      }
      var bps := Rate(s.bytes, 8, delay.value);
      var pps := Rate(s.packets, 1, delay.value);
      if bps == None || pps == None {
        return None;
      }
      line := Some(Line(s.ts, delay.value, bps.value, pps.value));
      old_ts := s.ts;
    }

    /** The capture loop over a run of samples. */
    method Loop(stats: seq<Stat>) returns (lines: Option<seq<Line>>)
      modifies this
      ensures lines == Reports(old(old_ts), stats)
      ensures lines.Some? && stats != [] ==> old_ts == stats[|stats| - 1].ts
    {
      var done: seq<Line> := [];
      var i := 0;
      assert Prepend([], Reports(old_ts, stats)) == Reports(old_ts, stats) by { PrependNone(Reports(old_ts, stats)); }
      assert stats[0..] == stats;
      while i < |stats|
        invariant i <= |stats| && old_ts == (if i == 0 then old(old_ts) else stats[i - 1].ts)
        invariant Reports(old(old_ts), stats) == Prepend(done, Reports(old_ts, stats[i..]))
      {
        assert stats[i..][1..] == stats[i + 1..];
        var line := DispatcherHandler(stats[i]);
        if line == None {
          return None;
        }
        PrependOne(done, line.value, Reports(old_ts, stats[i + 1..]));
        done := done + [line.value];
        i := i + 1;
      }
      assert done + [] == done;
      return Some(done);
    }
  }

  function Prepend(lines: seq<Line>, more: Option<seq<Line>>): Option<seq<Line>> {
    if more == None then None else Some(lines + more.value)
  }

  lemma {:induction false} PrependNone(more: Option<seq<Line>>)
    ensures Prepend([], more) == more
  {
    if more.Some? {
      assert [] + more.value == more.value;
    }
  }

  lemma {:induction false} PrependOne(lines: seq<Line>, l: Line, more: Option<seq<Line>>)
    ensures Prepend(lines, Prepend([l], more)) == Prepend(lines + [l], more)
  {
    if more.Some? {
      assert lines + ([l] + more.value) == lines + [l] + more.value;
    }
  }

  /** The lines of a whole run, each sample measured from the one before. */
  function Reports(old_ts: Stamp, stats: seq<Stat>): Option<seq<Line>>
    decreases |stats|
  {
    if stats == [] then Some([])
    else
      match Report(old_ts, stats[0])
      case None => None
      case Some(line) => Prepend([line], Reports(stats[0].ts, stats[1..]))
  }

  // -------- Exactness --------

  /** The delay is the true, positive one exactly for a later stamp within the 32-bit range. */
  lemma {:induction false} DelayExactly(old_ts: Stamp, ts: Stamp)
    requires Normal(old_ts) && Normal(ts)
    ensures var true_delay := Micros(ts) - Micros(old_ts);
      (Delay(old_ts, ts).Some? && Delay(old_ts, ts).value == true_delay > 0) <==>
      (0 < true_delay < 0x8000_0000 && ts.sec - old_ts.sec <= 2147)
  {
  }

  /**
   When the expression has a result at all: at most 2147 seconds either way, with the sums in range.
   A stamp that is not later gives the true delay plus 2^32, or zero.
   */
  lemma {:induction false} DelayDefinedExactly(old_ts: Stamp, ts: Stamp)
    requires Normal(old_ts) && Normal(ts)
    ensures var d, true_delay := ts.sec - old_ts.sec, Micros(ts) - Micros(old_ts);
      && (Delay(old_ts, ts).Some? <==>
          -2147 <= d <= 2147 && -0x8000_0000 <= d * 1000000 - old_ts.usec && true_delay < 0x8000_0000)
      && (Delay(old_ts, ts).Some? ==>
          Delay(old_ts, ts).value == if true_delay < 0 then true_delay + 0x1_0000_0000 else true_delay)
  {
  }

  /** A line is printed exactly when the delay is defined and not zero and both counts stay below 2^63. */
  lemma {:induction false} ReportDefinedExactly(old_ts: Stamp, s: Stat)
    ensures Report(old_ts, s).Some? <==>
      && Delay(old_ts, s.ts).Some? && Delay(old_ts, s.ts).value > 0
      && s.bytes * 8000000 < 0x8000_0000_0000_0000 && s.packets * 1000000 < 0x8000_0000_0000_0000
  {
    if Delay(old_ts, s.ts).Some? {
      var delay := Delay(old_ts, s.ts).value;
      assert s.bytes * 8 * MICRO == s.bytes * 8000000;
      assert Rate(s.bytes, 8, delay).Some? <==> delay > 0 && s.bytes * 8000000 < 0x8000_0000_0000_0000;
      assert Rate(s.packets, 1, delay).Some? <==> delay > 0 && s.packets * 1000000 < 0x8000_0000_0000_0000;
    }
  }

  /** A gap of at most 2146 seconds is always within it. */
  lemma {:induction false} DelayOfShortGap(old_ts: Stamp, ts: Stamp)
    requires Normal(old_ts) && Normal(ts)
    requires Micros(old_ts) < Micros(ts) && ts.sec - old_ts.sec <= 2146
    ensures Delay(old_ts, ts) == Some(Micros(ts) - Micros(old_ts))
  {
    DelayExactly(old_ts, ts);
  }

  /** The reported rate is the true one rounded down to a whole unit a second. */
  lemma {:induction false} RateRoundsDown(count: nat, scale: nat, delay: nat)
    requires Rate(count, scale, delay).Some?
    ensures var rate := Rate(count, scale, delay).value;
      rate * delay <= count * scale * MICRO < rate * delay + delay
  {
    var n := count * scale * MICRO;
    assert n == n / delay * delay + n % delay;
  }

  // -------- Whole runs --------

  /** The stamp a sample is measured from: the start for the first one, else the sample before. */
  function Previous(old_ts: Stamp, stats: seq<Stat>, i: nat): Stamp
    requires i < |stats|
  {
    if i == 0 then old_ts else stats[i - 1].ts
  }

  /** The lines of a run are those of its samples, each measured from the sample before it. */
  lemma {:induction false} ReportsExactly(old_ts: Stamp, stats: seq<Stat>, lines: seq<Line>)
    ensures Reports(old_ts, stats) == Some(lines) <==>
      |lines| == |stats| && forall i | 0 <= i < |stats| :: Report(Previous(old_ts, stats, i), stats[i]) == Some(lines[i])
    decreases |stats|
  {
    if stats != [] && lines != [] {
      ReportsExactly(stats[0].ts, stats[1..], lines[1..]);
      ReportsFront(old_ts, stats, lines);
      if |lines| == |stats| {
        EachLine(old_ts, stats, lines);
      }
    }
  }

  lemma {:induction false} ReportsFront(old_ts: Stamp, stats: seq<Stat>, lines: seq<Line>)
    requires stats != [] && lines != []
    ensures Reports(old_ts, stats) == Some(lines) <==>
      Report(old_ts, stats[0]) == Some(lines[0]) && Reports(stats[0].ts, stats[1..]) == Some(lines[1..])
  {
    var more := Reports(stats[0].ts, stats[1..]);
    if Report(old_ts, stats[0]).Some? && more.Some? {
      var line := Report(old_ts, stats[0]).value;
      assert ([line] + more.value)[0] == line && ([line] + more.value)[1..] == more.value;
      assert lines == [lines[0]] + lines[1..];
    }
  }

  lemma {:induction false} EachLine(old_ts: Stamp, stats: seq<Stat>, lines: seq<Line>)
    requires stats != [] && |lines| == |stats|
    ensures (forall i | 0 <= i < |stats| :: Report(Previous(old_ts, stats, i), stats[i]) == Some(lines[i])) <==>
      && Report(old_ts, stats[0]) == Some(lines[0])
      && forall i | 0 <= i < |stats| - 1 ::
           Report(Previous(stats[0].ts, stats[1..], i), stats[1..][i]) == Some(lines[1..][i])
  {
    var s, rest, more := stats[0].ts, stats[1..], lines[1..];
    assert Previous(old_ts, stats, 0) == old_ts;
    if forall i | 0 <= i < |rest| :: Report(Previous(s, rest, i), rest[i]) == Some(more[i]) {
      forall i | 0 < i < |stats|
        ensures Report(Previous(old_ts, stats, i), stats[i]) == Some(lines[i])
      {
        assert Report(Previous(s, rest, i - 1), rest[i - 1]) == Some(more[i - 1]);
        assert Previous(s, rest, i - 1) == Previous(old_ts, stats, i);
      }
    }
    if forall i | 0 <= i < |stats| :: Report(Previous(old_ts, stats, i), stats[i]) == Some(lines[i]) {
      forall i | 0 <= i < |rest| ensures Report(Previous(s, rest, i), rest[i]) == Some(more[i]) {
        assert Report(Previous(old_ts, stats, i + 1), stats[i + 1]) == Some(lines[i + 1]);
        assert Previous(s, rest, i) == Previous(old_ts, stats, i + 1);
      }
    }
  }

  /** In every run each line has its own sample's stamp, and its rates are the true ones rounded down. */
  lemma {:induction false} RunRatesRoundDown(old_ts: Stamp, stats: seq<Stat>, lines: seq<Line>, i: nat)
    requires Reports(old_ts, stats) == Some(lines) && i < |stats|
    ensures |lines| == |stats| && lines[i].ts == stats[i].ts
    ensures Delay(if i == 0 then old_ts else stats[i - 1].ts, stats[i].ts) == Some(lines[i].delay)
    ensures lines[i].bps * lines[i].delay <= stats[i].bytes * 8 * 1000000 < (lines[i].bps + 1) * lines[i].delay
    ensures lines[i].pps * lines[i].delay <= stats[i].packets * 1000000 < (lines[i].pps + 1) * lines[i].delay
  {
    ReportsExactly(old_ts, stats, lines);
    LineRoundsDown(Previous(old_ts, stats, i), stats[i]);
    assert (lines[i].bps + 1) * lines[i].delay == lines[i].bps * lines[i].delay + lines[i].delay;
    assert (lines[i].pps + 1) * lines[i].delay == lines[i].pps * lines[i].delay + lines[i].delay;
  }

  /** Samples in strictly increasing time, close enough together, with counts in the 64-bit range. */
  predicate Regular(old_ts: Stamp, stats: seq<Stat>)
    decreases |stats|
  {
    Normal(old_ts) &&
    (stats != [] ==>
       && var s := stats[0];
       && Normal(s.ts) && Micros(old_ts) < Micros(s.ts) && s.ts.sec - old_ts.sec <= 2146
       && s.bytes * 8 * MICRO < 0x8000_0000_0000_0000 && s.packets * MICRO < 0x8000_0000_0000_0000
       && Regular(s.ts, stats[1..]))
  }

  function TotalBytes(stats: seq<Stat>): nat {
    if stats == [] then 0 else stats[0].bytes + TotalBytes(stats[1..])
  }

  function TotalDelay(lines: seq<Line>): nat {
    if lines == [] then 0 else lines[0].delay + TotalDelay(lines[1..])
  }

  /** The reported bit rates, each weighted with its delay. */
  function WeightedBits(lines: seq<Line>): nat {
    if lines == [] then 0 else lines[0].bps * lines[0].delay + WeightedBits(lines[1..])
  }

  /** The true time from the stamp before sample `i` to its own. */
  function Gap(old_ts: Stamp, stats: seq<Stat>, i: nat): int
    requires i < |stats|
  {
    Micros(stats[i].ts) - Micros(Previous(old_ts, stats, i))
  }

  /** Over a regular run, every delay is exact and they add up to the time from first to last stamp. */
  lemma {:induction false} DelaysAddUp(old_ts: Stamp, stats: seq<Stat>)
    requires Regular(old_ts, stats)
    ensures Reports(old_ts, stats).Some?
    ensures var lines := Reports(old_ts, stats).value;
      && |lines| == |stats|
      && (forall i | 0 <= i < |lines| :: lines[i].delay == Gap(old_ts, stats, i) > 0)
      && TotalDelay(lines) == Micros(if stats == [] then old_ts else stats[|stats| - 1].ts) - Micros(old_ts)
    decreases |stats|
  {
    if stats != [] {
      DelayOfShortGap(old_ts, stats[0].ts);
      DelaysAddUp(stats[0].ts, stats[1..]);
      var line, more := Report(old_ts, stats[0]).value, Reports(stats[0].ts, stats[1..]).value;
      var lines := [line] + more;
      assert lines[1..] == more;
      forall i | 0 <= i < |lines| ensures lines[i].delay == Gap(old_ts, stats, i) > 0 {
        if i > 0 {
          assert lines[i] == more[i - 1] && stats[1..][i - 1] == stats[i];
          assert Gap(stats[0].ts, stats[1..], i - 1) == Gap(old_ts, stats, i);
        }
      }
    }
  }

  /**
   Over a regular run, the time-weighted average of the reported bit rates is at most the true
   average rate, and less than one bit per second under it.
   */
  lemma {:induction false} AverageWithinOneBit(old_ts: Stamp, stats: seq<Stat>)
    requires Regular(old_ts, stats) && stats != []
    ensures var lines := Reports(old_ts, stats);
      && lines.Some?
      && WeightedBits(lines.value) <= TotalBytes(stats) * 8 * MICRO < WeightedBits(lines.value) + TotalDelay(lines.value)
    decreases |stats|
  {
    var s := stats[0];
    var line := FirstLine(old_ts, stats);
    DelaysAddUp(s.ts, stats[1..]);
    var more := Reports(s.ts, stats[1..]).value;
    LinesSplit(line, more);
    if |stats| > 1 {
      AverageWithinOneBit(s.ts, stats[1..]);
    } else {
      assert stats[1..] == [] && more == [];
    }
  }

  lemma {:induction false} LinesSplit(line: Line, more: seq<Line>)
    ensures WeightedBits([line] + more) == line.bps * line.delay + WeightedBits(more)
    ensures TotalDelay([line] + more) == line.delay + TotalDelay(more)
  {
    assert ([line] + more)[1..] == more;
  }

  /** A printed line gives the true rates of its sample over its delay, rounded down. */
  lemma {:induction false} LineRoundsDown(old_ts: Stamp, s: Stat)
    requires Report(old_ts, s).Some?
    ensures var line := Report(old_ts, s).value;
      && line.ts == s.ts && Delay(old_ts, s.ts) == Some(line.delay)
      && line.bps * line.delay <= s.bytes * 8 * MICRO < line.bps * line.delay + line.delay
      && line.pps * line.delay <= s.packets * MICRO < line.pps * line.delay + line.delay
  {
    var delay := Delay(old_ts, s.ts).value;
    RateRoundsDown(s.bytes, 8, delay);
    RateRoundsDown(s.packets, 1, delay);
  }

  lemma {:induction false} FirstLine(old_ts: Stamp, stats: seq<Stat>) returns (line: Line)
    requires Regular(old_ts, stats) && stats != []
    ensures Reports(old_ts, stats) == Prepend([line], Reports(stats[0].ts, stats[1..]))
    ensures line.bps * line.delay <= stats[0].bytes * 8 * MICRO < line.bps * line.delay + line.delay
  {
    DelayOfShortGap(old_ts, stats[0].ts);
    line := Report(old_ts, stats[0]).value;
    LineRoundsDown(old_ts, stats[0]);
  }
}
