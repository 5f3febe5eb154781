/** How close to the true arrivals a reader of the feedback gets. */
module TwccTime {
  import opened Words
  import opened TwccFormat
  import opened Twcc

  /** Nanoseconds in one 250 microsecond tick. */
  const TICK := 250_000

  /** The reference time counts units of 64 ms, 256 ticks, in 24 bits. */
  const REF_UNIT := 256 * TICK
  const REF_WRAP := 0x100_0000 * REF_UNIT

  function Sum(d: seq<int>, n: nat): int
    requires n <= |d|
  {
    if n == 0 then 0 else Sum(d, n - 1) + d[n - 1]
  }

  /** The arrival a reader gives the `k`-th received packet, in nanoseconds. */
  function ReadArrival(rep: Report, k: nat): int
    requires k < |rep.deltas|
  {
    rep.refTime * REF_UNIT + Sum(rep.deltas, k + 1) * TICK
  }

  /** Ticks lost to the limit on large deltas over the first `n` received packets. */
  function Clipped(r: seq<Instant>, baseTime: Instant, n: nat): int
    requires n <= |r|
  {
    if n == 0 then 0
    else Clipped(r, baseTime, n - 1) + Delta(r, baseTime, n - 1) - Clamp(Delta(r, baseTime, n - 1), -8192, 8191)
  }

  /** True offset minus the offset the unlimited deltas add up to. */
  function Lag(r: seq<Instant>, baseTime: Instant, k: nat): int
    requires k < |r|
  {
    r[k] - baseTime - (RefTime(r, baseTime) * REF_UNIT + Sum(Deltas(r, baseTime), k + 1) * TICK)
  }

  lemma TickRounding(ns: nat)
    ensures 0 <= ns - Ticks(ns) * TICK < TICK
  {
    assert Ticks(ns) == ns / 250_000;
  }

  lemma DeltaOf(r: seq<Instant>, baseTime: Instant, k: nat)
    requires 0 < k < |r|
    ensures Delta(r, baseTime, k) == NextDelta(Some(r[k - 1]), r[k], baseTime)
    ensures -TICK < r[k] - r[k - 1] - Delta(r, baseTime, k) * TICK < TICK
    ensures r[k] >= r[k - 1] ==> r[k] - r[k - 1] - Delta(r, baseTime, k) * TICK >= 0
  {
    assert LastOf(r[..k]) == Some(r[k - 1]);
    TickRounding(Since(r[k], r[k - 1]));
    TickRounding(Since(r[k - 1], r[k]));
  }

  /** Rounding errors add up by less than one tick a packet, in any arrival order. */
  lemma {:induction false} LagIsBounded(r: seq<Instant>, baseTime: Instant, k: nat)
    requires k < |r| && r[0] >= baseTime
    ensures -(k + 1) * TICK < Lag(r, baseTime, k) < (k + 1) * TICK
    ensures (forall j :: 0 < j <= k ==> r[j] >= r[j - 1]) ==> Lag(r, baseTime, k) >= 0
  {
    if k == 0 {
      TickRounding(Since(r[0], baseTime));
      assert Delta(r, baseTime, 0) == Ticks(Since(r[0], baseTime)) - RefTime(r, baseTime) * 256;
      assert Sum(Deltas(r, baseTime), 1) == Delta(r, baseTime, 0);
    } else {
      LagIsBounded(r, baseTime, k - 1);
      DeltaOf(r, baseTime, k);
    }
  }

  lemma {:induction false} SentSum(r: seq<Instant>, baseTime: Instant, n: nat)
    requires n <= |r|
    ensures Sum(Deltas(r, baseTime), n) == Sum(SentTicks(r, baseTime), n) + Clipped(r, baseTime, n)
  {
    if n > 0 {
      SentSum(r, baseTime, n - 1);
    }
  }

  lemma {:induction false} NothingClipped(r: seq<Instant>, baseTime: Instant, n: nat)
    requires n <= |r|
    requires forall j :: 0 <= j < n ==> -8192 <= Delta(r, baseTime, j) <= 8191
    ensures Clipped(r, baseTime, n) == 0
  {
    if n > 0 {
      NothingClipped(r, baseTime, n - 1);
    }
  }

  lemma RefTimeWraps(ref: nat)
    ensures ref % 0x100_0000 * REF_UNIT + ref / 0x100_0000 * REF_WRAP == ref * REF_UNIT
  {
    assert ref == ref / 0x100_0000 * 0x100_0000 + ref % 0x100_0000;
  }

  /**
   The `k`-th received packet (from 0) of any feedback, for any loss and reordering: once the
   24-bit wraps of the reference time and the ticks lost to clamping are added back, the
   reader's arrival is less than k + 1 ticks from the true one; packets that arrived in
   order are never read late.
   */
  lemma FeedbackTimes(s: Recorder, media: u32, k: nat)
    requires FeedbackOutcome(s).Sent? && s.baseTime.Some?
    requires k < |Received(Window(s.log, s.base, Pending(s)))|
    requires Received(Window(s.log, s.base, Pending(s)))[0] >= s.baseTime.value
    ensures var baseTime := s.baseTime.value;
            var r := Received(Window(s.log, s.base, Pending(s)));
            var wraps := RefTime(r, baseTime) / 0x100_0000;
            var read := ReadArrival(FeedbackReport(s, media), k) + wraps * REF_WRAP
                        + Clipped(r, baseTime, k + 1) * TICK;
            && -(k + 1) * TICK < r[k] - baseTime - read < (k + 1) * TICK
            && ((forall j :: 0 < j <= k ==> r[j] >= r[j - 1]) ==> read <= r[k] - baseTime)
    ensures 0 <= FeedbackReport(s, media).deltas[0] <= 255
  {
    var r := Received(Window(s.log, s.base, Pending(s)));
    var ref := RefTime(r, s.baseTime.value);
    LagIsBounded(r, s.baseTime.value, k);
    SentSum(r, s.baseTime.value, k + 1);
    RefTimeWraps(ref);
    FirstDeltaIsSmall(r, s.baseTime.value);
  }

  /**
   The error bound cannot be improved to a constant: packets 249 microseconds apart are all
   sent as zero deltas, so the reader falls behind by the whole elapsed time.
   */
  lemma {:induction false} DriftIsReal(r: seq<Instant>, baseTime: Instant, k: nat)
    requires k < |r| && forall j :: 0 <= j < |r| ==> r[j] == baseTime + 249_000 * j
    ensures Lag(r, baseTime, k) == 249_000 * k
  {
    if k == 0 {
      assert Sum(Deltas(r, baseTime), 1) == Delta(r, baseTime, 0) == 0;
    } else {
      DriftIsReal(r, baseTime, k - 1);
      DeltaOf(r, baseTime, k);
      assert Since(r[k], r[k - 1]) == 249_000;
    }
  }
}
