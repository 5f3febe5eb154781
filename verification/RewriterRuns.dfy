/** Whole runs of one rewriter, over every sequence of floor changes and packets. */
module RewriterRuns {
  import opened Words
  import opened Rewriter

  datatype Event = Switch(user: string) | Clear | Arrive(packet: seq<u8>, sender: string, keyframe: bool)

  /** A packet's number and timestamp. */
  datatype Stamp = Stamp(seqNo: u16, ts: u32)

  function StampOf(p: seq<u8>): Stamp
    requires |p| >= 12
  {
    Stamp(Be16(p, 2), Be32(p, 4))
  }

  /** A packet let through: the talk burst it belongs to, what came in, what went out. */
  datatype Emission = Emission(burst: nat, keyframe: bool, original: seq<u8>, out: seq<u8>, was: Stamp, now: Stamp)

  function Run(c: Config, es: seq<Event>): State
  {
    if es == [] then START
    else
      var s := Run(c, es[..|es| - 1]);
      match es[|es| - 1]
      case Switch(user) => Switched(c, s, user)
      case Clear => Cleared(s)
      case Arrive(p, sender, keyframe) => Advanced(c, s, p, sender, keyframe)
  }

  /** Number of the current burst: every switch starts one, also one to the same speaker. */
  function Bursts(es: seq<Event>): nat
  {
    if es == [] then 0 else Bursts(es[..|es| - 1]) + if es[|es| - 1].Switch? then 1 else 0
  }

  function EmissionOf(c: Config, s: State, burst: nat, p: seq<u8>, sender: string, keyframe: bool): Emission
    requires Verdict(s, p, sender, keyframe) == Ok
  {
    var out := Output(c, s, p, sender, keyframe);
    Emission(burst, keyframe, p, out, StampOf(p), StampOf(out))
  }

  function Emitted(c: Config, es: seq<Event>): seq<Emission>
  {
    if es == [] then []
    else
      var before := es[..|es| - 1];
      match es[|es| - 1]
      case Arrive(p, sender, keyframe) =>
        if Verdict(Run(c, before), p, sender, keyframe) == Ok then
          Emitted(c, before) + [EmissionOf(c, Run(c, before), Bursts(before), p, sender, keyframe)]
        else Emitted(c, before)
      case _ => Emitted(c, before)
  }

  /** How an emission relates to the one before it. */
  ghost predicate Follows(c: Config, x: Emission, y: Emission)
  {
    if x.burst == y.burst then
      && Sub16(y.now.seqNo, x.now.seqNo) == Sub16(y.was.seqNo, x.was.seqNo)
      && Sub32(y.now.ts, x.now.ts) == Sub32(y.was.ts, x.was.ts)
      && OnlyHeader(c, y, false)
    else
      x.burst < y.burst && Opens(c, y, x.now)
  }

  /** The first packet of a burst: next in number, a guard gap later, marked, a keyframe where one is required. */
  ghost predicate Opens(c: Config, y: Emission, last: Stamp)
  {
    && y.now == Stamp(Add16(last.seqNo, 1), Add32(last.ts, c.tsGuardGap))
    && (c.requireKeyframe ==> y.keyframe)
    && OnlyHeader(c, y, true)
  }

  /** Nothing but SSRC, number and timestamp differs from the original, and the marker if asked. */
  ghost predicate OnlyHeader(c: Config, y: Emission, mark: bool)
  {
    && |y.original| >= 12 && |y.out| == |y.original|
    && y.was == StampOf(y.original) && y.now == StampOf(y.out) && Be32(y.out, 8) == c.ssrc
    && y.out[0] == y.original[0] && y.out[1] == (if mark then WithMarker(y.original[1]) else y.original[1])
    && y.out[12..] == y.original[12..]
  }

  ghost predicate Continuous(c: Config, o: seq<Emission>)
  {
    && (o != [] ==> Opens(c, o[0], Stamp(0, 0)))
    && (forall i :: 0 <= i < |o| - 1 ==> Follows(c, o[i], o[i + 1]))
  }

  /** How the state remembers the stream so far. */
  ghost predicate Remembers(c: Config, s: State, o: seq<Emission>, burst: nat)
  {
    && (o == [] ==> s.lastSeq == 0 && s.lastTs == 0)
    && (o != [] ==>
          var x := o[|o| - 1];
          && Stamp(s.lastSeq, s.lastTs) == x.now && x.burst <= burst
          && x.now.seqNo == VirtualSeq(s, x.was.seqNo)
          && (s.awaitingFirst ==> x.burst < burst))
    && (s.awaitingFirst ==> s.speaker.Some? && s.pendingKeyframe == c.requireKeyframe)
    && (s.speaker.Some? && !s.awaitingFirst ==>
          && o != [] && o[|o| - 1].burst == burst && !s.pendingKeyframe
          && var x := o[|o| - 1];
             s.lastSeq == VirtualSeq(s, x.was.seqNo) && s.lastTs == VirtualTs(s, x.was.ts))
  }

  lemma EmissionHeader(c: Config, s: State, burst: nat, p: seq<u8>, sender: string, keyframe: bool)
    requires Verdict(s, p, sender, keyframe) == Ok
    ensures var y := EmissionOf(c, s, burst, p, sender, keyframe);
            var s' := Accepted(c, s, y.was.seqNo, y.was.ts);
            OnlyHeader(c, y, s.awaitingFirst) && y.now == Stamp(s'.lastSeq, s'.lastTs)
  {
  }

  lemma AcceptedFollows(c: Config, s: State, o: seq<Emission>, burst: nat, p: seq<u8>, sender: string, keyframe: bool)
    requires Continuous(c, o) && Remembers(c, s, o, burst)
    requires Verdict(s, p, sender, keyframe) == Ok
    ensures var o' := o + [EmissionOf(c, s, burst, p, sender, keyframe)];
            Continuous(c, o') && Remembers(c, Advanced(c, s, p, sender, keyframe), o', burst)
  {
    var y := EmissionOf(c, s, burst, p, sender, keyframe);
    var s' := Accepted(c, s, y.was.seqNo, y.was.ts);
    EmissionHeader(c, s, burst, p, sender, keyframe);
    if s.awaitingFirst {
      FirstAccepted(c, s, y.was.seqNo, y.was.ts);
      assert Opens(c, y, Stamp(s.lastSeq, s.lastTs));
    } else {
      var x := o[|o| - 1];
      LaterAccepted(c, s, y.was.seqNo, y.was.ts, x.was.seqNo, x.was.ts);
      assert Follows(c, x, y);
    }
  }

  lemma {:induction false} ArrivalFollows(c: Config, es: seq<Event>, e: Event)
    requires e.Arrive? && Continuous(c, Emitted(c, es)) && Remembers(c, Run(c, es), Emitted(c, es), Bursts(es))
    ensures Continuous(c, Emitted(c, es + [e]))
            && Remembers(c, Run(c, es + [e]), Emitted(c, es + [e]), Bursts(es + [e]))
  {
    assert (es + [e])[..|es|] == es;
    if Verdict(Run(c, es), e.packet, e.sender, e.keyframe) == Ok {
      AcceptedFollows(c, Run(c, es), Emitted(c, es), Bursts(es), e.packet, e.sender, e.keyframe);
    }
  }

  lemma {:induction false} SwitchRemembers(c: Config, s: State, o: seq<Emission>, burst: nat)
    requires Remembers(c, s, o, burst)
    ensures forall user :: Remembers(c, Switched(c, s, user), o, burst + 1)
    ensures Remembers(c, Cleared(s), o, burst)
  {
  }

  lemma {:induction false} SwitchFollows(c: Config, es: seq<Event>, e: Event)
    requires !e.Arrive? && Continuous(c, Emitted(c, es)) && Remembers(c, Run(c, es), Emitted(c, es), Bursts(es))
    ensures Continuous(c, Emitted(c, es + [e]))
            && Remembers(c, Run(c, es + [e]), Emitted(c, es + [e]), Bursts(es + [e]))
  {
    assert (es + [e])[..|es|] == es;
    SwitchRemembers(c, Run(c, es), Emitted(c, es), Bursts(es));
  }

  /**
   Over every run and any arrival order: the stream is continuous. Inside a burst numbers and
   timestamps keep the originals' distances; each burst opens one number and one guard gap
   after the last packet sent, marked, on a keyframe for video; nothing else in a packet changes.
   */
  lemma {:induction false} RunIsContinuous(c: Config, es: seq<Event>)
    ensures Continuous(c, Emitted(c, es))
    ensures Remembers(c, Run(c, es), Emitted(c, es), Bursts(es))
  {
    if es != [] {
      var before := es[..|es| - 1];
      RunIsContinuous(c, before);
      if es[|es| - 1].Arrive? {
        ArrivalFollows(c, before, es[|es| - 1]);
      } else {
        SwitchFollows(c, before, es[|es| - 1]);
      }
      assert before + [es[|es| - 1]] == es;
    }
  }

  /** Any two packets of one burst keep their distance, however many lie between them. */
  lemma {:induction false} BurstKeepsDistances(c: Config, o: seq<Emission>, i: nat, j: nat)
    requires Continuous(c, o) && i <= j < |o| && o[i].burst == o[j].burst
    ensures Sub16(o[j].now.seqNo, o[i].now.seqNo) == Sub16(o[j].was.seqNo, o[i].was.seqNo)
    ensures Sub32(o[j].now.ts, o[i].now.ts) == Sub32(o[j].was.ts, o[i].was.ts)
    decreases j - i
  {
    if i < j {
      BurstsRise(c, o, i, j - 1);
      assert Follows(c, o[j - 1], o[j]);
      BurstKeepsDistances(c, o, i, j - 1);
      Chain16(o[i].now.seqNo, o[j - 1].now.seqNo, o[j].now.seqNo, o[i].was.seqNo, o[j - 1].was.seqNo, o[j].was.seqNo);
      Chain32(o[i].now.ts, o[j - 1].now.ts, o[j].now.ts, o[i].was.ts, o[j - 1].was.ts, o[j].was.ts);
    }
  }

  /** The last packet sent, and packet `i`, are as far apart as their originals. */
  ghost predicate SameOffset(o: seq<Emission>, i: nat)
    requires i < |o|
  {
    var last := o[|o| - 1];
    Sub16(last.now.seqNo, o[i].now.seqNo) == Sub16(last.was.seqNo, o[i].was.seqNo)
  }

  /** Inside the burst of the last packet sent the offset is the same throughout. */
  lemma {:induction false} LastBurstKeepsOffset(c: Config, es: seq<Event>, i: nat)
    requires i < |Emitted(c, es)|
    ensures var o := Emitted(c, es);
            o[i].burst == o[|o| - 1].burst ==> SameOffset(o, i)
  {
    RunIsContinuous(c, es);
    var o := Emitted(c, es);
    if o[i].burst == o[|o| - 1].burst {
      BurstKeepsDistances(c, o, i, |o| - 1);
    }
  }

  /**
   Whatever was sent since, a virtual number is mapped back to the number it came from exactly
   when it is as far from the last one sent as the originals are from each other.
   */
  lemma {:induction false} ReverseRightIff(c: Config, es: seq<Event>, i: nat)
    requires i < |Emitted(c, es)|
    ensures var o, s := Emitted(c, es), Run(c, es);
            ReverseSeq(s, o[i].now.seqNo) == o[i].was.seqNo <==> SameOffset(o, i)
  {
    RunIsContinuous(c, es);
    var o, s := Emitted(c, es), Run(c, es);
    var last := o[|o| - 1];
    OffsetDecides(s, o[i].now.seqNo, o[i].was.seqNo, last.now.seqNo, last.was.seqNo);
  }

  lemma OffsetDecides(s: State, now: u16, was: u16, lastNow: u16, lastWas: u16)
    requires lastNow == VirtualSeq(s, lastWas)
    ensures ReverseSeq(s, now) == was <==> Sub16(lastNow, now) == Sub16(lastWas, was)
  {
  }

  lemma Chain16(a: u16, b: u16, c: u16, x: u16, y: u16, z: u16)
    requires Sub16(b, a) == Sub16(y, x) && Sub16(c, b) == Sub16(z, y)
    ensures Sub16(c, a) == Sub16(z, x)
  {
  }

  lemma Chain32(a: u32, b: u32, c: u32, x: u32, y: u32, z: u32)
    requires Sub32(b, a) == Sub32(y, x) && Sub32(c, b) == Sub32(z, y)
    ensures Sub32(c, a) == Sub32(z, x)
  {
  }

  lemma {:induction false} BurstsRise(c: Config, o: seq<Emission>, i: nat, j: nat)
    requires Continuous(c, o) && i <= j < |o|
    ensures o[i].burst <= o[j].burst
    decreases j - i
  {
    if i < j {
      BurstsRise(c, o, i, j - 1);
      assert Follows(c, o[j - 1], o[j]);
    }
  }

  // --- the receiver's extended numbers ---

  /** The nearest step between two 16-bit numbers, forward for less than half the circle. */
  function Nearest(from: u16, to: u16): int
  {
    var d: int := Sub16(to, from);
    if d < 0x8000 then d else d - 0x1_0000
  }

  lemma NearestLands(from: u16, to: u16, x: int)
    requires Wrap16(x) == from
    ensures Wrap16(x + Nearest(from, to)) == to
    ensures Nearest(from, to) > 0 <==> 0 < Sub16(to, from) < 0x8000
    ensures to == Add16(from, 1) ==> Nearest(from, to) == 1
  {
    Wrap16Add(x, Nearest(from, to));
  }

  /** The numbers a receiver extends past 16 bits, each to the nearest candidate after the last. */
  function Extended(o: seq<Emission>): (x: seq<int>)
    ensures |x| == |o|
  {
    if o == [] then []
    else if |o| == 1 then [o[0].now.seqNo]
    else
      var x := Extended(o[..|o| - 1]);
      x + [x[|x| - 1] + Nearest(o[|o| - 2].now.seqNo, o[|o| - 1].now.seqNo)]
  }

  ghost predicate Rising(x: seq<int>)
  {
    forall i :: 0 <= i < |x| - 1 ==> x[i] < x[i + 1]
  }

  /** From `x` to `y` the rewriter sees a later number, by less than 2^15. */
  predicate Later(x: Emission, y: Emission) { 0 < Sub16(y.was.seqNo, x.was.seqNo) < 0x8000 }

  /** Inside every burst each packet is later than the one before. */
  ghost predicate InOrder(o: seq<Emission>)
  {
    forall i :: 0 <= i < |o| - 1 && o[i].burst == o[i + 1].burst ==> Later(o[i], o[i + 1])
  }

  lemma {:induction false} ExtendedSteps(o: seq<Emission>, i: nat)
    requires i < |o|
    ensures Wrap16(Extended(o)[i]) == o[i].now.seqNo
    ensures i > 0 ==> Extended(o)[i] == Extended(o)[i - 1] + Nearest(o[i - 1].now.seqNo, o[i].now.seqNo)
    decreases |o|
  {
    if i < |o| - 1 {
      ExtendedSteps(o[..|o| - 1], i);
    } else if i > 0 {
      ExtendedSteps(o[..|o| - 1], i - 1);
      NearestLands(o[i - 1].now.seqNo, o[i].now.seqNo, Extended(o)[i - 1]);
    }
  }

  lemma StepRisesIff(c: Config, x: Emission, y: Emission, ex: int, ey: int)
    requires Follows(c, x, y) && ey == ex + Nearest(x.now.seqNo, y.now.seqNo)
    ensures ex < ey <==> (x.burst == y.burst ==> Later(x, y))
    ensures x.burst != y.burst ==> ey == ex + 1
  {
    NearestLands(x.now.seqNo, y.now.seqNo, x.now.seqNo);
  }

  lemma {:induction false} PairRisesIff(c: Config, o: seq<Emission>, i: nat)
    requires Continuous(c, o) && i < |o| - 1
    ensures Extended(o)[i] < Extended(o)[i + 1] <==> (o[i].burst == o[i + 1].burst ==> Later(o[i], o[i + 1]))
    ensures o[i].burst != o[i + 1].burst ==> Extended(o)[i + 1] == Extended(o)[i] + 1
  {
    ExtendedSteps(o, i + 1);
    StepRisesIff(c, o[i], o[i + 1], Extended(o)[i], Extended(o)[i + 1]);
  }

  lemma PairsDecide(o: seq<Emission>, x: seq<int>)
    requires |x| == |o|
    requires forall i :: 0 <= i < |o| - 1 ==>
             (x[i] < x[i + 1] <==> (o[i].burst == o[i + 1].burst ==> Later(o[i], o[i + 1])))
    ensures Rising(x) <==> InOrder(o)
  {
  }

  /**
   The receiver's extended numbers rise strictly over a whole run, across all speaker changes,
   if and only if each burst reached the rewriter in increasing order; a new burst is always
   exactly one further.
   */
  lemma {:induction false} RisingIffInOrder(c: Config, es: seq<Event>)
    ensures var o := Emitted(c, es);
            && (Rising(Extended(o)) <==> InOrder(o))
            && (forall i :: 0 <= i < |o| - 1 && o[i].burst != o[i + 1].burst ==>
                Extended(o)[i + 1] == Extended(o)[i] + 1)
  {
    RunIsContinuous(c, es);
    var o := Emitted(c, es);
    forall i | 0 <= i < |o| - 1
      ensures Extended(o)[i] < Extended(o)[i + 1] <==> (o[i].burst == o[i + 1].burst ==> Later(o[i], o[i + 1]))
      ensures o[i].burst != o[i + 1].burst ==> Extended(o)[i + 1] == Extended(o)[i] + 1
    {
      PairRisesIff(c, o, i);
    }
    PairsDecide(o, Extended(o));
  }

  lemma {:induction false} RisingEverywhere(x: seq<int>, i: nat, j: nat)
    requires Rising(x) && i < j < |x|
    ensures x[i] < x[j]
    decreases j - i
  {
    if i < j - 1 {
      RisingEverywhere(x, i, j - 1);
    }
  }

  /** While every burst arrives in order, a number only comes round again 2^16 numbers later. */
  lemma {:induction false} InOrderNeverReuses(c: Config, es: seq<Event>, i: nat, j: nat)
    requires InOrder(Emitted(c, es)) && i < j < |Emitted(c, es)|
    ensures var o := Emitted(c, es);
            o[i].now.seqNo == o[j].now.seqNo ==> Extended(o)[j] - Extended(o)[i] >= 0x1_0000
  {
    var o := Emitted(c, es);
    var x := Extended(o);
    assert Rising(x) by {
      RisingIffInOrder(c, es);
    }
    RisingEverywhere(x, i, j);
    assert Wrap16(x[i]) == o[i].now.seqNo && Wrap16(x[j]) == o[j].now.seqNo by {
      ExtendedSteps(o, i);
      ExtendedSteps(o, j);
    }
    RoundAgain(x[i], x[j]);
    if o[i].now.seqNo == o[j].now.seqNo {
      OnceRound(x[j] - x[i]);
    }
  }

  lemma RoundAgain(a: int, b: int)
    ensures Wrap16(a) == Wrap16(b) <==> (b - a) % 0x1_0000 == 0
  {
  }

  // --- which packets share a number ---

  /** The first packet of the burst of packet `j`. */
  function First(o: seq<Emission>, j: nat): (f: nat)
    requires j < |o|
    ensures f <= j && o[f].burst == o[j].burst && (f > 0 ==> o[f - 1].burst != o[f].burst)
  {
    if j > 0 && o[j - 1].burst == o[j].burst then First(o, j - 1) else j
  }

  /** The place a burst opens at: one past the packet before it. */
  function Opening(o: seq<Emission>, f: nat): int
    requires f < |o|
    decreases f, 0
  {
    if f == 0 then 1 else Place(o, f - 1) + 1
  }

  /**
   Where packet `j` stands in the stream, counted without wrap-around: as far from the opening
   of its burst as the originals are, the short way round.
   */
  function Place(o: seq<Emission>, j: nat): int
    requires j < |o|
    decreases j, 1
  {
    Opening(o, First(o, j)) + Nearest(o[First(o, j)].was.seqNo, o[j].was.seqNo)
  }

  /** Bursts come one after another. */
  ghost predicate BurstsGrow(o: seq<Emission>)
  {
    forall i, j :: 0 <= i <= j < |o| ==> o[i].burst <= o[j].burst
  }

  lemma {:induction false} ContinuousGrows(c: Config, o: seq<Emission>)
    requires Continuous(c, o)
    ensures BurstsGrow(o)
  {
    forall i, j | 0 <= i <= j < |o| ensures o[i].burst <= o[j].burst {
      BurstsRise(c, o, i, j);
    }
  }

  lemma {:induction false} FirstIs(o: seq<Emission>, f: nat, j: nat)
    requires BurstsGrow(o) && f <= j < |o| && o[f].burst == o[j].burst && (f > 0 ==> o[f - 1].burst != o[f].burst)
    ensures First(o, j) == f
  {
  }

  lemma {:induction false} BurstOpens(c: Config, o: seq<Emission>, f: nat)
    requires Continuous(c, o) && f < |o| && (f > 0 ==> o[f - 1].burst != o[f].burst)
    ensures o[f].now.seqNo == if f == 0 then 1 else Add16(o[f - 1].now.seqNo, 1)
  {
    if f > 0 {
      assert Follows(c, o[f - 1], o[f]);
    }
  }

  lemma OneFurther(n: u16, place: int)
    requires n == Wrap16(place)
    ensures Add16(n, 1) == Wrap16(place + 1)
  {
    Wrap16Add(place, 1);
  }

  lemma DistanceLands(nf: u16, nj: u16, wf: u16, wj: u16, opening: int)
    requires nf == Wrap16(opening) && Sub16(nj, nf) == Sub16(wj, wf)
    ensures nj == Wrap16(opening + Nearest(wf, wj))
  {
    NearestLands(nf, nj, opening);
  }

  /** Every packet leaves under the low 16 bits of its place. */
  lemma {:induction false} NumberIsPlace(c: Config, o: seq<Emission>, j: nat)
    requires Continuous(c, o) && j < |o|
    ensures o[j].now.seqNo == Wrap16(Place(o, j))
    decreases j, 1
  {
    OpeningNumber(c, o, First(o, j));
    BurstKeepsDistances(c, o, First(o, j), j);
    NumberInBurst(o, j);
  }

  lemma {:induction false} OpeningNumber(c: Config, o: seq<Emission>, f: nat)
    requires Continuous(c, o) && f < |o| && (f > 0 ==> o[f - 1].burst != o[f].burst)
    ensures o[f].now.seqNo == Wrap16(Opening(o, f))
    decreases f, 0
  {
    BurstOpens(c, o, f);
    if f > 0 {
      NumberIsPlace(c, o, f - 1);
      OneFurther(o[f - 1].now.seqNo, Place(o, f - 1));
    }
  }

  lemma NumberInBurst(o: seq<Emission>, j: nat)
    requires j < |o| && o[First(o, j)].now.seqNo == Wrap16(Opening(o, First(o, j)))
    requires Sub16(o[j].now.seqNo, o[First(o, j)].now.seqNo) == Sub16(o[j].was.seqNo, o[First(o, j)].was.seqNo)
    ensures o[j].now.seqNo == Wrap16(Place(o, j))
  {
    var x := o[First(o, j)];
    DistanceLands(x.now.seqNo, o[j].now.seqNo, x.was.seqNo, o[j].was.seqNo, Opening(o, First(o, j)));
  }

  /** Any two packets of a run leave under the same number exactly when their places are congruent modulo 2^16. */
  lemma {:induction false} NumberReusedIff(c: Config, o: seq<Emission>, i: nat, j: nat)
    requires Continuous(c, o) && i < |o| && j < |o|
    ensures o[i].now.seqNo == o[j].now.seqNo <==> (Place(o, j) - Place(o, i)) % 0x1_0000 == 0
  {
    NumberIsPlace(c, o, i);
    NumberIsPlace(c, o, j);
    RoundAgain(Place(o, i), Place(o, j));
  }

  lemma MeetOneFurther(i: u16, k: u16, first: u16, j: u16, wi: u16, wk: u16, wf: u16, wj: u16)
    requires Sub16(k, i) == Sub16(wk, wi) && first == Add16(k, 1) && Sub16(j, first) == Sub16(wj, wf)
    ensures j == i <==> Sub16(wi, wk) == Add16(Sub16(wj, wf), 1)
  {
  }

  /**
   For neighbouring bursts: packet `j` of the burst after packet `k` leaves under the number
   packet `i` of `k`'s burst left under exactly when `i` was as far ahead of `k`, the last of
   its burst, as `j` is ahead of the first of its own, and one more.
   */
  lemma {:induction false} NextBurstReusesIff(c: Config, o: seq<Emission>, i: nat, k: nat, j: nat)
    requires Continuous(c, o) && i <= k < j < |o|
    requires o[i].burst == o[k].burst != o[k + 1].burst == o[j].burst
    ensures o[j].now.seqNo == o[i].now.seqNo <==>
            Sub16(o[i].was.seqNo, o[k].was.seqNo) == Add16(Sub16(o[j].was.seqNo, o[k + 1].was.seqNo), 1)
  {
    BurstKeepsDistances(c, o, i, k);
    BurstKeepsDistances(c, o, k + 1, j);
    BurstOpens(c, o, k + 1);
    MeetOneFurther(o[i].now.seqNo, o[k].now.seqNo, o[k + 1].now.seqNo, o[j].now.seqNo,
                   o[i].was.seqNo, o[k].was.seqNo, o[k + 1].was.seqNo, o[j].was.seqNo);
  }

  /**
   Packet `k` is the last of its burst and its burst's furthest, packet `k + 1` the first of its
   own and its nearest.
   */
  ghost predicate TidyBorder(o: seq<Emission>, k: nat)
    requires k + 1 < |o|
  {
    && (forall i :: 0 <= i < |o| && o[i].burst == o[k].burst ==> Sub16(o[k].was.seqNo, o[i].was.seqNo) < 0x8000)
    && (forall j :: 0 <= j < |o| && o[j].burst == o[k + 1].burst ==> Sub16(o[j].was.seqNo, o[k + 1].was.seqNo) < 0x8000)
  }

  /** Two bursts with a tidy border share no number, in whatever order the rest of them arrived. */
  lemma {:induction false} TidyBurstsShareNothing(c: Config, o: seq<Emission>, i: nat, k: nat, j: nat)
    requires Continuous(c, o) && i <= k < j < |o| && TidyBorder(o, k)
    requires o[i].burst == o[k].burst != o[k + 1].burst == o[j].burst
    ensures o[j].now.seqNo != o[i].now.seqNo
  {
    NextBurstReusesIff(c, o, i, k, j);
  }

  ghost predicate Tidy(o: seq<Emission>)
  {
    forall k {:trigger TidyBorder(o, k)} :: 0 <= k < |o| - 1 && o[k].burst != o[k + 1].burst ==> TidyBorder(o, k)
  }

  lemma FurthestIsLast(g: u16, i: u16, k: u16)
    requires Sub16(k, g) < 0x8000 && Sub16(k, i) < 0x8000
    ensures Nearest(g, i) <= Nearest(g, k)
  {
  }

  /** Packet `j` is where its burst's opening puts it. */
  ghost predicate PlacedAt(o: seq<Emission>, x: seq<int>, j: nat)
    requires j < |o| == |x|
  {
    var f := First(o, j);
    x[j] == (if f == 0 then 1 else x[f - 1] + 1) + Nearest(o[f].was.seqNo, o[j].was.seqNo)
  }

  lemma {:induction false} FurthestPlace(o: seq<Emission>, x: seq<int>, i: nat, k: nat)
    requires BurstsGrow(o) && |x| == |o| && i <= k < |o| - 1 && o[i].burst == o[k].burst && TidyBorder(o, k)
    requires PlacedAt(o, x, i) && PlacedAt(o, x, k)
    ensures x[i] <= x[k]
  {
    var f := First(o, i);
    FirstIs(o, f, k);
    FurthestIsLast(o[f].was.seqNo, o[i].was.seqNo, o[k].was.seqNo);
  }

  lemma {:induction false} NearestPlace(o: seq<Emission>, x: seq<int>, j: nat)
    requires |x| == |o| && j < |o| && First(o, j) > 0 && TidyBorder(o, First(o, j) - 1) && PlacedAt(o, x, j)
    ensures x[First(o, j) - 1] < x[j]
  {
    var f := First(o, j);
    assert o[j].burst == o[f - 1 + 1].burst;
    assert Nearest(o[f].was.seqNo, o[j].was.seqNo) >= 0;
  }

  lemma {:induction false} BeforeFirst(o: seq<Emission>, i: nat, j: nat)
    requires BurstsGrow(o) && i < j < |o| && o[i].burst != o[j].burst
    ensures i < First(o, j)
  {
  }

  lemma {:induction false} TidyRise(o: seq<Emission>, x: seq<int>, i: nat, j: nat)
    requires BurstsGrow(o) && Tidy(o) && i < j < |o| && o[i].burst != o[j].burst
    requires |x| == |o| && forall k :: 0 <= k < |o| ==> PlacedAt(o, x, k)
    ensures x[i] < x[j]
    decreases j
  {
    var f := First(o, j);
    BeforeFirst(o, i, j);
    assert TidyBorder(o, f - 1);
    NearestPlace(o, x, j);
    if o[i].burst == o[f - 1].burst {
      FurthestPlace(o, x, i, f - 1);
    } else {
      TidyRise(o, x, i, f - 1);
    }
  }

  /** With tidy borders each burst lies behind all bursts before it. */
  lemma {:induction false} TidyPlaces(o: seq<Emission>, i: nat, j: nat)
    requires BurstsGrow(o) && Tidy(o) && i < j < |o| && o[i].burst != o[j].burst
    ensures Place(o, i) < Place(o, j)
  {
    var x := seq(|o|, k requires 0 <= k < |o| => Place(o, k));
    forall k | 0 <= k < |o| ensures PlacedAt(o, x, k) {
      assert x[k] == Place(o, k);
    }
    TidyRise(o, x, i, j);
  }

  /**
   Over a whole run with tidy borders: packets of different bursts share a number only when
   2^16 numbers or more lie between them, packets of one burst only when their originals did.
   */
  lemma {:induction false} TidyRunReuses(c: Config, o: seq<Emission>, i: nat, j: nat)
    requires Continuous(c, o) && Tidy(o) && i < j < |o|
    ensures o[i].burst == o[j].burst ==> (o[i].now.seqNo == o[j].now.seqNo <==> o[i].was.seqNo == o[j].was.seqNo)
    ensures o[i].burst != o[j].burst && o[i].now.seqNo == o[j].now.seqNo ==> Place(o, j) - Place(o, i) >= 0x1_0000
  {
    if o[i].burst == o[j].burst {
      BurstKeepsDistances(c, o, i, j);
    } else {
      ContinuousGrows(c, o);
      TidyPlaces(o, i, j);
      NumberReusedIff(c, o, i, j);
      if o[i].now.seqNo == o[j].now.seqNo {
        OnceRound(Place(o, j) - Place(o, i));
      }
    }
  }

  lemma OnceRound(d: int)
    requires 0 < d && d % 0x1_0000 == 0
    ensures d >= 0x1_0000
  {
  }

  // --- runs in which it happens ---

  function PacketNo(n: u16): (p: seq<u8>)
    ensures |p| == 12 && StampOf(p) == Stamp(n, 0)
  {
    var p := [0x80, 111] + Bytes16(n) + Zeros(8);
    assert p[2..4] == Bytes16(n) && Be16(p, 2) == Be16(p[2..4], 0);
    p
  }

  function From(user: string, n: u16): Event { Arrive(PacketNo(n), user, false) }

  /** A burst as it reaches the rewriter: the change of speaker, and packets with these numbers. */
  function Talk(user: string, ns: seq<u16>): seq<Event>
  {
    if ns == [] then [Switch(user)] else Talk(user, ns[..|ns| - 1]) + [From(user, ns[|ns| - 1])]
  }

  /** The speaker talks, and this is what has been emitted, in so many bursts. */
  ghost predicate Spoken(c: Config, es: seq<Event>, user: string, o: seq<Emission>, bursts: nat)
  {
    && Emitted(c, es) == o && Bursts(es) == bursts
    && Run(c, es).speaker == Some(user) && !Run(c, es).pendingKeyframe
  }

  /** Emissions `from` on belong to this burst and have these original numbers. */
  ghost predicate Burst(o: seq<Emission>, from: nat, ns: seq<u16>, burst: nat)
  {
    from + |ns| <= |o| && forall k :: 0 <= k < |ns| ==> o[from + k].was.seqNo == ns[k] && o[from + k].burst == burst
  }

  lemma OneMoreSaid(es: seq<Event>, user: string, ns: seq<u16>)
    requires ns != []
    ensures ns[..|ns| - 1] + [ns[|ns| - 1]] == ns
    ensures es + Talk(user, ns) == (es + Talk(user, ns[..|ns| - 1])) + [From(user, ns[|ns| - 1])]
  {
    Assoc(es, Talk(user, ns[..|ns| - 1]), [From(user, ns[|ns| - 1])]);
  }

  lemma {:induction false} TalkEmits(c: Config, es: seq<Event>, user: string, ns: seq<u16>) returns (o: seq<Emission>)
    requires !c.requireKeyframe
    ensures Spoken(c, es + Talk(user, ns), user, o, Bursts(es) + 1)
    ensures |o| == |Emitted(c, es)| + |ns| && o[..|Emitted(c, es)|] == Emitted(c, es)
    ensures Burst(o, |Emitted(c, es)|, ns, Bursts(es) + 1)
  {
    if ns == [] {
      SwitchOne(c, es, user);
      o := Emitted(c, es);
    } else {
      var less, n := ns[..|ns| - 1], ns[|ns| - 1];
      var o1 := TalkEmits(c, es, user, less);
      var e := OneSpoken(c, es + Talk(user, less), user, o1, Bursts(es) + 1, n);
      o := o1 + [e];
      OneMoreInBurst(o1, |Emitted(c, es)|, less, Bursts(es) + 1, e, n);
      OneMoreSaid(es, user, ns);
    }
  }

  lemma {:induction false} OneSpoken(c: Config, es: seq<Event>, user: string, o: seq<Emission>, bursts: nat, n: u16)
    returns (e: Emission)
    requires Spoken(c, es, user, o, bursts)
    ensures Spoken(c, es + [From(user, n)], user, o + [e], bursts) && e.was.seqNo == n && e.burst == bursts
  {
    EmitOne(c, es, PacketNo(n), user);
    var o' := Emitted(c, es + [From(user, n)]);
    e := o'[|o|];
    assert o' == o'[..|o|] + [e];
  }

  lemma OneMoreInBurst(o: seq<Emission>, from: nat, ns: seq<u16>, burst: nat, e: Emission, n: u16)
    requires |o| == from + |ns| && Burst(o, from, ns, burst) && e.was.seqNo == n && e.burst == burst
    ensures Burst(o + [e], from, ns + [n], burst)
  {
    var o', ns' := o + [e], ns + [n];
    forall k | 0 <= k < |ns'| ensures o'[from + k].was.seqNo == ns'[k] && o'[from + k].burst == burst {
      if k < |ns| {
        assert o'[from + k] == o[from + k] && ns'[k] == ns[k];
      } else {
        assert o'[from + k] == e && ns'[k] == n;
      }
    }
  }

  lemma {:induction false} TwoTalksEmit(c: Config, u: string, ms: seq<u16>, w: string, ns: seq<u16>)
    returns (o: seq<Emission>)
    requires !c.requireKeyframe
    ensures Spoken(c, Talk(u, ms) + Talk(w, ns), w, o, 2) && Continuous(c, o)
    ensures |o| == |ms| + |ns| && Burst(o, 0, ms, 1) && Burst(o, |ms|, ns, 2)
  {
    var o1 := TalkEmits(c, [], u, ms);
    assert [] + Talk(u, ms) == Talk(u, ms);
    o := TalkEmits(c, Talk(u, ms), w, ns);
    StillBurst(o1, o, 0, ms, 1);
    RunIsContinuous(c, Talk(u, ms) + Talk(w, ns));
  }

  lemma StillBurst(o: seq<Emission>, o': seq<Emission>, from: nat, ns: seq<u16>, burst: nat)
    requires Burst(o, from, ns, burst) && |o| <= |o'| && o'[..|o|] == o
    ensures Burst(o', from, ns, burst)
  {
    forall k | 0 <= k < |ns| ensures o'[from + k].was.seqNo == ns[k] && o'[from + k].burst == burst {
      assert o'[from + k] == o'[..|o|][from + k];
    }
  }

  /** After 10, 12, 11 the next burst opens on the number 12 left under. */
  lemma {:induction false} LateTailIsReused(c: Config)
    requires !c.requireKeyframe
    ensures var o := Emitted(c, Talk("a", [10, 12, 11]) + Talk("b", [500, 501]));
            |o| == 5 && o[3].now.seqNo == o[1].now.seqNo && !Rising(Extended(o))
  {
    var o := TwoTalksEmit(c, "a", [10, 12, 11], "b", [500, 501]);
    RisingIffInOrder(c, Talk("a", [10, 12, 11]) + Talk("b", [500, 501]));
    assert Numbers(o, 0, 10, 1) && Numbers(o, 1, 12, 1) && Numbers(o, 2, 11, 1) && Numbers(o, 3, 500, 2);
    NextBurstReusesIff(c, o, 1, 2, 3);
    assert !Later(o[1], o[2]);
  }

  ghost predicate Numbers(o: seq<Emission>, i: nat, n: u16, burst: nat)
  {
    i < |o| && o[i].was.seqNo == n && o[i].burst == burst
  }

  lemma BurstNumbers(o: seq<Emission>, from: nat, ns: seq<u16>, burst: nat, k: nat)
    requires Burst(o, from, ns, burst) && k < |ns|
    ensures Numbers(o, from + k, ns[k], burst)
  {
  }

  /** Places when a burst of 10, 13, 11 is followed by a packet of the next burst. */
  lemma PlacesAfter13(o: seq<Emission>)
    requires Numbers(o, 0, 10, 1) && Numbers(o, 1, 13, 1) && Numbers(o, 2, 11, 1) && Numbers(o, 3, 500, 2)
    ensures Place(o, 0) == 1 && Place(o, 1) == 4 && Place(o, 2) == 2 && Place(o, 3) == 3
  {
    assert First(o, 0) == 0;
    assert First(o, 1) == 0;
    assert First(o, 2) == 0;
    assert First(o, 3) == 3;
    assert Opening(o, 0) == 1;
    assert Opening(o, 3) == Place(o, 2) + 1;
  }

  lemma {:induction false} SecondBurstIsNew(c: Config, o: seq<Emission>)
    requires Continuous(c, o)
    requires Numbers(o, 0, 10, 1) && Numbers(o, 1, 13, 1) && Numbers(o, 2, 11, 1) && Numbers(o, 3, 500, 2)
    ensures forall i :: 0 <= i < 3 ==> o[3].now.seqNo != o[i].now.seqNo
  {
    PlacesAfter13(o);
    NumberReusedIff(c, o, 0, 3);
    NumberReusedIff(c, o, 1, 3);
    NumberReusedIff(c, o, 2, 3);
  }

  /** It need not be the opening packet: after 10, 13, 11 the second packet of the next burst meets the number of 13. */
  lemma {:induction false} LaterPacketIsReused(c: Config)
    requires !c.requireKeyframe
    ensures var o := Emitted(c, Talk("a", [10, 13, 11]) + Talk("b", [500, 501]));
            && |o| == 5 && o[4].now.seqNo == o[1].now.seqNo
            && (forall i :: 0 <= i < 3 ==> o[3].now.seqNo != o[i].now.seqNo)
  {
    var o := TwoTalksEmit(c, "a", [10, 13, 11], "b", [500, 501]);
    After13(o);
    BurstNumbers(o, 3, [500, 501], 2, 1);
    PlacesAfter13(o);
    assert First(o, 4) == First(o, 3) == 3;
    assert Place(o, 4) == Opening(o, 3) + 1;
    SecondBurstIsNew(c, o);
    NumberReusedIff(c, o, 1, 4);
  }

  lemma After13(o: seq<Emission>)
    requires Burst(o, 0, [10, 13, 11], 1) && |o| > 3 && (Burst(o, 3, [500, 501], 2) || Burst(o, 3, [500], 2))
    ensures Numbers(o, 0, 10, 1) && Numbers(o, 1, 13, 1) && Numbers(o, 2, 11, 1) && Numbers(o, 3, 500, 2)
  {
    BurstNumbers(o, 0, [10, 13, 11], 1, 0);
    BurstNumbers(o, 0, [10, 13, 11], 1, 1);
    BurstNumbers(o, 0, [10, 13, 11], 1, 2);
    if Burst(o, 3, [500], 2) {
      BurstNumbers(o, 3, [500], 2, 0);
    } else {
      BurstNumbers(o, 3, [500, 501], 2, 0);
    }
  }

  /**
   Nor the next burst: after 10, 13, 11, then 500, then 900, the third burst meets the number of
   13, though its border is tidy and neighbouring bursts share no number.
   */
  lemma {:induction false} ThirdBurstReuses(c: Config)
    requires !c.requireKeyframe
    ensures var o := Emitted(c, Talk("a", [10, 13, 11]) + Talk("b", [500]) + Talk("c", [900]));
            && |o| == 5 && Burst(o, 0, [10, 13, 11], 1) && Burst(o, 3, [500], 2) && Burst(o, 4, [900], 3)
            && o[4].now.seqNo == o[1].now.seqNo && TidyBorder(o, 3)
            && (forall i :: 0 <= i < 3 ==> o[3].now.seqNo != o[i].now.seqNo) && o[4].now.seqNo != o[3].now.seqNo
  {
    var two := Talk("a", [10, 13, 11]) + Talk("b", [500]);
    var o2 := TwoTalksEmit(c, "a", [10, 13, 11], "b", [500]);
    var o := TalkEmits(c, two, "c", [900]);
    StillBurst(o2, o, 0, [10, 13, 11], 1);
    StillBurst(o2, o, 3, [500], 2);
    RunIsContinuous(c, two + Talk("c", [900]));
    ThirdMeets13(c, o);
  }

  lemma {:induction false} ThirdMeets13(c: Config, o: seq<Emission>)
    requires Continuous(c, o) && |o| == 5
    requires Burst(o, 0, [10, 13, 11], 1) && Burst(o, 3, [500], 2) && Burst(o, 4, [900], 3)
    ensures o[4].now.seqNo == o[1].now.seqNo && TidyBorder(o, 3)
    ensures (forall i :: 0 <= i < 3 ==> o[3].now.seqNo != o[i].now.seqNo) && o[4].now.seqNo != o[3].now.seqNo
  {
    After13(o);
    BurstNumbers(o, 4, [900], 3, 0);
    PlacesAfter13(o);
    assert First(o, 4) == 4;
    assert Place(o, 4) == Opening(o, 4) == 4;
    SecondBurstIsNew(c, o);
    NumberReusedIff(c, o, 1, 4);
    NumberReusedIff(c, o, 3, 4);
  }

  lemma SwitchOne(c: Config, es: seq<Event>, user: string)
    requires !c.requireKeyframe
    ensures var es' := es + [Switch(user)];
            && Emitted(c, es') == Emitted(c, es) && Bursts(es') == Bursts(es) + 1
            && Run(c, es').speaker == Some(user) && !Run(c, es').pendingKeyframe
  {
    var es' := es + [Switch(user)];
    assert es'[..|es|] == es;
  }

  lemma EmitOne(c: Config, es: seq<Event>, p: seq<u8>, sender: string)
    requires |p| >= 12 && Run(c, es).speaker == Some(sender) && !Run(c, es).pendingKeyframe
    ensures var es' := es + [Arrive(p, sender, false)];
            && |Emitted(c, es')| == |Emitted(c, es)| + 1 && Emitted(c, es')[..|Emitted(c, es)|] == Emitted(c, es)
            && Emitted(c, es')[|Emitted(c, es)|].was == StampOf(p)
            && Emitted(c, es')[|Emitted(c, es)|].burst == Bursts(es)
            && Bursts(es') == Bursts(es)
            && Run(c, es').speaker == Some(sender) && !Run(c, es').pendingKeyframe
  {
    var es' := es + [Arrive(p, sender, false)];
    assert es'[..|es|] == es;
  }
}
