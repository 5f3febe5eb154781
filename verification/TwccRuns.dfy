/** Whole runs of the recorder: the wrapping machine against unbounded sequence numbers. */
module TwccRuns {
  import opened Words
  import opened Ring
  import opened Twcc
  import opened TwccFormat
  import opened TwccTime

  /** A packet with unbounded transport-wide number `n`, or a call of the feedback builder. */
  datatype Event = Arrive(n: int, at: Instant) | Build

  function Step(s: Recorder, e: Event): Recorder
  {
    match e
    case Arrive(n, at) => Recorded(s, Wrap16(n), at)
    case Build => AfterFeedback(s)
  }

  function Run(es: seq<Event>): Recorder
  {
    if es == [] then FRESH else Step(Run(es[..|es| - 1]), es[|es| - 1])
  }

  /** The (base, count) pairs of the messages the run sends. */
  function Messages(es: seq<Event>): seq<(u16, u16)>
  {
    if es == [] then []
    else
      var before := es[..|es| - 1];
      if es[|es| - 1] != Build then Messages(before)
      else
        match FeedbackOutcome(Run(before))
        case Sent(base, count) => Messages(before) + [(base, count)]
        case _ => Messages(before)
  }

  // --- the same run without wrap-around ---

  datatype Segment = Told(lo: int, hi: int) | Skipped(lo: int, hi: int)

  /** The number line: true maximum, first number not yet accounted for, what was accounted for. */
  datatype Line = Line(first: int, base: int, max: int, segments: seq<Segment>)

  function Pend(l: Line): int { l.max - l.base + 1 }

  function LineOf(es: seq<Event>): Option<Line>
  {
    if es == [] then None
    else
      var before := es[..|es| - 1];
      match (LineOf(before), es[|es| - 1])
      case (None, Arrive(n, _)) => Some(Line(n, n, n, []))
      case (None, Build) => None
      case (Some(l), Arrive(n, _)) => Some(l.(max := if n > l.max then n else l.max))
      case (Some(l), Build) => Some(Account(l, FeedbackOutcome(Run(before)) == Unheard))
  }

  function Account(l: Line, unheard: bool): Line
  {
    if Pend(l) == 0 || (unheard && Pend(l) <= CAPACITY) then l
    else if Pend(l) > CAPACITY then
      l.(base := l.max - 100, segments := l.segments + [Skipped(l.base, l.max - 100)])
    else
      l.(base := l.max + 1, segments := l.segments + [Told(l.base, l.max + 1)])
  }

  /**
   Every packet is less than 2^15 ahead of the maximum so far and at most 2^15 behind it, and
   fewer than 2^16 numbers are ever pending.
   */
  ghost predicate Admissible(es: seq<Event>)
  {
    es == [] ||
    var before := es[..|es| - 1];
    && Admissible(before)
    && (es[|es| - 1].Arrive? && LineOf(before).Some? ==>
          && -0x8000 <= es[|es| - 1].n - LineOf(before).value.max < 0x8000
          && Pend(LineOf(es).value) < 0x1_0000)
  }

  // --- the maximum ---

  /**
   The wrapping comparison keeps the low bits of the true maximum exactly when the newcomer is
   less than 2^15 ahead modulo 2^16, or at most 2^15 behind.
   */
  lemma MaxTracksIff(max: int, n: int)
    ensures (if 0 < Wrap16(Wrap16(n) - Wrap16(max)) < 0x8000 then Wrap16(n) else Wrap16(max)) ==
            Wrap16(if n > max then n else max)
            <==> if n > max then (n - max) % 0x1_0000 < 0x8000 else (max - n) % 0x1_0000 <= 0x8000
  {
    assert Wrap16(Wrap16(n) - Wrap16(max)) == (n - max) % 0x1_0000;
    assert (max - n) % 0x1_0000 == if (n - max) % 0x1_0000 == 0 then 0 else 0x1_0000 - (n - max) % 0x1_0000;
    assert Wrap16(n) == Wrap16(max) <==> (n - max) % 0x1_0000 == 0;
  }

  // --- tiling ---

  /** A message tells of at most a ring of numbers; a jump skips nearly a ring at least. */
  ghost predicate Sized(s: Segment)
  {
    match s
    case Told(lo, hi) => 0 < hi - lo <= 8192
    case Skipped(lo, hi) => 8092 <= hi - lo
  }

  /** The segments follow one another from `first` to `base` with nothing between or twice. */
  ghost predicate Tiles(l: Line)
  {
    && (if l.segments == [] then l.first == l.base
        else l.segments[0].lo == l.first && l.segments[|l.segments| - 1].hi == l.base)
    && (forall i :: 0 <= i < |l.segments| - 1 ==> l.segments[i].hi == l.segments[i + 1].lo)
    && (forall i :: 0 <= i < |l.segments| ==> Sized(l.segments[i]))
  }

  function ToldParts(segments: seq<Segment>): seq<(u16, int)>
  {
    if segments == [] then []
    else
      var before := ToldParts(segments[..|segments| - 1]);
      match segments[|segments| - 1]
      case Told(lo, hi) => before + [(Wrap16(lo), hi - lo)]
      case Skipped(_, _) => before
  }

  /** The recorder's 16-bit fields are the low bits of the unbounded ones. */
  ghost predicate Tracks(s: Recorder, l: Option<Line>)
  {
    match l
    case None => s == FRESH
    case Some(l) => && s.log != []
                    && s.max == Wrap16(l.max) && s.base == Wrap16(l.base)
                    && 0 <= Pend(l) < 0x1_0000
  }

  lemma PendingTracks(s: Recorder, l: Line)
    requires Tracks(s, Some(l))
    ensures Pending(s) == Pend(l)
  {
    assert Wrap16(s.max - s.base + 1) == (l.max - l.base + 1) % 0x1_0000;
  }

  lemma ArriveTracks(s: Recorder, l: Line, n: int, at: Instant)
    requires Tracks(s, Some(l))
    requires -0x8000 <= n - l.max < 0x8000
    requires (if n > l.max then n else l.max) - l.base + 1 < 0x1_0000
    ensures Tracks(Recorded(s, Wrap16(n), at), Some(l.(max := if n > l.max then n else l.max)))
  {
    MaxTracksIff(l.max, n);
  }

  lemma ExtendTiles(l: Line, s: Segment)
    requires Tiles(l) && s.lo == l.base && Sized(s)
    ensures Tiles(l.(base := s.hi, segments := l.segments + [s]))
    ensures ToldParts(l.segments + [s]) == ToldParts(l.segments) + if s.Told? then [(Wrap16(s.lo), s.hi - s.lo)] else []
  {
    assert (l.segments + [s])[..|l.segments|] == l.segments;
  }

  lemma AccountTiles(l: Line, unheard: bool)
    requires Tiles(l) && 0 <= Pend(l)
    ensures var l' := Account(l, unheard);
            && Tiles(l') && 0 <= Pend(l')
            && ToldParts(l'.segments) == ToldParts(l.segments) +
               if unheard || Pend(l) == 0 || Pend(l) > CAPACITY then [] else [(Wrap16(l.base), Pend(l))]
  {
    var l' := Account(l, unheard);
    if l' != l {
      ExtendTiles(l, l'.segments[|l.segments|]);
    }
  }

  lemma BuildKeepsTrack(s: Recorder, l: Line)
    requires Tracks(s, Some(l))
    ensures Tracks(AfterFeedback(s), Some(Account(l, FeedbackOutcome(s) == Unheard)))
  {
    PendingTracks(s, l);
    match FeedbackOutcome(s) {
      case Nothing =>
      case Jump => Wrap16Add(l.max, -100);
      case Unheard =>
      case Sent(_, _) => Wrap16Add(l.base, Pend(l));
    }
  }

  lemma BuildTracks(s: Recorder, l: Line)
    requires Tracks(s, Some(l)) && Tiles(l)
    ensures var l' := Account(l, FeedbackOutcome(s) == Unheard);
            && Tracks(AfterFeedback(s), Some(l')) && Tiles(l')
            && ToldParts(l'.segments) == ToldParts(l.segments) +
               match FeedbackOutcome(s) { case Sent(base, count) => [(base, count)] case _ => [] }
  {
    BuildKeepsTrack(s, l);
    PendingTracks(s, l);
    AccountTiles(l, FeedbackOutcome(s) == Unheard);
  }

  /**
   Over every admissible run the wrapping recorder is the unbounded one modulo 2^16, the
   messages it sends are exactly the told segments, and told and skipped segments tile the
   line from the first number to the next base: no number is reported twice, and numbers are
   only passed over by the guard's jump to the maximum less 100.
   */
  lemma {:induction false} RunTiles(es: seq<Event>)
    requires Admissible(es)
    ensures Tracks(Run(es), LineOf(es))
    ensures LineOf(es).Some? ==> Tiles(LineOf(es).value)
    ensures Messages(es) == if LineOf(es).None? then [] else ToldParts(LineOf(es).value.segments)
  {
    if es != [] {
      var before, e := es[..|es| - 1], es[|es| - 1];
      RunTiles(before);
      match (LineOf(before), e) {
        case (None, _) =>
        case (Some(l), Arrive(n, at)) =>
          ArriveTracks(Run(before), l, n, at);
        case (Some(l), Build) =>
          BuildTracks(Run(before), l);
      }
    }
  }

  // --- what a symbol means ---

  /** Every arrival of the run under its unbounded number. */
  function Arrivals(es: seq<Event>): seq<Numbered<Instant>>
  {
    if es == [] then []
    else
      var before := Arrivals(es[..|es| - 1]);
      match es[|es| - 1]
      case Arrive(n, at) => before + [Numbered(n, at)]
      case Build => before
  }

  lemma {:induction false} LogIsLow(es: seq<Event>)
    ensures Run(es).log == Low(Arrivals(es))
  {
    if es != [] {
      LogIsLow(es[..|es| - 1]);
    }
  }

  /** What the recorder answers for the unbounded number `n` after the run. */
  function Answer(es: seq<Event>, n: int): Option<Instant>
  {
    Lookup(Run(es).log, CAPACITY, Wrap16(n))
  }

  lemma WindowIsAnswers(es: seq<Event>, base: int, count: nat, i: nat)
    requires i < count
    ensures Window(Run(es).log, Wrap16(base), count)[i] == Answer(es, base + i)
  {
    Wrap16Add(base, i);
  }

  /**
   Over every run, however long: the recorder answers for `n` from one arrival or none; that is
   the newest arrival of `n` itself if and only if the newest arrival in its slot neither is
   another number with the same low 16 bits nor has overwritten `n`.
   */
  lemma {:induction false} AnswersIff(es: seq<Event>, n: int)
    ensures var xs := Arrivals(es);
            && Answer(es, n) == ValueAt(xs, Answered(xs, CAPACITY, n))
            && (Answered(xs, CAPACITY, n) == LastUnder(xs, n) <==>
                !Aliased(xs, CAPACITY, n) && !Overwritten(xs, CAPACITY, n))
  {
    LogIsLow(es);
    LookupIsAnswered(Arrivals(es), CAPACITY, n);
    RingIsExactIff(Arrivals(es), CAPACITY, n);
  }

  lemma {:induction false} WindowEntry(es: seq<Event>, base: int, count: nat, i: nat)
    requires i < count
    ensures Window(Run(es).log, Wrap16(base), count)[i] ==
            ValueAt(Arrivals(es), Answered(Arrivals(es), CAPACITY, base + i))
  {
    WindowIsAnswers(es, base, count, i);
    AnswersIff(es, base + i);
  }

  lemma {:induction false} SymbolIsAnswer(es: seq<Event>, base: int, count: nat, i: nat, baseTime: Instant)
    requires i < count
    ensures Statuses(Window(Run(es).log, Wrap16(base), count), baseTime)[i] == NotReceived <==>
            Answered(Arrivals(es), CAPACITY, base + i).None?
  {
    WindowEntry(es, base, count, i);
    StatusMeansHeard(Window(Run(es).log, Wrap16(base), count), baseTime, i);
  }

  /**
   A symbol says "received" of a number that never arrived exactly when the number is aliased,
   and "not received" of one that did exactly when it was overwritten.
   */
  lemma {:induction false} FalseSymbolIff(es: seq<Event>, base: int, count: nat, i: nat, baseTime: Instant)
    requires i < count
    ensures var xs, n := Arrivals(es), base + i;
            var heard := Statuses(Window(Run(es).log, Wrap16(base), count), baseTime)[i] != NotReceived;
            && (heard && LastUnder(xs, n).None? <==> LastUnder(xs, n).None? && Aliased(xs, CAPACITY, n))
            && (!heard && LastUnder(xs, n).Some? <==> Overwritten(xs, CAPACITY, n))
  {
    SymbolIsAnswer(es, base, count, i, baseTime);
    HeardWrongly(Arrivals(es), base + i, Answered(Arrivals(es), CAPACITY, base + i).Some?);
  }

  lemma HeardWrongly(xs: seq<Numbered<Instant>>, n: int, heard: bool)
    requires heard == Answered(xs, CAPACITY, n).Some?
    ensures heard && LastUnder(xs, n).None? <==> LastUnder(xs, n).None? && Aliased(xs, CAPACITY, n)
    ensures !heard && LastUnder(xs, n).Some? <==> Overwritten(xs, CAPACITY, n)
  {
    FalseAnswers(xs, CAPACITY, n);
    OverwrittenWasStored(xs, CAPACITY, n);
  }

  // --- the fate of an arrival ---

  predicate InSlot(e: Event, n: int) { e.Arrive? && e.n % CAPACITY == n % CAPACITY }

  /** The event the recorder answers from for number `n`, if any. */
  function AnsweredFrom(es: seq<Event>, n: int): (t: Option<nat>)
    ensures t.Some? ==> t.value < |es| && InSlot(es[t.value], n) && (es[t.value].n - n) % 0x1_0000 == 0
  {
    if es == [] then None
    else
      var e := es[|es| - 1];
      if InSlot(e, n) then if (e.n - n) % 0x1_0000 == 0 then Some(|es| - 1) else None
      else AnsweredFrom(es[..|es| - 1], n)
  }

  function TimeOf(es: seq<Event>, t: Option<nat>): Option<Instant>
    requires t.Some? ==> t.value < |es| && es[t.value].Arrive?
  {
    match t
    case Some(t) => Some(es[t].at)
    case None => None
  }

  lemma {:induction false} AnswerStep(es: seq<Event>, e: Event, n: int)
    ensures Answer(es + [e], n) ==
            if !InSlot(e, n) then Answer(es, n) else if (e.n - n) % 0x1_0000 == 0 then Some(e.at) else None
  {
    assert (es + [e])[..|es|] == es;
    if e.Arrive? {
      LookupStep(Run(es), e.n, e.at, n);
    }
  }

  lemma {:induction false} AnswerIsFrom(es: seq<Event>, n: int)
    ensures Answer(es, n) == TimeOf(es, AnsweredFrom(es, n))
  {
    if es != [] {
      var before, e := es[..|es| - 1], es[|es| - 1];
      AnswerIsFrom(before, n);
      AnswerStep(before, e, n);
      assert before + [e] == es;
    }
  }

  lemma LookupStep(s: Recorder, k: int, at: Instant, n: int)
    ensures Lookup(Recorded(s, Wrap16(k), at).log, CAPACITY, Wrap16(n)) ==
            if k % CAPACITY != n % CAPACITY then Lookup(s.log, CAPACITY, Wrap16(n))
            else if (k - n) % 0x1_0000 == 0 then Some(at) else None
  {
    NewestAppend(s.log, Stored(Wrap16(k), at), CAPACITY);
    SlotOfLow(k, CAPACITY);
    SlotOfLow(n, CAPACITY);
    SameLow(k, n);
  }

  /** Nothing else went to the slot of arrival `a` before event `b`. */
  ghost predicate StillThere(es: seq<Event>, a: nat, b: nat)
    requires a < b <= |es| && es[a].Arrive?
  {
    forall j :: a < j < b ==> !InSlot(es[j], es[a].n)
  }

  lemma {:induction false} AnsweredFromIff(es: seq<Event>, a: nat)
    requires a < |es| && es[a].Arrive?
    ensures AnsweredFrom(es, es[a].n) == Some(a) <==> StillThere(es, a, |es|)
  {
    if a < |es| - 1 {
      var before := es[..|es| - 1];
      AnsweredFromIff(before, a);
      assert forall j :: 0 <= j < |before| ==> before[j] == es[j];
    }
  }

  /** Event `b` sends a message whose window holds number `n`. */
  ghost predicate Tells(es: seq<Event>, b: nat, n: int)
  {
    && b < |es| && es[b] == Build && FeedbackOutcome(Run(es[..b])).Sent?
    && LineOf(es[..b]).Some? && LineOf(es[..b]).value.base <= n <= LineOf(es[..b]).value.max
  }

  /** Event `b` is a jump of the guard over number `n`. */
  ghost predicate Skips(es: seq<Event>, b: nat, n: int)
  {
    && b < |es| && es[b] == Build && FeedbackOutcome(Run(es[..b])) == Jump
    && LineOf(es[..b]).Some? && LineOf(es[..b]).value.base <= n < LineOf(es[..b]).value.max - 100
  }

  /** The message of event `b` reports number `n` as received, from arrival `a`. */
  ghost predicate Reports(es: seq<Event>, b: nat, n: int, a: nat)
  {
    Tells(es, b, n) && AnsweredFrom(es[..b], n) == Some(a)
  }

  lemma {:induction false} TellsInWindow(es: seq<Event>, b: nat, n: int)
    requires Tells(es, b, n) && Admissible(es[..b])
    ensures var s, i := Run(es[..b]), n - LineOf(es[..b]).value.base;
            && FeedbackOutcome(s) == Sent(s.base, Pending(s)) && 0 <= i < Pending(s)
            && s.base == Wrap16(LineOf(es[..b]).value.base)
  {
    RunTiles(es[..b]);
    PendingTracks(Run(es[..b]), LineOf(es[..b]).value);
  }

  /**
   What that means in the message as read: its base is where the window begins, the symbol of the
   number is non-zero exactly when an arrival is reported, and the messages are counted modulo 2^8.
   */
  lemma {:induction false} ReportsInMessage(es: seq<Event>, b: nat, n: int, m: Report, media: u32)
    requires Tells(es, b, n) && Admissible(es[..b]) && Reported(m, Run(es[..b]), media)
    ensures var base := LineOf(es[..b]).value.base;
            && m.base == Wrap16(base) && 0 <= n - base < m.count == |m.symbols|
            && (m.symbols[n - base] != 0 <==> exists a :: Reports(es, b, n, a))
            && m.fbCount == |Messages(es[..b])| % 0x100
  {
    var before, base := es[..b], LineOf(es[..b]).value.base;
    TellsInWindow(es, b, n);
    assert m.symbols[n - base] != 0 <==> Answer(before, n).Some? by {
      SymbolIsLookup(m, Run(before), media, base, n);
    }
    AnswerIsFrom(before, n);
    ReportsIff(es, b, n);
    MessagesCounted(before);
  }

  lemma SymbolIsLookup(m: Report, s: Recorder, media: u32, base: int, n: int)
    requires Reported(m, s, media) && s.base == Wrap16(base) && 0 <= n - base < m.count
    ensures m.symbols[n - base] != 0 <==> Lookup(s.log, CAPACITY, Wrap16(n)).Some?
  {
    Wrap16Add(base, n - base);
    assert (m.base + (n - base)) % 0x1_0000 == Wrap16(Wrap16(base) + (n - base));
  }

  lemma CountStep(s: Recorder, e: Event)
    ensures Step(s, e).fbCount == if e == Build && FeedbackOutcome(s).Sent? then (s.fbCount + 1) % 0x100 else s.fbCount
  {
  }

  lemma OneMoreMessage(k: nat, c: nat)
    requires c == k % 0x100
    ensures (c + 1) % 0x100 == (k + 1) % 0x100
  {
  }

  lemma {:induction false} MessagesCounted(es: seq<Event>)
    ensures Run(es).fbCount == |Messages(es)| % 0x100
  {
    if es != [] {
      var before := es[..|es| - 1];
      MessagesCounted(before);
      CountStep(Run(before), es[|es| - 1]);
      OneMoreMessage(|Messages(before)|, Run(before).fbCount);
    }
  }

  lemma {:induction false} ReportsIff(es: seq<Event>, b: nat, n: int)
    requires Tells(es, b, n)
    ensures AnsweredFrom(es[..b], n).Some? <==> exists a :: Reports(es, b, n, a)
  {
    if AnsweredFrom(es[..b], n).Some? {
      assert Reports(es, b, n, AnsweredFrom(es[..b], n).value);
    }
  }

  lemma CongruentInSlot(x: int, n: int)
    requires (x - n) % 0x1_0000 == 0
    ensures x % CAPACITY == n % CAPACITY
  {
    SameLow(x, n);
    SlotOfLow(x, CAPACITY);
    SlotOfLow(n, CAPACITY);
  }

  /** Arrival `a` has the low 16 bits of `n`, and nothing else went to its slot before event `b`. */
  ghost predicate HeardAs(es: seq<Event>, a: nat, b: nat, n: int)
  {
    a < b <= |es| && es[a].Arrive? && (es[a].n - n) % 0x1_0000 == 0 && StillThere(es, a, b)
  }

  lemma {:induction false} AnsweredFromThere(es: seq<Event>, n: int)
    ensures AnsweredFrom(es, n).Some? <==> exists a :: HeardAs(es, a, |es|, n)
  {
    if t :| AnsweredFrom(es, n) == Some(t) {
      SlotQuiet(es, n, t);
      assert HeardAs(es, t, |es|, n);
    }
    if a: nat :| HeardAs(es, a, |es|, n) {
      CongruentInSlot(es[a].n, n);
      AnsweredFromLast(es, n, a);
    }
  }

  lemma {:induction false} SlotQuiet(es: seq<Event>, n: int, t: nat)
    requires AnsweredFrom(es, n) == Some(t)
    ensures StillThere(es, t, |es|)
  {
    CongruentInSlot(es[t].n, n);
    if t < |es| - 1 {
      var before := es[..|es| - 1];
      SlotQuiet(before, n, t);
      assert forall j :: 0 <= j < |before| ==> before[j] == es[j];
    }
  }

  lemma {:induction false} AnsweredFromLast(es: seq<Event>, n: int, a: nat)
    requires a < |es| && es[a].Arrive? && (es[a].n - n) % 0x1_0000 == 0 && InSlot(es[a], n) && StillThere(es, a, |es|)
    ensures AnsweredFrom(es, n) == Some(a)
  {
    if a < |es| - 1 {
      var before := es[..|es| - 1];
      assert forall j :: 0 <= j < |before| ==> before[j] == es[j];
      AnsweredFromLast(before, n, a);
    }
  }

  lemma {:induction false} HeardBefore(es: seq<Event>, a: nat, b: nat, n: int)
    requires b <= |es|
    ensures HeardAs(es[..b], a, b, n) <==> HeardAs(es, a, b, n)
  {
    var before := es[..b];
    assert forall j :: 0 <= j < b ==> before[j] == es[j];
  }

  lemma {:induction false} ReportedIsHeard(es: seq<Event>, b: nat, n: int)
    requires Tells(es, b, n)
    ensures (exists a :: Reports(es, b, n, a)) <==> exists a :: HeardAs(es, a, b, n)
  {
    ReportsIff(es, b, n);
    AnsweredFromThere(es[..b], n);
    forall a: nat ensures HeardAs(es[..b], a, b, n) <==> HeardAs(es, a, b, n) {
      HeardBefore(es, a, b, n);
    }
  }

  /**
   From the events to the message as read: the symbol of a number is non-zero if and only if some
   arrival with the same low 16 bits came before the message and is still in its slot.
   */
  lemma {:induction false} SymbolFromEvents(es: seq<Event>, b: nat, n: int, m: Report, media: u32)
    requires Tells(es, b, n) && Admissible(es[..b]) && Reported(m, Run(es[..b]), media)
    ensures var base := LineOf(es[..b]).value.base;
            && 0 <= n - base < |m.symbols|
            && (m.symbols[n - base] != 0 <==> exists a :: HeardAs(es, a, b, n))
  {
    ReportsInMessage(es, b, n, m, media);
    ReportedIsHeard(es, b, n);
  }

  lemma {:induction false} AdmissiblePrefix(es: seq<Event>, k: nat)
    requires Admissible(es) && k <= |es|
    ensures Admissible(es[..k])
  {
    if k < |es| {
      AdmissiblePrefix(es[..|es| - 1], k);
      assert es[..|es| - 1][..k] == es[..k];
    } else {
      assert es[..k] == es;
    }
  }

  lemma {:induction false} BaseStep(es: seq<Event>, e: Event)
    requires Admissible(es) && LineOf(es).Some?
    ensures LineOf(es + [e]).Some? && LineOf(es).value.base <= LineOf(es + [e]).value.base
  {
    assert (es + [e])[..|es|] == es;
    RunTiles(es);
  }

  lemma {:induction false} BaseGrows(es: seq<Event>, i: nat)
    requires Admissible(es) && i <= |es| && LineOf(es[..i]).Some?
    ensures LineOf(es).Some? && LineOf(es[..i]).value.base <= LineOf(es).value.base
  {
    if i < |es| {
      var before, e := es[..|es| - 1], es[|es| - 1];
      assert before[..i] == es[..i];
      BaseGrows(before, i);
      BaseStep(before, e);
      assert before + [e] == es;
    } else {
      assert es[..i] == es;
    }
  }

  /** The first number not yet accounted for only moves on. */
  lemma {:induction false} BaseRises(es: seq<Event>, i: nat, j: nat)
    requires Admissible(es) && i <= j <= |es| && LineOf(es[..i]).Some?
    ensures LineOf(es[..j]).Some? && LineOf(es[..i]).value.base <= LineOf(es[..j]).value.base
  {
    AdmissiblePrefix(es, j);
    assert es[..j][..i] == es[..i];
    BaseGrows(es[..j], i);
  }

  lemma {:induction false} AccountedOnce(es: seq<Event>, b: nat, n: int)
    requires Admissible(es) && (Tells(es, b, n) || Skips(es, b, n))
    ensures LineOf(es[..b + 1]).Some? && n < LineOf(es[..b + 1]).value.base
  {
    AdmissiblePrefix(es, b);
    RunTiles(es[..b]);
    AccountMoves(Run(es[..b]), LineOf(es[..b]).value, n);
    assert es[..b + 1][..b] == es[..b];
  }

  lemma AccountMoves(s: Recorder, l: Line, n: int)
    requires Tracks(s, Some(l))
    requires || (FeedbackOutcome(s).Sent? && l.base <= n <= l.max)
             || (FeedbackOutcome(s) == Jump && l.base <= n < l.max - 100)
    ensures n < Account(l, FeedbackOutcome(s) == Unheard).base
  {
    PendingTracks(s, l);
  }

  /** A number is told in one message at most, and never if the guard has skipped it. */
  lemma {:induction false} ToldOnce(es: seq<Event>, b: nat, b': nat, n: int)
    requires Admissible(es) && Tells(es, b, n) && (Tells(es, b', n) || Skips(es, b', n))
    ensures b == b' && !Skips(es, b', n)
  {
    if b < b' {
      AccountedOnce(es, b, n);
      BaseRises(es, b + 1, b');
    } else if b' < b {
      AccountedOnce(es, b', n);
      BaseRises(es, b' + 1, b);
    }
  }

  /**
   The fate of an arrival: it is reported, under its own number, by the message that tells its
   number and by no other, if and only if it came before that message and nothing else has gone
   to its slot in between. No message reports it if the guard skipped its number, or if the
   number was already accounted for when it came.
   */
  lemma {:induction false} ArrivalFate(es: seq<Event>, a: nat, b: nat)
    requires Admissible(es) && a < |es| && es[a].Arrive?
    ensures var n := es[a].n;
            && (Reports(es, b, n, a) <==> Tells(es, b, n) && a < b && StillThere(es, a, b))
            && (Reports(es, b, n, a) ==> forall b' :: b' != b ==> !Reports(es, b', n, a) && !Skips(es, b', n))
            && (LineOf(es[..a]).Some? && n < LineOf(es[..a]).value.base ==> !Reports(es, b, n, a))
  {
    var n := es[a].n;
    if Tells(es, b, n) && a < b {
      AnsweredFromIff(es[..b], a);
      assert forall j :: 0 <= j < b ==> es[..b][j] == es[j];
      if LineOf(es[..a]).Some? {
        BaseRises(es, a, b);
      }
    }
    if Tells(es, b, n) {
      forall b' | b' != b ensures !Reports(es, b', n, a) && !Skips(es, b', n) {
        if Tells(es, b', n) || Skips(es, b', n) {
          ToldOnce(es, b, b', n);
        }
      }
    }
  }

  // --- a number that never arrived, reported as received ---

  /** An admissible run whose maximum and next base are these. */
  ghost predicate Stands(es: seq<Event>, max: int, base: int)
  {
    Admissible(es) && LineOf(es).Some? && LineOf(es).value.max == max && LineOf(es).value.base == base
  }

  lemma {:induction false} Forward(es: seq<Event>, max: int, base: int, n: int, at: Instant)
    requires Stands(es, max, base) && max < n < max + 0x8000 && n - base + 1 < 0x1_0000
    ensures Stands(es + [Arrive(n, at)], n, base)
    ensures Arrivals(es + [Arrive(n, at)]) == Arrivals(es) + [Numbered(n, at)]
  {
    assert (es + [Arrive(n, at)])[..|es|] == es;
  }

  lemma {:induction false} Jumps(es: seq<Event>, max: int, base: int)
    requires Stands(es, max, base) && max - base + 1 > CAPACITY
    ensures Stands(es + [Build], max, max - 100)
    ensures Arrivals(es + [Build]) == Arrivals(es)
  {
    assert (es + [Build])[..|es|] == es;
  }

  lemma {:induction false} Begins(n: int, at: Instant)
    ensures Stands([Arrive(n, at)], n, n) && Arrivals([Arrive(n, at)]) == [Numbered(n, at)]
  {
    assert [Arrive(n, at)][..0] == [];
  }

  const ALIASED_RUN := [Arrive(0, 0)] + [Arrive(32767, 1)] + [Build] + [Arrive(65530, 2)] + [Build] + [Arrive(65537, 3)]

  /**
   Each guard's jump leaves an old arrival in its slot; on the second time round number 65536,
   which never arrived, is reported as received.
   */
  lemma {:induction false} AliasedRunReports()
    ensures Admissible(ALIASED_RUN) && Clocked(ALIASED_RUN)
    ensures var s := Run(ALIASED_RUN);
            && FeedbackOutcome(s) == Sent(65430, 108)
            && LastUnder(Arrivals(ALIASED_RUN), 65536).None?
            && Statuses(Window(s.log, 65430, 108), 0)[106] != NotReceived
  {
    AliasedRunState();
    AliasedRunClocked(ALIASED_RUN);
    AliasedPending();
    AliasedStores(Arrivals(ALIASED_RUN));
    WindowEntry(ALIASED_RUN, 65430, 108, 106);
    EntryIsHeard(Run(ALIASED_RUN), 108, 106);
  }

  lemma {:induction false} AliasedPending()
    ensures Run(ALIASED_RUN).base == 65430 && Pending(Run(ALIASED_RUN)) == 108
  {
    AliasedRunState();
    RunTiles(ALIASED_RUN);
    PendingTracks(Run(ALIASED_RUN), LineOf(ALIASED_RUN).value);
  }

  lemma {:induction false} EntryIsHeard(s: Recorder, count: nat, i: nat)
    requires i < count == Pending(s) <= CAPACITY && Window(s.log, s.base, count)[i].Some?
    ensures FeedbackOutcome(s) == Sent(s.base, Pending(s))
    ensures Statuses(Window(s.log, s.base, count), 0)[i] != NotReceived
  {
    ReceivedSome(Window(s.log, s.base, count), i);
    StatusMeansHeard(Window(s.log, s.base, count), 0, i);
  }

  lemma {:induction false} AliasedRunClocked(es: seq<Event>)
    requires es == ALIASED_RUN
    ensures Clocked(es)
  {
    assert es == [Arrive(0, 0), Arrive(32767, 1), Build, Arrive(65530, 2), Build, Arrive(65537, 3)];
  }

  lemma {:induction false} AliasedRunState()
    ensures Stands(ALIASED_RUN, 65537, 65430)
    ensures Arrivals(ALIASED_RUN) == [Numbered(0, 0), Numbered(32767, 1), Numbered(65530, 2), Numbered(65537, 3)]
  {
    var e1: seq<Event> := [Arrive(0, 0)];
    var e2 := e1 + [Arrive(32767, 1)];
    var e3 := e2 + [Build];
    var e4 := e3 + [Arrive(65530, 2)];
    var e5 := e4 + [Build];
    Begins(0, 0);
    Forward(e1, 0, 0, 32767, 1);
    Jumps(e2, 32767, 0);
    Forward(e3, 32767, 32667, 65530, 2);
    Jumps(e4, 65530, 32667);
    Forward(e5, 65530, 65430, 65537, 3);
  }

  lemma AliasedStores(xs: seq<Numbered<Instant>>)
    requires xs == [Numbered(0, 0), Numbered(32767, 1), Numbered(65530, 2), Numbered(65537, 3)]
    ensures Answered(xs, CAPACITY, 65536) == Some(0) && LastUnder(xs, 65536).None?
  {
    SlotTopIsNewest(xs, CAPACITY, 65536);
    assert xs[0].n % CAPACITY == 65536 % CAPACITY;
    assert forall j :: 0 < j < 4 ==> xs[j].n % CAPACITY != 65536 % CAPACITY;
  }

  lemma {:induction false} ReceivedSome(w: seq<Option<Instant>>, i: nat)
    requires i < |w| && w[i].Some?
    ensures Received(w) != []
    decreases |w|
  {
    if i < |w| - 1 {
      ReceivedSome(w[..|w| - 1], i);
    }
  }

  // --- times ---

  /** The clock does not run backwards. */
  ghost predicate Clocked(es: seq<Event>)
  {
    forall i, j :: 0 <= i < j < |es| && es[i].Arrive? && es[j].Arrive? ==> es[i].at <= es[j].at
  }

  lemma {:induction false} NothingBeforeBase(es: seq<Event>)
    requires Clocked(es)
    ensures var s := Run(es);
            && s.baseTime.Some? == (s.log != [])
            && (forall i :: 0 <= i < |s.log| ==> exists j :: 0 <= j < |es| && es[j].Arrive? && es[j].at == s.log[i].val)
            && (forall i :: 0 <= i < |s.log| ==> s.log[i].val >= s.baseTime.value)
  {
    if es != [] {
      var before, e := es[..|es| - 1], es[|es| - 1];
      NothingBeforeBase(before);
      var s := Run(before);
      forall i | 0 <= i < |s.log| ensures exists j :: 0 <= j < |es| && es[j].Arrive? && es[j].at == s.log[i].val {
        var j :| 0 <= j < |before| && before[j].Arrive? && before[j].at == s.log[i].val;
        assert es[j] == before[j];
      }
      if e.Arrive? && s.log != [] {
        assert es[|es| - 1].at == e.at;
        FirstIsBase(before);
      }
    }
  }

  lemma {:induction false} FirstIsBase(es: seq<Event>)
    ensures Run(es).baseTime.Some? == (Run(es).log != [])
    ensures Run(es).log != [] ==> Run(es).baseTime == Some(Run(es).log[0].val)
  {
    if es != [] {
      FirstIsBase(es[..|es| - 1]);
    }
  }

  lemma {:induction false} ReceivedFromLog(log: seq<Stored<Instant>>, base: u16, n: nat)
    ensures forall t: Instant :: t in Received(Window(log, base, n)) ==> exists i :: 0 <= i < |log| && log[i].val == t
  {
    if n > 0 {
      assert Window(log, base, n)[..n - 1] == Window(log, base, n - 1);
      ReceivedFromLog(log, base, n - 1);
      var last := Lookup(log, CAPACITY, Wrap16(base + n - 1));
      if last.Some? {
        LookupIffHeld(log, CAPACITY, Wrap16(base + n - 1), last.value);
      }
    }
  }

  /** On every run with a forward clock, each feedback's reader is within its error bound. */
  lemma RunFeedbackTimes(es: seq<Event>, media: u32, k: nat)
    requires Clocked(es) && FeedbackOutcome(Run(es)).Sent?
    requires k < |Received(Window(Run(es).log, Run(es).base, Pending(Run(es))))|
    ensures Run(es).baseTime.Some?
    ensures var s := Run(es);
            var baseTime := s.baseTime.value;
            var r := Received(Window(s.log, s.base, Pending(s)));
            var read := ReadArrival(FeedbackReport(s, media), k) +
                        RefTime(r, baseTime) / 0x100_0000 * REF_WRAP + Clipped(r, baseTime, k + 1) * TICK;
            -(k + 1) * TICK < r[k] - baseTime - read < (k + 1) * TICK
  {
    var s := Run(es);
    NothingBeforeBase(es);
    ReceivedFromLog(s.log, s.base, Pending(s));
    var r := Received(Window(s.log, s.base, Pending(s)));
    assert r[0] in r;
    FeedbackTimes(s, media, k);
  }

  // --- a delta too large for the message ---

  const CLAMPED_RUN := [Arrive(0, 0)] + [Arrive(1, 3_000_000_000)]

  lemma {:induction false} ClampedRunState()
    ensures Run(CLAMPED_RUN) == Recorder([Stored(0, 0), Stored(1, 3_000_000_000)], 0, 1, Some(0), 0)
  {
    var e1: seq<Event> := [Arrive(0, 0)];
    assert e1[..0] == [] && Run(e1) == Recorded(Run([]), 0, 0);
    assert CLAMPED_RUN[..1] == e1;
    assert Run(e1).log == [Stored(0, 0)];
  }

  lemma {:induction false} TwoArrivals(w: seq<Option<Instant>>, a: Instant, b: Instant)
    requires w == [Some(a), Some(b)]
    ensures Received(w) == [a, b]
  {
    assert w[..1] == [Some(a)] && w[..1][..0] == [];
    assert Received(w[..1]) == [a];
  }

  lemma {:induction false} ClampedWindow()
    ensures var s := Run(CLAMPED_RUN);
            FeedbackOutcome(s) == Sent(0, 2) && Received(Window(s.log, 0, 2)) == [0, 3_000_000_000]
              && s.baseTime == Some(0)
  {
    ClampedRunState();
    var s := Run(CLAMPED_RUN);
    HeldIsNewest(s.log, CAPACITY, 0);
    HeldIsNewest(s.log, CAPACITY, 1);
    TwoArrivals(Window(s.log, 0, 2), 0, 3_000_000_000);
  }

  lemma {:induction false} ClampedTicks(r: seq<Instant>)
    requires r == [0, 3_000_000_000]
    ensures SentTicks(r, 0) == [0, 8191] && Clipped(r, 0, 2) == 3809 && RefTime(r, 0) == 0
  {
    assert r[..0] == [] && r[..1] == [0];
    assert Delta(r, 0, 0) == 0 && Delta(r, 0, 1) == 12000;
    assert Clipped(r, 0, 1) == 0;
  }

  /** Of two packets 3 s apart in one window the second is read as arriving 8191 ticks, 2.05 s, after the first. */
  lemma {:induction false} ClampedRunReads(media: u32)
    ensures var s := Run(CLAMPED_RUN);
            && FeedbackOutcome(s) == Sent(0, 2) && Received(Window(s.log, 0, 2)) == [0, 3_000_000_000]
            && Clipped([0, 3_000_000_000], 0, 2) == 3809
            && s.baseTime == Some(0) && ReadArrival(FeedbackReport(s, media), 1) == 8191 * TICK
  {
    ClampedWindow();
    ClampedTicks([0, 3_000_000_000]);
    var rep := FeedbackReport(Run(CLAMPED_RUN), media);
    assert rep.deltas == [0, 8191] && rep.refTime == 0;
    assert Sum(rep.deltas, 1) == 0;
  }
}
