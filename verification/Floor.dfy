/** Floor control of a push-to-talk room: who may speak, for how long, and how the turn ends. */
module Floor {
  import opened Words

  const FLOOR_MAX_BURST_MS := 30_000
  const FLOOR_PING_TIMEOUT_MS := 5_000

  datatype FloorState = Idle | Taken(speaker: string, burstStart: nat, lastPing: nat)

  datatype Cause = MaxBurstExceeded | ParticipantLost

  datatype FloorAction =
    | Granted(speaker: string)
    | Denied(currentSpeaker: string)
    | Released(prevSpeaker: string)
    | Revoked(prevSpeaker: string, cause: Cause)
    | PingOk
    | PingDenied

  function Since(now: nat, then_: nat): nat { if now >= then_ then now - then_ else 0 }

  predicate HeldBy(s: FloorState, user: string) { s.Taken? && s.speaker == user }

  function Holder(s: FloorState): Option<string>
  {
    match s
    case Taken(speaker, _, _) => Some(speaker)
    case Idle => None
  }

  /** What happens on the floor, each thing at a time of the clock. */
  datatype Event =
    | Request(user: string)
    | Release(user: string)
    | Ping(user: string)
    | Check
    | Leave(user: string)

  /** The floor's reaction: the new state, and the action the caller must carry out, if any. */
  function React(s: FloorState, e: Event, now: nat): (FloorState, Option<FloorAction>)
  {
    match e
    case Request(user) =>
      if s.Idle? then (Taken(user, now, now), Some(Granted(user)))
      else if s.speaker == user then (s, Some(Granted(user)))
      else (s, Some(Denied(s.speaker)))
    case Release(user) =>
      if s.Idle? || s.speaker == user then (Idle, Some(Released(user))) else (s, Some(PingDenied))
    case Ping(user) =>
      if HeldBy(s, user) then (s.(lastPing := now), Some(PingOk)) else (s, Some(PingDenied))
    case Check =>
      if s.Idle? then (s, None)
      else if Since(now, s.burstStart) > FLOOR_MAX_BURST_MS then (Idle, Some(Revoked(s.speaker, MaxBurstExceeded)))
      else if Since(now, s.lastPing) > FLOOR_PING_TIMEOUT_MS then (Idle, Some(Revoked(s.speaker, ParticipantLost)))
      else (s, None)
    case Leave(user) =>
      if HeldBy(s, user) then (Idle, Some(Released(user))) else (s, None)
  }

  class FloorController {
    var state: FloorState

    constructor ()
      ensures state == Idle
    {
      state := Idle;
    }

    method Request(user: string, now: nat) returns (action: FloorAction)
      modifies this
      ensures (state, Some(action)) == React(old(state), Event.Request(user), now)
    {
      match state {
        case Idle =>
          state := Taken(user, now, now);
          action := Granted(user);
        case Taken(speaker, _, _) =>
          action := if speaker == user then Granted(user) else Denied(speaker);
      }
    }

    method Release(user: string) returns (action: FloorAction)
      modifies this
      ensures forall now: nat :: (state, Some(action)) == React(old(state), Event.Release(user), now)
    {
      match state {
        case Idle =>
          action := Released(user);
        case Taken(speaker, _, _) =>
          if speaker == user {
            state := Idle;
            action := Released(user);
          } else {
            action := PingDenied;
          }
      }
    }

    method Ping(user: string, now: nat) returns (action: FloorAction)
      modifies this
      ensures (state, Some(action)) == React(old(state), Event.Ping(user), now)
    {
      if state.Taken? && state.speaker == user {
        state := state.(lastPing := now);
        action := PingOk;
      } else {
        action := PingDenied;
      }
    }

    method CheckTimers(now: nat) returns (action: Option<FloorAction>)
      modifies this
      ensures (state, action) == React(old(state), Check, now)
    {
      match state {
        case Idle =>
          action := None;
        case Taken(speaker, burstStart, lastPing) =>
          if Since(now, burstStart) > FLOOR_MAX_BURST_MS {
            state := Idle;
            action := Some(Revoked(speaker, MaxBurstExceeded));
          } else if Since(now, lastPing) > FLOOR_PING_TIMEOUT_MS {
            state := Idle;
            action := Some(Revoked(speaker, ParticipantLost));
          } else {
            action := None;
          }
      }
    }

    method OnParticipantLeave(user: string) returns (action: Option<FloorAction>)
      modifies this
      ensures forall now: nat :: (state, action) == React(old(state), Leave(user), now)
    {
      if state.Taken? && state.speaker == user {
        state := Idle;
        action := Some(Released(user));
      } else {
        action := None;
      }
    }
  }

  // --- runs ---

  datatype Timed = Timed(at: nat, event: Event)

  function Run(es: seq<Timed>): FloorState
  {
    if es == [] then Idle else React(Run(es[..|es| - 1]), es[|es| - 1].event, es[|es| - 1].at).0
  }

  /** What the floor answered to event `i`. */
  function Answer(es: seq<Timed>, i: nat): Option<FloorAction>
    requires i < |es|
  {
    React(Run(es[..i]), es[i].event, es[i].at).1
  }

  /** The clock at the last event. */
  function Now(es: seq<Timed>): nat { if es == [] then 0 else es[|es| - 1].at }

  /** The clock at the last timer check, or at the first event of the run. */
  function LastCheck(es: seq<Timed>): nat
  {
    if es == [] then 0
    else if es[|es| - 1].event == Check || |es| == 1 then es[|es| - 1].at
    else LastCheck(es[..|es| - 1])
  }

  /** The clock does not run backwards. */
  ghost predicate Clocked(es: seq<Timed>)
  {
    forall i, j :: 0 <= i < j < |es| ==> es[i].at <= es[j].at
  }

  lemma {:induction false} SinceLastCheck(es: seq<Timed>)
    requires Clocked(es)
    ensures LastCheck(es) <= Now(es)
    ensures var s := Run(es);
            s.Taken? ==>
              && s.burstStart <= s.lastPing <= Now(es)
              && Since(LastCheck(es), s.burstStart) <= FLOOR_MAX_BURST_MS
              && Since(LastCheck(es), s.lastPing) <= FLOOR_PING_TIMEOUT_MS
  {
    if es != [] {
      var before := es[..|es| - 1];
      SinceLastCheck(before);
      assert before != [] ==> before[|before| - 1] == es[|es| - 2];
    }
  }

  /**
   At any moment less than `period` after the last check, whatever happened before: the
   holder has spoken for at most 30 s and the period, and pinged, or got the floor, at most
   5 s and the period ago.
   */
  lemma BurstIsBounded(es: seq<Timed>, now: nat, period: nat)
    requires Clocked(es) && Now(es) <= now <= LastCheck(es) + period
    ensures Run(es).Taken? ==> now - Run(es).burstStart <= FLOOR_MAX_BURST_MS + period
    ensures Run(es).Taken? ==> now - Run(es).lastPing <= FLOOR_PING_TIMEOUT_MS + period
  {
    SinceLastCheck(es);
  }

  // --- tenure ---

  /** Event `i` ends the turn of `user`: own release, leaving, or a revocation. */
  ghost predicate Ends(es: seq<Timed>, i: nat, user: string)
    requires i < |es|
  {
    && HeldBy(Run(es[..i]), user)
    && (es[i].event in {Event.Release(user), Leave(user)} || (es[i].event == Check && Answer(es, i).Some?))
  }

  /** From event `i` to the end the floor has stayed with `user`, in the burst that began at `start`. */
  ghost predicate StayedWith(es: seq<Timed>, i: nat, user: string, start: nat)
  {
    forall j :: i < j <= |es| ==> HeldBy(Run(es[..j]), user) && Run(es[..j]).burstStart == start
  }

  lemma OneMore(es: seq<Timed>, j: nat)
    requires j < |es|
    ensures es[..j + 1][..j] == es[..j] && es[..j + 1][j] == es[j]
    ensures Run(es[..j + 1]) == React(Run(es[..j]), es[j].event, es[j].at).0
  {
  }

  /**
   The burst a holder is in began with the holder's own request on an idle floor, at the time
   it is measured from; later requests of anybody have not moved it.
   */
  lemma {:induction false} BurstBeganWithGrant(es: seq<Timed>) returns (i: nat)
    requires Run(es).Taken?
    ensures i < |es| && es[i] == Timed(Run(es).burstStart, Event.Request(Run(es).speaker))
    ensures Run(es[..i]) == Idle
    ensures StayedWith(es, i, Run(es).speaker, Run(es).burstStart)
  {
    var n := |es| - 1;
    var before := es[..n];
    if Run(before).Idle? {
      i := n;
      assert es[..n + 1] == es;
    } else {
      i := BurstBeganWithGrant(before);
      assert before[..i] == es[..i];
      forall j | i < j <= |es|
        ensures HeldBy(Run(es[..j]), Run(es).speaker) && Run(es[..j]).burstStart == Run(es).burstStart
      {
        if j <= n {
          assert before[..j] == es[..j];
        } else {
          assert es[..j] == es;
        }
      }
    }
  }

  /** Event `k` shows the floor that its holder is there: an answered ping, or the grant of an idle floor. */
  ghost predicate ShowsPresence(es: seq<Timed>, k: nat, user: string)
    requires k < |es|
  {
    || (es[k].event == Event.Ping(user) && Answer(es, k) == Some(PingOk))
    || (es[k].event == Event.Request(user) && Answer(es, k) == Some(Granted(user)) && Run(es[..k]) == Idle)
  }

  /** The silence is measured from the last answered ping or the grant; nobody else's ping counts. */
  lemma {:induction false} LastPingWas(es: seq<Timed>) returns (k: nat)
    requires Run(es).Taken?
    ensures k < |es| && es[k].at == Run(es).lastPing && ShowsPresence(es, k, Run(es).speaker)
    ensures forall j :: k < j < |es| ==> Answer(es, j) != Some(PingOk)
  {
    var n := |es| - 1;
    var before := es[..n];
    if Run(before).Idle? || Answer(es, n) == Some(PingOk) {
      k := n;
    } else {
      k := LastPingWas(before);
      assert before[..k] == es[..k] && before[k] == es[k];
      forall j | k < j < |es| ensures Answer(es, j) != Some(PingOk) {
        if j < n {
          assert before[..j] == es[..j] && before[j] == es[j];
          assert Answer(before, j) != Some(PingOk);
        }
      }
    }
  }

  /** A turn only ends by the holder's release or leaving, or by the timer. */
  lemma {:induction false} TurnEnds(es: seq<Timed>, i: nat, j: nat, user: string) returns (k: nat)
    requires i <= j <= |es|
    requires HeldBy(Run(es[..i]), user) && !HeldBy(Run(es[..j]), user)
    ensures i <= k < j && Ends(es, k, user)
    decreases j - i
  {
    OneMore(es, i);
    if HeldBy(Run(es[..i + 1]), user) {
      k := TurnEnds(es, i + 1, j, user);
    } else {
      k := i;
    }
  }

  /** Nobody else is granted the floor before the holder's turn has ended. */
  lemma GrantsAreExclusive(es: seq<Timed>, i: nat, j: nat, user: string, other: string) returns (k: nat)
    requires i < j < |es| && user != other
    requires Answer(es, i) == Some(Granted(user)) && Answer(es, j) == Some(Granted(other))
    ensures i < k < j && Ends(es, k, user)
  {
    OneMore(es, i);
    k := TurnEnds(es, i + 1, j, user);
  }

  /**
   A check revokes exactly when the holder was granted an idle floor, event `g`, more than 30 s
   before, or was last heard of, event `k`, more than 5 s before.
   */
  lemma {:induction false} RevokedIff(es: seq<Timed>, i: nat) returns (g: nat, k: nat)
    requires i < |es| && es[i].event == Check && Run(es[..i]).Taken?
    ensures var user := Run(es[..i]).speaker;
            && g < i && es[g].event == Event.Request(user) && Run(es[..g]) == Idle
            && k < i && ShowsPresence(es, k, user)
            && (forall j :: k < j < i ==> Answer(es, j) != Some(PingOk))
            && (Answer(es, i).Some? <==>
                es[i].at > es[g].at + FLOOR_MAX_BURST_MS || es[i].at > es[k].at + FLOOR_PING_TIMEOUT_MS)
  {
    var before := es[..i];
    g := BurstBeganWithGrant(before);
    k := LastPingWas(before);
    assert before[..g] == es[..g] && before[g] == es[g];
    assert forall j :: 0 <= j < i ==> before[..j] == es[..j] && before[j] == es[j];
    assert forall j :: 0 <= j < i ==> Answer(before, j) == Answer(es, j);
  }

  // --- what a holder can rely on ---

  /** Event `k` is a sign of life: a ping of the holder, or the request of an idle floor. */
  ghost predicate SignOfLife(es: seq<Timed>, k: nat, user: string)
    requires k < |es|
  {
    || (es[k].event == Event.Ping(user) && HeldBy(Run(es[..k]), user))
    || (es[k].event == Event.Request(user) && Run(es[..k]) == Idle)
  }

  /** Begin of the burst that event `k` belongs to. */
  function BurstAt(es: seq<Timed>, k: nat): nat
    requires k < |es|
  {
    if Run(es[..k]).Idle? then es[k].at else Run(es[..k]).burstStart
  }

  ghost predicate NeverEnds(es: seq<Timed>, k: nat, user: string)
  {
    forall j :: k < j < |es| ==> es[j].event != Event.Release(user) && es[j].event != Leave(user)
  }

  /** The user has the floor, in the burst that began at `start`, and was last heard of at `at` or later. */
  ghost predicate Keeps(s: FloorState, user: string, start: nat, at: nat)
  {
    HeldBy(s, user) && s.burstStart == start && s.lastPing >= at
  }

  lemma KeepStep(s: FloorState, e: Event, now: nat, user: string, start: nat, at: nat)
    requires Keeps(s, user, start, at) && e != Event.Release(user) && e != Leave(user)
    requires at <= now <= start + 30_000 && now <= at + 5_000
    ensures Keeps(React(s, e, now).0, user, start, at)
  {
  }

  /**
   Nobody loses the floor early: as long as the holder neither releases nor leaves, the burst is
   no older than 30 s and the last sign of life no older than 5 s, it keeps the floor, in the same
   burst, whatever the others ask for and however often the timer checks.
   */
  lemma {:induction false} KeepsFloor(es: seq<Timed>, k: nat, user: string)
    requires Clocked(es) && k < |es| && SignOfLife(es, k, user) && NeverEnds(es, k, user)
    requires Now(es) <= BurstAt(es, k) + 30_000 && Now(es) <= es[k].at + 5_000
    ensures Keeps(Run(es), user, BurstAt(es, k), es[k].at)
  {
    var before := es[..|es| - 1];
    if k < |before| {
      assert before[..k] == es[..k] && before[k] == es[k];
      assert forall j :: 0 <= j < |before| ==> before[j] == es[j];
      KeepsFloor(before, k, user);
      KeepStep(Run(before), es[|before|].event, Now(es), user, BurstAt(es, k), es[k].at);
    } else {
      assert before == es[..k];
    }
  }

  /** What each answer means: who asked, who had the floor, and on a revocation which limit was passed. */
  lemma AnswersMean(es: seq<Timed>, i: nat, user: string)
    requires i < |es|
    ensures var s, e, answer := Run(es[..i]), es[i], Answer(es, i);
            && (answer == Some(Granted(user)) <==> e.event == Event.Request(user) && (s.Idle? || HeldBy(s, user)))
            && (answer == Some(Denied(user)) <==> e.event.Request? && e.event.user != user && HeldBy(s, user))
            && (answer == Some(Released(user)) <==>
                || (e.event == Event.Release(user) && (s.Idle? || HeldBy(s, user)))
                || (e.event == Leave(user) && HeldBy(s, user)))
            && (answer == Some(PingOk) <==> e.event.Ping? && HeldBy(s, e.event.user))
            && (answer == Some(Revoked(user, MaxBurstExceeded)) <==>
                e.event == Check && HeldBy(s, user) && e.at > s.burstStart + 30_000)
            && (answer == Some(Revoked(user, ParticipantLost)) <==>
                e.event == Check && HeldBy(s, user) && e.at <= s.burstStart + 30_000 && e.at > s.lastPing + 5_000)
  {
  }

  /** A holder that releases or leaves, and a revocation, leave the floor idle. */
  lemma EndFrees(es: seq<Timed>, i: nat, user: string)
    requires i < |es| && HeldBy(Run(es[..i]), user)
    requires es[i].event in {Event.Release(user), Leave(user)} || (es[i].event == Check && Answer(es, i).Some?)
    ensures Run(es[..i + 1]) == Idle
  {
    OneMore(es, i);
  }
}
