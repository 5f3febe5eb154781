/** When the hub's lookups agree with a scan over all sessions of all rooms. */
module HubExact {
  import opened Words
  import opened HubModel

  predicate IsLive(h: Hub, id: string, user: string) { id in h.rooms && user in h.rooms[id].people }

  function SessionAt(h: Hub, id: string, user: string, pc: PcType): MediaSession
    requires IsLive(h, id, user)
  {
    h.rooms[id].people[user].Session(pc)
  }

  /** The session's ufrag leads to it. */
  predicate UfragFiled(h: Hub, id: string, user: string, pc: PcType)
    requires IsLive(h, id, user)
  {
    FindUfrag(h, SessionAt(h, id, user, pc).ufrag) == Some((id, (user, pc)))
  }

  /** The session's address, if it has one, leads to it. */
  predicate AddrFiled(h: Hub, id: string, user: string, pc: PcType)
    requires IsLive(h, id, user)
  {
    match SessionAt(h, id, user, pc).address
    case Some(a) => FindAddr(h, a) == Some((id, (user, pc)))
    case None => true
  }

  ghost predicate UfragsExact(h: Hub)
  {
    forall id, user, pc :: IsLive(h, id, user) ==> UfragFiled(h, id, user, pc)
  }

  ghost predicate AddrsExact(h: Hub)
  {
    forall id, user, pc :: IsLive(h, id, user) ==> AddrFiled(h, id, user, pc)
  }

  /** With sound and exact indices a lookup finds what a scan finds. */
  lemma ScanAgrees(h: Hub, f: string, a: SocketAddr, id: string, user: string, pc: PcType)
    requires Sound(h)
    ensures UfragsExact(h) ==>
              (FindUfrag(h, f) == Some((id, (user, pc))) <==>
               IsLive(h, id, user) && SessionAt(h, id, user, pc).ufrag == f)
    ensures AddrsExact(h) ==>
              (FindAddr(h, a) == Some((id, (user, pc))) <==>
               IsLive(h, id, user) && SessionAt(h, id, user, pc).address == Some(a))
  {
    if IsLive(h, id, user) {
      assert UfragsExact(h) ==> UfragFiled(h, id, user, pc);
      assert AddrsExact(h) ==> AddrFiled(h, id, user, pc);
    }
  }

  // --- latching ---

  /** No live session but this one has the address. */
  ghost predicate FreeFor(h: Hub, id: string, user: string, pc: PcType, a: SocketAddr)
  {
    forall i, u, other :: IsLive(h, i, u) && SessionAt(h, i, u, other).address == Some(a) ==>
      (i, (u, other)) == (id, (user, pc))
  }

  lemma BoundSessions(h: Hub, f: string, a: SocketAddr)
    requires Sound(h) && FindUfrag(h, f).Some?
    ensures var (id, (user, pc)) := FindUfrag(h, f).value;
            var h' := Bound(h, f, a);
            && IsLive(h, id, user)
            && (forall i, u :: IsLive(h', i, u) <==> IsLive(h, i, u))
            && (forall i, u, other :: IsLive(h, i, u) ==>
                                        SessionAt(h', i, u, other) ==
                                        if (i, (u, other)) == (id, (user, pc)) then
                                          SessionAt(h, i, u, other).(address := Some(a))
                                        else SessionAt(h, i, u, other))
  {
  }

  lemma BoundFinds(h: Hub, f: string, a: SocketAddr, b: SocketAddr)
    requires Sound(h) && FindUfrag(h, f).Some?
    ensures var (id, (user, pc)) := FindUfrag(h, f).value;
            && IsLive(h, id, user)
            && FindAddr(Bound(h, f, a), a) == Some((id, (user, pc)))
            && (b != a && SessionAt(h, id, user, pc).address != Some(b) ==>
                FindAddr(Bound(h, f, a), b) == FindAddr(h, b))
            && (b != a && SessionAt(h, id, user, pc).address == Some(b) && b in h.addrIndex && h.addrIndex[b] == id ==>
                  FindAddr(Bound(h, f, a), b) == None)
  {
  }

  /** A latch keeps the address lookups exact if and only if no other live session has the address. */
  lemma LatchIsExactIff(h: Hub, f: string, a: SocketAddr)
    requires Sound(h) && AddrsExact(h) && FindUfrag(h, f).Some?
    ensures var (id, (user, pc)) := FindUfrag(h, f).value;
            AddrsExact(Step(h, Bind(f, a))) <==> FreeFor(h, id, user, pc, a)
  {
    var (id, (user, pc)) := FindUfrag(h, f).value;
    var h' := Bound(h, f, a);
    BoundSessions(h, f, a);
    BoundFinds(h, f, a, a);
    if FreeFor(h, id, user, pc, a) {
      forall i, u, other | IsLive(h', i, u) ensures AddrFiled(h', i, u, other) {
        assert AddrFiled(h, i, u, other) && AddrFiled(h, id, user, pc);
        if (i, (u, other)) != (id, (user, pc)) && SessionAt(h, i, u, other).address.Some? {
          BoundFinds(h, f, a, SessionAt(h, i, u, other).address.value);
        }
      }
    }
    if AddrsExact(h') {
      forall i, u, other | IsLive(h, i, u) && SessionAt(h, i, u, other).address == Some(a)
        ensures (i, (u, other)) == (id, (user, pc))
      {
        assert AddrFiled(h', i, u, other);
      }
    }
  }

  /**
   Rebinding leaves the old address in the hub's reverse index; it is harmless: the old address
   finds nobody, the new one finds the session.
   */
  lemma StaleEntryIsHarmless(h: Hub, f: string, was: SocketAddr, a: SocketAddr)
    requires Sound(h) && AddrsExact(h) && FindUfrag(h, f).Some? && was != a
    requires var (id, (user, pc)) := FindUfrag(h, f).value;
             IsLive(h, id, user) && SessionAt(h, id, user, pc).address == Some(was)
    ensures var h' := Step(h, Bind(f, a));
            was in h'.addrIndex && FindAddr(h', was) == None && FindAddr(h', a) == FindUfrag(h, f)
  {
    var (id, (user, pc)) := FindUfrag(h, f).value;
    assert AddrFiled(h, id, user, pc);
    BoundFinds(h, f, a, was);
  }

  // --- joining ---

  /** Two different ufrags no live session has. */
  ghost predicate FreshUfrags(h: Hub, pub: string, sub: string)
  {
    pub != sub &&
    forall i, u, pc :: IsLive(h, i, u) ==> SessionAt(h, i, u, pc).ufrag != pub && SessionAt(h, i, u, pc).ufrag != sub
  }

  lemma JoinedFinds(h: Hub, id: string, user: string, p: Person)
    requires id in h.rooms && Refusal(h.rooms[id], user).None?
    ensures var h' := Joined(h, id, user, p);
            && (forall a :: FindAddr(h', a) == FindAddr(h, a))
            && (forall f :: FindUfrag(h', f) == if f == p.subscribe.ufrag then Some((id, (user, Subscribe)))
                                                else if f == p.publish.ufrag then Some((id, (user, Publish)))
                                                else FindUfrag(h, f))
  {
  }

  /** An accepted participant keeps the ufrag lookups exact if and only if both ufrags are new. */
  lemma JoinIsExactIff(h: Hub, id: string, user: string, pub: string, sub: string, now: nat)
    requires UfragsExact(h) && id in h.rooms && Refusal(h.rooms[id], user).None?
    ensures UfragsExact(Step(h, Join(id, user, pub, sub, now))) <==> FreshUfrags(h, pub, sub)
  {
    var p := NewPerson(pub, sub, now);
    var h' := Joined(h, id, user, p);
    JoinedFinds(h, id, user, p);
    if FreshUfrags(h, pub, sub) {
      forall i, u, pc | IsLive(h', i, u) ensures UfragFiled(h', i, u, pc) {
        assert (i, u) != (id, user) ==> IsLive(h, i, u) && UfragFiled(h, i, u, pc);
      }
    }
    if UfragsExact(h') {
      assert UfragFiled(h', id, user, Publish);
      forall i, u, pc | IsLive(h, i, u)
        ensures SessionAt(h, i, u, pc).ufrag != pub && SessionAt(h, i, u, pc).ufrag != sub {
        assert UfragFiled(h', i, u, pc);
      }
    }
  }

  lemma JoinKeepsAddrs(h: Hub, id: string, user: string, pub: string, sub: string, now: nat)
    requires AddrsExact(h)
    ensures AddrsExact(Step(h, Join(id, user, pub, sub, now)))
  {
    var p := NewPerson(pub, sub, now);
    var h' := Joined(h, id, user, p);
    if id in h.rooms && Refusal(h.rooms[id], user).None? {
      JoinedFinds(h, id, user, p);
      forall i, u, pc | IsLive(h', i, u) ensures AddrFiled(h', i, u, pc) {
        assert (i, u) != (id, user) ==> IsLive(h, i, u) && AddrFiled(h, i, u, pc);
      }
    }
  }

  // --- leaving and closing ---

  lemma LeftFinds(h: Hub, id: string, user: string, f: string, a: SocketAddr)
    requires IsLive(h, id, user)
    ensures var h' := Left(h, id, user);
            && (f !in h.rooms[id].people[user].Ufrags() ==> FindUfrag(h', f) == FindUfrag(h, f))
            && (a !in h.rooms[id].people[user].Addresses() ==> FindAddr(h', a) == FindAddr(h, a))
  {
  }

  /** A ufrag or address of the one who leaves led to no one else. */
  lemma OwnersDiffer(h: Hub, id: string, user: string, i: string, u: string, pc: PcType)
    requires IsLive(h, id, user) && IsLive(h, i, u) && (i, u) != (id, user)
    ensures UfragsExact(h) ==> SessionAt(h, i, u, pc).ufrag !in h.rooms[id].people[user].Ufrags()
    ensures AddrsExact(h) && SessionAt(h, i, u, pc).address.Some? ==>
              SessionAt(h, i, u, pc).address.value !in h.rooms[id].people[user].Addresses()
  {
    if UfragsExact(h) {
      assert UfragFiled(h, i, u, pc) && UfragFiled(h, id, user, Publish) && UfragFiled(h, id, user, Subscribe);
    }
    if AddrsExact(h) {
      assert AddrFiled(h, i, u, pc) && AddrFiled(h, id, user, Publish) && AddrFiled(h, id, user, Subscribe);
    }
  }

  lemma LeaveKeepsExact(h: Hub, id: string, user: string)
    ensures UfragsExact(h) ==> UfragsExact(Step(h, Leave(id, user)))
    ensures AddrsExact(h) ==> AddrsExact(Step(h, Leave(id, user)))
  {
    if IsLive(h, id, user) {
      var h' := Left(h, id, user);
      forall i, u, pc | IsLive(h', i, u)
        ensures UfragsExact(h) ==> UfragFiled(h', i, u, pc)
        ensures AddrsExact(h) ==> AddrFiled(h', i, u, pc)
      {
        OwnersDiffer(h, id, user, i, u, pc);
        assert UfragsExact(h) ==> UfragFiled(h, i, u, pc);
        assert AddrsExact(h) ==> AddrFiled(h, i, u, pc);
        var s := SessionAt(h, i, u, pc);
        LeftFinds(h, id, user, s.ufrag, if s.address.Some? then s.address.value else V4([0, 0, 0, 0], 0));
      }
    }
  }

  lemma ClosedFinds(h: Hub, id: string, f: string, a: SocketAddr)
    requires id in h.rooms
    ensures var h' := Closed(h, id);
            && (f !in AllUfrags(h.rooms[id].people) && (FindUfrag(h, f).None? || FindUfrag(h, f).value.0 != id) ==>
                  FindUfrag(h', f) == FindUfrag(h, f))
            && (a !in AllAddresses(h.rooms[id].people) && (FindAddr(h, a).None? || FindAddr(h, a).value.0 != id) ==>
                  FindAddr(h', a) == FindAddr(h, a))
  {
  }

  lemma CloseKeepsExact(h: Hub, id: string)
    ensures UfragsExact(h) ==> UfragsExact(Step(h, Close(id)))
    ensures AddrsExact(h) ==> AddrsExact(Step(h, Close(id)))
  {
    if id in h.rooms {
      var h' := Closed(h, id);
      forall i, u, pc | IsLive(h', i, u)
        ensures UfragsExact(h) ==> UfragFiled(h', i, u, pc)
        ensures AddrsExact(h) ==> AddrFiled(h', i, u, pc)
      {
        forall w | w in h.rooms[id].people
          ensures UfragsExact(h) ==> SessionAt(h, i, u, pc).ufrag !in h.rooms[id].people[w].Ufrags()
          ensures AddrsExact(h) && SessionAt(h, i, u, pc).address.Some? ==>
                    SessionAt(h, i, u, pc).address.value !in h.rooms[id].people[w].Addresses()
        {
          OwnersDiffer(h, id, w, i, u, pc);
        }
        assert UfragsExact(h) ==> UfragFiled(h, i, u, pc);
        assert AddrsExact(h) ==> AddrFiled(h, i, u, pc);
        var s := SessionAt(h, i, u, pc);
        ClosedFinds(h, id, s.ufrag, if s.address.Some? then s.address.value else V4([0, 0, 0, 0], 0));
      }
    }
  }

  // --- runs ---

  lemma OthersKeepExact(h: Hub, e: Event)
    requires Sound(h) && (e.Create? || e.Touch?)
    ensures UfragsExact(h) ==> UfragsExact(Step(h, e))
    ensures AddrsExact(h) ==> AddrsExact(Step(h, e))
  {
    var h' := Step(h, e);
    forall i, u, pc | IsLive(h', i, u)
      ensures UfragsExact(h) ==> UfragFiled(h', i, u, pc)
      ensures AddrsExact(h) ==> AddrFiled(h', i, u, pc)
    {
      assert IsLive(h, i, u) && SessionAt(h', i, u, pc) == SessionAt(h, i, u, pc);
      assert UfragsExact(h) ==> UfragFiled(h, i, u, pc);
      assert AddrsExact(h) ==> AddrFiled(h, i, u, pc);
    }
  }

  lemma BindKeepsUfrags(h: Hub, f: string, a: SocketAddr)
    requires Sound(h) && UfragsExact(h)
    ensures UfragsExact(Step(h, Bind(f, a)))
  {
    if FindUfrag(h, f).Some? {
      var h' := Bound(h, f, a);
      BoundSessions(h, f, a);
      forall i, u, pc | IsLive(h', i, u) ensures UfragFiled(h', i, u, pc) {
        assert UfragFiled(h, i, u, pc);
      }
    }
  }

  /** The step introduces no ufrag and no address that another live session has. */
  ghost predicate Fair(h: Hub, e: Event)
  {
    match e
    case Join(id, user, pub, sub, _) => id in h.rooms && Refusal(h.rooms[id], user).None? ==> FreshUfrags(h, pub, sub)
    case Bind(f, a) => FindUfrag(h, f).Some? ==>
        var (id, (user, pc)) := FindUfrag(h, f).value; FreeFor(h, id, user, pc, a)
    case _ => true
  }

  lemma StepKeepsExact(h: Hub, e: Event)
    requires Sound(h) && UfragsExact(h) && AddrsExact(h) && Fair(h, e)
    ensures UfragsExact(Step(h, e)) && AddrsExact(Step(h, e))
  {
    match e {
      case Join(id, user, pub, sub, now) =>
        JoinKeepsAddrs(h, id, user, pub, sub, now);
        if id in h.rooms && Refusal(h.rooms[id], user).None? {
          JoinIsExactIff(h, id, user, pub, sub, now);
        }
      case Bind(f, a) =>
        BindKeepsUfrags(h, f, a);
        if FindUfrag(h, f).Some? {
          LatchIsExactIff(h, f, a);
        }
      case Leave(id, user) => LeaveKeepsExact(h, id, user);
      case Close(id) => CloseKeepsExact(h, id);
      case _ => OthersKeepExact(h, e);
    }
  }

  ghost predicate AlwaysFair(es: seq<Event>)
  {
    forall i :: 0 <= i < |es| ==> Fair(Run(es[..i]), es[i])
  }

  lemma {:induction false} AlwaysExact(es: seq<Event>)
    requires AlwaysFair(es)
    ensures UfragsExact(Run(es)) && AddrsExact(Run(es))
  {
    if es != [] {
      var before := es[..|es| - 1];
      assert forall i :: 0 <= i < |before| ==> before[..i] == es[..i];
      AlwaysExact(before);
      AlwaysSound(before);
      StepKeepsExact(Run(before), es[|es| - 1]);
    }
  }

  /**
   In every state reached by fresh ufrags and latches to addresses no other live session has,
   a lookup finds a session exactly when a scan over all rooms finds it.
   */
  lemma {:induction false} LookupsAreScans(es: seq<Event>, f: string, a: SocketAddr,
                                           id: string, user: string, pc: PcType)
    requires AlwaysFair(es)
    ensures var h := Run(es);
            && (FindAddr(h, a) == Some((id, (user, pc))) <==>
                IsLive(h, id, user) && SessionAt(h, id, user, pc).address == Some(a))
            && (FindUfrag(h, f) == Some((id, (user, pc))) <==>
                IsLive(h, id, user) && SessionAt(h, id, user, pc).ufrag == f)
  {
    AlwaysSound(es);
    AlwaysExact(es);
    ScanAgrees(Run(es), f, a, id, user, pc);
  }
}
