/**
 Rooms and the hub as values: who is in which room, and the indices that find a session by
 ufrag or by address in constant time.
 */
module HubModel {
  import opened Words

  datatype PcType = Publish | Subscribe

  datatype MediaSession = MediaSession(ufrag: string, address: Option<SocketAddr>)

  datatype Person = Person(publish: MediaSession, subscribe: MediaSession, lastSeen: nat)
  {
    function Session(pc: PcType): MediaSession
    {
      match pc
      case Publish => publish
      case Subscribe => subscribe
    }

    function Moved(pc: PcType, a: SocketAddr): (p: Person)
      ensures p.Session(pc) == Session(pc).(address := Some(a))
      ensures forall other :: other != pc ==> p.Session(other) == Session(other)
    {
      match pc
      case Publish => this.(publish := publish.(address := Some(a)))
      case Subscribe => this.(subscribe := subscribe.(address := Some(a)))
    }

    function Ufrags(): set<string> { {publish.ufrag, subscribe.ufrag} }

    function Addresses(): set<SocketAddr> { Only(publish.address) + Only(subscribe.address) }
  }

  function Only(a: Option<SocketAddr>): set<SocketAddr> { if a.Some? then {a.value} else {} }

  /** A session of a room, by its owner's name. */
  type Name = (string, PcType)

  datatype Room = Room(capacity: nat, people: map<string, Person>, byUfrag: map<string, Name>,
                       byAddr: map<SocketAddr, Name>)

  datatype Hub = Hub(rooms: map<string, Room>, ufragIndex: map<string, string>, addrIndex: map<SocketAddr, string>)

  datatype LightError = RoomFull | AlreadyInRoom | NotInRoom | RoomNotFound

  // --- rooms ---

  const ROOM_DEFAULT_CAPACITY := 1000
  const ROOM_MAX_CAPACITY := 1000

  function Capacity(requested: Option<nat>): nat
  {
    var c := if requested.Some? then requested.value else ROOM_DEFAULT_CAPACITY;
    if c <= ROOM_MAX_CAPACITY then c else ROOM_MAX_CAPACITY
  }

  function Refusal(r: Room, user: string): Option<LightError>
  {
    if |r.people| >= r.capacity then Some(RoomFull)
    else if user in r.people then Some(AlreadyInRoom)
    else None
  }

  function With(r: Room, user: string, p: Person): Room
  {
    r.(people := r.people[user := p],
       byUfrag := r.byUfrag[p.publish.ufrag := (user, Publish)][p.subscribe.ufrag := (user, Subscribe)])
  }

  function Without(r: Room, user: string): Room
  {
    if user !in r.people then r
    else
      var p := r.people[user];
      r.(people := r.people - {user}, byUfrag := r.byUfrag - p.Ufrags(), byAddr := r.byAddr - p.Addresses())
  }

  function Latched(r: Room, user: string, pc: PcType, a: SocketAddr): Room
    requires user in r.people
  {
    var p := r.people[user];
    r.(people := r.people[user := p.Moved(pc, a)],
       byAddr := (r.byAddr - Only(p.Session(pc).address))[a := (user, pc)])
  }

  // --- the hub ---

  datatype Event =
    | Create(id: string, requested: Option<nat>)
    | Close(id: string)
    | Join(id: string, user: string, publishUfrag: string, subscribeUfrag: string, now: nat)
    | Leave(id: string, user: string)
    | Bind(ufrag: string, addr: SocketAddr)
    | Touch(id: string, user: string, now: nat)

  function NewPerson(publishUfrag: string, subscribeUfrag: string, now: nat): Person
  {
    Person(MediaSession(publishUfrag, None), MediaSession(subscribeUfrag, None), now)
  }

  /** Where the two steps of a lookup by ufrag lead: a room, and an entry in it. */
  function FindUfrag(h: Hub, f: string): Option<(string, Name)>
  {
    if f in h.ufragIndex && h.ufragIndex[f] in h.rooms && f in h.rooms[h.ufragIndex[f]].byUfrag
    then Some((h.ufragIndex[f], h.rooms[h.ufragIndex[f]].byUfrag[f]))
    else None
  }

  function FindAddr(h: Hub, a: SocketAddr): Option<(string, Name)>
  {
    if a in h.addrIndex && h.addrIndex[a] in h.rooms && a in h.rooms[h.addrIndex[a]].byAddr
    then Some((h.addrIndex[a], h.rooms[h.addrIndex[a]].byAddr[a]))
    else None
  }

  function AllUfrags(people: map<string, Person>): set<string>
  {
    set u, f | u in people && f in people[u].Ufrags() :: f
  }

  function AllAddresses(people: map<string, Person>): set<SocketAddr>
  {
    set u, a | u in people && a in people[u].Addresses() :: a
  }

  function Joined(h: Hub, id: string, user: string, p: Person): Hub
  {
    if id !in h.rooms || Refusal(h.rooms[id], user).Some? then h
    else
      h.(rooms := h.rooms[id := With(h.rooms[id], user, p)],
         ufragIndex := h.ufragIndex[p.publish.ufrag := id][p.subscribe.ufrag := id])
  }

  function Left(h: Hub, id: string, user: string): Hub
  {
    if id !in h.rooms || user !in h.rooms[id].people then h
    else
      var p := h.rooms[id].people[user];
      Hub(h.rooms[id := Without(h.rooms[id], user)], h.ufragIndex - p.Ufrags(), h.addrIndex - p.Addresses())
  }

  function Closed(h: Hub, id: string): Hub
  {
    if id !in h.rooms then h
    else
      var people := h.rooms[id].people;
      Hub(h.rooms - {id}, h.ufragIndex - AllUfrags(people), h.addrIndex - AllAddresses(people))
  }

  function Bound(h: Hub, f: string, a: SocketAddr): Hub
  {
    match FindUfrag(h, f)
    case None => h
    case Some((id, (user, pc))) =>
      if user in h.rooms[id].people then
        h.(rooms := h.rooms[id := Latched(h.rooms[id], user, pc, a)], addrIndex := h.addrIndex[a := id])
      else h
  }

  function Touched(h: Hub, id: string, user: string, now: nat): Hub
  {
    if id in h.rooms && user in h.rooms[id].people then
      var r := h.rooms[id];
      h.(rooms := h.rooms[id := r.(people := r.people[user := r.people[user].(lastSeen := now)])])
    else h
  }

  function Step(h: Hub, e: Event): Hub
  {
    match e
    case Create(id, requested) =>
      if id in h.rooms then h else h.(rooms := h.rooms[id := Room(Capacity(requested), map[], map[], map[])])
    case Close(id) => Closed(h, id)
    case Join(id, user, pub, sub, now) => Joined(h, id, user, NewPerson(pub, sub, now))
    case Leave(id, user) => Left(h, id, user)
    case Bind(f, a) => Bound(h, f, a)
    case Touch(id, user, now) => Touched(h, id, user, now)
  }

  function Run(es: seq<Event>): Hub
  {
    if es == [] then Hub(map[], map[], map[]) else Step(Run(es[..|es| - 1]), es[|es| - 1])
  }

  // --- what an entry says is true, whatever collides ---

  predicate SaysUfrag(r: Room, n: Name, f: string) { n.0 in r.people && r.people[n.0].Session(n.1).ufrag == f }

  predicate SaysAddr(r: Room, n: Name, a: SocketAddr)
  {
    n.0 in r.people && r.people[n.0].Session(n.1).address == Some(a)
  }

  /** Every entry of a room's indices names a member whose session really has that ufrag or address. */
  ghost predicate RoomSound(r: Room)
  {
    && (forall f :: f in r.byUfrag ==> SaysUfrag(r, r.byUfrag[f], f))
    && (forall a :: a in r.byAddr ==> SaysAddr(r, r.byAddr[a], a))
  }

  ghost predicate Sound(h: Hub)
  {
    forall id :: id in h.rooms ==> RoomSound(h.rooms[id])
  }

  lemma SessionParts(p: Person, pc: PcType)
    ensures p.Session(pc).ufrag in p.Ufrags()
    ensures Only(p.Session(pc).address) <= p.Addresses()
  {
  }

  lemma WithIsSound(r: Room, user: string, p: Person)
    requires RoomSound(r) && user !in r.people
    ensures RoomSound(With(r, user, p))
  {
  }

  lemma WithoutIsSound(r: Room, user: string)
    requires RoomSound(r)
    ensures RoomSound(Without(r, user))
  {
    if user in r.people {
      SessionParts(r.people[user], Publish);
      SessionParts(r.people[user], Subscribe);
    }
  }

  lemma LatchedIsSound(r: Room, user: string, pc: PcType, a: SocketAddr)
    requires RoomSound(r) && user in r.people
    ensures RoomSound(Latched(r, user, pc, a))
  {
  }

  lemma JoinIsSound(h: Hub, id: string, user: string, p: Person)
    requires Sound(h)
    ensures Sound(Joined(h, id, user, p))
  {
    if id in h.rooms && Refusal(h.rooms[id], user).None? {
      WithIsSound(h.rooms[id], user, p);
    }
  }

  lemma LeaveIsSound(h: Hub, id: string, user: string)
    requires Sound(h)
    ensures Sound(Left(h, id, user))
  {
    if id in h.rooms {
      WithoutIsSound(h.rooms[id], user);
    }
  }

  lemma BindIsSound(h: Hub, f: string, a: SocketAddr)
    requires Sound(h)
    ensures Sound(Bound(h, f, a))
  {
    if FindUfrag(h, f).Some? {
      var (id, (user, pc)) := FindUfrag(h, f).value;
      LatchedIsSound(h.rooms[id], user, pc, a);
    }
  }

  lemma TouchIsSound(h: Hub, id: string, user: string, now: nat)
    requires Sound(h)
    ensures Sound(Touched(h, id, user, now))
  {
  }

  lemma StepIsSound(h: Hub, e: Event)
    requires Sound(h)
    ensures Sound(Step(h, e))
  {
    match e {
      case Join(id, user, pub, sub, now) => JoinIsSound(h, id, user, NewPerson(pub, sub, now));
      case Leave(id, user) => LeaveIsSound(h, id, user);
      case Bind(f, a) => BindIsSound(h, f, a);
      case Touch(id, user, now) => TouchIsSound(h, id, user, now);
      case _ =>
    }
  }

  lemma {:induction false} AlwaysSound(es: seq<Event>)
    ensures Sound(Run(es))
  {
    if es != [] {
      AlwaysSound(es[..|es| - 1]);
      StepIsSound(Run(es[..|es| - 1]), es[|es| - 1]);
    }
  }

  /** In every reachable state whatever a lookup finds is live and has what was asked for. */
  lemma {:induction false} FoundIsLive(es: seq<Event>, f: string, a: SocketAddr)
    ensures var h := Run(es);
            && (FindUfrag(h, f).Some? ==> SaysUfrag(h.rooms[FindUfrag(h, f).value.0], FindUfrag(h, f).value.1, f))
            && (FindAddr(h, a).Some? ==> SaysAddr(h.rooms[FindAddr(h, a).value.0], FindAddr(h, a).value.1, a))
  {
    AlwaysSound(es);
  }

  /** After someone left a room no index of that room names them. */
  lemma {:induction false} LeftIsGone(es: seq<Event>, id: string, user: string)
    ensures var h := Step(Run(es), Leave(id, user));
            id in h.rooms ==>
              && user !in h.rooms[id].people
              && (forall f :: f in h.rooms[id].byUfrag ==> h.rooms[id].byUfrag[f].0 != user)
              && (forall a :: a in h.rooms[id].byAddr ==> h.rooms[id].byAddr[a].0 != user)
  {
    AlwaysSound(es);
    StepIsSound(Run(es), Leave(id, user));
  }

  /** Leaving and closing also clear the hub's own indices of those who went. */
  lemma GoneFromHub(h: Hub, id: string, user: string, f: string, a: SocketAddr)
    requires id in h.rooms && user in h.rooms[id].people
    requires f in h.rooms[id].people[user].Ufrags() && a in h.rooms[id].people[user].Addresses()
    ensures f !in Step(h, Leave(id, user)).ufragIndex && a !in Step(h, Leave(id, user)).addrIndex
    ensures id !in Step(h, Close(id)).rooms
    ensures f !in Step(h, Close(id)).ufragIndex && a !in Step(h, Close(id)).addrIndex
  {
    var people := h.rooms[id].people;
    assert f in AllUfrags(people) && a in AllAddresses(people);
  }

  // --- how many, and since when ---

  /** Nobody is let into a full room, and no room is for more than a thousand. */
  ghost predicate WithinCapacity(h: Hub)
  {
    forall id :: id in h.rooms ==> |h.rooms[id].people| <= h.rooms[id].capacity <= 1000
  }

  lemma FewerPeople(people: map<string, Person>, user: string)
    ensures |people - {user}| <= |people|
  {
    assert (people - {user}).Keys == people.Keys - {user};
    assert |people - {user}| == |(people - {user}).Keys| && |people| == |people.Keys|;
  }

  lemma JoinKeepsCapacity(h: Hub, id: string, user: string, p: Person)
    requires WithinCapacity(h)
    ensures WithinCapacity(Joined(h, id, user, p))
  {
  }

  lemma LeaveKeepsCapacity(h: Hub, id: string, user: string)
    requires WithinCapacity(h)
    ensures WithinCapacity(Left(h, id, user))
  {
    if id in h.rooms {
      FewerPeople(h.rooms[id].people, user);
    }
  }

  lemma BindKeepsCapacity(h: Hub, f: string, a: SocketAddr)
    requires WithinCapacity(h)
    ensures WithinCapacity(Bound(h, f, a))
  {
  }

  lemma TouchKeepsCapacity(h: Hub, id: string, user: string, now: nat)
    requires WithinCapacity(h)
    ensures WithinCapacity(Touched(h, id, user, now))
  {
  }

  lemma StepKeepsCapacity(h: Hub, e: Event)
    requires WithinCapacity(h)
    ensures WithinCapacity(Step(h, e))
  {
    match e {
      case Join(id, user, pub, sub, now) => JoinKeepsCapacity(h, id, user, NewPerson(pub, sub, now));
      case Leave(id, user) => LeaveKeepsCapacity(h, id, user);
      case Bind(f, a) => BindKeepsCapacity(h, f, a);
      case Touch(id, user, now) => TouchKeepsCapacity(h, id, user, now);
      case _ =>
    }
  }

  lemma {:induction false} AlwaysWithinCapacity(es: seq<Event>)
    ensures WithinCapacity(Run(es))
  {
    if es != [] {
      AlwaysWithinCapacity(es[..|es| - 1]);
      StepKeepsCapacity(Run(es[..|es| - 1]), es[|es| - 1]);
    }
  }

  lemma CapacityStep(h: Hub, e: Event, id: string)
    requires id in Step(h, e).rooms
    ensures if id in h.rooms then Step(h, e).rooms[id].capacity == h.rooms[id].capacity
            else e.Create? && e.id == id &&
                 Step(h, e).rooms[id].capacity ==
                 if e.requested.Some? && e.requested.value < 1000 then e.requested.value else 1000
  {
  }

  /** A room's capacity is what its creation asked for, and 1000 where that is more or nothing. */
  lemma {:induction false} CapacityAsked(es: seq<Event>, id: string) returns (k: nat)
    requires id in Run(es).rooms
    ensures k < |es| && es[k].Create? && es[k].id == id
    ensures var asked := es[k].requested;
            Run(es).rooms[id].capacity == if asked.Some? && asked.value < 1000 then asked.value else 1000
  {
    var before := es[..|es| - 1];
    CapacityStep(Run(before), es[|es| - 1], id);
    if id in Run(before).rooms {
      k := CapacityAsked(before, id);
    } else {
      k := |before|;
    }
  }

  /** The person was last heard of at event `k`: joining, or a sign of life since. */
  ghost predicate HeardAt(e: Event, id: string, user: string, at: nat)
  {
    || (e.Join? && e.id == id && e.user == user && e.now == at)
    || e == Touch(id, user, at)
  }

  lemma {:induction false} LastHeard(es: seq<Event>, id: string, user: string) returns (k: nat)
    requires id in Run(es).rooms && user in Run(es).rooms[id].people
    ensures k < |es| && HeardAt(es[k], id, user, Run(es).rooms[id].people[user].lastSeen)
    ensures forall j, at :: k < j < |es| ==> es[j] != Touch(id, user, at)
  {
    var before, e := es[..|es| - 1], es[|es| - 1];
    var h := Run(before);
    LastSeenStep(h, e, id, user);
    if id in h.rooms && user in h.rooms[id].people && !(e.Touch? && e.id == id && e.user == user) {
      k := LastHeard(before, id, user);
      assert forall j :: 0 <= j < |before| ==> before[j] == es[j];
    } else {
      k := |before|;
    }
  }

  lemma LastSeenStep(h: Hub, e: Event, id: string, user: string)
    requires id in Step(h, e).rooms && user in Step(h, e).rooms[id].people
    ensures var seen := Step(h, e).rooms[id].people[user].lastSeen;
            if id in h.rooms && user in h.rooms[id].people then
              if e.Touch? && e.id == id && e.user == user then seen == e.now
              else seen == h.rooms[id].people[user].lastSeen
            else e.Join? && HeardAt(e, id, user, seen)
  {
  }

  /** Somebody accepted is found by either ufrag, each for its own session. */
  lemma JoinFinds(h: Hub, id: string, user: string, pub: string, sub: string, now: nat)
    requires id in h.rooms && |h.rooms[id].people| < h.rooms[id].capacity && user !in h.rooms[id].people && pub != sub
    ensures var h' := Step(h, Join(id, user, pub, sub, now));
            && FindUfrag(h', pub) == Some((id, (user, Publish))) && FindUfrag(h', sub) == Some((id, (user, Subscribe)))
            && h'.rooms[id].people.Keys == h.rooms[id].people.Keys + {user}
            && h'.rooms[id].people[user].Addresses() == {}
  {
  }

  /** Nobody else is: a full room is refused first, then a name already there. */
  lemma JoinRefused(h: Hub, id: string, user: string, pub: string, sub: string, now: nat)
    requires id in h.rooms ==> |h.rooms[id].people| >= h.rooms[id].capacity || user in h.rooms[id].people
    ensures Step(h, Join(id, user, pub, sub, now)) == h
    ensures id in h.rooms ==>
              Refusal(h.rooms[id], user) ==
              Some(if |h.rooms[id].people| >= h.rooms[id].capacity then RoomFull else AlreadyInRoom)
  {
  }
}
