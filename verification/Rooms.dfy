/** Rooms as the program keeps them: shared participant objects behind three indices. */
module Rooms {
  import opened Words
  import opened HubModel

  datatype Result<+T> = Ok(value: T) | Err(error: LightError)

  class Participant {
    const userId: string
    const roomId: string
    const publishUfrag: string
    const subscribeUfrag: string
    var publishAddress: Option<SocketAddr>
    var subscribeAddress: Option<SocketAddr>
    var lastSeen: nat

    ghost function View(): Person
      reads this
    {
      Person(MediaSession(publishUfrag, publishAddress), MediaSession(subscribeUfrag, subscribeAddress), lastSeen)
    }

    constructor (user: string, room: string, pubUfrag: string, subUfrag: string, joinedAt: nat)
      ensures userId == user && roomId == room && View() == NewPerson(pubUfrag, subUfrag, joinedAt)
    {
      userId, roomId, publishUfrag, subscribeUfrag := user, room, pubUfrag, subUfrag;
      publishAddress, subscribeAddress, lastSeen := None, None, joinedAt;
    }

    function Address(pc: PcType): Option<SocketAddr>
      reads this
    {
      match pc
      case Publish => publishAddress
      case Subscribe => subscribeAddress
    }

    method LatchAddress(pc: PcType, addr: SocketAddr)
      modifies this
      ensures View() == old(View()).Moved(pc, addr)
    {
      match pc {
        case Publish => publishAddress := Some(addr);
        case Subscribe => subscribeAddress := Some(addr);
      }
    }

    method Touch(now: nat)
      modifies this
      ensures View() == old(View()).(lastSeen := now)
    {
      lastSeen := now;
    }
  }

  type People = map<string, Participant>

  type Entry = (Participant, PcType)

  ghost predicate Lives(ps: People, p: Participant) { p.userId in ps && ps[p.userId] == p }

  /** Everyone is filed under their own name, in their own room. */
  ghost predicate Named(ps: People, room: string)
  {
    forall u :: u in ps ==> ps[u].userId == u && ps[u].roomId == room
  }

  /** Index entries hold the very objects that are in the room. */
  ghost predicate Alive<K>(ps: People, index: map<K, Entry>)
  {
    forall k :: k in index ==> Lives(ps, index[k].0)
  }

  ghost function Names<K>(index: map<K, Entry>): map<K, Name>
  {
    map k | k in index :: (index[k].0.userId, index[k].1)
  }

  ghost function Persons(ps: People): map<string, Person>
    reads ps.Values
  {
    map u | u in ps :: ps[u].View()
  }

  lemma NamesWithout<K>(index: map<K, Entry>, keys: set<K>)
    ensures Names(index - keys) == Names(index) - keys
  {
  }

  lemma NamesWith<K>(index: map<K, Entry>, k: K, e: Entry)
    ensures Names(index[k := e]) == Names(index)[k := (e.0.userId, e.1)]
  {
  }

  lemma PersonsKeys(ps: People)
    ensures Persons(ps).Keys == ps.Keys && |Persons(ps)| == |ps|
  {
  }

  lemma PersonsWith(ps: People, p: Participant)
    ensures Persons(ps[p.userId := p]) == Persons(ps)[p.userId := p.View()]
  {
  }

  lemma PersonsWithout(ps: People, user: string)
    ensures Persons(ps - {user}) == Persons(ps) - {user}
  {
  }

  lemma Enlisted(ps: People, byUfrag: map<string, Entry>, byAddr: map<SocketAddr, Entry>, p: Participant)
    requires Alive(ps, byUfrag) && Alive(ps, byAddr) && p.userId !in ps
    ensures var ps' := ps[p.userId := p];
            var byUfrag' := byUfrag[p.publishUfrag := (p, Publish)][p.subscribeUfrag := (p, Subscribe)];
            && Alive(ps', byUfrag') && Alive(ps', byAddr) && Persons(ps') == Persons(ps)[p.userId := p.View()]
            && Names(byUfrag') ==
               Names(byUfrag)[p.publishUfrag := (p.userId, Publish)][p.subscribeUfrag := (p.userId, Subscribe)]
  {
    PersonsWith(ps, p);
    NamesWith(byUfrag, p.publishUfrag, (p, Publish));
    NamesWith(byUfrag[p.publishUfrag := (p, Publish)], p.subscribeUfrag, (p, Subscribe));
  }

  lemma Unlisted(ps: People, byUfrag: map<string, Entry>, byAddr: map<SocketAddr, Entry>, p: Participant)
    requires Alive(ps, byUfrag) && Alive(ps, byAddr) && Lives(ps, p)
    requires RoomSound(HubModel.Room(0, Persons(ps), Names(byUfrag), Names(byAddr)))
    ensures var ps', byUfrag', byAddr' := ps - {p.userId}, byUfrag - p.View().Ufrags(), byAddr - p.View().Addresses();
            && Alive(ps', byUfrag') && Alive(ps', byAddr') && Persons(ps') == Persons(ps) - {p.userId}
            && Names(byUfrag') == Names(byUfrag) - p.View().Ufrags()
               && Names(byAddr') == Names(byAddr) - p.View().Addresses()
  {
    PersonsWithout(ps, p.userId);
    NamesWithout(byUfrag, p.View().Ufrags());
    NamesWithout(byAddr, p.View().Addresses());
    var r := HubModel.Room(0, Persons(ps), Names(byUfrag), Names(byAddr));
    WithoutIsSound(r, p.userId);
    forall f | f in byUfrag - p.View().Ufrags() ensures byUfrag[f].0.userId != p.userId {
      assert SaysUfrag(Without(r, p.userId), Names(byUfrag)[f], f);
    }
    forall a | a in byAddr - p.View().Addresses() ensures byAddr[a].0.userId != p.userId {
      assert SaysAddr(Without(r, p.userId), Names(byAddr)[a], a);
    }
  }

  lemma OneMoved(ps: People, p: Participant, before: map<string, Person>)
    requires Lives(ps, p) && before.Keys == ps.Keys
    requires forall u :: u in ps && u != p.userId ==> ps[u].View() == before[u]
    ensures Persons(ps) == before[p.userId := p.View()]
  {
  }

  lemma Reindexed(ps: People, before: map<SocketAddr, Entry>, after: map<SocketAddr, Entry>,
                  was: Option<SocketAddr>, a: SocketAddr, e: Entry)
    requires Alive(ps, before) && Lives(ps, e.0)
    requires after == (if was.Some? && was.value != a then before - {was.value} else before)[a := e]
    ensures Alive(ps, after) && Names(after) == (Names(before) - Only(was))[a := (e.0.userId, e.1)]
  {
  }

  class Room {
    const id: string
    const capacity: nat
    var participants: People
    var byUfrag: map<string, Entry>
    var byAddr: map<SocketAddr, Entry>

    ghost function View(): HubModel.Room
      reads this, participants.Values
    {
      HubModel.Room(capacity, Persons(participants), Names(byUfrag), Names(byAddr))
    }

    /** The objects behind the indices are the room's own, and every entry says the truth. */
    ghost predicate Valid()
      reads this, participants.Values
    {
      && Named(participants, id) && Alive(participants, byUfrag) && Alive(participants, byAddr)
      && RoomSound(View())
    }

    constructor (roomId: string, requested: Option<nat>)
      ensures Valid() && id == roomId && View() == HubModel.Room(Capacity(requested), map[], map[], map[])
      ensures participants == map[]
    {
      id, capacity := roomId, Capacity(requested);
      participants, byUfrag, byAddr := map[], map[], map[];
    }

    method Enlist(p: Participant)
      requires Valid() && p.roomId == id && p.userId !in participants
      modifies this
      ensures Valid() && participants == old(participants)[p.userId := p]
      ensures View() == With(old(View()), p.userId, p.View())
    {
      WithIsSound(View(), p.userId, p.View());
      Enlisted(participants, byUfrag, byAddr, p);
      byUfrag := byUfrag[p.publishUfrag := (p, Publish)][p.subscribeUfrag := (p, Subscribe)];
      participants := participants[p.userId := p];
    }

    method AddParticipant(p: Participant) returns (r: Result<()>)
      requires Valid() && p.roomId == id
      modifies this
      ensures Valid()
      ensures match Refusal(old(View()), p.userId)
              case Some(e) => r == Err(e) && unchanged(this)
              case None =>
                && r == Ok(()) && View() == With(old(View()), p.userId, p.View())
                && participants == old(participants)[p.userId := p]
    {
      PersonsKeys(participants);
      if |participants| >= capacity {
        return Err(RoomFull);
      }
      if p.userId in participants {
        return Err(AlreadyInRoom);
      }
      Enlist(p);
      r := Ok(());
    }

    method DropAddresses(p: Participant)
      modifies this`byAddr
      ensures byAddr == old(byAddr) - p.View().Addresses()
    {
      if p.publishAddress.Some? {
        byAddr := byAddr - {p.publishAddress.value};
      }
      if p.subscribeAddress.Some? {
        byAddr := byAddr - {p.subscribeAddress.value};
      }
    }

    method Unlist(p: Participant)
      requires Valid() && Lives(participants, p)
      modifies this
      ensures Valid() && participants == old(participants) - {p.userId}
      ensures View() == Without(old(View()), p.userId)
    {
      WithoutIsSound(View(), p.userId);
      Unlisted(participants, byUfrag, byAddr, p);
      participants := participants - {p.userId};
      byUfrag := byUfrag - {p.publishUfrag, p.subscribeUfrag};
      DropAddresses(p);
    }

    method RemoveParticipant(user: string) returns (r: Result<Participant>)
      requires Valid()
      modifies this
      ensures Valid() && View() == Without(old(View()), user) && participants == old(participants) - {user}
      ensures r == if user in old(participants) then Ok(old(participants)[user]) else Err(NotInRoom)
    {
      if user !in participants {
        return Err(NotInRoom);
      }
      var p := participants[user];
      Unlist(p);
      r := Ok(p);
    }

    /** Gives a session the address, dropping the entry of the one it had before. */
    method Move(p: Participant, pc: PcType, addr: SocketAddr)
      requires Valid() && Lives(participants, p)
      modifies this`byAddr, p
      ensures Valid()
      ensures View() == Latched(old(View()), p.userId, pc, addr)
    {
      LatchedIsSound(View(), p.userId, pc, addr);
      var before := p.Address(pc);
      ghost var was, entries := Persons(participants), byAddr;
      if before.Some? && before.value != addr {
        byAddr := byAddr - {before.value};
      }
      p.LatchAddress(pc, addr);
      byAddr := byAddr[addr := (p, pc)];
      OneMoved(participants, p, was);
      Reindexed(participants, entries, byAddr, before, addr, (p, pc));
    }

    method Latch(ufrag: string, addr: SocketAddr) returns (r: Option<Entry>)
      requires Valid()
      modifies this`byAddr, if ufrag in byUfrag then {byUfrag[ufrag].0} else {}
      ensures Valid()
      ensures r == if ufrag in byUfrag then Some(byUfrag[ufrag]) else None
      ensures match r
              case Some((p, pc)) => Lives(participants, p) && View() == Latched(old(View()), p.userId, pc, addr)
              case None => View() == old(View())
    {
      if ufrag !in byUfrag {
        return None;
      }
      var (p, pc) := byUfrag[ufrag];
      Move(p, pc, addr);
      r := Some((p, pc));
    }
  }
}
