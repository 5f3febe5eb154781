/** The hub as the program keeps it: three maps updated in step. */
module RoomHub {
  import opened Words
  import opened HubModel
  import opened HubExact
  import opened HubReap

  class RoomHub {
    var rooms: map<string, Room>
    var ufragIndex: map<string, string>
    var addrIndex: map<SocketAddr, string>

    ghost function View(): Hub
      reads this
    {
      Hub(rooms, ufragIndex, addrIndex)
    }

    /** Whatever collides, every entry of every room says the truth. */
    ghost predicate Valid()
      reads this
    {
      Sound(View())
    }

    constructor ()
      ensures Valid() && View() == Run([])
    {
      rooms, ufragIndex, addrIndex := map[], map[], map[];
    }

    /** The id is a fresh one. */
    method Create(id: string, requested: Option<nat>)
      requires Valid() && id !in rooms
      modifies this
      ensures Valid() && View() == Step(old(View()), HubModel.Create(id, requested))
    {
      rooms := rooms[id := Room(Capacity(requested), map[], map[], map[])];
    }

    method AddParticipant(roomId: string, user: string, publishUfrag: string, subscribeUfrag: string, now: nat)
      returns (error: Option<LightError>)
      requires Valid()
      modifies this
      ensures Valid() && View() == Step(old(View()), Join(roomId, user, publishUfrag, subscribeUfrag, now))
      ensures error == if roomId !in old(rooms) then Some(RoomNotFound) else Refusal(old(rooms)[roomId], user)
    {
      StepIsSound(View(), Join(roomId, user, publishUfrag, subscribeUfrag, now));
      if roomId !in rooms {
        return Some(RoomNotFound);
      }
      var room := rooms[roomId];
      error := Refusal(room, user);
      if error.None? {
        rooms := rooms[roomId := With(room, user, NewPerson(publishUfrag, subscribeUfrag, now))];
        ufragIndex := ufragIndex[publishUfrag := roomId];
        ufragIndex := ufragIndex[subscribeUfrag := roomId];
      }
    }

    /** Drops what leads to a participant from the reverse indices. */
    method DropIndices(p: Person)
      modifies this`ufragIndex, this`addrIndex
      ensures ufragIndex == old(ufragIndex) - p.Ufrags() && addrIndex == old(addrIndex) - p.Addresses()
    {
      ufragIndex := ufragIndex - {p.publish.ufrag};
      ufragIndex := ufragIndex - {p.subscribe.ufrag};
      if p.publish.address.Some? {
        addrIndex := addrIndex - {p.publish.address.value};
      }
      if p.subscribe.address.Some? {
        addrIndex := addrIndex - {p.subscribe.address.value};
      }
    }

    method RemoveParticipant(roomId: string, user: string) returns (error: Option<LightError>)
      requires Valid()
      modifies this
      ensures Valid() && View() == Step(old(View()), Leave(roomId, user))
      ensures error == if roomId !in old(rooms) then Some(RoomNotFound)
                       else if user !in old(rooms)[roomId].people then Some(NotInRoom) else None
    {
      StepIsSound(View(), Leave(roomId, user));
      if roomId !in rooms {
        return Some(RoomNotFound);
      }
      var room := rooms[roomId];
      if user !in room.people {
        return Some(NotInRoom);
      }
      rooms := rooms[roomId := Without(room, user)];
      DropIndices(room.people[user]);
      error := None;
    }

    /** Takes the room out, then clears the reverse indices participant by participant. */
    method RemoveRoom(roomId: string) returns (error: Option<LightError>)
      requires Valid()
      modifies this
      ensures Valid() && View() == Step(old(View()), Close(roomId))
      ensures error == if roomId in old(rooms) then None else Some(RoomNotFound)
    {
      if roomId !in rooms {
        return Some(RoomNotFound);
      }
      var people := rooms[roomId].people;
      rooms := rooms - {roomId};
      DropAll(people);
      error := None;
      StepIsSound(old(View()), Close(roomId));
    }

    method DropAll(people: map<string, Person>)
      modifies this`ufragIndex, this`addrIndex
      ensures ufragIndex == old(ufragIndex) - AllUfrags(people) && addrIndex == old(addrIndex) - AllAddresses(people)
    {
      var left := people.Keys;
      while left != {}
        invariant left <= people.Keys
        invariant ufragIndex == old(ufragIndex) - AllUfrags(people - left)
        invariant addrIndex == old(addrIndex) - AllAddresses(people - left)
      {
        var u :| u in left;
        DropIndices(people[u]);
        OneMore(people, left, u);
        left := left - {u};
      }
      assert people - left == people;
    }

    method LatchByUfrag(f: string, a: SocketAddr) returns (found: Option<(string, Name)>)
      requires Valid()
      modifies this
      ensures Valid() && View() == Step(old(View()), Bind(f, a)) && found == FindUfrag(old(View()), f)
    {
      StepIsSound(View(), Bind(f, a));
      found := FindByUfrag(f);
      if found.Some? {
        var (roomId, (user, pc)) := found.value;
        rooms := rooms[roomId := Latched(rooms[roomId], user, pc, a)];
        addrIndex := addrIndex[a := roomId];
      }
    }

    method FindByUfrag(f: string) returns (found: Option<(string, Name)>)
      requires Valid()
      ensures found == FindUfrag(View(), f)
      ensures found.Some? ==> IsLive(View(), found.value.0, found.value.1.0)
      ensures UfragsExact(View()) ==>
                forall id, user, pc :: found == Some((id, (user, pc))) <==>
                                          IsLive(View(), id, user) && SessionAt(View(), id, user, pc).ufrag == f
    {
      if UfragsExact(View()) {
        forall id, user, pc ensures FindUfrag(View(), f) == Some((id, (user, pc))) <==>
                                    IsLive(View(), id, user) && SessionAt(View(), id, user, pc).ufrag == f
        {
          assert IsLive(View(), id, user) ==> UfragFiled(View(), id, user, pc);
        }
      }
      if f !in ufragIndex || ufragIndex[f] !in rooms {
        return None;
      }
      var roomId := ufragIndex[f];
      found := if f in rooms[roomId].byUfrag then Some((roomId, rooms[roomId].byUfrag[f])) else None;
    }

    method FindByAddr(a: SocketAddr) returns (found: Option<(string, Name)>)
      requires Valid()
      ensures found == FindAddr(View(), a)
      ensures found.Some? ==> IsLive(View(), found.value.0, found.value.1.0)
      ensures AddrsExact(View()) ==>
                forall id, user, pc :: found == Some((id, (user, pc))) <==>
                                          IsLive(View(), id, user) && SessionAt(View(), id, user, pc).address == Some(a)
    {
      if AddrsExact(View()) {
        forall id, user, pc ensures FindAddr(View(), a) == Some((id, (user, pc))) <==>
                                    IsLive(View(), id, user) && SessionAt(View(), id, user, pc).address == Some(a)
        {
          assert IsLive(View(), id, user) ==> AddrFiled(View(), id, user, pc);
        }
      }
      if a !in addrIndex || addrIndex[a] !in rooms {
        return None;
      }
      var roomId := addrIndex[a];
      found := if a in rooms[roomId].byAddr then Some((roomId, rooms[roomId].byAddr[a])) else None;
    }

    /** One more of a list of departures. */
    method ReapOne(roomId: string, u: string, ghost h: Hub, ghost gone: seq<(string, string)>)
      requires Valid() && View() == LeaveAll(h, gone)
      modifies this
      ensures Valid() && View() == LeaveAll(h, gone + [(roomId, u)])
    {
      var error := RemoveParticipant(roomId, u);
      assert (gone + [(roomId, u)])[..|gone|] == gone;
    }

    /** Removes the zombies of one room, in any order. */
    method ReapRoom(roomId: string, now: nat, timeout: nat) returns (gone: seq<(string, string)>)
      requires Valid() && roomId in rooms
      modifies this
      ensures ZombiesIn(old(View()), {roomId}, now, timeout, gone)
      ensures Valid() && View() == LeaveAll(old(View()), gone)
    {
      ghost var h := View();
      var people := rooms[roomId].people;
      var zombies := set u | u in people && Zombie(people[u], now, timeout);
      var left := zombies;
      gone := [];
      while left != {}
        invariant left <= zombies
        invariant Valid() && View() == LeaveAll(h, gone)
        invariant Listed(gone, roomId, zombies - left)
      {
        var u :| u in left;
        ReapOne(roomId, u, h, gone);
        ListOneMore(gone, roomId, zombies - left, u);
        assert zombies - left + {u} == zombies - (left - {u});
        gone := gone + [(roomId, u)];
        left := left - {u};
      }
      assert zombies - left == zombies;
    }

    /** Goes through all rooms that were there at the start. */
    method ReapZombies(now: nat, timeout: nat) returns (gone: seq<(string, string)>)
      requires Valid()
      modifies this
      ensures ZombiesIn(old(View()), old(rooms).Keys, now, timeout, gone)
      ensures Valid() && View() == LeaveAll(old(View()), gone)
    {
      gone := [];
      ghost var done: set<string> := {};
      var left := rooms.Keys;
      while left != {}
        invariant left + done == old(rooms).Keys && left !! done && rooms.Keys == old(rooms).Keys
        invariant ZombiesIn(old(View()), done, now, timeout, gone)
        invariant Valid() && View() == LeaveAll(old(View()), gone)
        decreases left
      {
        var roomId :| roomId in left;
        ghost var before := View();
        var more := ReapRoom(roomId, now, timeout);
        SweepOneMore(old(View()), done, roomId, now, timeout, gone, more);
        LeaveAllPeople(before, more);
        gone := gone + more;
        left := left - {roomId};
        done := done + {roomId};
      }
    }
  }

  lemma OneMore(people: map<string, Person>, left: set<string>, u: string)
    requires u in left && left <= people.Keys
    ensures AllUfrags(people - (left - {u})) == AllUfrags(people - left) + people[u].Ufrags()
    ensures AllAddresses(people - (left - {u})) == AllAddresses(people - left) + people[u].Addresses()
  {
    var before, after := people - left, people - (left - {u});
    assert forall w :: w in after <==> w in before || w == u;
    assert forall w :: w in after ==> after[w] == people[w];
    assert forall w :: w in before ==> after[w] == before[w];
  }

  /** These users of one room are listed, each once. */
  ghost predicate Listed(gone: seq<(string, string)>, roomId: string, users: set<string>)
  {
    && (forall i, u :: (i, u) in gone <==> i == roomId && u in users)
    && (forall i, j :: 0 <= i < j < |gone| ==> gone[i] != gone[j])
  }

  lemma ListOneMore(gone: seq<(string, string)>, roomId: string, users: set<string>, u: string)
    requires Listed(gone, roomId, users) && u !in users
    ensures Listed(gone + [(roomId, u)], roomId, users + {u})
  {
    assert forall i, w :: (i, w) in gone + [(roomId, u)] <==> (i, w) in gone || (i, w) == (roomId, u);
  }
}
