/** Reaping participants that have not been heard of for too long. */
module HubReap {
  import opened HubModel
  import opened HubExact

  predicate Zombie(p: Person, now: nat, timeout: nat)
  {
    p.lastSeen > 0 && p.lastSeen <= now && now - p.lastSeen > timeout
  }

  /** Everyone listed leaves, in that order. */
  function LeaveAll(h: Hub, gone: seq<(string, string)>): Hub
  {
    if gone == [] then h
    else
      var (id, user) := gone[|gone| - 1];
      Left(LeaveAll(h, gone[..|gone| - 1]), id, user)
  }

  /** The list names every zombie of these rooms once, and nobody else. */
  ghost predicate ZombiesIn(h: Hub, ids: set<string>, now: nat, timeout: nat, gone: seq<(string, string)>)
  {
    && (forall i, j :: 0 <= i < j < |gone| ==> gone[i] != gone[j])
    && (forall id, user :: (id, user) in gone <==>
                             id in ids && IsLive(h, id, user) && Zombie(h.rooms[id].people[user], now, timeout))
  }

  /** No index of the room names the user. */
  ghost predicate Unnamed(r: Room, user: string)
  {
    && user !in r.people
    && (forall f :: f in r.byUfrag ==> r.byUfrag[f].0 != user)
    && (forall a :: a in r.byAddr ==> r.byAddr[a].0 != user)
  }

  lemma LeftPeople(h: Hub, id: string, user: string)
    ensures var h' := Left(h, id, user);
            && h'.rooms.Keys == h.rooms.Keys
            && (forall i, u :: IsLive(h', i, u) <==> IsLive(h, i, u) && (i, u) != (id, user))
            && (forall i, u :: IsLive(h', i, u) ==> h'.rooms[i].people[u] == h.rooms[i].people[u])
  {
  }

  /** Exactly those listed are gone, and the others are as they were. */
  lemma {:induction false} LeaveAllPeople(h: Hub, gone: seq<(string, string)>)
    ensures LeaveAll(h, gone).rooms.Keys == h.rooms.Keys
    ensures forall i, u :: IsLive(LeaveAll(h, gone), i, u) <==> IsLive(h, i, u) && (i, u) !in gone
    ensures forall i, u :: IsLive(LeaveAll(h, gone), i, u) ==>
                             IsLive(h, i, u) && LeaveAll(h, gone).rooms[i].people[u] == h.rooms[i].people[u]
  {
    if gone != [] {
      var less := gone[..|gone| - 1];
      var last := gone[|gone| - 1];
      LeaveAllPeople(h, less);
      LeftPeople(LeaveAll(h, less), last.0, last.1);
      assert gone == less + [last];
      assert forall i, u :: (i, u) in gone <==> (i, u) in less || (i, u) == last;
    }
  }

  lemma {:induction false} LeaveAllKeeps(h: Hub, gone: seq<(string, string)>)
    requires Sound(h)
    ensures Sound(LeaveAll(h, gone))
    ensures UfragsExact(h) ==> UfragsExact(LeaveAll(h, gone))
    ensures AddrsExact(h) ==> AddrsExact(LeaveAll(h, gone))
  {
    if gone != [] {
      var less := gone[..|gone| - 1];
      var (id, user) := gone[|gone| - 1];
      LeaveAllKeeps(h, less);
      StepIsSound(LeaveAll(h, less), Leave(id, user));
      LeaveKeepsExact(LeaveAll(h, less), id, user);
    }
  }

  lemma NobodyUnnamed(r: Room, user: string)
    requires RoomSound(r) && user !in r.people
    ensures Unnamed(r, user)
  {
    forall f | f in r.byUfrag ensures r.byUfrag[f].0 != user {
      assert SaysUfrag(r, r.byUfrag[f], f);
    }
    forall a | a in r.byAddr ensures r.byAddr[a].0 != user {
      assert SaysAddr(r, r.byAddr[a], a);
    }
  }

  /**
   Reaping conserves participants: everyone who was there is either kept unchanged or reaped,
   never both, and reaped exactly when heard of before but not within the timeout. The
   invariants of the indices survive, and no reaped name is left in them.
   */
  lemma ReapConserves(h: Hub, now: nat, timeout: nat, gone: seq<(string, string)>)
    requires Sound(h) && ZombiesIn(h, h.rooms.Keys, now, timeout, gone)
    ensures var h' := LeaveAll(h, gone);
            && h'.rooms.Keys == h.rooms.Keys
            && (forall id, user :: IsLive(h, id, user) <==> IsLive(h', id, user) || (id, user) in gone)
            && (forall id, user :: !(IsLive(h', id, user) && (id, user) in gone))
            && (forall id, user :: IsLive(h', id, user) ==>
                  h'.rooms[id].people[user] == h.rooms[id].people[user]
                    && !Zombie(h'.rooms[id].people[user], now, timeout))
            && Sound(h') && (UfragsExact(h) ==> UfragsExact(h')) && (AddrsExact(h) ==> AddrsExact(h'))
    ensures forall id, user :: (id, user) in gone <==>
              IsLive(h, id, user) && var seen := h.rooms[id].people[user].lastSeen; 0 < seen && now > seen + timeout
    ensures var h' := LeaveAll(h, gone);
            forall k :: 0 <= k < |gone| && gone[k].0 in h'.rooms ==> Unnamed(h'.rooms[gone[k].0], gone[k].1)
  {
    LeaveAllPeople(h, gone);
    LeaveAllKeeps(h, gone);
    forall k | 0 <= k < |gone| && gone[k].0 in LeaveAll(h, gone).rooms
      ensures Unnamed(LeaveAll(h, gone).rooms[gone[k].0], gone[k].1)
    {
      assert (gone[k].0, gone[k].1) in gone;
      NobodyUnnamed(LeaveAll(h, gone).rooms[gone[k].0], gone[k].1);
    }
  }

  lemma {:induction false} LeaveAllConcat(h: Hub, gone: seq<(string, string)>, more: seq<(string, string)>)
    ensures LeaveAll(h, gone + more) == LeaveAll(LeaveAll(h, gone), more)
  {
    if more == [] {
      assert gone + more == gone;
    } else {
      assert (gone + more)[..|gone + more| - 1] == gone + more[..|more| - 1];
      LeaveAllConcat(h, gone, more[..|more| - 1]);
    }
  }

  /** One more room swept: its zombies after the earlier ones left are those it had at the start. */
  lemma SweepOneMore(h: Hub, ids: set<string>, id: string, now: nat, timeout: nat, gone: seq<(string, string)>,
                     more: seq<(string, string)>)
    requires ZombiesIn(h, ids, now, timeout, gone) && id !in ids
    requires ZombiesIn(LeaveAll(h, gone), {id}, now, timeout, more)
    ensures ZombiesIn(h, ids + {id}, now, timeout, gone + more)
    ensures LeaveAll(h, gone + more) == LeaveAll(LeaveAll(h, gone), more)
  {
    LeaveAllConcat(h, gone, more);
    LeaveAllPeople(h, gone);
    forall i, u ensures (i, u) in gone + more <==>
                        i in ids + {id} && IsLive(h, i, u) && Zombie(h.rooms[i].people[u], now, timeout)
    {
      assert (i, u) in gone + more <==> (i, u) in gone || (i, u) in more;
    }
    forall i, j | 0 <= i < j < |gone + more| ensures (gone + more)[i] != (gone + more)[j] {
      if i < |gone| <= j {
        var x, y := gone[i], more[j - |gone|];
        assert (x.0, x.1) in gone && (y.0, y.1) in more;
      }
    }
  }
}
