/**
  The persistent store (the Message, Group and User collections) and the
  routes that change it: group creation and membership changes, the group
  cascade delete, and the per-user clear of a direct or a group chat.
*/
module Store {
  import opened Outcomes
  import opened Records
  import opened History

  /** The members a new group is stored with: the requested ids, each once and
      in order, then the creator unless already among them. */
  function InitialMembers(memberIds: seq<Id>, creator: Id): (r: seq<Id>)
    ensures NoDup(r) && creator in r
    ensures forall x :: x in r <==> x in memberIds || x == creator
  {
    Dedup(memberIds + [creator])
  }

  /** `GET /group`: the groups whose member list holds `u`. */
  function GroupsOf(groups: map<Id, Group>, u: Id): set<Id> {
    set g | g in groups && u in groups[g].members
  }

  /** No group lists a member twice. */
  ghost predicate MembersDistinct(groups: map<Id, Group>) {
    forall g :: g in groups ==> NoDup(groups[g].members)
  }

  class Db {
    var messages: seq<Message>
    var groups: map<Id, Group>
    /** The ids the User collection holds. */
    var users: set<Id>

    ghost predicate Valid()
      reads this
    {
      MembersDistinct(groups)
    }

    constructor (accounts: set<Id>)
      ensures Valid()
      ensures messages == [] && groups == map[] && users == accounts
    {
      messages, groups, users := [], map[], accounts;
    }

    /** `Message.create`: appends one record to the log. */
    method Create(m: Message)
      modifies this`messages
      ensures messages == old(messages) + [m]
    {
      messages := messages + [m];
    }

    /** `POST /group`. The new document's id comes from the caller, as
        MongoDB assigns it; an id already in use fails the insert. */
    method CreateGroup(requester: Id, name: string, memberIds: seq<Id>, id: Id) returns (r: Result<Id>)
      requires Valid()
      modifies this`groups
      ensures Valid()
      ensures name == "" ==> r == Err(BadRequest)
      ensures name != "" && id in old(groups) ==> r == Err(ServerError)
      ensures name != "" && id !in old(groups) ==> r == Ok(id)
      ensures r.Err? ==> groups == old(groups)
      ensures r.Ok? ==> groups == old(groups)[id := Group(name, InitialMembers(memberIds, requester))]
      ensures r.Ok? ==> GroupsOf(groups, requester) == GroupsOf(old(groups), requester) + {id}
    {
      if name == "" {
        return Err(BadRequest);
      }
      if id in groups {
        return Err(ServerError);
      }
      groups := groups[id := Group(name, InitialMembers(memberIds, requester))];
      r := Ok(id);
    }

    /** `POST /group/:groupId/add-member`: any member may add an existing user
        who is not yet a member. */
    method AddMember(requester: Id, gid: Id, userId: Id) returns (r: Result<Group>)
      requires Valid()
      modifies this`groups
      ensures Valid()
      ensures userId == "" ==> r == Err(BadRequest)
      ensures userId != "" && gid !in old(groups) ==> r == Err(NotFound)
      ensures userId != "" && gid in old(groups) ==>
        var g := old(groups)[gid];
        && (requester !in g.members ==> r == Err(Forbidden))
        && (requester in g.members && userId in g.members ==> r == Err(Conflict))
        && (requester in g.members && userId !in g.members && userId !in users ==> r == Err(NotFound))
        && (requester in g.members && userId !in g.members && userId in users ==>
              r == Ok(g.(members := g.members + [userId])))
      ensures r.Err? ==> groups == old(groups)
      ensures r.Ok? ==> groups == old(groups)[gid := r.value]
    {
      if userId == "" {
        return Err(BadRequest);
      }
      if gid !in groups {
        return Err(NotFound);
      }
      var g := groups[gid];
      if requester !in g.members {
        return Err(Forbidden);
      }
      if userId in g.members {
        return Err(Conflict);
      }
      if userId !in users {
        return Err(NotFound);
      }
      g := g.(members := g.members + [userId]);
      groups := groups[gid := g];
      r := Ok(g);
    }

    /** `POST /group/:groupId/remove-member`: any member may remove anyone;
        removing a non-member leaves the list as it is. */
    method RemoveMember(requester: Id, gid: Id, userId: Id) returns (r: Result<Group>)
      requires Valid()
      modifies this`groups
      ensures Valid()
      ensures userId == "" ==> r == Err(BadRequest)
      ensures userId != "" && gid !in old(groups) ==> r == Err(NotFound)
      ensures userId != "" && gid in old(groups) ==>
        var g := old(groups)[gid];
        && (requester !in g.members ==> r == Err(Forbidden))
        && (requester in g.members ==> r == Ok(g.(members := Without(g.members, userId))))
      ensures r.Err? ==> groups == old(groups)
      ensures r.Ok? ==> groups == old(groups)[gid := r.value]
    {
      if userId == "" {
        return Err(BadRequest);
      }
      if gid !in groups {
        return Err(NotFound);
      }
      var g := groups[gid];
      if requester !in g.members {
        return Err(Forbidden);
      }
      g := g.(members := Without(g.members, userId));
      groups := groups[gid := g];
      r := Ok(g);
    }

    /** `POST /group/:groupId/exit`: the requester leaves. There is no
        membership check, and a group left empty is kept. */
    method ExitGroup(requester: Id, gid: Id) returns (r: Result<()>)
      requires Valid()
      modifies this`groups
      ensures Valid()
      ensures gid !in old(groups) <==> r == Err(NotFound)
      ensures r.Err? ==> groups == old(groups)
      ensures r.Ok? ==>
        groups == old(groups)[gid := old(groups)[gid].(members := Without(old(groups)[gid].members, requester))]
      ensures r.Ok? ==> GroupsOf(groups, requester) == GroupsOf(old(groups), requester) - {gid}
    {
      if gid !in groups {
        return Err(NotFound);
      }
      var g := groups[gid];
      groups := groups[gid := g.(members := Without(g.members, requester))];
      r := Ok(());
    }

    /** `DELETE /group/:groupId`: a member deletes the group's messages, then
        the group. The answer carries the number of messages deleted. */
    method DeleteGroup(requester: Id, gid: Id) returns (r: Result<nat>)
      requires Valid()
      modifies this`messages, this`groups
      ensures Valid()
      ensures gid !in old(groups) ==> r == Err(NotFound)
      ensures gid in old(groups) && requester !in old(groups)[gid].members ==> r == Err(Forbidden)
      ensures r.Err? ==> groups == old(groups) && messages == old(messages)
      ensures r.Ok? ==> gid in old(groups) && requester in old(groups)[gid].members
      ensures r.Ok? ==> messages == Purge(old(messages), gid) && groups == old(groups) - {gid}
      ensures r.Ok? ==> r.value == |old(messages)| - |messages|
    {
      if gid !in groups {
        return Err(NotFound);
      }
      if requester !in groups[gid].members {
        return Err(Forbidden);
      }
      var deleted := DeleteGroupMessages(gid);
      groups := groups - {gid};
      r := Ok(deleted);
    }

    /** `deleteMany({ receiver: gid, isGroup: true })`, record by record. */
    method DeleteGroupMessages(gid: Id) returns (deleted: nat)
      modifies this`messages
      ensures messages == Purge(old(messages), gid)
      ensures deleted == |old(messages)| - |messages|
    {
      var kept: seq<Message> := [];
      var i := 0;
      while i < |messages|
        invariant 0 <= i <= |messages|
        invariant kept == Purge(messages[..i], gid)
      {
        if !(messages[i].isGroup && messages[i].receiver == gid) {
          kept := kept + [messages[i]];
        }
        assert messages[..i + 1][..i] == messages[..i];
        i := i + 1;
      }
      assert messages[..i] == messages;
      deleted := |messages| - |kept|;
      messages := kept;
    }

    /** `POST /group/:groupId/clear`: no existence or membership check. The
        answer is the number of records the requester could still see. */
    method ClearGroup(requester: Id, gid: Id) returns (modified: nat)
      modifies this`messages
      ensures messages == Cleared(old(messages), GroupChat(gid), requester)
      ensures modified == |Select(old(messages), GroupChat(gid), requester)|
    {
      modified := ClearFor(GroupChat(gid), requester);
    }

    /** `POST /chat/:user/clear`: the direct conversation in both directions. */
    method ClearDirect(requester: Id, other: Id) returns (modified: nat)
      modifies this`messages
      ensures messages == Cleared(old(messages), Direct(requester, other), requester)
      ensures modified == |Select(old(messages), Direct(requester, other), requester)|
    {
      modified := ClearFor(Direct(requester, other), requester);
    }

    /** `updateMany(c, { $addToSet: { deletedFor: u } })`, record by record;
        a record counts as modified when `u` was not yet in its `deletedFor`. */
    method ClearFor(c: Conversation, u: Id) returns (modified: nat)
      modifies this`messages
      ensures messages == Cleared(old(messages), c, u)
      ensures modified == |Select(old(messages), c, u)|
    {
      var ms := messages;
      var cur := ms;
      modified := 0;
      var i := 0;
      while i < |cur|
        invariant 0 <= i <= |cur| == |ms|
        invariant forall k :: 0 <= k < i ==> cur[k] == Mark(ms[k], c, u)
        invariant forall k :: i <= k < |cur| ==> cur[k] == ms[k]
        invariant modified == |Select(ms[..i], c, u)|
      {
        SelectStep(ms, i, c, u);
        if Visible(cur[i], c, u) {
          modified := modified + 1;
        }
        cur := cur[i := Mark(cur[i], c, u)];
        i := i + 1;
      }
      assert ms[..i] == ms;
      assert forall k :: 0 <= k < |cur| ==> cur[k] == Cleared(ms, c, u)[k];
      messages := cur;
    }
  }

  lemma SelectStep(ms: seq<Message>, i: nat, c: Conversation, u: Id)
    requires i < |ms|
    ensures |Select(ms[..i + 1], c, u)| == |Select(ms[..i], c, u)| + if Visible(ms[i], c, u) then 1 else 0
  {
    assert ms[..i + 1][..i] == ms[..i];
  }
}
