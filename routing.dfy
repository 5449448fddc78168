/**
  What the socket layer of the server promises, as functions of its state:
  the presence registry (user id to live socket ids), the fan-out of one
  event, and the decision the send handler takes on an intent.
*/
module Routing {
  import opened Outcomes
  import opened Codec
  import opened Records

  type SocketId = string

  /** `onlineUsers`: user id to the set of that user's live socket ids. */
  type Registry = map<Id, set<SocketId>>

  function Sockets(reg: Registry, u: Id): set<SocketId> {
    if u in reg then reg[u] else {}
  }

  /** Only users with a live socket have an entry. */
  predicate NoEmptyEntries(reg: Registry) {
    forall u :: u in reg ==> reg[u] != {}
  }

  /** Every socket is bound to one user. */
  predicate OneOwner(reg: Registry) {
    forall u, v, s :: u in reg && v in reg && s in reg[u] && s in reg[v] ==> u == v
  }

  predicate Unused(reg: Registry, sid: SocketId) {
    forall u :: u in reg ==> sid !in reg[u]
  }

  /** The connection handler: a socket with a bound user joins that user's set,
      creating the set if the user had none; an unbound socket is not registered. */
  function Register(reg: Registry, u: Id, sid: SocketId): (r: Registry)
    ensures u == "" ==> r == reg
    ensures u != "" ==> u in r && Sockets(r, u) == Sockets(reg, u) + {sid}
    ensures forall v :: v != u ==> (v in r <==> v in reg) && Sockets(r, v) == Sockets(reg, v)
    ensures NoEmptyEntries(reg) ==> NoEmptyEntries(r)
    ensures OneOwner(reg) && Unused(reg, sid) ==> OneOwner(r)
  {
    if u == "" then reg else reg[u := Sockets(reg, u) + {sid}]
  }

  /** The disconnect handler: the socket leaves its user's set, and a set left
      empty takes the user's entry with it. */
  function Unregister(reg: Registry, u: Id, sid: SocketId): (r: Registry)
    ensures u == "" || u !in reg ==> r == reg
    ensures u != "" && u in reg ==>
      Sockets(r, u) == reg[u] - {sid} && (u in r <==> reg[u] - {sid} != {})
    ensures forall v :: v != u ==> (v in r <==> v in reg) && Sockets(r, v) == Sockets(reg, v)
    ensures NoEmptyEntries(reg) ==> NoEmptyEntries(r)
    ensures OneOwner(reg) ==> OneOwner(r)
  {
    if u == "" || u !in reg then reg
    else if reg[u] - {sid} == {} then reg - {u}
    else reg[u := reg[u] - {sid}]
  }

  /** A connect followed by the disconnect of the same socket leaves the
      registry as it was: no empty entry is left behind. */
  lemma ConnectThenDisconnect(reg: Registry, u: Id, sid: SocketId)
    requires NoEmptyEntries(reg)
    requires sid !in Sockets(reg, u)
    ensures Unregister(Register(reg, u, sid), u, sid) == reg
  {
    if u != "" {
      var r := Unregister(Register(reg, u, sid), u, sid);
      assert Sockets(reg, u) + {sid} - {sid} == Sockets(reg, u);
      forall v ensures (v in r <==> v in reg) && (v in r ==> r[v] == reg[v]) {
        if v == u {
          assert u in r <==> Sockets(reg, u) != {};
        }
      }
    }
  }

  /** An emitted event: the socket it went to, its name and its payload. */
  datatype Payload = Payload(sender: Id, receiver: Id, message: string, isGroup: bool)
  datatype Delivery = Delivery(socket: SocketId, event: string, payload: Payload)

  function Targets(ds: seq<Delivery>): seq<SocketId> {
    seq(|ds|, i requires 0 <= i < |ds| => ds[i].socket)
  }

  lemma TargetsAppend(a: seq<Delivery>, b: seq<Delivery>)
    ensures Targets(a + b) == Targets(a) + Targets(b)
  {
  }

  /** The sockets that one `sendToUser` call per user in `users` reaches,
      with multiplicity. */
  function Reach(reg: Registry, users: seq<Id>): multiset<SocketId>
    decreases |users|
  {
    if users == [] then multiset{}
    else Reach(reg, users[..|users| - 1]) + multiset(Sockets(reg, users[|users| - 1]))
  }

  lemma ReachOne(reg: Registry, a: Id)
    ensures Reach(reg, [a]) == multiset(Sockets(reg, a))
  {
    assert [a][..0] == [];
  }

  lemma ReachTwo(reg: Registry, a: Id, b: Id)
    ensures Reach(reg, [a, b]) == multiset(Sockets(reg, a)) + multiset(Sockets(reg, b))
  {
    assert [a, b][..1] == [a];
    ReachOne(reg, a);
  }

  /** A socket is reached exactly when its user is among the addressed users. */
  lemma {:induction false} ReachMembers(reg: Registry, users: seq<Id>, s: SocketId)
    ensures s in Reach(reg, users) <==> exists u :: u in users && s in Sockets(reg, u)
    decreases |users|
  {
    if users != [] {
      var pre, last := users[..|users| - 1], users[|users| - 1];
      assert users == pre + [last];
      ReachMembers(reg, pre, s);
    }
  }

  /** Distinct users and one owner per socket: no socket is reached twice. */
  lemma {:induction false} ReachOnce(reg: Registry, users: seq<Id>, s: SocketId)
    requires NoDup(users) && OneOwner(reg)
    ensures Reach(reg, users)[s] <= 1
    decreases |users|
  {
    if users != [] {
      var pre, last := users[..|users| - 1], users[|users| - 1];
      assert users == pre + [last];
      assert NoDup(pre);
      ReachOnce(reg, pre, s);
      ReachMembers(reg, pre, s);
    }
  }

  /** A send intent as the client emits it; an absent field is "". */
  datatype Intent = Intent(receiver: Id, groupId: Id, message: string)

  /** What the send handler does with an intent. */
  datatype Decision = Drop | ToGroup(gid: Id, members: seq<Id>) | ToUser(receiver: Id)

  /** The send handler's checks: a bound sender and a message are required; a
      group id takes precedence over a receiver; a group send needs an existing
      group that lists the sender. */
  function Route(groups: map<Id, Group>, sender: Id, intent: Intent): (d: Decision)
    ensures sender == "" || intent.message == "" ==> d == Drop
    ensures intent.groupId != "" ==> !d.ToUser?
    ensures d.ToGroup? <==>
      && sender != "" && intent.message != "" && intent.groupId != ""
      && intent.groupId in groups && sender in groups[intent.groupId].members
    ensures d.ToGroup? ==> d.gid == intent.groupId && d.members == groups[d.gid].members
    ensures d.ToUser? <==>
      sender != "" && intent.message != "" && intent.groupId == "" && intent.receiver != ""
    ensures d.ToUser? ==> d.receiver == intent.receiver
  {
    if sender == "" || intent.message == "" then Drop
    else if intent.groupId != "" then
      if intent.groupId !in groups then Drop
      else if sender !in groups[intent.groupId].members then Drop
      else ToGroup(intent.groupId, groups[intent.groupId].members)
    else if intent.receiver != "" then ToUser(intent.receiver)
    else Drop
  }

  /** The users a send is delivered to: every member of the group, the sender
      included; or the sender, then the receiver when it is someone else. */
  function Audience(d: Decision, sender: Id): (r: seq<Id>)
    ensures d.Drop? ==> r == []
    ensures d.ToGroup? ==> r == d.members
    ensures d.ToUser? ==> NoDup(r) && r != [] && r[0] == sender && forall x :: x in r <==> x == sender || x == d.receiver
  {
    match d
    case Drop => []
    case ToGroup(_, members) => members
    case ToUser(receiver) => if receiver == sender then [sender] else [sender, receiver]
  }

  /** The record the handler persists: the sender is the socket's bound id,
      never a field of the intent, and the body opens to the message. */
  function Record(d: Decision, sender: Id, message: string, key: Key, iv: Iv, now: nat): (m: Message)
    requires !d.Drop?
    ensures m.sender == sender && m.time == now && m.deletedFor == []
    ensures m.isGroup == d.ToGroup?
    ensures m.receiver == if d.ToGroup? then d.gid else d.receiver
    ensures Decrypt(key, m.iv, m.body) == Some(message)
  {
    var body := Encrypt(key, iv, message);
    match d
    case ToGroup(gid, _) => Message(sender, gid, body, iv, now, true, [])
    case ToUser(receiver) => Message(sender, receiver, body, iv, now, false, [])
  }

  /** The plaintext payload every delivery of the send carries. */
  function PayloadOf(d: Decision, sender: Id, message: string): (p: Payload)
    requires !d.Drop?
    ensures p.sender == sender && p.message == message && p.isGroup == d.ToGroup?
    ensures p.receiver == if d.ToGroup? then d.gid else d.receiver
  {
    match d
    case ToGroup(gid, _) => Payload(sender, gid, message, true)
    case ToUser(receiver) => Payload(sender, receiver, message, false)
  }

  /** With duplicate-free member lists and one owner per socket, an accepted
      send reaches each live socket of its audience exactly once, and no other. */
  lemma FanoutExactlyOnce(reg: Registry, groups: map<Id, Group>, sender: Id, intent: Intent, s: SocketId)
    requires OneOwner(reg)
    requires forall g :: g in groups ==> NoDup(groups[g].members)
    ensures var users := Audience(Route(groups, sender, intent), sender);
      Reach(reg, users)[s] == if exists u :: u in users && s in Sockets(reg, u) then 1 else 0
  {
    var users := Audience(Route(groups, sender, intent), sender);
    ReachMembers(reg, users, s);
    ReachOnce(reg, users, s);
  }

  /** A direct message to oneself reaches each of one's sockets once. */
  lemma SelfSendOnce(reg: Registry, sender: Id)
    ensures Reach(reg, Audience(ToUser(sender), sender)) == multiset(Sockets(reg, sender))
  {
    assert [sender][..0] == [];
  }
}
