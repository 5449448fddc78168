/**
  The socket side of the server: the presence registry it mutates on connect
  and disconnect, and the send handler that persists a message and fans it
  out to the live sockets of its audience.
*/
module Server {
  import opened Codec
  import opened Records
  import opened Store
  import opened Routing

  class ChatServer {
    /** `onlineUsers`. */
    var online: Registry
    /** Every event emitted so far, in emission order. */
    var sent: seq<Delivery>
    /** The store the handlers persist to. */
    const db: Db
    /** The process-wide encryption key. */
    const key: Key

    ghost predicate Valid()
      reads this
    {
      NoEmptyEntries(online)
    }

    constructor (store: Db, k: Key)
      ensures Valid()
      ensures online == map[] && sent == [] && db == store && key == k
    {
      online, sent, db, key := map[], [], store, k;
    }

    /** The "connection" handler, for a socket whose handshake bound `uid`
        ("" when the socket carries no user id). */
    method Connect(uid: Id, sid: SocketId)
      requires Valid()
      modifies this`online
      ensures Valid()
      ensures online == Register(old(online), uid, sid)
    {
      if uid != "" {
        if uid !in online {
          online := online[uid := {}];
        }
        online := online[uid := online[uid] + {sid}];
      }
    }

    /** The "disconnect" handler of the socket `sid` bound to `uid`. */
    method Disconnect(uid: Id, sid: SocketId)
      requires Valid()
      modifies this`online
      ensures Valid()
      ensures online == Unregister(old(online), uid, sid)
    {
      if uid == "" {
        return;
      }
      if uid !in online {
        return;
      }
      var sockets := online[uid] - {sid};
      online := online[uid := sockets];
      if |sockets| == 0 {
        online := online - {uid};
      }
    }

    /** `sendToUser`: one emit to every registered socket of `uid`, none when
        `uid` has no entry. */
    method SendToUser(uid: Id, event: string, p: Payload)
      modifies this`sent
      ensures |sent| >= |old(sent)| && sent[..|old(sent)|] == old(sent)
      ensures multiset(Targets(sent[|old(sent)|..])) == multiset(Sockets(online, uid))
      ensures forall i :: |old(sent)| <= i < |sent| ==> sent[i].event == event && sent[i].payload == p
    {
      if uid !in online {
        return;
      }
      var pending := online[uid];
      ghost var start := |sent|;
      while pending != {}
        invariant pending <= online[uid]
        invariant |sent| >= start && sent[..start] == old(sent)
        invariant multiset(Targets(sent[start..])) == multiset(online[uid] - pending)
        invariant forall i :: start <= i < |sent| ==> sent[i].event == event && sent[i].payload == p
        decreases pending
      {
        var sid :| sid in pending;
        var d := Delivery(sid, event, p);
        assert (sent + [d])[start..] == sent[start..] + [d];
        TargetsAppend(sent[start..], [d]);
        assert online[uid] - (pending - {sid}) == (online[uid] - pending) + {sid};
        sent := sent + [d];
        pending := pending - {sid};
      }
    }

    /** The "send" handler of a socket bound to `sender` ("" when unbound).
        The iv and the time are drawn by the caller; `stored` is whether
        `Message.create` succeeds. A failed insert is caught and logged, so
        nothing is delivered. */
    method HandleSend(sender: Id, intent: Intent, iv: Iv, now: nat, stored: bool)
      modifies this`sent, db`messages
      ensures var d := Route(old(db.groups), sender, intent);
        if d.Drop? || !stored then
          db.messages == old(db.messages) && sent == old(sent)
        else
          && db.messages == old(db.messages) + [Record(d, sender, intent.message, key, iv, now)]
          && |sent| >= |old(sent)| && sent[..|old(sent)|] == old(sent)
          && multiset(Targets(sent[|old(sent)|..])) == Reach(online, Audience(d, sender))
          && forall i :: |old(sent)| <= i < |sent| ==>
               sent[i].event == "receive" && sent[i].payload == PayloadOf(d, sender, intent.message)
    {
      if sender == "" || intent.message == "" {
        return;
      }
      if intent.groupId != "" {
        if intent.groupId !in db.groups {
          return;
        }
        var group := db.groups[intent.groupId];
        if sender !in group.members {
          return;
        }
        if !stored {
          return;
        }
        var rec := Message(sender, intent.groupId, Encrypt(key, iv, intent.message), iv, now, true, []);
        db.Create(rec);
        FanOutToMembers(group.members, Payload(sender, intent.groupId, intent.message, true));
      } else if intent.receiver != "" {
        if !stored {
          return;
        }
        var rec := Message(sender, intent.receiver, Encrypt(key, iv, intent.message), iv, now, false, []);
        db.Create(rec);
        DeliverDirect(sender, intent.receiver, Payload(sender, intent.receiver, intent.message, false));
      }
    }

    /** The group path's loop: one `sendToUser` per member, in list order. */
    method FanOutToMembers(members: seq<Id>, p: Payload)
      modifies this`sent
      ensures |sent| >= |old(sent)| && sent[..|old(sent)|] == old(sent)
      ensures multiset(Targets(sent[|old(sent)|..])) == Reach(online, members)
      ensures forall k :: |old(sent)| <= k < |sent| ==> sent[k].event == "receive" && sent[k].payload == p
    {
      ghost var start := |sent|;
      var i := 0;
      while i < |members|
        invariant 0 <= i <= |members|
        invariant |sent| >= start && sent[..start] == old(sent)
        invariant multiset(Targets(sent[start..])) == Reach(online, members[..i])
        invariant forall k :: start <= k < |sent| ==> sent[k].event == "receive" && sent[k].payload == p
      {
        ghost var before := sent;
        SendToUser(members[i], "receive", p);
        TargetsGrow(before, sent, start);
        assert members[..i + 1][..i] == members[..i];
        i := i + 1;
      }
      assert members[..i] == members;
    }

    /** The direct path: the sender's sockets, then the receiver's unless the
        receiver is the sender. */
    method DeliverDirect(sender: Id, receiver: Id, p: Payload)
      modifies this`sent
      ensures |sent| >= |old(sent)| && sent[..|old(sent)|] == old(sent)
      ensures multiset(Targets(sent[|old(sent)|..])) == Reach(online, if receiver == sender then [sender] else [sender, receiver])
      ensures forall k :: |old(sent)| <= k < |sent| ==> sent[k].event == "receive" && sent[k].payload == p
    {
      ghost var start := |sent|;
      SendToUser(sender, "receive", p);
      ReachOne(online, sender);
      if receiver != sender {
        ghost var mid := sent;
        SendToUser(receiver, "receive", p);
        TargetsGrow(mid, sent, start);
        ReachTwo(online, sender, receiver);
        assert sent[..start] == mid[..start];
        forall k | start <= k < |sent| ensures sent[k].event == "receive" && sent[k].payload == p {
          if k < |mid| {
            assert sent[k] == mid[k];
          }
        }
      }
    }
  }

  lemma TargetsGrow(before: seq<Delivery>, after: seq<Delivery>, start: nat)
    requires start <= |before| <= |after| && after[..|before|] == before
    ensures multiset(Targets(after[start..]))
         == multiset(Targets(before[start..])) + multiset(Targets(after[|before|..]))
  {
    assert after[start..] == before[start..] + after[|before|..];
    TargetsAppend(before[start..], after[|before|..]);
  }
}
