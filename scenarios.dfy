/**
  End-to-end runs of the handlers on small states, as a client of the
  classes sees them through their contracts alone.
*/
module Scenarios {
  import opened Outcomes
  import opened Codec
  import opened Records
  import opened Store
  import opened Routing
  import opened Server

  /** u1 and u2 are connected and u1 sends "hi" to u2: one record that opens
      to "hi" is stored, and each of the two sockets receives the payload once. */
  method DirectHi(key: Key, iv: Iv) returns (log: seq<Message>, events: seq<Delivery>)
    ensures |log| == 1
    ensures log[0].sender == "u1" && log[0].receiver == "u2" && !log[0].isGroup
    ensures Decrypt(key, log[0].iv, log[0].body) == Some("hi")
    ensures multiset(Targets(events)) == multiset{"s1", "s2"}
    ensures forall k :: 0 <= k < |events| ==> events[k].payload == Payload("u1", "u2", "hi", false)
  {
    var db := new Db({"u1", "u2"});
    var server := new ChatServer(db, key);
    server.Connect("u1", "s1");
    server.Connect("u2", "s2");
    server.HandleSend("u1", Intent("u2", "", "hi"), iv, 0, true);
    ReachTwo(server.online, "u1", "u2");
    log, events := db.messages, server.sent;
  }

  /** Group G lists u1, u2 and u3; u4 is connected but not a member and sends
      to G: nothing is stored and nothing is emitted. */
  method OutsiderToGroup(key: Key, iv: Iv) returns (log: seq<Message>, events: seq<Delivery>)
    ensures log == [] && events == []
  {
    var db := new Db({"u1", "u2", "u3", "u4"});
    var created := db.CreateGroup("u1", "G", ["u2", "u3"], "g");
    var server := new ChatServer(db, key);
    server.Connect("u1", "s1");
    server.Connect("u4", "s4");
    server.HandleSend("u4", Intent("", "g", "hello"), iv, 0, true);
    log, events := db.messages, server.sent;
  }
}
