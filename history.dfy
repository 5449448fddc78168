/**
  History queries over the message log and the soft-delete overlay they
  honour: the direct history route, the group history route, the per-user
  clear and the cascade that removes a group's messages.
*/
module History {
  import opened Outcomes
  import opened Codec
  import opened Records

  /** The conversation a query or a clear selects. A direct conversation
      is the pair in either direction; a group one is its group's id. */
  datatype Conversation = Direct(a: Id, b: Id) | GroupChat(gid: Id)

  predicate InConversation(m: Message, c: Conversation) {
    match c
    case Direct(a, b) =>
      !m.isGroup && ((m.sender == a && m.receiver == b) || (m.sender == b && m.receiver == a))
    case GroupChat(g) => m.isGroup && m.receiver == g
  }

  /** A record of `c` that user `u` has not cleared. */
  predicate Visible(m: Message, c: Conversation, u: Id) {
    InConversation(m, c) && u !in m.deletedFor
  }

  /** One entry of a history answer: the body is the decrypted text. */
  datatype Item = Item(sender: Id, receiver: Id, message: string, time: nat)

  /** The query filter: the records `u` sees in `c`, in store order. */
  function Select(ms: seq<Message>, c: Conversation, u: Id): (r: seq<Message>)
    ensures forall m :: multiset(r)[m] == if Visible(m, c, u) then multiset(ms)[m] else 0
    ensures forall i :: 0 <= i < |r| ==> Visible(r[i], c, u)
    decreases |ms|
  {
    if ms == [] then []
    else
      var last := ms[|ms| - 1];
      assert ms == ms[..|ms| - 1] + [last];
      var p := Select(ms[..|ms| - 1], c, u);
      if Visible(last, c, u) then p + [last] else p
  }

  predicate Sorted(s: seq<Message>) {
    forall i, j :: 0 <= i < j < |s| ==> s[i].time <= s[j].time
  }

  /** Places `x` before the first record that is strictly later. */
  function Insert(x: Message, s: seq<Message>): (r: seq<Message>)
    requires Sorted(s)
    ensures Sorted(r)
    ensures multiset(r) == multiset(s) + multiset{x}
    ensures |r| == |s| + 1 && (r[0] == x || (s != [] && r[0] == s[0]))
    decreases |s|
  {
    if s == [] || x.time <= s[0].time then [x] + s
    else
      assert s == [s[0]] + s[1..];
      [s[0]] + Insert(x, s[1..])
  }

  /** `.sort({ time: 1 })`: ascending by time; records with equal times
      keep their store order. */
  function SortByTime(s: seq<Message>): (r: seq<Message>)
    ensures Sorted(r)
    ensures multiset(r) == multiset(s)
    decreases |s|
  {
    if s == [] then []
    else
      assert s == [s[0]] + s[1..];
      Insert(s[0], SortByTime(s[1..]))
  }

  /** The records a history query answers with, before decryption. */
  function Timeline(ms: seq<Message>, c: Conversation, u: Id): (r: seq<Message>)
    ensures Sorted(r)
    ensures forall m :: multiset(r)[m] == if Visible(m, c, u) then multiset(ms)[m] else 0
  {
    SortByTime(Select(ms, c, u))
  }

  /** Decrypts every record, in order; the first failure fails the whole answer. */
  function OpenAll(key: Key, ms: seq<Message>): (r: Result<seq<Item>>)
    ensures r.Ok? <==> forall i :: 0 <= i < |ms| ==> Decrypt(key, ms[i].iv, ms[i].body).Some?
    ensures r.Err? ==> r.status == ServerError
    ensures r.Ok? ==> |r.value| == |ms|
    ensures r.Ok? ==> forall i :: 0 <= i < |ms| ==>
      && r.value[i].sender == ms[i].sender
      && r.value[i].receiver == ms[i].receiver
      && r.value[i].time == ms[i].time
      && Decrypt(key, ms[i].iv, ms[i].body) == Some(r.value[i].message)
    decreases |ms|
  {
    if ms == [] then Ok([])
    else
      match Decrypt(key, ms[0].iv, ms[0].body)
      case None => Err(ServerError)
      case Some(text) =>
        match OpenAll(key, ms[1..])
        case Err(e) => Err(e)
        case Ok(rest) => Ok([Item(ms[0].sender, ms[0].receiver, text, ms[0].time)] + rest)
  }

  /** What the history answer promises, for any conversation. */
  lemma HistoryAnswer(key: Key, ms: seq<Message>, c: Conversation, u: Id)
    ensures var r := OpenAll(key, Timeline(ms, c, u));
      && (r.Ok? <==> forall m :: m in ms && Visible(m, c, u) ==> Decrypt(key, m.iv, m.body).Some?)
      && (r.Ok? ==> |r.value| == |Select(ms, c, u)|)
      && (r.Ok? ==> forall i, j :: 0 <= i < j < |r.value| ==> r.value[i].time <= r.value[j].time)
      && (r.Ok? ==> forall k :: 0 <= k < |r.value| ==>
            var m := Timeline(ms, c, u)[k];
            && m in ms && Visible(m, c, u)
            && r.value[k].sender == m.sender && r.value[k].receiver == m.receiver && r.value[k].time == m.time
            && Decrypt(key, m.iv, m.body) == Some(r.value[k].message))
  {
    var t := Timeline(ms, c, u);
    TimelineRecords(ms, c, u);
    var r := OpenAll(key, t);
    if r.Ok? {
      forall k | 0 <= k < |r.value|
        ensures && t[k] in ms && Visible(t[k], c, u)
                && r.value[k].sender == t[k].sender && r.value[k].receiver == t[k].receiver
                && r.value[k].time == t[k].time
                && Decrypt(key, t[k].iv, t[k].body) == Some(r.value[k].message)
      {
      }
    }
  }

  /** The timeline holds exactly the visible records, as many as the filter keeps. */
  lemma TimelineRecords(ms: seq<Message>, c: Conversation, u: Id)
    ensures |Timeline(ms, c, u)| == |Select(ms, c, u)|
    ensures forall m :: m in ms && Visible(m, c, u) ==> m in Timeline(ms, c, u)
    ensures forall i :: 0 <= i < |Timeline(ms, c, u)| ==>
      Timeline(ms, c, u)[i] in ms && Visible(Timeline(ms, c, u)[i], c, u)
  {
    var t := Timeline(ms, c, u);
    assert |t| == |Select(ms, c, u)| by {
      assert multiset(t) == multiset(SortByTime(Select(ms, c, u)));
    }
    forall m | m in ms && Visible(m, c, u) ensures m in t {
      assert multiset(ms)[m] > 0;
    }
    forall i | 0 <= i < |t| ensures t[i] in ms && Visible(t[i], c, u) {
      assert multiset(t)[t[i]] > 0;
    }
  }

  /** `GET /chat/:user`: the requester's direct history with `other`. */
  function DirectHistory(key: Key, ms: seq<Message>, requester: Id, other: Id): (r: Result<seq<Item>>)
    ensures r.Ok? <==> forall m :: m in ms && Visible(m, Direct(requester, other), requester) ==>
      Decrypt(key, m.iv, m.body).Some?
    ensures r.Err? ==> r.status == ServerError
    ensures r.Ok? ==> |r.value| == |Select(ms, Direct(requester, other), requester)|
    ensures r.Ok? ==> forall i, j :: 0 <= i < j < |r.value| ==> r.value[i].time <= r.value[j].time
    ensures r.Ok? ==> forall k :: 0 <= k < |r.value| ==>
      || (r.value[k].sender == requester && r.value[k].receiver == other)
      || (r.value[k].sender == other && r.value[k].receiver == requester)
    ensures r.Ok? ==> var t := Timeline(ms, Direct(requester, other), requester);
      && |r.value| == |t|
      && forall k :: 0 <= k < |r.value| ==>
        && t[k] in ms && Visible(t[k], Direct(requester, other), requester)
        && r.value[k].sender == t[k].sender && r.value[k].receiver == t[k].receiver
        && r.value[k].time == t[k].time && Decrypt(key, t[k].iv, t[k].body) == Some(r.value[k].message)
  {
    HistoryAnswer(key, ms, Direct(requester, other), requester);
    OpenAll(key, Timeline(ms, Direct(requester, other), requester))
  }

  /** `GET /group/:groupId/messages`: members only, then the group's history. */
  function GroupHistory(key: Key, groups: map<Id, Group>, ms: seq<Message>, requester: Id, gid: Id)
    : (r: Result<seq<Item>>)
    ensures gid !in groups ==> r == Err(NotFound)
    ensures gid in groups && requester !in groups[gid].members ==> r == Err(Forbidden)
    ensures gid in groups && requester in groups[gid].members ==>
      && (r.Ok? <==> forall m :: m in ms && Visible(m, GroupChat(gid), requester) ==>
            Decrypt(key, m.iv, m.body).Some?)
      && (r.Err? ==> r.status == ServerError)
    ensures r.Ok? ==> |r.value| == |Select(ms, GroupChat(gid), requester)|
    ensures r.Ok? ==> forall i, j :: 0 <= i < j < |r.value| ==> r.value[i].time <= r.value[j].time
    ensures r.Ok? ==> forall k :: 0 <= k < |r.value| ==> r.value[k].receiver == gid
    ensures r.Ok? ==> var t := Timeline(ms, GroupChat(gid), requester);
      && |r.value| == |t|
      && forall k :: 0 <= k < |r.value| ==>
        && t[k] in ms && Visible(t[k], GroupChat(gid), requester)
        && r.value[k].sender == t[k].sender && r.value[k].receiver == t[k].receiver
        && r.value[k].time == t[k].time && Decrypt(key, t[k].iv, t[k].body) == Some(r.value[k].message)
  {
    if gid !in groups then Err(NotFound)
    else if requester !in groups[gid].members then Err(Forbidden)
    else
      HistoryAnswer(key, ms, GroupChat(gid), requester);
      OpenAll(key, Timeline(ms, GroupChat(gid), requester))
  }

  /** `$addToSet: { deletedFor: u }` on one record, when it belongs to `c`. */
  function Mark(m: Message, c: Conversation, u: Id): (r: Message)
    ensures r.(deletedFor := m.deletedFor) == m
    ensures |m.deletedFor| <= |r.deletedFor| && r.deletedFor[..|m.deletedFor|] == m.deletedFor
    ensures forall v :: v in r.deletedFor <==> v in m.deletedFor || (v == u && InConversation(m, c))
    ensures !InConversation(m, c) || u in m.deletedFor ==> r == m
    ensures InConversation(m, c) && u !in m.deletedFor ==> r.deletedFor == m.deletedFor + [u]
  {
    if InConversation(m, c) then m.(deletedFor := AddToSet(m.deletedFor, u)) else m
  }

  /** The log after `updateMany` has marked every record of `c` as cleared by `u`. */
  function Cleared(ms: seq<Message>, c: Conversation, u: Id): seq<Message> {
    seq(|ms|, i requires 0 <= i < |ms| => Mark(ms[i], c, u))
  }

  /** Clearing twice leaves the log as clearing once does. */
  lemma ClearIdempotent(ms: seq<Message>, c: Conversation, u: Id)
    ensures Cleared(Cleared(ms, c, u), c, u) == Cleared(ms, c, u)
  {
  }

  lemma ClearedPrefix(ms: seq<Message>, c: Conversation, u: Id)
    requires ms != []
    ensures Cleared(ms, c, u)[..|ms| - 1] == Cleared(ms[..|ms| - 1], c, u)
    ensures Cleared(ms, c, u) == Cleared(ms[..|ms| - 1], c, u) + [Mark(ms[|ms| - 1], c, u)]
  {
  }

  /** After `u` clears `c`, `u` sees nothing of `c`. */
  lemma {:induction false} ClearHides(ms: seq<Message>, c: Conversation, u: Id)
    ensures Select(Cleared(ms, c, u), c, u) == []
    decreases |ms|
  {
    if ms != [] {
      ClearedPrefix(ms, c, u);
      ClearHides(ms[..|ms| - 1], c, u);
    }
  }

  /** Conversations that share no record. */
  ghost predicate Apart(c: Conversation, c2: Conversation) {
    forall m :: InConversation(m, c) ==> !InConversation(m, c2)
  }

  /** Distinct direct pairs of one user are apart, and so are distinct groups
      and a direct pair and a group. */
  lemma ApartCases(requester: Id, other: Id, w: Id, gid: Id, g: Id)
    ensures w != other ==> Apart(Direct(requester, other), Direct(requester, w))
    ensures Apart(Direct(requester, other), GroupChat(g)) && Apart(GroupChat(g), Direct(requester, other))
    ensures g != gid ==> Apart(GroupChat(gid), GroupChat(g))
  {
  }

  /** For any other user, or any conversation apart from the cleared one,
      clearing commutes with the query filter. */
  lemma {:induction false} SelectCleared(ms: seq<Message>, c: Conversation, u: Id, c2: Conversation, v: Id)
    requires v != u || Apart(c, c2)
    ensures Select(Cleared(ms, c, u), c2, v) == Cleared(Select(ms, c2, v), c, u)
    decreases |ms|
  {
    if ms != [] {
      ClearedPrefix(ms, c, u);
      SelectCleared(ms[..|ms| - 1], c, u, c2, v);
      var last := ms[|ms| - 1];
      assert Visible(Mark(last, c, u), c2, v) == Visible(last, c2, v);
      var p := Select(ms[..|ms| - 1], c2, v);
      if Visible(last, c2, v) {
        assert Select(ms, c2, v) == p + [last];
        assert (p + [last])[..|p|] == p;
        ClearedPrefix(p + [last], c, u);
      }
    }
  }

  lemma ClearedCons(x: Message, s: seq<Message>, c: Conversation, u: Id)
    ensures Cleared([x] + s, c, u) == [Mark(x, c, u)] + Cleared(s, c, u)
  {
  }

  lemma SortedCleared(s: seq<Message>, c: Conversation, u: Id)
    requires Sorted(s)
    ensures Sorted(Cleared(s, c, u))
  {
    var t := Cleared(s, c, u);
    forall i, j | 0 <= i < j < |t| ensures t[i].time <= t[j].time {
      assert t[i].time == s[i].time && t[j].time == s[j].time;
    }
  }

  /** Marking keeps every time, so it commutes with insertion. */
  lemma {:induction false} InsertCleared(x: Message, s: seq<Message>, c: Conversation, u: Id)
    requires Sorted(s)
    ensures Sorted(Cleared(s, c, u))
    ensures Insert(Mark(x, c, u), Cleared(s, c, u)) == Cleared(Insert(x, s), c, u)
    decreases |s|
  {
    SortedCleared(s, c, u);
    ClearedCons(x, s, c, u);
    if s != [] && x.time > s[0].time {
      assert s == [s[0]] + s[1..];
      ClearedCons(s[0], s[1..], c, u);
      InsertCleared(x, s[1..], c, u);
      ClearedCons(s[0], Insert(x, s[1..]), c, u);
    }
  }

  lemma {:induction false} SortCleared(s: seq<Message>, c: Conversation, u: Id)
    ensures SortByTime(Cleared(s, c, u)) == Cleared(SortByTime(s), c, u)
    decreases |s|
  {
    if s != [] {
      assert Cleared(s, c, u)[1..] == Cleared(s[1..], c, u);
      SortCleared(s[1..], c, u);
      InsertCleared(s[0], SortByTime(s[1..]), c, u);
    }
  }

  /** Decryption reads neither `deletedFor` nor anything a clear changes. */
  lemma {:induction false} OpenAllCleared(key: Key, s: seq<Message>, c: Conversation, u: Id)
    ensures OpenAll(key, Cleared(s, c, u)) == OpenAll(key, s)
    decreases |s|
  {
    if s != [] {
      assert Cleared(s, c, u)[1..] == Cleared(s[1..], c, u);
      OpenAllCleared(key, s[1..], c, u);
    }
  }

  /** A clear by `u` changes no other user's answer, for any conversation,
      and none of `u`'s own answers for a conversation apart from `c`. */
  lemma ClearIsLocal(key: Key, ms: seq<Message>, c: Conversation, u: Id, c2: Conversation, v: Id)
    requires v != u || Apart(c, c2)
    ensures OpenAll(key, Timeline(Cleared(ms, c, u), c2, v)) == OpenAll(key, Timeline(ms, c2, v))
  {
    SelectCleared(ms, c, u, c2, v);
    SortCleared(Select(ms, c2, v), c, u);
    OpenAllCleared(key, SortByTime(Select(ms, c2, v)), c, u);
  }

  /** `POST /chat/:user/clear` as the history routes then see it: the requester's
      history with `other` is empty; the requester's other direct histories, the
      requester's group histories and everyone else's histories are unchanged. */
  lemma DirectClearEffect(key: Key, groups: map<Id, Group>, ms: seq<Message>, requester: Id, other: Id)
    ensures DirectHistory(key, Cleared(ms, Direct(requester, other), requester), requester, other) == Ok([])
    ensures forall v, w :: v != requester ==>
      DirectHistory(key, Cleared(ms, Direct(requester, other), requester), v, w) == DirectHistory(key, ms, v, w)
    ensures forall w :: w != other ==>
      DirectHistory(key, Cleared(ms, Direct(requester, other), requester), requester, w)
        == DirectHistory(key, ms, requester, w)
    ensures forall v, g ::
      GroupHistory(key, groups, Cleared(ms, Direct(requester, other), requester), v, g)
        == GroupHistory(key, groups, ms, v, g)
  {
    var c := Direct(requester, other);
    ClearHides(ms, c, requester);
    forall v, w | v != requester
      ensures DirectHistory(key, Cleared(ms, c, requester), v, w) == DirectHistory(key, ms, v, w)
    {
      ClearIsLocal(key, ms, c, requester, Direct(v, w), v);
    }
    forall w | w != other
      ensures DirectHistory(key, Cleared(ms, c, requester), requester, w) == DirectHistory(key, ms, requester, w)
    {
      ApartCases(requester, other, w, "", "");
      ClearIsLocal(key, ms, c, requester, Direct(requester, w), requester);
    }
    forall v, g
      ensures GroupHistory(key, groups, Cleared(ms, c, requester), v, g) == GroupHistory(key, groups, ms, v, g)
    {
      ApartCases(requester, other, "", "", g);
      ClearIsLocal(key, ms, c, requester, GroupChat(g), v);
    }
  }

  /** `POST /group/:groupId/clear` as the group history route then sees it. */
  lemma GroupClearEffect(key: Key, groups: map<Id, Group>, ms: seq<Message>, requester: Id, gid: Id)
    requires gid in groups && requester in groups[gid].members
    ensures GroupHistory(key, groups, Cleared(ms, GroupChat(gid), requester), requester, gid) == Ok([])
    ensures forall v, g :: v != requester ==>
      GroupHistory(key, groups, Cleared(ms, GroupChat(gid), requester), v, g) == GroupHistory(key, groups, ms, v, g)
    ensures forall g :: g != gid ==>
      GroupHistory(key, groups, Cleared(ms, GroupChat(gid), requester), requester, g)
        == GroupHistory(key, groups, ms, requester, g)
    ensures forall v, w ::
      DirectHistory(key, Cleared(ms, GroupChat(gid), requester), v, w) == DirectHistory(key, ms, v, w)
  {
    var c := GroupChat(gid);
    ClearHides(ms, c, requester);
    forall v, g | v != requester
      ensures GroupHistory(key, groups, Cleared(ms, c, requester), v, g) == GroupHistory(key, groups, ms, v, g)
    {
      ClearIsLocal(key, ms, c, requester, GroupChat(g), v);
    }
    forall g | g != gid
      ensures GroupHistory(key, groups, Cleared(ms, c, requester), requester, g) == GroupHistory(key, groups, ms, requester, g)
    {
      ApartCases("", "", "", gid, g);
      ClearIsLocal(key, ms, c, requester, GroupChat(g), requester);
    }
    forall v, w
      ensures DirectHistory(key, Cleared(ms, c, requester), v, w) == DirectHistory(key, ms, v, w)
    {
      ApartCases(v, w, "", "", gid);
      ClearIsLocal(key, ms, c, requester, Direct(v, w), v);
    }
  }

  /** `deleteMany({ receiver: gid, isGroup: true })`: every other record stays, in order. */
  function Purge(ms: seq<Message>, gid: Id): (r: seq<Message>)
    ensures forall m :: multiset(r)[m] == if InConversation(m, GroupChat(gid)) then 0 else multiset(ms)[m]
    ensures |r| <= |ms|
    decreases |ms|
  {
    if ms == [] then []
    else
      var last := ms[|ms| - 1];
      assert ms == ms[..|ms| - 1] + [last];
      var p := Purge(ms[..|ms| - 1], gid);
      if InConversation(last, GroupChat(gid)) then p else p + [last]
  }

  /** The cascade leaves every direct conversation and every other group as it was. */
  lemma {:induction false} PurgeKeepsOthers(ms: seq<Message>, gid: Id, c: Conversation, v: Id)
    requires c != GroupChat(gid)
    ensures Select(Purge(ms, gid), c, v) == Select(ms, c, v)
    decreases |ms|
  {
    if ms != [] {
      var last := ms[|ms| - 1];
      var p := Purge(ms[..|ms| - 1], gid);
      PurgeKeepsOthers(ms[..|ms| - 1], gid, c, v);
      if !InConversation(last, GroupChat(gid)) {
        assert (p + [last])[..|p|] == p;
      } else {
        assert !Visible(last, c, v);
      }
    }
  }

  /** `DELETE /group/:groupId` as the history routes then see it: the group's
      history is gone, every direct history and every other group's history
      is as it was. */
  lemma DeleteGroupEffect(key: Key, groups: map<Id, Group>, ms: seq<Message>, gid: Id)
    ensures forall v :: GroupHistory(key, groups - {gid}, Purge(ms, gid), v, gid) == Err(NotFound)
    ensures forall v, w :: DirectHistory(key, Purge(ms, gid), v, w) == DirectHistory(key, ms, v, w)
    ensures forall v, g :: g != gid ==>
      GroupHistory(key, groups - {gid}, Purge(ms, gid), v, g) == GroupHistory(key, groups, ms, v, g)
  {
    forall v, w ensures DirectHistory(key, Purge(ms, gid), v, w) == DirectHistory(key, ms, v, w) {
      PurgeKeepsOthers(ms, gid, Direct(v, w), v);
    }
    forall v, g | g != gid
      ensures GroupHistory(key, groups - {gid}, Purge(ms, gid), v, g) == GroupHistory(key, groups, ms, v, g)
    {
      PurgeKeepsOthers(ms, gid, GroupChat(g), v);
    }
  }
}
