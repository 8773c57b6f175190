/**
 The chat store: channels with bounded histories, messages with a sent flag per recipient, and
 polls that visit one message per transaction, from a list of ids read earlier.
 */
module Chat {

  const HISTORY_LIMIT := 100

  type Id = nat

  datatype Message = Message(originator: string, text: string, recipients: seq<string>, sent: seq<bool>)

  datatype Channel = Channel(users: seq<string>, history: seq<Id>)

  /** `lastId` is the id counter; `posted` is history: every id ever posted to a channel, in order. */
  datatype Store = Store(messages: map<Id, Message>, channels: map<string, Channel>, lastId: Id,
                         posted: map<string, seq<Id>>)

  // ----------------------------------------------------------------- channel classes

  datatype Class = ChatClass | TellClass | NotifClass

  predicate IsChatChannel(name: string) {
    if |name| == 0 then false
    else if name == "$$local" then true
    else name[0] != '@' && name[0] != '^'
  }

  predicate IsTellChannel(name: string) {
    if |name| == 0 || name == "$$local" then false else name[0] == '@'
  }

  predicate IsNotifChannel(name: string) {
    |name| != 0 && name[0] == '^'
  }

  predicate InClass(name: string, c: Class) {
    match c
    case ChatClass => IsChatChannel(name)
    case TellClass => IsTellChannel(name)
    case NotifClass => IsNotifChannel(name)
  }

  /** Every channel with a name is polled by exactly one of the three polls, one without by none. */
  lemma OneClassEach(name: string)
    ensures name != "" ==> exists c :: InClass(name, c)
    ensures forall c, d :: InClass(name, c) && InClass(name, d) ==> c == d
    ensures name == "" ==> forall c :: !InClass(name, c)
  {
    if name != "" {
      assert InClass(name, if name[0] == '@' then TellClass else if name[0] == '^' then NotifClass else ChatClass);
    }
  }

  // -------------------------------------------------------------------------- posts

  function Unsent(n: nat): (sent: seq<bool>)
    ensures |sent| == n && forall i :: 0 <= i < n ==> !sent[i]
  {
    seq(n, _ => false)
  }

  /** The last `n` of a sequence, or all of it. */
  function Last(ids: seq<Id>, n: nat): seq<Id> {
    if |ids| <= n then ids else ids[|ids| - n..]
  }

  function Prune(messages: map<Id, Message>, history: seq<Id>): (map<Id, Message>, seq<Id>) {
    var n := |history| - HISTORY_LIMIT;
    if n <= 0 then (messages, history)
    else (messages - (set i | 0 <= i < n :: history[i]), history[n..])
  }

  /** A new message at the end of a channel, which is created if it is not there. */
  function Post(s: Store, channel: string, originator: string, text: string, recipients: seq<string>): Store {
    var id := s.lastId + 1;
    var chan := if channel in s.channels then s.channels[channel] else Channel([], []);
    var log := if channel in s.posted then s.posted[channel] else [];
    var (messages, history) := Prune(
      s.messages[id := Message(originator, text, recipients, Unsent(|recipients|))], chan.history + [id]);
    Store(messages, s.channels[channel := chan.(history := history)], id, s.posted[channel := log + [id]])
  }

  // ------------------------------------------------------------------------- visits

  function IndexOf(names: seq<string>, name: string): (i: nat)
    ensures i <= |names|
    ensures i < |names| ==> names[i] == name
    ensures forall k :: 0 <= k < i ==> names[k] != name
  {
    if names == [] || names[0] == name then 0 else 1 + IndexOf(names[1..], name)
  }

  /** The message is stored, and the first place the user has on its list is not marked as sent. */
  predicate Due(s: Store, id: Id, user: string) {
    && id in s.messages
    && var m := s.messages[id];
       IndexOf(m.recipients, user) < |m.recipients|
       && IndexOf(m.recipients, user) < |m.sent|
       && !m.sent[IndexOf(m.recipients, user)]
  }

  /** One poll transaction: mark the message as sent to the user, if it is due. */
  function Visit(s: Store, id: Id, user: string): Store {
    if !Due(s, id, user) then s
    else
      var m := s.messages[id];
      s.(messages := s.messages[id := m.(sent := m.sent[IndexOf(m.recipients, user) := true])])
  }

  function RemoveAt<T>(s: seq<T>, i: nat): seq<T>
    requires i < |s|
  {
    s[..i] + s[i + 1..]
  }

  /** One transaction of deleting a user's notifications: the user's first place goes, flag and all. */
  function Strike(s: Store, id: Id, user: string): Store {
    if id !in s.messages then s
    else
      var m := s.messages[id];
      var i := IndexOf(m.recipients, user);
      if i >= |m.recipients| || i >= |m.sent| then s
      else s.(messages := s.messages[id := m.(recipients := RemoveAt(m.recipients, i), sent := RemoveAt(m.sent, i))])
  }

  // --------------------------------------------------------------------- invariant

  ghost predicate Ascending(ids: seq<Id>) {
    forall i, j :: 0 <= i < j < |ids| ==> ids[i] < ids[j]
  }

  /** Recipients and flags go together. */
  ghost predicate Aligned(m: Message) { |m.recipients| == |m.sent| }

  function History(s: Store, c: string): seq<Id> {
    if c in s.channels then s.channels[c].history else []
  }

  function Log(s: Store, c: string): seq<Id> {
    if c in s.posted then s.posted[c] else []
  }

  /** A channel's history is the last hundred ids posted to it, in posting order, and their messages are stored. */
  ghost predicate HistoryOk(s: Store, c: string) {
    && History(s, c) == Last(Log(s, c), HISTORY_LIMIT)
    && Ascending(History(s, c))
    && forall id :: id in History(s, c) ==> id in s.messages && id <= s.lastId
  }

  /** The stored messages are exactly those in the histories, and each is in one history only. */
  ghost predicate Valid(s: Store) {
    && s.posted.Keys <= s.channels.Keys
    && (forall c :: c in s.channels ==> HistoryOk(s, c))
    && (forall c, d :: c in s.channels && d in s.channels && c != d ==> Disjoint(History(s, c), History(s, d)))
    && (forall id :: id in s.messages ==> Aligned(s.messages[id]) && Filed(s, id))
  }

  ghost predicate Disjoint(x: seq<Id>, y: seq<Id>) {
    forall id :: id in x ==> id !in y
  }

  /** Some channel has the id in its history. */
  ghost predicate Filed(s: Store, id: Id) {
    exists c :: c in s.channels && id in History(s, c)
  }

  lemma LastOfMore(log: seq<Id>, id: Id)
    ensures Last(log + [id], HISTORY_LIMIT) == Last(Last(log, HISTORY_LIMIT) + [id], HISTORY_LIMIT)
  {
  }

  /** What pruning an ascending history takes away: exactly the ids that leave it. */
  lemma Pruned(messages: map<Id, Message>, history: seq<Id>)
    requires Ascending(history)
    ensures var (messages', history') := Prune(messages, history);
            && history' == Last(history, HISTORY_LIMIT) && Ascending(history')
            && (forall id :: id in history' ==> id in history)
            && (forall id :: id in messages' <==> id in messages && (id in history ==> id in history'))
            && (forall id :: id in messages' ==> messages'[id] == messages[id])
  {
    var (messages', history') := Prune(messages, history);
    var n := |history| - HISTORY_LIMIT;
    if n > 0 {
      assert forall k :: 0 <= k < |history'| ==> history'[k] == history[n + k];
      forall id | id in messages
        ensures id in messages' <==> (id in history ==> id in history')
      {
        if id in history {
          var k :| 0 <= k < |history| && history[k] == id;
          if k >= n {
            assert history'[k - n] == id;
          }
        }
      }
    }
  }

  /** A post and the messages: the new one is stored, and those that leave the history go. */
  lemma PostMessages(s: Store, channel: string, originator: string, text: string, recipients: seq<string>)
    requires Valid(s)
    ensures var s', id := Post(s, channel, originator, text, recipients), s.lastId + 1;
            && (forall x :: x in s'.messages ==> (x == id || x in s.messages) && (x in History(s, channel) ==> x in History(s', channel)))
            && (forall x :: x in s.messages && (x in History(s, channel) ==> x in History(s', channel)) ==> x in s'.messages)
            && (forall x :: x in s'.messages && x != id ==> s'.messages[x] == s.messages[x])
            && id in s'.messages && s'.messages[id] == Message(originator, text, recipients, Unsent(|recipients|))
  {
    hide Last, Ascending, Prune, Post, HistoryOk, History, Valid, Unsent;
    var before, id := History(s, channel), s.lastId + 1;
    var m := Message(originator, text, recipients, Unsent(|recipients|));
    BeforePost(s, channel);
    Pruned(s.messages[id := m], before + [id]);
    LastKeepsEnd(before, id);
    PostShape(s, channel, originator, text, recipients);
    assert forall x :: x in before + [id] <==> x in before || x == id;
  }

  /** A post and the histories: its own gets the new id at its end, the others stay. */
  lemma PostHistories(s: Store, channel: string, originator: string, text: string, recipients: seq<string>)
    requires Valid(s)
    ensures var s', id := Post(s, channel, originator, text, recipients), s.lastId + 1;
            && History(s', channel) == Last(Log(s', channel), HISTORY_LIMIT)
            && Ascending(History(s', channel)) && id in History(s', channel)
            && (forall x :: x in History(s', channel) ==> x == id || x in History(s, channel))
            && (forall c :: c in s.channels && c != channel ==> c in s'.channels && History(s', c) == History(s, c))
  {
    hide Last, Ascending, Prune, Post, HistoryOk, History, Valid;
    var before, id := History(s, channel), s.lastId + 1;
    BeforePost(s, channel);
    Pruned(s.messages[id := Message(originator, text, recipients, Unsent(|recipients|))], before + [id]);
    LastOfMore(Log(s, channel), id);
    LastKeepsEnd(before, id);
    PostShape(s, channel, originator, text, recipients);
    assert forall x :: x in before + [id] <==> x in before || x == id;
  }

  lemma BeforePost(s: Store, channel: string)
    requires Valid(s)
    ensures History(s, channel) == Last(Log(s, channel), HISTORY_LIMIT)
    ensures Ascending(History(s, channel) + [s.lastId + 1]) && s.lastId + 1 !in History(s, channel)
  {
    hide Last, Ascending;
    EmptyHistoryOk(s, channel);
    Extended(History(s, channel), s.lastId + 1);
  }

  /** A post and what it changes, in one place. */
  lemma PostEffect(s: Store, channel: string, originator: string, text: string, recipients: seq<string>)
    requires Valid(s)
    ensures var s', id := Post(s, channel, originator, text, recipients), s.lastId + 1;
            && s'.lastId == id && HistoryOk(s', channel) && id in History(s', channel)
            && (forall c :: c in s.channels && c != channel ==> c in s'.channels && History(s', c) == History(s, c))
            && (forall x :: x in History(s', channel) ==> x == id || x in History(s, channel))
            && (forall x :: x in s'.messages ==> (x == id || x in s.messages) && (x in History(s, channel) ==> x in History(s', channel)))
            && (forall x :: x in s.messages && (x in History(s, channel) ==> x in History(s', channel)) ==> x in s'.messages)
            && (forall x :: x in s'.messages && x != id ==> s'.messages[x] == s.messages[x])
            && id in s'.messages && s'.messages[id] == Message(originator, text, recipients, Unsent(|recipients|))
  {
    hide Last, Ascending, Post, History;
    PostMessages(s, channel, originator, text, recipients);
    PostHistories(s, channel, originator, text, recipients);
    PostShape(s, channel, originator, text, recipients);
    EmptyHistoryOk(s, channel);
  }

  lemma PostShape(s: Store, channel: string, originator: string, text: string, recipients: seq<string>)
    ensures var s', id := Post(s, channel, originator, text, recipients), s.lastId + 1;
            var m := Message(originator, text, recipients, Unsent(|recipients|));
            && (s'.messages, History(s', channel)) == Prune(s.messages[id := m], History(s, channel) + [id])
            && s'.lastId == id && Log(s', channel) == Log(s, channel) + [id]
            && forall c :: c in s.channels && c != channel ==> c in s'.channels && History(s', c) == History(s, c)
  {
  }

  lemma EmptyHistoryOk(s: Store, channel: string)
    requires Valid(s)
    ensures HistoryOk(s, channel)
  {
  }

  lemma Extended(before: seq<Id>, id: Id)
    requires Ascending(before) && forall x :: x in before ==> x < id
    ensures Ascending(before + [id]) && id !in before
  {
    assert forall k :: 0 <= k < |before| ==> before[k] in before;
  }

  lemma LastKeepsEnd(before: seq<Id>, id: Id)
    ensures id in Last(before + [id], HISTORY_LIMIT)
  {
    var h := Last(before + [id], HISTORY_LIMIT);
    assert h[|h| - 1] == id;
  }

  /** A post leaves every history bounded and in order, and no message without a history or in two. */
  lemma PostKeepsValid(s: Store, channel: string, originator: string, text: string, recipients: seq<string>)
    requires Valid(s)
    ensures Valid(Post(s, channel, originator, text, recipients))
  {
    hide Last, Ascending, Post, HistoryOk, Filed, Disjoint, Aligned, History;
    var s' := Post(s, channel, originator, text, recipients);
    PostKeys(s, channel, originator, text, recipients);
    forall c | c in s'.channels
      ensures HistoryOk(s', c)
    {
      PostHistory(s, channel, originator, text, recipients, c);
    }
    forall c, d | c in s'.channels && d in s'.channels && c != d
      ensures Disjoint(History(s', c), History(s', d))
    {
      PostDisjoint(s, channel, originator, text, recipients, c, d);
    }
    forall m | m in s'.messages
      ensures Aligned(s'.messages[m]) && Filed(s', m)
    {
      PostFiled(s, channel, originator, text, recipients, m);
    }
  }

  lemma PostKeys(s: Store, channel: string, originator: string, text: string, recipients: seq<string>)
    requires Valid(s)
    ensures var s' := Post(s, channel, originator, text, recipients);
            s'.channels.Keys == s.channels.Keys + {channel} && s'.posted.Keys <= s'.channels.Keys
  {
  }

  lemma PostHistory(s: Store, channel: string, originator: string, text: string, recipients: seq<string>, c: string)
    requires Valid(s) && (c in s.channels || c == channel)
    ensures HistoryOk(Post(s, channel, originator, text, recipients), c)
  {
    hide Last, Ascending, Prune;
    var s' := Post(s, channel, originator, text, recipients);
    PostEffect(s, channel, originator, text, recipients);
    if c != channel {
      assert HistoryOk(s, c);
      assert Log(s', c) == Log(s, c);
      assert channel in s.channels ==> Disjoint(History(s, c), History(s, channel));
    }
  }

  lemma PostDisjoint(s: Store, channel: string, originator: string, text: string, recipients: seq<string>, c: string, d: string)
    requires Valid(s) && (c in s.channels || c == channel) && (d in s.channels || d == channel) && c != d
    ensures var s' := Post(s, channel, originator, text, recipients); Disjoint(History(s', c), History(s', d))
  {
    hide Last, Ascending, Post;
    PostEffect(s, channel, originator, text, recipients);
    if c in s.channels {
      assert HistoryOk(s, c);
    }
    if d in s.channels {
      assert HistoryOk(s, d);
    }
    if c in s.channels && d in s.channels {
      assert Disjoint(History(s, c), History(s, d));
    }
  }

  lemma PostFiled(s: Store, channel: string, originator: string, text: string, recipients: seq<string>, m: Id)
    requires Valid(s) && m in Post(s, channel, originator, text, recipients).messages
    ensures var s' := Post(s, channel, originator, text, recipients); Aligned(s'.messages[m]) && Filed(s', m)
  {
    hide Last, Ascending, Prune, HistoryOk;
    var s' := Post(s, channel, originator, text, recipients);
    PostEffect(s, channel, originator, text, recipients);
    if m != s.lastId + 1 {
      var c :| c in s.channels && m in History(s, c);
      assert m in History(s', c);
    }
  }
}
