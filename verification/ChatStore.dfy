/**
 The chat program: posting with its pruning loop, and the polling and deleting loops over a list
 of channels read beforehand. The three polls of the program differ in the channel class and in
 whether they return the channel's name, so they are one method here.
 */
module ChatStore {

  import opened Chat
  import opened ChatDelivery

  /** The name a channel is shown under. */
  function Shown(channel: string): string {
    if channel == "$$local" then "local" else channel
  }

  datatype Polled = Polled(channel: string, id: Id, msg: Message)

  /** The deletions of a user's places over a list of ids. */
  function StrikeIds(s: Store, ids: seq<Id>, user: string): Store
    decreases |ids|
  {
    if ids == [] then s else StrikeIds(Strike(s, ids[0], user), ids[1..], user)
  }

  /** The histories of all listed channels. */
  function AllIds(s: Store, names: seq<string>): seq<Id> {
    if names == [] then [] else History(s, names[0]) + AllIds(s, names[1..])
  }

  /** A poll returned the message under a channel of the class that has it. */
  ghost predicate FromClass(s: Store, names: seq<string>, c: Class, p: Polled) {
    && p.id in s.messages && p.msg.text == s.messages[p.id].text && p.msg.originator == s.messages[p.id].originator
    && exists n :: n in names && InClass(n, c) && p.id in History(s, n) && p.channel == Shown(n)
  }

  /** A poll's result with ids returned earlier in front. */
  function Then(got: seq<Id>, r: (Store, seq<Id>)): (Store, seq<Id>) {
    (r.0, got + r.1)
  }

  lemma ThenNothing(r: (Store, seq<Id>))
    ensures Then([], r) == r
  {
    assert [] + r.1 == r.1;
  }

  lemma ThenMore(got: seq<Id>, more: seq<Id>, r: (Store, seq<Id>))
    ensures Then(got, Then(more, r)) == Then(got + more, r)
  {
    assert got + (more + r.1) == got + more + r.1;
  }

  lemma PollStep(s: Store, id: Id, rest: seq<Id>, user: string)
    ensures PollIds(s, [id] + rest, user) ==
            Then(if Due(s, id, user) then [id] else [], PollIds(Visit(s, id, user), rest, user))
  {
    assert ([id] + rest)[1..] == rest;
  }

  lemma StrikeStep(s: Store, id: Id, rest: seq<Id>, user: string)
    ensures StrikeIds(s, [id] + rest, user) == StrikeIds(Strike(s, id, user), rest, user)
  {
    assert ([id] + rest)[1..] == rest;
  }

  lemma PollNothing(s: Store, got: seq<Id>, user: string)
    ensures Then(got, PollIds(s, [], user)) == (s, got)
  {
    assert got + [] == got;
  }

  /** Texts and senders never change. */
  ghost predicate SameTexts(s: Store, s': Store) {
    forall id :: id in s'.messages ==>
      id in s.messages && s'.messages[id].text == s.messages[id].text && s'.messages[id].originator == s.messages[id].originator
  }

  class ChatServer {
    var messages: map<Id, Message>
    var channels: map<string, Channel>
    var lastId: Id
    ghost var posted: map<string, seq<Id>>

    ghost function State(): Store
      reads this
    {
      Store(messages, channels, lastId, posted)
    }

    constructor ()
      ensures State() == START.store
    {
      messages, channels, lastId, posted := map[], map[], 0, map[];
    }

    /** Removes the messages that leave the history, one by one, and shortens it. */
    method PruneChatHistory(history: seq<Id>) returns (kept: seq<Id>)
      modifies this`messages
      ensures (messages, kept) == Prune(old(messages), history)
    {
      var numToErase := |history| - HISTORY_LIMIT;
      if numToErase <= 0 {
        return history;
      }
      ghost var before := messages;
      for i := 0 to numToErase
        invariant messages == before - (set k | 0 <= k < i :: history[k])
      {
        messages := messages - {history[i]};
      }
      kept := history[numToErase..];
    }

    /** The common part of the four kinds of post: store, append, prune. */
    method PostTo(channel: string, originator: string, text: string, to: seq<string>)
      modifies this
      ensures State() == Post(old(State()), channel, originator, text, to)
    {
      lastId := lastId + 1;
      messages := messages[lastId := Message(originator, text, to, Unsent(|to|))];
      var chan := if channel in channels then channels[channel] else Channel([], []);
      var history := PruneChatHistory(chan.history + [lastId]);
      channels := channels[channel := chan.(history := history)];
      posted := posted[channel := (if channel in posted then posted[channel] else []) + [lastId]];
    }

    method SayInLocal(text: string, to: seq<string>, originator: string)
      modifies this
      ensures State() == Post(old(State()), "$$local", originator, text, to)
    {
      PostTo("$$local", originator, text, to);
    }

    method SayInChannel(text: string, channel: string, originator: string) returns (ok: bool)
      modifies this
      ensures ok == (channel in old(channels))
      ensures State() == if ok then Post(old(State()), channel, originator, text, old(channels)[channel].users)
                         else old(State())
    {
      if channel !in channels {
        return false;
      }
      PostTo(channel, originator, text, channels[channel].users);
      ok := true;
    }

    method TellTo(text: string, user: string, originator: string)
      modifies this
      ensures State() == Post(old(State()), "@" + user, originator, text, [user])
    {
      PostTo("@" + user, originator, text, [user]);
    }

    method CreateNotifTo(text: string, user: string)
      modifies this
      ensures State() == Post(old(State()), "^" + user, "$core", text, [user])
    {
      PostTo("^" + user, "$core", text, [user]);
    }

    /** One transaction of a poll. */
    method VisitMessage(id: Id, user: string) returns (due: bool)
      modifies this`messages
      ensures due == Due(old(State()), id, user)
      ensures State() == Visit(old(State()), id, user)
      ensures due ==> id in messages && id in old(messages)
      ensures SameTexts(old(State()), State())
    {
      due := false;
      if id in messages {
        var msg := messages[id];
        var offset := IndexOf(msg.recipients, user);
        if offset < |msg.recipients| && offset < |msg.sent| && !msg.sent[offset] {
          messages := messages[id := msg.(sent := msg.sent[offset := true])];
          due := true;
        }
      }
    }

    /** The inner loop of a poll: one channel's history. */
    method PollChannel(shown: string, ids: seq<Id>, user: string, ghost rest: seq<Id>) returns (ret: seq<Polled>, ghost got: seq<Id>)
      modifies this`messages
      ensures PollIds(old(State()), ids + rest, user) == Then(got, PollIds(State(), rest, user))
      ensures |ret| == |got| && SameTexts(old(State()), State())
      ensures forall k :: 0 <= k < |ret| ==>
                && ret[k].id == got[k] && ret[k].channel == shown && got[k] in ids && got[k] in old(messages)
                && ret[k].msg.text == old(messages)[got[k]].text && ret[k].msg.originator == old(messages)[got[k]].originator
    {
      hide PollIds, Due, Visit, Then;
      ret, got := [], [];
      ghost var s0 := State();
      ghost var goal := PollIds(s0, ids + rest, user);
      ThenNothing(goal);
      assert ids[0..] == ids;
      for i := 0 to |ids|
        invariant |ret| == |got| && SameTexts(s0, State())
        invariant goal == Then(got, PollIds(State(), ids[i..] + rest, user))
        invariant forall k :: 0 <= k < |ret| ==>
                    && ret[k].id == got[k] && ret[k].channel == shown && got[k] in ids && got[k] in s0.messages
                    && ret[k].msg.text == s0.messages[got[k]].text && ret[k].msg.originator == s0.messages[got[k]].originator
      {
        assert ids[i..] + rest == [ids[i]] + (ids[i + 1..] + rest);
        PollStep(State(), ids[i], ids[i + 1..] + rest, user);
        ghost var more := if Due(State(), ids[i], user) then [ids[i]] else [];
        var due := VisitMessage(ids[i], user);
        if due {
          ret := ret + [Polled(shown, ids[i], messages[ids[i]])];
        }
        ThenMore(got, more, PollIds(State(), ids[i + 1..] + rest, user));
        got := got + more;
      }
      assert ids[|ids|..] + rest == rest;
    }

    /** A poll: the channels are read first, in the order `names`, and then each message is visited by itself. */
    method GetAndUpdate(c: Class, user: string, names: seq<string>) returns (ret: seq<Polled>, ghost got: seq<Id>)
      requires forall n :: n in names ==> n in channels
      modifies this`messages
      ensures (State(), got) == PollIds(old(State()), ClassIds(old(State()), names, c), user)
      ensures |ret| == |got| && forall k :: 0 <= k < |ret| ==> ret[k].id == got[k] && FromClass(old(State()), names, c, ret[k])
    {
      hide PollIds, InClass, Then;
      ghost var s0 := State();
      ghost var goal := PollIds(s0, ClassIds(s0, names, c), user);
      ret, got := [], [];
      ThenNothing(goal);
      assert names[0..] == names;
      for j := 0 to |names|
        invariant |ret| == |got| && SameTexts(s0, State())
        invariant goal == Then(got, PollIds(State(), ClassIds(s0, names[j..], c), user))
        invariant forall k :: 0 <= k < |ret| ==> ret[k].id == got[k] && FromClass(s0, names, c, ret[k])
      {
        assert names[j..][0] == names[j] && names[j..][1..] == names[j + 1..];
        ghost var rest := ClassIds(s0, names[j + 1..], c);
        assert [] + rest == rest;
        if InClass(names[j], c) {
          ghost var got1;
          var ret1;
          ret1, got1 := PollChannel(Shown(names[j]), channels[names[j]].history, user, rest);
          forall k | 0 <= k < |ret1|
            ensures FromClass(s0, names, c, ret1[k])
          {
            assert names[j] in names && ret1[k].id in History(s0, names[j]);
          }
          ThenMore(got, got1, PollIds(State(), rest, user));
          ret, got := ret + ret1, got + got1;
        }
      }
      assert names[|names|..] == [];
      PollNothing(State(), got, user);
    }

    /** The loop of delete_notifs_for over the ids of the channels read beforehand. */
    method DeleteNotifsFor(user: string, names: seq<string>)
      requires forall n :: n in names ==> n in channels
      modifies this`messages
      ensures State() == StrikeIds(old(State()), AllIds(old(State()), names), user)
    {
      hide StrikeIds, Strike;
      ghost var s0 := State();
      ghost var goal := StrikeIds(s0, AllIds(s0, names), user);
      assert names[0..] == names;
      for j := 0 to |names|
        invariant goal == StrikeIds(State(), AllIds(s0, names[j..]), user)
      {
        assert names[j..][0] == names[j] && names[j..][1..] == names[j + 1..];
        var ids := channels[names[j]].history;
        ghost var rest := AllIds(s0, names[j + 1..]);
        assert ids[0..] == ids;
        for i := 0 to |ids|
          invariant goal == StrikeIds(State(), ids[i..] + rest, user)
        {
          assert ids[i..] + rest == [ids[i]] + (ids[i + 1..] + rest);
          StrikeStep(State(), ids[i], ids[i + 1..] + rest, user);
          StrikeMessage(ids[i], user);
        }
        assert ids[|ids|..] + rest == rest;
      }
      assert names[|names|..] == [];
      StrikeNothing(State(), user);
    }

    /** One transaction of the deletion. */
    method StrikeMessage(id: Id, user: string)
      modifies this`messages
      ensures State() == Strike(old(State()), id, user)
    {
      if id in messages {
        var msg := messages[id];
        var offset := IndexOf(msg.recipients, user);
        if offset < |msg.recipients| && offset < |msg.sent| {
          messages := messages[id := msg.(recipients := RemoveAt(msg.recipients, offset), sent := RemoveAt(msg.sent, offset))];
        }
      }
    }
  }

  lemma StrikeNothing(s: Store, user: string)
    ensures StrikeIds(s, [], user) == s
  {
  }
}
