/**
 What chatting comes to: which poll a post is meant for and that it delivers it, and what deleting a
 user's notifications leaves.
 */
module ChatLaws {

  import opened Chat
  import opened ChatDelivery
  import opened ChatStore

  // --------------------------------------------------------------- channels

  /** Which poll reads which channel. */
  lemma ChannelClasses(name: string, user: string)
    ensures InClass("@" + user, TellClass) && InClass("^" + user, NotifClass) && InClass("$$local", ChatClass)
    ensures InClass(name, ChatClass) <==> name != "" && name[0] != '@' && name[0] != '^'
    ensures InClass(name, TellClass) <==> name != "" && name[0] == '@'
    ensures InClass(name, NotifClass) <==> name != "" && name[0] == '^'
  {
    assert ("@" + user)[0] == '@' && ("^" + user)[0] == '^' && "$$local"[0] == '$';
  }

  /** Only the local channel is shown under another name. */
  lemma ShownNames(name: string)
    ensures Shown("$$local") == "local"
    ensures name != "$$local" ==> Shown(name) == name
  {
  }

  // --------------------------------------------------------------- delivery

  /**
   A message that was just posted is returned by the next poll of the channel's class to exactly the
   users on its list, with its text; by the polls of other classes to nobody.
   */
  lemma PostIsDelivered(s: Store, channel: string, originator: string, text: string, to: seq<string>,
      names: seq<string>, c: Class, user: string)
    requires Valid(s)
    requires Lists(names, Post(s, channel, originator, text, to))
    ensures var s1, id := Post(s, channel, originator, text, to), s.lastId + 1;
            && id in s1.messages && s1.messages[id].text == text && s1.messages[id].originator == originator
            && (id in PollIds(s1, ClassIds(s1, names, c), user).1 <==> user in to && InClass(channel, c))
  {
    hide Post, Valid, InClass, PollIds, ClassIds;
    var s1, id := Post(s, channel, originator, text, to), s.lastId + 1;
    PostEffect(s, channel, originator, text, to);
    PostKeepsValid(s, channel, originator, text, to);
    PollAlone(s1, names, c, user);
    DueWhenListed(s1, id, user);
    if InHistories(s1, names, c, id) {
      var n :| n in names && InClass(n, c) && id in History(s1, n);
      if n != channel {
        HistoriesApart(s1, n, channel);
      }
    }
    ChannelThere(s, channel, originator, text, to);
  }

  lemma ChannelThere(s: Store, channel: string, originator: string, text: string, to: seq<string>)
    ensures channel in Post(s, channel, originator, text, to).channels
  {
  }

  lemma DueWhenListed(s: Store, id: Id, user: string)
    requires id in s.messages && Aligned(s.messages[id])
    requires forall k :: 0 <= k < |s.messages[id].sent| ==> !s.messages[id].sent[k]
    ensures Due(s, id, user) <==> user in s.messages[id].recipients
  {
    var names := s.messages[id].recipients;
    var i := IndexOf(names, user);
    assert i < |names| ==> names[i] in names;
  }

  /** A channel's history has a hundred ids, or all that were posted if they are fewer. */
  lemma HundredInHistory(s: Store, channel: string)
    requires Valid(s) && channel in s.channels
    ensures |History(s, channel)| == if |Log(s, channel)| < 100 then |Log(s, channel)| else 100
    ensures forall k :: 0 <= k < |History(s, channel)| ==>
              History(s, channel)[k] == Log(s, channel)[|Log(s, channel)| - |History(s, channel)| + k]
  {
    hide Valid, History, Log;
    HistoryIsLast(s, channel);
  }

  lemma HistoryIsLast(s: Store, channel: string)
    requires Valid(s) && channel in s.channels
    ensures History(s, channel) == Last(Log(s, channel), 100)
  {
    hide Last, Ascending, History, Log;
    assert HistoryOk(s, channel);
  }

  // --------------------------------------------------------------- deletion

  /** The ids of all histories are those of the stored messages, each once. */
  lemma {:induction false} AllIdsExact(s: Store, names: seq<string>)
    requires Valid(s) && Distinct(names) && forall n :: n in names ==> n in s.channels
    ensures Distinct(AllIds(s, names))
    ensures forall id :: id in AllIds(s, names) <==> exists n :: n in names && id in History(s, n)
  {
    hide Last, Valid, History;
    if names != [] {
      var tail := names[1..];
      AllIdsExact(s, tail);
      assert names == [names[0]] + tail && names[0] !in tail;
      var head := History(s, names[0]);
      EmptyHistoryOk(s, names[0]);
      forall id | id in head
        ensures id !in AllIds(s, tail)
      {
        if id in AllIds(s, tail) {
          var n :| n in tail && id in History(s, n);
          HistoriesApart(s, names[0], n);
        }
      }
      assert Distinct(head) by { assert Ascending(History(s, names[0])); }
      DistinctConcat(head, AllIds(s, tail));
      forall id
        ensures id in AllIds(s, names) <==> exists n :: n in names && id in History(s, n)
      {
        assert id in AllIds(s, names) <==> id in head || id in AllIds(s, tail);
        if id in head {
          assert names[0] in names;
        }
      }
    }
  }

  /** Striking a list of distinct ids strikes each of them once and no other message. */
  lemma {:induction false} StrikeIdsExact(s: Store, ids: seq<Id>, user: string, id: Id)
    requires Distinct(ids)
    ensures var s' := StrikeIds(s, ids, user);
            && s'.messages.Keys == s.messages.Keys && s' == s.(messages := s'.messages)
            && (id in s.messages ==> s'.messages[id] == if id in ids then Strike(s, id, user).messages[id] else s.messages[id])
    decreases |ids|
  {
    if ids != [] {
      var s1, tail := Strike(s, ids[0], user), ids[1..];
      StrikeIdsExact(s1, tail, user, id);
      assert ids[0] !in tail;
      assert ids == [ids[0]] + tail;
    }
  }

  /** The list without the first of a name's places. */
  ghost predicate OnePlaceLess(names: seq<string>, left: seq<string>, name: string) {
    if name in names then
      exists i :: 0 <= i < |names| && names[i] == name && name !in names[..i] && left == names[..i] + names[i + 1..]
    else left == names
  }

  /**
   Deleting a user's notifications takes the first place the user has off every stored message, and
   leaves the messages, their texts, the channels and what is due to everybody else.
   */
  lemma DeletionLeaves(s: Store, names: seq<string>, user: string, id: Id, other: string)
    requires Valid(s) && Lists(names, s)
    ensures var s' := StrikeIds(s, AllIds(s, names), user);
            && s'.messages.Keys == s.messages.Keys && s'.channels == s.channels && s'.lastId == s.lastId
            && (id in s.messages ==>
                  var m, m' := s.messages[id], s'.messages[id];
                  && OnePlaceLess(m.recipients, m'.recipients, user) && Aligned(m')
                  && m'.text == m.text && m'.originator == m.originator)
            && (other != user ==> (Due(s', id, other) <==> Due(s, id, other)))
            && (id in s.messages && multiset(s.messages[id].recipients)[user] <= 1 ==> !Due(s', id, user))
  {
    hide Valid, Due, StrikeIds, Strike;
    AllIdsExact(s, names);
    StrikeIdsExact(s, AllIds(s, names), user, id);
    if id in s.messages {
      ValidMessage(s, id);
      StrikeEffect(s, id, user, other);
      var n :| n in s.channels && id in History(s, n);
      assert id in AllIds(s, names);
      SameDue(StrikeIds(s, AllIds(s, names), user), Strike(s, id, user), id, user);
      SameDue(StrikeIds(s, AllIds(s, names), user), Strike(s, id, user), id, other);
    } else {
      NotDue(s, id, other);
      NotDue(StrikeIds(s, AllIds(s, names), user), id, other);
    }
  }

  lemma ValidMessage(s: Store, id: Id)
    requires Valid(s)
    ensures id in s.messages ==> Aligned(s.messages[id]) && Filed(s, id)
  {
  }

  lemma SameDue(s: Store, t: Store, id: Id, user: string)
    requires id in s.messages && id in t.messages && s.messages[id] == t.messages[id]
    ensures Due(s, id, user) == Due(t, id, user)
  {
  }

  lemma NotDue(s: Store, id: Id, user: string)
    requires id !in s.messages
    ensures !Due(s, id, user)
  {
  }

  lemma StrikeEffect(s: Store, id: Id, user: string, other: string)
    requires id in s.messages && Aligned(s.messages[id])
    ensures var s' := Strike(s, id, user);
            && id in s'.messages
            && var m, m' := s.messages[id], s'.messages[id];
            && OnePlaceLess(m.recipients, m'.recipients, user) && Aligned(m')
            && m'.text == m.text && m'.originator == m.originator
            && (other != user ==> (Due(s', id, other) <==> Due(s, id, other)))
            && (multiset(m.recipients)[user] <= 1 ==> !Due(s', id, user))
  {
    hide Due, IndexOf, RemoveAt, OnePlaceLess;
    var m := s.messages[id];
    var i := IndexOf(m.recipients, user);
    FirstPlaceGoes(m.recipients, user);
    if i < |m.recipients| {
      if other != user {
        OtherPlaceMoves(s, id, i, other);
      }
      RemovedLengths(m, i);
    }
    if multiset(m.recipients)[user] <= 1 {
      UndueWithoutPlace(Strike(s, id, user), id, user);
    }
  }

  lemma RemovedLengths(m: Message, i: nat)
    requires Aligned(m) && i < |m.recipients|
    ensures |RemoveAt(m.recipients, i)| == |RemoveAt(m.sent, i)|
  {
  }

  lemma FirstPlaceGoes(names: seq<string>, user: string)
    ensures var i := IndexOf(names, user);
            var left := if i < |names| then RemoveAt(names, i) else names;
            && OnePlaceLess(names, left, user)
            && (multiset(names)[user] <= 1 ==> IndexOf(left, user) == |left|)
  {
    hide IndexOf;
    var i := IndexOf(names, user);
    if i < |names| {
      assert user !in names[..i];
      RemoveAtCounts(names, i);
      IndexOfFirst(RemoveAt(names, i), user);
    } else {
      assert user !in names;
    }
  }

  lemma UndueWithoutPlace(s: Store, id: Id, user: string)
    requires id in s.messages && IndexOf(s.messages[id].recipients, user) == |s.messages[id].recipients|
    ensures !Due(s, id, user)
  {
  }

  /** Another user's first place moves along with its flag. */
  lemma OtherPlaceMoves(s: Store, id: Id, i: nat, other: string)
    requires id in s.messages && Aligned(s.messages[id]) && i < |s.messages[id].recipients|
    requires s.messages[id].recipients[i] != other
    ensures var m := s.messages[id];
            var m' := m.(recipients := RemoveAt(m.recipients, i), sent := RemoveAt(m.sent, i));
            Due(s.(messages := s.messages[id := m']), id, other) <==> Due(s, id, other)
  {
    var m := s.messages[id];
    var k := IndexOf(m.recipients, other);
    var left := RemoveAt(m.recipients, i);
    var l := IndexOf(left, other);
    assert forall p :: 0 <= p < |left| ==> left[p] == m.recipients[if p < i then p else p + 1];
    var moved := if k < i then k else k - 1;
    if k < |m.recipients| {
      assert left[moved] == other;
      assert forall p :: 0 <= p < moved ==> left[p] != other;
      assert l == moved;
    } else {
      assert l == |left|;
    }
  }
}
