/**
 Delivery of chat messages: how often a message can reach a user over any interleaving of posts,
 polls and deletions, and what a poll that runs alone returns.
 */
module ChatDelivery {

  import opened Chat

  // ------------------------------------------------------------------ open places

  /** How many places the user has on the list that are not marked as sent. */
  function Open(names: seq<string>, sent: seq<bool>, user: string): nat
    requires |names| == |sent|
  {
    if names == [] then 0
    else (if names[0] == user && !sent[0] then 1 else 0) + Open(names[1..], sent[1..], user)
  }

  lemma {:induction false} OpenAfterMark(names: seq<string>, sent: seq<bool>, i: nat, user: string)
    requires |names| == |sent| && i < |names| && !sent[i]
    ensures Open(names, sent[i := true], user) == Open(names, sent, user) - (if names[i] == user then 1 else 0)
    decreases i
  {
    if i > 0 {
      OpenAfterMark(names[1..], sent[1..], i - 1, user);
      assert sent[i := true][1..] == sent[1..][i - 1 := true];
    } else {
      assert sent[0 := true][1..] == sent[1..];
    }
  }

  lemma {:induction false} OpenAfterRemove(names: seq<string>, sent: seq<bool>, i: nat, user: string)
    requires |names| == |sent| && i < |names|
    ensures Open(RemoveAt(names, i), RemoveAt(sent, i), user) ==
            Open(names, sent, user) - (if names[i] == user && !sent[i] then 1 else 0)
    decreases i
  {
    if i > 0 {
      OpenAfterRemove(names[1..], sent[1..], i - 1, user);
      assert RemoveAt(names, i)[1..] == RemoveAt(names[1..], i - 1);
      assert RemoveAt(sent, i)[1..] == RemoveAt(sent[1..], i - 1);
    } else {
      assert RemoveAt(names, 0) == names[1..] && RemoveAt(sent, 0) == sent[1..];
    }
  }

  lemma {:induction false} OpenWhenFresh(names: seq<string>, sent: seq<bool>, user: string)
    requires |names| == |sent| && forall i :: 0 <= i < |sent| ==> !sent[i]
    ensures Open(names, sent, user) == multiset(names)[user]
    decreases |names|
  {
    if names != [] {
      OpenWhenFresh(names[1..], sent[1..], user);
      assert names == [names[0]] + names[1..];
    }
  }

  // ----------------------------------------------------------------------- machine

  datatype Delivery = Delivery(id: Id, user: string)

  /** The store, every delivery so far, and for each message the list it was posted with. */
  datatype World = World(store: Store, delivered: seq<Delivery>, listed: map<Id, seq<string>>)

  /**
   The transactions of the program, in any order: a poll and a deletion are the visits they make,
   with ids from channel lists read at any earlier time.
   */
  datatype Action =
    | SayInLocal(to: seq<string>, originator: string, text: string)
    | SayInChannel(channel: string, originator: string, text: string)
    | TellTo(user: string, originator: string, text: string)
    | NotifTo(user: string, text: string)
    | CreateChannel(channel: string, users: seq<string>)
    | ChangeUsers(channel: string, users: seq<string>)
    | PollVisit(id: Id, user: string)
    | DeleteVisit(id: Id, user: string)

  function Posted(w: World, channel: string, originator: string, text: string, to: seq<string>): World {
    w.(store := Post(w.store, channel, originator, text, to), listed := w.listed[w.store.lastId + 1 := to])
  }

  function Step(w: World, a: Action): World {
    var s := w.store;
    match a
    case SayInLocal(to, originator, text) => Posted(w, "$$local", originator, text, to)
    case SayInChannel(channel, originator, text) =>
      if channel in s.channels then Posted(w, channel, originator, text, s.channels[channel].users) else w
    case TellTo(user, originator, text) => Posted(w, "@" + user, originator, text, [user])
    case NotifTo(user, text) => Posted(w, "^" + user, "$core", text, [user])
    case CreateChannel(channel, users) =>
      if channel in s.channels then w
      else w.(store := s.(channels := s.channels[channel := Channel(users, [])]))
    case ChangeUsers(channel, users) =>
      if channel !in s.channels then w
      else w.(store := s.(channels := s.channels[channel := s.channels[channel].(users := users)]))
    case PollVisit(id, user) =>
      w.(store := Visit(s, id, user),
         delivered := if Due(s, id, user) then w.delivered + [Delivery(id, user)] else w.delivered)
    case DeleteVisit(id, user) => w.(store := Strike(s, id, user))
  }

  const START := World(Store(map[], map[], 0, map[]), [], map[])

  ghost predicate Run(ws: seq<World>, acts: seq<Action>) {
    && |ws| == |acts| + 1 && ws[0] == START
    && forall i :: 0 <= i < |acts| ==> ws[i + 1] == Step(ws[i], acts[i])
  }

  // --------------------------------------------------------------------- invariant

  function Times(w: World, id: Id, user: string): nat {
    multiset(w.delivered)[Delivery(id, user)]
  }

  /** Places the user still has open on the stored message. */
  function OpenPlaces(s: Store, id: Id, user: string): nat {
    if id in s.messages && |s.messages[id].recipients| == |s.messages[id].sent|
    then Open(s.messages[id].recipients, s.messages[id].sent, user) else 0
  }

  function Places(w: World, id: Id, user: string): nat {
    if id in w.listed then multiset(w.listed[id])[user] else 0
  }

  /** Deliveries made and places still open never exceed the places the message was posted with. */
  ghost predicate Bounded(w: World) {
    && (forall id :: id in w.store.messages || id in w.listed ==> id <= w.store.lastId)
    && (forall id :: id in w.store.messages ==> id in w.listed)
    && forall id, user :: Times(w, id, user) + OpenPlaces(w.store, id, user) <= Places(w, id, user)
  }

  ghost predicate Inv(w: World) { Valid(w.store) && Bounded(w) }

  lemma PostedKeeps(w: World, channel: string, originator: string, text: string, to: seq<string>)
    requires Inv(w)
    ensures Inv(Posted(w, channel, originator, text, to))
  {
    hide Valid, Post, HistoryOk, Filed;
    var w', new_ := Posted(w, channel, originator, text, to), w.store.lastId + 1;
    PostKeepsValid(w.store, channel, originator, text, to);
    PostEffect(w.store, channel, originator, text, to);
    forall id, user
      ensures Times(w', id, user) + OpenPlaces(w'.store, id, user) <= Places(w', id, user)
    {
      assert Times(w, id, user) + OpenPlaces(w.store, id, user) <= Places(w, id, user);
      if id == new_ {
        OpenWhenFresh(to, Unsent(|to|), user);
      }
    }
  }

  /** What matters to the store's invariant: histories, and which messages are stored. */
  lemma SameHistories(s: Store, s': Store)
    requires Valid(s) && s'.posted == s.posted && s'.lastId == s.lastId
    requires s.channels.Keys <= s'.channels.Keys && forall c :: History(s', c) == History(s, c)
    requires s'.messages.Keys == s.messages.Keys && forall id :: id in s'.messages ==> Aligned(s'.messages[id])
    ensures Valid(s')
  {
    hide Last, Ascending, History, Aligned;
    forall c | c in s'.channels
      ensures HistoryOk(s', c)
    {
      EmptyHistoryOk(s, c);
    }
    forall c, d | c in s'.channels && d in s'.channels && c != d
      ensures Disjoint(History(s', c), History(s', d))
    {
      HistoriesApart(s, c, d);
    }
    forall id | id in s'.messages
      ensures Filed(s', id)
    {
      assert Filed(s, id);
      var c :| c in s.channels && id in History(s, c);
      assert id in History(s', c);
    }
  }

  lemma HistoriesApart(s: Store, c: string, d: string)
    requires Valid(s) && c != d
    ensures Disjoint(History(s, c), History(s, d))
  {
  }

  /** The store after one message is replaced by another that is aligned. */
  lemma ReplacedKeepsValid(s: Store, id: Id, m: Message)
    requires Valid(s)
    ensures id in s.messages && Aligned(m) ==> Valid(s.(messages := s.messages[id := m]))
  {
    hide HistoryOk, Filed, Disjoint;
    if id in s.messages && Aligned(m) {
      var s' := s.(messages := s.messages[id := m]);
      assert s'.messages.Keys == s.messages.Keys;
      SameHistories(s, s');
    }
  }

  lemma VisitKeeps(w: World, id: Id, user: string)
    requires Inv(w)
    ensures Inv(Step(w, PollVisit(id, user)))
  {
    hide HistoryOk, Filed;
    if Due(w.store, id, user) {
      var w', m := Step(w, PollVisit(id, user)), w.store.messages[id];
      var i := IndexOf(m.recipients, user);
      ReplacedKeepsValid(w.store, id, m.(sent := m.sent[i := true]));
      forall x, u
        ensures Times(w', x, u) + OpenPlaces(w'.store, x, u) <= Places(w', x, u)
      {
        assert Times(w, x, u) + OpenPlaces(w.store, x, u) <= Places(w, x, u);
        OpenAfterMark(m.recipients, m.sent, i, u);
      }
    }
  }

  lemma StrikeKeeps(w: World, id: Id, user: string)
    requires Inv(w)
    ensures Inv(Step(w, DeleteVisit(id, user)))
  {
    hide HistoryOk, Filed;
    var w' := Step(w, DeleteVisit(id, user));
    if w'.store != w.store {
      var m := w.store.messages[id];
      var i := IndexOf(m.recipients, user);
      ReplacedKeepsValid(w.store, id, m.(recipients := RemoveAt(m.recipients, i), sent := RemoveAt(m.sent, i)));
      forall x, u
        ensures Times(w', x, u) + OpenPlaces(w'.store, x, u) <= Places(w', x, u)
      {
        assert Times(w, x, u) + OpenPlaces(w.store, x, u) <= Places(w, x, u);
        OpenAfterRemove(m.recipients, m.sent, i, u);
      }
    }
  }

  lemma ChannelKeeps(w: World, channel: string, users: seq<string>)
    requires Inv(w)
    ensures Inv(Step(w, CreateChannel(channel, users))) && Inv(Step(w, ChangeUsers(channel, users)))
  {
    ChannelKeepsValid(w.store, channel, users);
    var s := w.store;
    forall s': Store | s'.messages == s.messages && s'.lastId == s.lastId
      ensures Bounded(w.(store := s'))
    {
      forall id, user
        ensures Times(w.(store := s'), id, user) + OpenPlaces(s', id, user) <= Places(w.(store := s'), id, user)
      {
        assert Times(w, id, user) + OpenPlaces(w.store, id, user) <= Places(w, id, user);
      }
    }
  }

  lemma ChannelKeepsValid(s: Store, channel: string, users: seq<string>)
    requires Valid(s)
    ensures channel !in s.channels ==> Valid(s.(channels := s.channels[channel := Channel(users, [])]))
    ensures channel in s.channels ==> Valid(s.(channels := s.channels[channel := s.channels[channel].(users := users)]))
  {
    hide HistoryOk, Filed, Disjoint;
    SameHistories(s, s.(channels := s.channels[channel := Channel(users, History(s, channel))]));
  }

  lemma StepKeeps(w: World, a: Action)
    requires Inv(w)
    ensures Inv(Step(w, a))
  {
    hide Inv;
    match a
    case SayInLocal(to, originator, text) => PostedKeeps(w, "$$local", originator, text, to);
    case SayInChannel(channel, originator, text) =>
      if channel in w.store.channels {
        PostedKeeps(w, channel, originator, text, w.store.channels[channel].users);
      }
    case TellTo(user, originator, text) => PostedKeeps(w, "@" + user, originator, text, [user]);
    case NotifTo(user, text) => PostedKeeps(w, "^" + user, "$core", text, [user]);
    case CreateChannel(channel, users) => ChannelKeeps(w, channel, users);
    case ChangeUsers(channel, users) => ChannelKeeps(w, channel, users);
    case PollVisit(id, user) => VisitKeeps(w, id, user);
    case DeleteVisit(id, user) => StrikeKeeps(w, id, user);
  }

  // -------------------------------------------------------------------------- runs

  lemma {:induction false} RunKeeps(ws: seq<World>, acts: seq<Action>, i: nat)
    requires Run(ws, acts) && i < |ws|
    ensures Inv(ws[i])
  {
    hide Inv, Step;
    if i > 0 {
      RunKeeps(ws, acts, i - 1);
      StepKeeps(ws[i - 1], acts[i - 1]);
    } else {
      StartKeeps();
    }
  }

  lemma StartKeeps()
    ensures Inv(START)
  {
  }

  /**
   In every state of every run a message has reached a user at most as often as it listed the user
   when it was posted: at most once if its list names nobody twice, and never if it was not posted.
   */
  lemma DeliveredAtMostAsListed(ws: seq<World>, acts: seq<Action>, i: nat, id: Id, user: string)
    requires Run(ws, acts) && i < |ws|
    ensures Times(ws[i], id, user) <= Places(ws[i], id, user)
    ensures Valid(ws[i].store)
  {
    RunKeeps(ws, acts, i);
    assert Times(ws[i], id, user) + OpenPlaces(ws[i].store, id, user) <= Places(ws[i], id, user);
  }

  /** A message that was pruned stays away: ids are not reused and no visit writes one back. */
  lemma {:induction false} PrunedStaysAway(ws: seq<World>, acts: seq<Action>, i: nat, j: nat, id: Id)
    requires Run(ws, acts) && i <= j < |ws| && id <= ws[i].store.lastId && id !in ws[i].store.messages
    ensures id !in ws[j].store.messages && ws[i].store.lastId <= ws[j].store.lastId
    decreases j
  {
    hide Step;
    if i < j {
      PrunedStaysAway(ws, acts, i, j - 1, id);
      StepBringsNoneBack(ws[j - 1], acts[j - 1], id);
    }
  }

  lemma StepBringsNoneBack(w: World, a: Action, id: Id)
    requires id <= w.store.lastId && id !in w.store.messages
    ensures id !in Step(w, a).store.messages && w.store.lastId <= Step(w, a).store.lastId
  {
  }

  // ------------------------------------------------------------- duplicate recipients

  lemma {:induction false} IndexOfFirst(names: seq<string>, name: string)
    ensures IndexOf(names, name) < |names| <==> multiset(names)[name] > 0
  {
    var i := IndexOf(names, name);
    assert i < |names| ==> names[i] in multiset(names);
    if i == |names| {
      assert name !in names;
    }
  }

  lemma RemoveAtCounts(names: seq<string>, i: nat)
    requires i < |names|
    ensures multiset(RemoveAt(names, i)) == multiset(names) - multiset{names[i]}
  {
    assert names == names[..i] + [names[i]] + names[i + 1..];
  }

  /**
   The bound is met: a user who is listed twice and has a place deleted between two polls gets the
   message twice. With these three visits, twice if and only if the list names the user twice.
   */
  lemma ListedTwiceDeliveredTwice(w: World, channel: string, originator: string, text: string, to: seq<string>, user: string)
    requires Inv(w)
    ensures var id := w.store.lastId + 1;
            var w1 := Posted(w, channel, originator, text, to);
            var w4 := Step(Step(Step(w1, PollVisit(id, user)), DeleteVisit(id, user)), PollVisit(id, user));
            && Times(w1, id, user) == 0
            && (Times(w4, id, user) >= 2 <==> multiset(to)[user] >= 2)
  {
    hide Post, Valid, Due, Visit, Strike, IndexOf, OpenPlaces, Open;
    var id := w.store.lastId + 1;
    var w1 := Posted(w, channel, originator, text, to);
    PostEffect(w.store, channel, originator, text, to);
    assert Times(w, id, user) + OpenPlaces(w.store, id, user) <= Places(w, id, user);
    FreshTwice(w1.store, id, user);
  }

  /** On a message with no flag set: the first visit delivers to anyone listed, and after a strike the second to anyone listed twice. */
  lemma FreshTwice(s: Store, id: Id, user: string)
    requires id in s.messages && Aligned(s.messages[id])
    requires forall k :: 0 <= k < |s.messages[id].sent| ==> !s.messages[id].sent[k]
    ensures Due(s, id, user) <==> multiset(s.messages[id].recipients)[user] >= 1
    ensures Due(Strike(Visit(s, id, user), id, user), id, user) <==> multiset(s.messages[id].recipients)[user] >= 2
  {
    hide IndexOf;
    var m := s.messages[id];
    var i := IndexOf(m.recipients, user);
    IndexOfFirst(m.recipients, user);
    if i < |m.recipients| {
      var sent := m.sent[i := true];
      var s1 := Visit(s, id, user);
      assert s1.messages[id] == m.(sent := sent);
      var left, flags := RemoveAt(m.recipients, i), RemoveAt(sent, i);
      assert Strike(s1, id, user).messages[id] == m.(recipients := left, sent := flags);
      RemoveAtCounts(m.recipients, i);
      IndexOfFirst(left, user);
      assert forall k :: 0 <= k < |flags| ==> !flags[k];
    } else {
      assert Visit(s, id, user) == s && Strike(s, id, user) == s;
    }
  }

  // ---------------------------------------------------------------- a poll by itself

  /** The visits of a poll over a list of ids, with nothing in between, and the ids it returns. */
  function PollIds(s: Store, ids: seq<Id>, user: string): (Store, seq<Id>)
    decreases |ids|
  {
    if ids == [] then (s, [])
    else
      var (s', got) := PollIds(Visit(s, ids[0], user), ids[1..], user);
      (s', (if Due(s, ids[0], user) then [ids[0]] else []) + got)
  }

  /** The ids a poll looks at: the histories of the channels of its class, in listing order. */
  function ClassIds(s: Store, names: seq<string>, c: Class): seq<Id> {
    if names == [] then []
    else (if InClass(names[0], c) then History(s, names[0]) else []) + ClassIds(s, names[1..], c)
  }

  /** Every channel, once. */
  ghost predicate Lists(names: seq<string>, s: Store) {
    && (forall c :: c in names <==> c in s.channels)
    && Distinct(names)
  }

  ghost predicate Distinct<T>(xs: seq<T>) {
    forall i, j :: 0 <= i < j < |xs| ==> xs[i] != xs[j]
  }

  lemma VisitOthers(s: Store, id: Id, user: string, x: Id, u: string)
    ensures !Due(Visit(s, id, user), id, user)
    ensures x != id ==> Due(Visit(s, id, user), x, u) == Due(s, x, u)
    ensures u != user ==> Due(Visit(s, id, user), x, u) == Due(s, x, u)
  {
    if Due(s, id, user) && x == id && u != user {
      var m := s.messages[id];
      assert IndexOf(m.recipients, u) < |m.recipients| ==> IndexOf(m.recipients, u) != IndexOf(m.recipients, user);
    }
  }

  /** A poll over distinct ids returns exactly the due ones, in order, leaves none due, and touches nobody else's. */
  lemma {:induction false} PollIdsExact(s: Store, ids: seq<Id>, user: string)
    requires Distinct(ids)
    ensures var (s', got) := PollIds(s, ids, user);
            && (forall id :: id in got <==> id in ids && Due(s, id, user))
            && Distinct(got)
            && (forall id :: id in ids ==> !Due(s', id, user))
            && (forall id :: id !in ids ==> Due(s', id, user) == Due(s, id, user))
            && (forall id, u :: u != user ==> Due(s', id, u) == Due(s, id, u))
    decreases |ids|
  {
    hide Due, Visit;
    if ids != [] {
      var s1, tail := Visit(s, ids[0], user), ids[1..];
      var (s', got) := PollIds(s1, tail, user);
      PollIdsExact(s1, tail, user);
      assert ids[0] !in tail;
      forall id, u
        ensures id != ids[0] ==> Due(s1, id, u) == Due(s, id, u)
        ensures u != user ==> Due(s1, id, u) == Due(s, id, u)
        ensures !Due(s1, ids[0], user)
      {
        VisitOthers(s, ids[0], user, id, u);
      }
      assert ids == [ids[0]] + tail;
    }
  }

  lemma {:induction false} ClassIdsExact(s: Store, names: seq<string>, c: Class)
    requires Valid(s) && Distinct(names) && forall n :: n in names ==> n in s.channels
    ensures Distinct(ClassIds(s, names, c))
    ensures forall id :: id in ClassIds(s, names, c) <==> InHistories(s, names, c, id)
  {
    hide Last, InClass, Valid;
    if names != [] {
      var tail := names[1..];
      ClassIdsExact(s, tail, c);
      assert names == [names[0]] + tail && names[0] !in tail;
      var head := if InClass(names[0], c) then History(s, names[0]) else [];
      EmptyHistoryOk(s, names[0]);
      forall id | id in head
        ensures id !in ClassIds(s, tail, c)
      {
        if InHistories(s, tail, c, id) {
          var n :| n in tail && InClass(n, c) && id in History(s, n);
          HistoriesApart(s, names[0], n);
        }
      }
      assert Distinct(head) by { assert Ascending(History(s, names[0])); }
      DistinctConcat(head, ClassIds(s, tail, c));
      forall id
        ensures InHistories(s, names, c, id) <==> id in head || InHistories(s, tail, c, id)
      {
      }
    }
  }

  lemma DistinctConcat<T>(xs: seq<T>, ys: seq<T>)
    requires Distinct(xs) && Distinct(ys) && forall x :: x in xs ==> x !in ys
    ensures Distinct(xs + ys)
  {
    var zs := xs + ys;
    forall i, j | 0 <= i < j < |zs|
      ensures zs[i] != zs[j]
    {
      if i < |xs| <= j {
        assert zs[i] in xs && zs[j] in ys;
      }
    }
  }

  ghost predicate InHistories(s: Store, names: seq<string>, c: Class, id: Id) {
    exists n :: n in names && InClass(n, c) && id in History(s, n)
  }

  /**
   A poll that nothing interrupts returns each message that is due to the user in a channel of its
   class exactly once and no other, leaves none due there, and leaves other users and classes alone.
   */
  lemma PollAlone(s: Store, names: seq<string>, c: Class, user: string)
    requires Valid(s) && Lists(names, s)
    ensures var (s', got) := PollIds(s, ClassIds(s, names, c), user);
            && Distinct(got)
            && (forall id :: id in got <==> Due(s, id, user) && InHistories(s, names, c, id))
            && (forall id :: Due(s', id, user) <==> Due(s, id, user) && id !in got)
            && (forall id, u :: u != user ==> Due(s', id, u) == Due(s, id, u))
  {
    hide Due, Visit, Valid, InHistories;
    ClassIdsExact(s, names, c);
    PollIdsExact(s, ClassIds(s, names, c), user);
  }
}
