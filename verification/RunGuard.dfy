/**
 The guard that keeps two scripts of one account from running at once. A run takes its account's
 entry when it starts, and gives it back when it becomes a realtime script or when it ends;
 forced runs start without looking at the entry.
 */
module RunGuard {

  datatype Phase =
    | Blocking   // holds the entry, to be cleared at exit
    | Forced     // started without taking the entry
    | Realtime   // gave the entry back and runs on
    | Ended
    | Refused    // turned away at the start

  datatype Script = Script(token: string, phase: Phase)

  // The guard table and every run so far, by its thread id.
  datatype State = State(guard: map<string, int>, scripts: map<nat, Script>)

  datatype Event =
    | Start(id: nat, token: string, forced: bool)
    | GoRealtime(id: nat)
    | Exit(id: nat)

  // A missing entry reads as zero.
  function Entry(guard: map<string, int>, token: string): int {
    if token in guard then guard[token] else 0
  }

  function Moved(s: State, id: nat, phase: Phase): map<nat, Script>
    requires id in s.scripts
  {
    s.scripts[id := s.scripts[id].(phase := phase)]
  }

  // Whether an event can happen: thread ids are new, and a script becomes realtime or ends once.
  predicate Enabled(s: State, e: Event) {
    match e
    case Start(id, _, _) => id !in s.scripts
    case GoRealtime(id) => id in s.scripts && (s.scripts[id].phase == Blocking || s.scripts[id].phase == Forced)
    case Exit(id) => id in s.scripts && s.scripts[id].phase != Ended && s.scripts[id].phase != Refused
  }

  function After(s: State, e: Event): State
    requires Enabled(s, e)
  {
    match e
    case Start(id, token, forced) =>
      if forced then State(s.guard[token := 0], s.scripts[id := Script(token, Forced)])
      else if Entry(s.guard, token) == 1 then State(s.guard, s.scripts[id := Script(token, Refused)])
      else State(s.guard[token := 1], s.scripts[id := Script(token, Blocking)])
    case GoRealtime(id) => State(s.guard[s.scripts[id].token := 0], Moved(s, id, Realtime))
    case Exit(id) =>
      State(if s.scripts[id].phase == Blocking then s.guard[s.scripts[id].token := 0] else s.guard, Moved(s, id, Ended))
  }

  const INITIAL := State(map[], map[])

  predicate Possible(s: State, events: seq<Event>)
    decreases |events|
  {
    events == [] || (Enabled(s, events[0]) && Possible(After(s, events[0]), events[1..]))
  }

  function Run(s: State, events: seq<Event>): State
    requires Possible(s, events)
    decreases |events|
  {
    if events == [] then s else Run(After(s, events[0]), events[1..])
  }

  // ----- The guard tells exactly whether a run of the account is blocking -----

  ghost predicate Blocks(s: State, id: nat, token: string) {
    id in s.scripts && s.scripts[id] == Script(token, Blocking)
  }

  ghost predicate AtMostOne(s: State) {
    forall a, b, token :: Blocks(s, a, token) && Blocks(s, b, token) ==> a == b
  }

  ghost predicate Tells(s: State, token: string) {
    if exists id :: Blocks(s, id, token) then Entry(s.guard, token) == 1 else Entry(s.guard, token) == 0
  }

  ghost predicate Exact(s: State) {
    AtMostOne(s) && forall token :: Tells(s, token)
  }

  // A forced run, starting or becoming realtime, clears an entry that a blocking run holds.
  ghost predicate Tramples(s: State, e: Event)
    requires Enabled(s, e)
  {
    match e
    case Start(_, token, forced) => forced && exists id :: Blocks(s, id, token)
    case GoRealtime(id) => s.scripts[id].phase == Forced && exists other :: Blocks(s, other, s.scripts[id].token)
    case Exit(_) => false
  }

  // The blocking runs after an event.
  lemma BlocksAfter(s: State, e: Event, id: nat, token: string)
    requires Enabled(s, e)
    ensures Blocks(After(s, e), id, token) <==>
            if id == e.id then e.Start? && !e.forced && token == e.token && Entry(s.guard, token) != 1
            else Blocks(s, id, token)
  {
  }

  function TokenOf(s: State, e: Event): string
    requires Enabled(s, e)
  {
    if e.Start? then e.token else s.scripts[e.id].token
  }

  // An event touches only the entry of its own account.
  lemma OtherAccountsUntouched(s: State, e: Event, token: string)
    requires Enabled(s, e) && token != TokenOf(s, e)
    ensures Entry(After(s, e).guard, token) == Entry(s.guard, token)
    ensures Tells(s, token) <==> Tells(After(s, e), token)
  {
    forall id ensures Blocks(After(s, e), id, token) <==> Blocks(s, id, token) {
      BlocksAfter(s, e, id, token);
    }
  }

  lemma AtMostOneKept(s: State, e: Event)
    requires Enabled(s, e) && Exact(s)
    ensures AtMostOne(After(s, e))
  {
    hide After;
    forall a, b, token | Blocks(After(s, e), a, token) && Blocks(After(s, e), b, token) ensures a == b {
      BlocksAfter(s, e, a, token);
      BlocksAfter(s, e, b, token);
      assert Tells(s, token);
    }
  }

  lemma OwnEntryTells(s: State, e: Event)
    requires Enabled(s, e) && Exact(s) && !Tramples(s, e)
    ensures Tells(After(s, e), TokenOf(s, e))
  {
    var token := TokenOf(s, e);
    var next := After(s, e);
    assert Tells(s, token);
    forall id ensures Blocks(next, id, token) <==>
                      if id == e.id then e.Start? && !e.forced && Entry(s.guard, token) != 1 else Blocks(s, id, token)
    {
      BlocksAfter(s, e, id, token);
    }
    if e.Start? && !e.forced {
      if Entry(s.guard, token) == 1 {
        var holder :| Blocks(s, holder, token);
        assert Blocks(next, holder, token);
      } else {
        assert Blocks(next, e.id, token);
      }
    } else if e.Exit? && s.scripts[e.id].phase != Blocking {
      if holder :| Blocks(s, holder, token) {
        assert Blocks(next, holder, token);
      }
    } else if !e.Start? && s.scripts[e.id].phase == Blocking {
      assert Blocks(s, e.id, token);
    }
  }

  /**
   One step from an exact state leads to an exact state if and only if no forced run clears the
   entry of a blocking one.
   */
  lemma StepExact(s: State, e: Event)
    requires Enabled(s, e) && Exact(s)
    ensures Exact(After(s, e)) <==> !Tramples(s, e)
  {
    var token := TokenOf(s, e);
    if Tramples(s, e) {
      var holder :| Blocks(s, holder, token);
      BlocksAfter(s, e, holder, token);
      assert !Tells(After(s, e), token);
    } else {
      hide After, Tramples;
      AtMostOneKept(s, e);
      OwnEntryTells(s, e);
      forall t ensures Tells(After(s, e), t) {
        if t != token {
          OtherAccountsUntouched(s, e, t);
        }
      }
    }
  }

  // ----- Whole runs, under any interleaving -----

  ghost predicate ExactThroughout(s: State, events: seq<Event>)
    requires Possible(s, events)
    decreases |events|
  {
    Exact(s) && (events != [] ==> ExactThroughout(After(s, events[0]), events[1..]))
  }

  ghost predicate SomeTramples(s: State, events: seq<Event>)
    requires Possible(s, events)
    decreases |events|
  {
    events != [] && (Tramples(s, events[0]) || SomeTramples(After(s, events[0]), events[1..]))
  }

  lemma {:induction false} RunsExact(s: State, events: seq<Event>)
    requires Possible(s, events) && Exact(s)
    ensures ExactThroughout(s, events) <==> !SomeTramples(s, events)
    decreases |events|
  {
    hide Exact, Tramples, After;
    if events != [] {
      StepExact(s, events[0]);
      if Exact(After(s, events[0])) {
        RunsExact(After(s, events[0]), events[1..]);
      }
    }
  }

  ghost predicate NoForced(events: seq<Event>) {
    forall i :: 0 <= i < |events| && events[i].Start? ==> !events[i].forced
  }

  ghost predicate NoneForced(s: State) {
    forall id :: id in s.scripts ==> s.scripts[id].phase != Forced
  }

  lemma {:induction false} UnforcedNeverTramples(s: State, events: seq<Event>)
    requires Possible(s, events) && NoForced(events) && NoneForced(s)
    ensures !SomeTramples(s, events)
    decreases |events|
  {
    if events != [] {
      UnforcedNeverTramples(After(s, events[0]), events[1..]);
    }
  }

  /**
   Without forced runs, under any interleaving and at every moment, the entry of an account is
   one exactly when one of its runs is blocking, and two never block together.
   */
  lemma UnforcedRunsAreExact(events: seq<Event>)
    requires Possible(INITIAL, events) && NoForced(events)
    ensures ExactThroughout(INITIAL, events)
  {
    UnforcedNeverTramples(INITIAL, events);
    RunsExact(INITIAL, events);
  }

  // ----- What a blocking run can rely on -----

  ghost predicate Leaves(e: Event, id: nat) {
    e == Exit(id) || e == GoRealtime(id)
  }

  /**
   From the moment a run blocks until it leaves, every other run of its account that is not
   forced is refused.
   */
  lemma {:induction false} HolderExcludesOthers(s: State, events: seq<Event>, holder: nat, token: string, other: nat)
    requires Possible(s, events) && Exact(s) && !SomeTramples(s, events)
    requires Blocks(s, holder, token)
    requires forall i :: 0 <= i < |events| ==> !Leaves(events[i], holder)
    requires other !in s.scripts && Start(other, token, false) in events
    ensures Blocks(Run(s, events), holder, token)
    ensures other in Run(s, events).scripts && Run(s, events).scripts[other] == Script(token, Refused)
    decreases |events|
  {
    var e := events[0];
    var next := After(s, e);
    StepExact(s, e);
    assert Tells(s, token);
    BlocksAfter(s, e, holder, token);
    if e == Start(other, token, false) {
      HolderStays(next, events[1..], holder, token);
      RefusedStays(next, events[1..], other, token);
    } else {
      assert Start(other, token, false) in events[1..];
      if e.id == other {
        StartedOnce(next, events[1..], other, token);
      }
      HolderExcludesOthers(next, events[1..], holder, token, other);
    }
  }

  lemma {:induction false} HolderStays(s: State, events: seq<Event>, holder: nat, token: string)
    requires Possible(s, events) && Blocks(s, holder, token)
    requires forall i :: 0 <= i < |events| ==> !Leaves(events[i], holder)
    ensures Blocks(Run(s, events), holder, token)
    decreases |events|
  {
    if events != [] {
      HolderStays(After(s, events[0]), events[1..], holder, token);
    }
  }

  lemma {:induction false} RefusedStays(s: State, events: seq<Event>, id: nat, token: string)
    requires Possible(s, events) && id in s.scripts && s.scripts[id] == Script(token, Refused)
    ensures id in Run(s, events).scripts && Run(s, events).scripts[id] == Script(token, Refused)
    decreases |events|
  {
    if events != [] {
      RefusedStays(After(s, events[0]), events[1..], id, token);
    }
  }

  // A thread id starts once.
  lemma {:induction false} StartedOnce(s: State, events: seq<Event>, id: nat, token: string)
    requires Possible(s, events) && id in s.scripts
    ensures Start(id, token, false) !in events
    decreases |events|
  {
    if events != [] {
      StartedOnce(After(s, events[0]), events[1..], id, token);
      assert events == [events[0]] + events[1..];
    }
  }

  /**
   An entry is cleared exactly when the run that holds it leaves, and taken exactly when a run
   starts while none holds it: a refused run and the exit of a realtime run clear nothing.
   */
  lemma OnlyTheHolderClears(s: State, e: Event, token: string)
    requires Enabled(s, e) && Exact(s) && !Tramples(s, e)
    ensures Entry(s.guard, token) == 1 && Entry(After(s, e).guard, token) == 0
            <==> exists id :: Blocks(s, id, token) && Leaves(e, id)
    ensures Entry(s.guard, token) == 0 && Entry(After(s, e).guard, token) == 1
            <==> e.Start? && !e.forced && e.token == token && !exists id :: Blocks(s, id, token)
  {
    assert Tells(s, token);
    if token != TokenOf(s, e) {
      OtherAccountsUntouched(s, e, token);
    } else if !e.Start? {
      assert Leaves(e, e.id);
      assert s.scripts[e.id].phase == Blocking ==> Blocks(s, e.id, token);
    }
  }

  // Once the holder leaves, the next run of the account gets in.
  lemma NextRunGetsIn(s: State, leave: Event, id: nat)
    requires Exact(s) && (leave.Exit? || leave.GoRealtime?) && Enabled(s, leave)
    requires s.scripts[leave.id].phase == Blocking && id !in s.scripts
    ensures Blocks(After(After(s, leave), Start(id, s.scripts[leave.id].token, false)), id, s.scripts[leave.id].token)
  {
  }

  // A forced run beside a blocking one lets a third run block as well.
  lemma ForcedRunBreaksTheGuard()
    ensures var events := [Start(1, "a", false), Start(2, "a", true), Start(3, "a", false)];
            && Possible(INITIAL, events)
            && Blocks(Run(INITIAL, events), 1, "a") && Blocks(Run(INITIAL, events), 3, "a")
  {
    var events := [Start(1, "a", false), Start(2, "a", true), Start(3, "a", false)];
    var s1 := After(INITIAL, events[0]);
    var s2 := After(s1, events[1]);
    var s3 := After(s2, events[2]);
    assert events[1..] == [events[1], events[2]] && events[1..][1..] == [events[2]] && [events[2]][1..] == [];
    assert Possible(s3, []) && Possible(s2, [events[2]]) && Possible(s1, events[1..]);
    assert Run(s2, [events[2]]) == Run(s3, []) == s3;
    assert Run(s1, events[1..]) == s3;
  }

  // ----- The table and the object that clears an entry on the way out -----

  class Guards {
    var entries: map<string, int>

    constructor ()
      ensures entries == map[]
    {
      entries := map[];
    }

    method Clear(token: string)
      modifies this
      ensures entries == old(entries)[token := 0]
    {
      entries := entries[token := 0];
    }
  }

  class CleanupAuthAtExit {
    const toCleanup: Guards
    const auth: string
    var blocked: bool

    constructor (guards: Guards, token: string)
      ensures toCleanup == guards && auth == token && blocked
    {
      toCleanup, auth := guards, token;
      blocked := true;
    }

    method Unblock()
      modifies this, toCleanup
      ensures !blocked && toCleanup.entries == old(toCleanup.entries)[auth := 0]
    {
      toCleanup.Clear(auth);
      blocked := false;
    }

    // The destructor.
    method Destroy()
      modifies toCleanup
      ensures toCleanup.entries == if blocked then old(toCleanup.entries)[auth := 0] else old(toCleanup.entries)
    {
      if blocked {
        toCleanup.Clear(auth);
      }
    }
  }

  // The start of a run, up to the point where it is refused or owns its cleanup object.
  method StartRun(guards: Guards, ghost s: State, id: nat, token: string, forced: bool)
    returns (refused: bool, cleanup: CleanupAuthAtExit?)
    requires guards.entries == s.guard && id !in s.scripts
    modifies guards
    ensures guards.entries == After(s, Start(id, token, forced)).guard
    ensures refused <==> After(s, Start(id, token, forced)).scripts[id].phase == Refused
    ensures !refused ==> cleanup != null && cleanup.toCleanup == guards && cleanup.auth == token
                         && (cleanup.blocked <==> After(s, Start(id, token, forced)).scripts[id].phase == Blocking)
  {
    refused := false;
    cleanup := null;
    if !forced {
      if token in guards.entries && guards.entries[token] == 1 {
        refused := true;
      } else {
        guards.entries := guards.entries[token := 1];
      }
    }
    if !refused {
      cleanup := new CleanupAuthAtExit(guards, token);
      if forced {
        cleanup.Unblock();
      }
    }
  }
}
