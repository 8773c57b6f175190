/**
 The account records: which login token lists which user names, and which Steam account is tied
 to which token. Each handler is one read-write transaction over all records.
 */
module Accounts {

  import opened Optional

  // A stored record; a Steam id of zero means that no Steam account is tied to it.
  datatype Account = Account(token: string, steamId: nat, users: seq<string>, isFree: bool)

  type Db = map<string, Account>

  const MAX_USERS: nat := 5

  // ----- What holds in every reachable state -----

  ghost predicate Lists(db: Db, token: string, name: string) {
    token in db && name in db[token].users
  }

  ghost predicate NoRepeats(users: seq<string>) {
    forall i, j :: 0 <= i < j < |users| ==> users[i] != users[j]
  }

  ghost predicate KeyedByToken(db: Db) {
    forall t :: t in db ==> db[t].token == t
  }

  ghost predicate FewNames(db: Db) {
    forall t :: t in db ==> |db[t].users| <= MAX_USERS && NoRepeats(db[t].users)
  }

  ghost predicate NamesUnique(db: Db) {
    forall t, u, name :: Lists(db, t, name) && Lists(db, u, name) ==> t == u
  }

  ghost predicate TiedTo(db: Db, token: string, steamId: nat) {
    token in db && db[token].steamId == steamId
  }

  ghost predicate SteamUnique(db: Db) {
    forall t, u, id :: id != 0 && TiedTo(db, t, id) && TiedTo(db, u, id) ==> t == u
  }

  ghost predicate Valid(db: Db) {
    KeyedByToken(db) && FewNames(db) && NamesUnique(db) && SteamUnique(db)
  }

  // ----- What each handler does to the records -----

  datatype Reply = Done | BadToken | TooManyUsers | NameTaken | NoSteamId | NoSteamAuth | AlreadyTied

  datatype Event =
    | Register(token: string, name: string)
    | DeleteName(token: string, name: string)
    | MakeFree(newToken: string)
    | SteamLogin(steamId: nat, key: Option<string>, newToken: string)
    | Retie(token: string, steamId: nat)

  function Inserted(users: seq<string>, name: string): seq<string> {
    if name in users then users else users + [name]
  }

  function Without(users: seq<string>, name: string): seq<string> {
    if users == [] then []
    else if users[0] == name then Without(users[1..], name)
    else [users[0]] + Without(users[1..], name)
  }

  ghost predicate TakenByOther(db: Db, token: string, name: string) {
    exists t :: t != token && Lists(db, t, name)
  }

  ghost predicate SteamKnown(db: Db, steamId: nat) {
    exists t :: TiedTo(db, t, steamId)
  }

  ghost function Holder(db: Db, steamId: nat): (t: string)
    requires SteamKnown(db, steamId)
    ensures TiedTo(db, t, steamId)
  {
    var t :| TiedTo(db, t, steamId);
    t
  }

  ghost function ReplyTo(db: Db, e: Event): Reply {
    match e
    case Register(token, name) =>
      if token !in db then BadToken
      else if |db[token].users| >= MAX_USERS then TooManyUsers
      else if TakenByOther(db, token, name) then NameTaken
      else Done
    case DeleteName(token, _) => if token in db then Done else BadToken
    case MakeFree(_) => Done
    case SteamLogin(_, key, _) => if key.Some? && key.value !in db then BadToken else Done
    case Retie(token, steamId) =>
      if steamId == 0 then NoSteamId
      else if token !in db then BadToken
      else if !SteamKnown(db, steamId) then NoSteamAuth
      else if db[token].steamId == steamId then AlreadyTied
      else Done
  }

  ghost function After(db: Db, e: Event): Db {
    if ReplyTo(db, e) != Done then db
    else
      match e
      case Register(token, name) => db[token := db[token].(users := Inserted(db[token].users, name))]
      case DeleteName(token, name) => db[token := db[token].(users := Without(db[token].users, name))]
      case MakeFree(newToken) => db[newToken := Account(newToken, 0, [], true)]
      case SteamLogin(steamId, _, newToken) =>
        if SteamKnown(db, steamId) then db else db[newToken := Account(newToken, steamId, [], false)]
      case Retie(token, steamId) =>
        var loser := Holder(db, steamId);
        db[loser := db[loser].(steamId := 0)][token := db[token].(steamId := steamId)]
  }

  ghost function Run(db: Db, events: seq<Event>): Db
    decreases |events|
  {
    if events == [] then db else Run(After(db, events[0]), events[1..])
  }

  // ----- The invariants, kept by every handler -----

  lemma {:induction false} WithoutFacts(users: seq<string>, name: string)
    ensures forall s :: s in Without(users, name) <==> s in users && s != name
    ensures |Without(users, name)| <= |users|
    ensures NoRepeats(users) ==> NoRepeats(Without(users, name))
  {
    if users != [] {
      WithoutFacts(users[1..], name);
      assert users == [users[0]] + users[1..];
      var rest := Without(users[1..], name);
      if NoRepeats(users) {
        forall j | 0 <= j < |rest| ensures rest[j] != users[0] {
          assert rest[j] in users[1..];
        }
      }
    }
  }

  lemma RegisterKeeps(db: Db, token: string, name: string)
    requires Valid(db)
    ensures Valid(After(db, Register(token, name)))
  {
    var next := After(db, Register(token, name));
    if next != db {
      forall t, u, s | Lists(next, t, s) && Lists(next, u, s) ensures t == u {
        if s != name {
          assert Lists(db, t, s) && Lists(db, u, s);
        } else {
          assert t == token || Lists(db, t, name);
          assert u == token || Lists(db, u, name);
        }
      }
      forall t, u, id | id != 0 && TiedTo(next, t, id) && TiedTo(next, u, id) ensures t == u {
        assert TiedTo(db, t, id) && TiedTo(db, u, id);
      }
    }
  }

  lemma DeleteKeeps(db: Db, token: string, name: string)
    requires Valid(db)
    ensures Valid(After(db, DeleteName(token, name)))
  {
    var next := After(db, DeleteName(token, name));
    if token in db {
      WithoutFacts(db[token].users, name);
      forall t, u, s | Lists(next, t, s) && Lists(next, u, s) ensures t == u {
        assert Lists(db, t, s) && Lists(db, u, s);
      }
      forall t, u, id | id != 0 && TiedTo(next, t, id) && TiedTo(next, u, id) ensures t == u {
        assert TiedTo(db, t, id) && TiedTo(db, u, id);
      }
    }
  }

  // A new record, whether or not its random token was in use.
  lemma NewRecordKeeps(db: Db, account: Account)
    requires Valid(db) && account.users == []
    requires account.steamId == 0 || !SteamKnown(db, account.steamId)
    ensures Valid(db[account.token := account])
  {
    var next := db[account.token := account];
    forall t, u, s | Lists(next, t, s) && Lists(next, u, s) ensures t == u {
      assert Lists(db, t, s) && Lists(db, u, s);
    }
    forall t, u, id | id != 0 && TiedTo(next, t, id) && TiedTo(next, u, id) ensures t == u {
      assert t == account.token || TiedTo(db, t, id);
      assert u == account.token || TiedTo(db, u, id);
    }
  }

  lemma RetieKeeps(db: Db, token: string, steamId: nat)
    requires Valid(db)
    ensures Valid(After(db, Retie(token, steamId)))
  {
    var next := After(db, Retie(token, steamId));
    if next != db {
      forall t, u, s | Lists(next, t, s) && Lists(next, u, s) ensures t == u {
        assert Lists(db, t, s) && Lists(db, u, s);
      }
      var loser := Holder(db, steamId);
      forall t, u, id | id != 0 && TiedTo(next, t, id) && TiedTo(next, u, id) ensures t == u {
        if id == steamId {
          assert t != token ==> TiedTo(db, t, id) && t != loser;
          assert u != token ==> TiedTo(db, u, id) && u != loser;
        } else {
          assert TiedTo(db, t, id) && TiedTo(db, u, id);
        }
      }
    }
  }

  lemma StepKeeps(db: Db, e: Event)
    requires Valid(db)
    ensures Valid(After(db, e))
  {
    match e
    case Register(token, name) => RegisterKeeps(db, token, name);
    case DeleteName(token, name) => DeleteKeeps(db, token, name);
    case MakeFree(newToken) => NewRecordKeeps(db, Account(newToken, 0, [], true));
    case SteamLogin(steamId, _, newToken) =>
      if !SteamKnown(db, steamId) {
        NewRecordKeeps(db, Account(newToken, steamId, [], false));
      }
    case Retie(token, steamId) => RetieKeeps(db, token, steamId);
  }

  /**
   Over every run from an empty store: no name is listed by two accounts, no account lists a
   name twice or more than five names, and a Steam id is tied to at most one account.
   */
  lemma {:induction false} RunsKeep(db: Db, events: seq<Event>)
    requires Valid(db)
    ensures Valid(Run(db, events))
    decreases |events|
  {
    hide Valid, After;
    if events != [] {
      StepKeeps(db, events[0]);
      RunsKeep(After(db, events[0]), events[1..]);
    }
  }

  lemma EveryReachableStore(events: seq<Event>)
    ensures Valid(Run(map[], events))
  {
    RunsKeep(map[], events);
  }

  // ----- What the invariants buy a player -----

  // An event that takes a name from a token: its deletion, or a new record under the same token.
  ghost predicate Releases(e: Event, token: string, name: string) {
    || e == DeleteName(token, name)
    || (e.MakeFree? && e.newToken == token)
    || (e.SteamLogin? && e.newToken == token)
  }

  lemma StepKeepsName(db: Db, e: Event, token: string, name: string)
    requires Lists(db, token, name) && !Releases(e, token, name)
    ensures Lists(After(db, e), token, name)
  {
    if e.DeleteName? && e.token in db {
      WithoutFacts(db[e.token].users, e.name);
    }
  }

  /**
   A registered name stays with its account through any run that neither deletes it nor draws
   the account's token again, and nobody else can register it meanwhile.
   */
  lemma {:induction false} NameStaysTaken(db: Db, events: seq<Event>, token: string, name: string, rival: string)
    requires Valid(db) && Lists(db, token, name) && rival != token
    requires forall i :: 0 <= i < |events| ==> !Releases(events[i], token, name)
    ensures Lists(Run(db, events), token, name)
    ensures ReplyTo(Run(db, events), Register(rival, name)) != Done
    decreases |events|
  {
    hide Valid, After, Releases;
    if events != [] {
      StepKeepsName(db, events[0], token, name);
      StepKeeps(db, events[0]);
      NameStaysTaken(After(db, events[0]), events[1..], token, name, rival);
    }
  }

  // Nothing but names changed: tokens, Steam ids and flags are those of before.
  ghost predicate OnlyNames(db: Db, db': Db) {
    db'.Keys == db.Keys && forall t :: t in db ==> db'[t].(users := db[t].users) == db[t]
  }

  /**
   A registration succeeds exactly when the account exists, has fewer than five names, and no other
   account lists the name; the name is then listed by the account, and nothing else changes.
   */
  lemma RegistrationRegisters(db: Db, token: string, name: string)
    requires Valid(db)
    ensures ReplyTo(db, Register(token, name)) == Done <==>
            token in db && |db[token].users| < 5 && forall t :: t != token ==> !Lists(db, t, name)
    ensures ReplyTo(db, Register(token, name)) == Done ==>
              var db' := After(db, Register(token, name));
              && Lists(db', token, name) && OnlyNames(db, db')
              && forall t, n :: t != token || n != name ==> (Lists(db', t, n) <==> Lists(db, t, n))
    ensures ReplyTo(db, Register(token, name)) != Done ==> After(db, Register(token, name)) == db
  {
  }

  // A deletion takes the name from the account, and changes nothing else.
  lemma DeletionDeletes(db: Db, token: string, name: string)
    requires Valid(db)
    ensures var db' := After(db, DeleteName(token, name));
            && OnlyNames(db, db')
            && forall t, n :: Lists(db', t, n) <==> Lists(db, t, n) && !(t == token && n == name)
  {
    if token in db {
      WithoutFacts(db[token].users, name);
    }
  }

  /**
   A name that was registered stays with its account through any later run that neither deletes it
   nor draws the account's token again, and nobody else can register it meanwhile.
   */
  lemma RegisteredNameIsKept(db: Db, events: seq<Event>, token: string, name: string, rival: string)
    requires Valid(db) && ReplyTo(db, Register(token, name)) == Done && rival != token
    requires forall i :: 0 <= i < |events| ==> !Releases(events[i], token, name)
    ensures Lists(Run(db, [Register(token, name)] + events), token, name)
    ensures ReplyTo(Run(db, [Register(token, name)] + events), Register(rival, name)) != Done
  {
    hide Valid, After, Releases;
    var all := [Register(token, name)] + events;
    assert all[1..] == events;
    RegistrationRegisters(db, token, name);
    RegisterKeeps(db, token, name);
    NameStaysTaken(After(db, Register(token, name)), events, token, name, rival);
  }

  /**
   A free account has no Steam id and no names. A Steam login makes an account with the Steam id if
   no account has it, and leaves all records alone otherwise; neither touches other tokens.
   */
  lemma NewAccounts(db: Db, e: Event)
    requires Valid(db) && (e.MakeFree? || e.SteamLogin?) && ReplyTo(db, e) == Done
    ensures var db' := After(db, e);
            && (forall t :: t != e.newToken ==> (t in db' <==> t in db) && (t in db ==> db'[t] == db[t]))
            && (e.MakeFree? ==>
                  && e.newToken in db' && db'[e.newToken].isFree && db'[e.newToken].steamId == 0
                  && forall n :: !Lists(db', e.newToken, n))
            && (e.SteamLogin? && SteamKnown(db, e.steamId) ==> db' == db)
            && (e.SteamLogin? && !SteamKnown(db, e.steamId) ==>
                  && TiedTo(db', e.newToken, e.steamId) && !db'[e.newToken].isFree
                  && forall n :: !Lists(db', e.newToken, n))
            && (e.SteamLogin? ==> SteamKnown(db', e.steamId))
  {
    if e.SteamLogin? && !SteamKnown(db, e.steamId) {
      assert TiedTo(After(db, e), e.newToken, e.steamId);
    }
  }

  // Registering and deleting again restores the records when the name was not there before.
  lemma {:induction false} DeleteUndoesRegister(db: Db, token: string, name: string)
    requires ReplyTo(db, Register(token, name)) == Done
    ensures After(After(db, Register(token, name)), DeleteName(token, name)) == db <==> !Lists(db, token, name)
  {
    WithoutFacts(Inserted(db[token].users, name), name);
    var back := After(After(db, Register(token, name)), DeleteName(token, name));
    assert name !in back[token].users;
    if !Lists(db, token, name) {
      WithoutAppended(db[token].users, name);
      assert back[token] == db[token];
    }
  }

  lemma {:induction false} WithoutAppended(users: seq<string>, name: string)
    requires name !in users
    ensures Without(users + [name], name) == users
  {
    if users == [] {
      assert users + [name] == [name];
      assert Without([name], name) == Without([name][1..], name) == [];
    } else {
      assert (users + [name])[1..] == users[1..] + [name];
      WithoutAppended(users[1..], name);
    }
  }

  /**
   Tying again moves the Steam account: afterwards it leads to the given token and to no other. The
   account that had it has none, every other account keeps its own, and no name changes hands.
   */
  lemma RetieMovesSteam(db: Db, token: string, steamId: nat, other: string)
    requires Valid(db) && ReplyTo(db, Retie(token, steamId)) == Done
    ensures var db' := After(db, Retie(token, steamId));
            && (TiedTo(db', other, steamId) <==> other == token)
            && (forall name :: Lists(db', other, name) <==> Lists(db, other, name))
            && (other in db' <==> other in db)
            && (other in db && other != token ==>
                  db'[other] == if TiedTo(db, other, steamId) then db[other].(steamId := 0) else db[other])
            && token in db' && db'[token].isFree == db[token].isFree
  {
    RetieKeeps(db, token, steamId);
    assert TiedTo(After(db, Retie(token, steamId)), token, steamId);
  }

  // It succeeds exactly for a Steam id that some other account has.
  lemma RetieSucceedsWhen(db: Db, token: string, steamId: nat)
    requires Valid(db)
    ensures ReplyTo(db, Retie(token, steamId)) == Done <==>
            steamId != 0 && token in db && exists t :: t != token && TiedTo(db, t, steamId)
  {
    if token in db && steamId != 0 && SteamKnown(db, steamId) {
      assert db[token].steamId == steamId ==> TiedTo(db, token, steamId);
    }
  }

  // ----- The stored record as the handlers hold it -----

  // All records as a store lists them, in an order of its own.
  ghost predicate Listing(all: seq<Account>, db: Db) {
    && (forall i :: 0 <= i < |all| ==> all[i].token in db && db[all[i].token] == all[i])
    && (forall t :: t in db ==> exists i :: 0 <= i < |all| && all[i] == db[t])
  }

  class Auth {
    var token: string
    var steamId: nat
    var users: seq<string>
    var isFree: bool

    function Stored(): Account
      reads this
    {
      Account(token, steamId, users, isFree)
    }

    constructor ()
      ensures Stored() == Account("", 0, [], false)
    {
      token, steamId, users, isFree := "", 0, [], false;
    }

    method Assign(a: Account)
      modifies this
      ensures Stored() == a
    {
      token, steamId, users, isFree := a.token, a.steamId, a.users, a.isFree;
    }

    method LoadFromDb(db: Db, key: string) returns (found: bool)
      modifies this
      ensures found <==> key in db
      ensures Stored() == if found then db[key] else old(Stored())
    {
      found := key in db;
      if found {
        Assign(db[key]);
      }
    }

    // The first record in the listing with the given Steam id.
    method LoadFromDbSteamId(all: seq<Account>, id: nat) returns (found: bool)
      modifies this
      ensures found <==> exists i :: 0 <= i < |all| && all[i].steamId == id
      ensures !found ==> Stored() == old(Stored())
      ensures found ==> exists i :: 0 <= i < |all| && all[i] == Stored() && Stored().steamId == id
                                    && forall j :: 0 <= j < i ==> all[j].steamId != id
    {
      found := false;
      var i := 0;
      while i < |all| && !found
        invariant i <= |all|
        invariant !found ==> Stored() == old(Stored()) && forall j :: 0 <= j < i ==> all[j].steamId != id
        invariant found ==> 0 < i && all[i - 1] == Stored() && Stored().steamId == id
                            && forall j :: 0 <= j < i - 1 ==> all[j].steamId != id
      {
        if all[i].steamId == id {
          Assign(all[i]);
          found := true;
        }
        i := i + 1;
      }
    }

    method ContainsUser(name: string) returns (found: bool)
      ensures found <==> name in users
    {
      found := false;
      for i := 0 to |users|
        invariant found <==> name in users[..i]
      {
        if users[i] == name {
          found := true;
        }
      }
      assert users[..|users|] == users;
    }

    method InsertUserExclusive(name: string)
      modifies `users
      ensures users == Inserted(old(users), name)
    {
      var found := ContainsUser(name);
      if !found {
        users := users + [name];
      }
    }

    // Erases every occurrence of a name, staying in place after an erasure.
    method EraseUser(name: string)
      modifies `users
      ensures users == Without(old(users), name)
    {
      ghost var goal := Without(users, name);
      var i := 0;
      while i < |users|
        invariant i <= |users|
        invariant users[..i] + Without(users[i..], name) == goal
        decreases |users| - i
      {
        ghost var before := users;
        if users[i] == name {
          users := users[..i] + users[i + 1..];
          assert users[..i] == before[..i] && users[i..] == before[i..][1..];
        } else {
          assert before[..i + 1] == before[..i] + [before[i]] && before[i + 1..] == before[i..][1..];
          i := i + 1;
        }
      }
      assert users[..i] == users && users[i..] == [];
    }
  }

  // ----- The handlers -----

  lemma ListingShows(all: seq<Account>, db: Db, steamId: nat)
    requires Listing(all, db)
    ensures (exists i :: 0 <= i < |all| && all[i].steamId == steamId) <==> SteamKnown(db, steamId)
  {
    if i :| 0 <= i < |all| && all[i].steamId == steamId {
      assert TiedTo(db, all[i].token, steamId);
    }
    if SteamKnown(db, steamId) {
      var t := Holder(db, steamId);
      var i :| 0 <= i < |all| && all[i] == db[t];
    }
  }

  class AccountStore {
    var db: Db

    constructor ()
      ensures db == map[] && Valid(db)
    {
      db := map[];
    }

    method Overwrite(a: Auth)
      modifies this
      ensures db == old(db)[a.token := a.Stored()]
    {
      db := db[a.token := a.Stored()];
    }

    // Whether some other record in the listing has the name.
    method ClaimedByAnother(all: seq<Account>, token: string, name: string) returns (claimed: bool)
      requires Valid(db) && Listing(all, db)
      ensures claimed <==> TakenByOther(db, token, name)
    {
      claimed := false;
      for i := 0 to |all|
        invariant claimed <==> exists k :: 0 <= k < i && all[k].token != token && name in all[k].users
      {
        for j := 0 to |all[i].users|
          invariant claimed <==> (exists k :: 0 <= k < i && all[k].token != token && name in all[k].users)
                                 || (all[i].token != token && name in all[i].users[..j])
        {
          if all[i].users[j] == name && all[i].token != token {
            claimed := true;
          }
        }
        assert all[i].users[..|all[i].users|] == all[i].users;
      }
      if k :| 0 <= k < |all| && all[k].token != token && name in all[k].users {
        assert Lists(db, all[k].token, name);
      }
      if t :| t != token && Lists(db, t, name) {
        var k :| 0 <= k < |all| && all[k] == db[t];
      }
    }

    method RegisterUser(token: string, name: string, all: seq<Account>) returns (reply: Reply)
      requires Valid(db) && Listing(all, db)
      modifies this
      ensures Valid(db)
      ensures reply == ReplyTo(old(db), Register(token, name))
      ensures db == After(old(db), Register(token, name))
    {
      RegisterKeeps(db, token, name);
      var mine := new Auth();
      var found := mine.LoadFromDb(db, token);
      if !found {
        reply := BadToken;
      } else if |mine.users| >= MAX_USERS {
        reply := TooManyUsers;
      } else {
        var claimed := ClaimedByAnother(all, token, name);
        if claimed {
          reply := NameTaken;
        } else {
          mine.InsertUserExclusive(name);
          Overwrite(mine);
          reply := Done;
        }
      }
    }

    method DeleteUser(token: string, name: string) returns (reply: Reply)
      requires Valid(db)
      modifies this
      ensures Valid(db)
      ensures reply == ReplyTo(old(db), DeleteName(token, name))
      ensures db == After(old(db), DeleteName(token, name))
    {
      DeleteKeeps(db, token, name);
      var found := new Auth();
      var known := found.LoadFromDb(db, token);
      if known {
        found.EraseUser(name);
        Overwrite(found);
        reply := Done;
      } else {
        reply := BadToken;
      }
    }

    method MakeFreeAuth(newToken: string)
      requires Valid(db)
      modifies this
      ensures Valid(db)
      ensures db == After(old(db), MakeFree(newToken))
    {
      NewRecordKeeps(db, Account(newToken, 0, [], true));
      var account := new Auth();
      account.token := newToken;
      account.isFree := true;
      Overwrite(account);
    }

    /**
     Logs a Steam user in, with or without a key. The session gets the record of the key if
     there is one, and otherwise the record tied to the Steam id.
     */
    method LoginWithSteam(steamId: nat, key: Option<string>, newToken: string, all: seq<Account>, again: seq<Account>)
      returns (reply: Reply, session: string)
      requires Valid(db) && Listing(all, db)
      requires Listing(again, After(db, SteamLogin(steamId, key, newToken)))
      modifies this
      ensures Valid(db)
      ensures reply == ReplyTo(old(db), SteamLogin(steamId, key, newToken))
      ensures db == After(old(db), SteamLogin(steamId, key, newToken))
      ensures reply == Done && key.Some? ==> session == key.value
      ensures reply == Done && key.None? ==> TiedTo(db, session, steamId)
    {
      hide FewNames, NamesUnique, SteamUnique, Inserted, Without, TakenByOther;
      StepKeeps(db, SteamLogin(steamId, key, newToken));
      ListingShows(all, db, steamId);
      ListingShows(again, After(db, SteamLogin(steamId, key, newToken)), steamId);
      var mine := new Auth();
      var probe := new Auth();
      var known := probe.LoadFromDbSteamId(all, steamId);
      session := "";
      var welcome := true;
      if key.Some? {
        welcome := mine.LoadFromDb(db, key.value);
      } else {
        var _ := mine.LoadFromDbSteamId(all, steamId);
      }
      if !welcome {
        reply := BadToken;
      } else {
        if !known {
          var account := new Auth();
          account.token := newToken;
          account.steamId := steamId;
          Overwrite(account);
          if key.None? {
            assert TiedTo(db, newToken, steamId);
            var _ := mine.LoadFromDbSteamId(again, steamId);
          }
        }
        session := mine.token;
        reply := Done;
      }
    }

    method DeleteSteamAndTie(token: string, steamId: nat, all: seq<Account>) returns (reply: Reply)
      requires Valid(db) && Listing(all, db)
      modifies this
      ensures Valid(db)
      ensures reply == ReplyTo(old(db), Retie(token, steamId))
      ensures db == After(old(db), Retie(token, steamId))
    {
      hide FewNames, NamesUnique, Inserted, Without, TakenByOther;
      RetieKeeps(db, token, steamId);
      ListingShows(all, db, steamId);
      if steamId == 0 {
        reply := NoSteamId;
      } else {
        var mine := new Auth();
        var steamUser := new Auth();
        var found := mine.LoadFromDb(db, token);
        var known := steamUser.LoadFromDbSteamId(all, steamId);
        if !found {
          reply := BadToken;
        } else if !known {
          reply := NoSteamAuth;
        } else if mine.steamId == steamId {
          reply := AlreadyTied;
        } else {
          assert TiedTo(db, steamUser.token, steamId);
          steamUser.steamId := 0;
          Overwrite(steamUser);
          mine.steamId := steamId;
          Overwrite(mine);
          reply := Done;
        }
      }
    }
  }
}
