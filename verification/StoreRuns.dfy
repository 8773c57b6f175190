/**
 Whole runs of one collection: inserts, updates, searches, removals and `$db` calls, with rejected
 writes, restarts, and the rest of the program taking ids in between.
 */
module StoreRuns {

  import opened Optional
  import opened Json
  import opened Query
  import opened Sums
  import opened DocumentStore
  import opened DbPaths
  import opened StoreInvariants
  import opened StoreSteps

  datatype Op =
    | InsertOne(js: Json)
    | UpdateDocs(selector: Json, update: Json, many: bool)
    | FindMany
    | RemoveMany(selector: Json)
    | SetPath(path: Path, value: Json)
    | DeletePath(path: Path)
    | TakeIds(nextId: Cid)
    | RestartAt(nextId: Cid)

  /** `listing` is what the directory shows if the operation has to import. */
  datatype Event = Event(op: Op, listing: seq<Cid>)

  /** What the world owes the collection: right listings, and an allocator that never goes back. */
  ghost predicate Legal(s: Store, e: Event) {
    if e.op.TakeIds? || e.op.RestartAt? then s.nextId <= e.op.nextId else Lists(e.listing, s.files)
  }

  /** Every file decodes and every document has an id; otherwise each operation throws. */
  ghost predicate Readable(lib: Lib, s: Store) {
    DiskOk(lib, s.files) && (s.imported ==> AllDocs(s.docs))
  }

  lemma ReadableDocs(lib: Lib, s: Store, listing: seq<Cid>)
    requires Readable(lib, s) && Lists(listing, s.files)
    ensures AllDocs(Import(lib, s, listing).docs)
  {
    DecodedCids(lib, s.files, listing);
  }

  /** The operation on the imported collection. */
  ghost function Operate(lib: Lib, s: Store, op: Op): (Store, Outcome)
    requires AllDocs(s.docs)
  {
    match op
    case InsertOne(js) => Insert(lib, s, js)
    case UpdateDocs(selector, update, many) => Update(lib, s, selector, update, many)
    case RemoveMany(selector) => SelectedDocs(lib, s.docs, selector); (Remove(lib, s, selector), Done)
    case SetPath(path, v) => Set(lib, s, path, v)
    case DeletePath(path) => Delete(lib, s, path)
    case _ => (s, Done)
  }

  ghost function Step(lib: Lib, s: Store, e: Event): (Store, Outcome)
    requires Legal(s, e)
  {
    if e.op.TakeIds? then (s.(nextId := e.op.nextId), Done)
    else if e.op.RestartAt? then (Restart(s, e.op.nextId), Done)
    else if !Readable(lib, s) then (s, Threw)
    else ReadableDocs(lib, s, e.listing); Operate(lib, Import(lib, s, e.listing), e.op)
  }

  /** The one kind of operation that puts memory and disk out of step. */
  predicate SpoilsBy(s: Store, op: Op)
    requires AllDocs(s.docs)
  {
    match op
    case SetPath(path, v) => Spoils(s, path, Some(v))
    case DeletePath(path) => Spoils(s, path, None)
    case _ => false
  }

  ghost predicate SpoilsStep(lib: Lib, s: Store, e: Event)
    requires Legal(s, e)
  {
    && (e.op.SetPath? || e.op.DeletePath?)
    && Readable(lib, s)
    && (ReadableDocs(lib, s, e.listing); SpoilsBy(Import(lib, s, e.listing), e.op))
  }

  ghost predicate Fresh(s: Store) {
    !s.imported && s.files == map[] && !s.wrapped
  }

  /** A run from an empty disk. */
  ghost predicate Run(lib: Lib, ss: seq<Store>, es: seq<Event>)
  {
    && |ss| == |es| + 1 && Fresh(ss[0])
    && forall i :: 0 <= i < |es| ==> Legal(ss[i], es[i]) && ss[i + 1] == Step(lib, ss[i], es[i]).0
  }

  // -------------------------------------------------------------------- steps

  /**
   A valid state accepts every operation, and the operation keeps the invariant, keeps the quota,
   and keeps memory in step with the disk unless it spoils it.
   */
  lemma StepKeeps(lib: Lib, s: Store, e: Event)
    requires lib.Valid() && Valid(lib, s) && Legal(s, e)
    ensures Readable(lib, s)
    ensures var (s', outcome) := Step(lib, s, e);
            && Kept(lib, s, s', false)
            && (Coherent(lib, s) ==> (Coherent(lib, s') <==> !SpoilsStep(lib, s, e)))
            && (outcome == OverQuota ==> !s'.imported)
            && (SpoilsStep(lib, s, e) ==> outcome == Threw)
  {
    hide Valid, Coherent, Sound, Synced, Import, Operate, Spoils, DiskOk, Lists;
    ValidIsReadable(lib, s);
    if e.op.TakeIds? {
      IdTaken(lib, s, e.op.nextId);
    } else if e.op.RestartAt? {
      RestartKeeps(lib, s, e.op.nextId);
    } else {
      ImportKeeps(lib, s, e.listing);
      CoherentIsSynced(lib, Import(lib, s, e.listing));
      OperateKeeps(lib, Import(lib, s, e.listing), e.op);
    }
  }

  lemma ValidIsReadable(lib: Lib, s: Store)
    requires Valid(lib, s)
    ensures Readable(lib, s)
  {
  }

  lemma RestartKeeps(lib: Lib, s: Store, nextId: Cid)
    requires Valid(lib, s) && s.nextId <= nextId
    ensures Kept(lib, s, Restart(s, nextId), true)
  {
  }

  lemma OperateKeeps(lib: Lib, s: Store, op: Op)
    requires lib.Valid() && Valid(lib, s) && s.imported && Sound(lib, s)
    ensures var (s', outcome) := Operate(lib, s, op);
            && Kept(lib, s, s', false)
            && (Synced(lib, s) ==> (Coherent(lib, s') <==> !SpoilsBy(s, op)))
            && (outcome == OverQuota ==> !s'.imported)
            && (SpoilsBy(s, op) ==> outcome == Threw)
  {
    hide Valid, Coherent, Synced, Insert, UpdateFrom, Set, Delete, Spoils, DiskOk, Cids;
    match op
    case InsertOne(js) => InsertKeeps(lib, s, js);
    case UpdateDocs(selector, update, many) => UpdateFromKeeps(lib, s, 0, selector, update, many);
    case RemoveMany(selector) => RemoveKeeps(lib, s, selector);
    case SetPath(path, v) => SetKeeps(lib, s, path, v);
    case DeletePath(path) => DeleteKeeps(lib, s, path);
    case _ => StaysInStep(lib, s);
  }

  /**
   The steps of a run are the operations on the imported collection; a search changes nothing but the
   import, and a restart keeps the files and nothing else.
   */
  lemma StepsAreOperations(lib: Lib, s: Store, e: Event)
    requires Valid(lib, s) && Legal(s, e)
    ensures Readable(lib, s)
    ensures !e.op.TakeIds? && !e.op.RestartAt? ==>
              && AllDocs(Import(lib, s, e.listing).docs)
              && var s0, r := Import(lib, s, e.listing), Step(lib, s, e);
              && (e.op.InsertOne? ==> r == Insert(lib, s0, e.op.js))
              && (e.op.UpdateDocs? ==> r == Update(lib, s0, e.op.selector, e.op.update, e.op.many))
              && (e.op.FindMany? ==> r == (s0, Done))
              && (e.op.RemoveMany? ==>
                    && AllDocs(Selected(lib, s0.docs, e.op.selector))
                    && r == (Remove(lib, s0, e.op.selector), Done))
              && (e.op.SetPath? ==> r == Set(lib, s0, e.op.path, e.op.value))
              && (e.op.DeletePath? ==> r == Delete(lib, s0, e.op.path))
    ensures e.op.RestartAt? ==>
              var s' := Step(lib, s, e).0;
              s'.files == s.files && s'.docs == [] && s'.sizes == map[] && !s'.imported && s'.nextId == e.op.nextId
    ensures e.op.TakeIds? ==> Step(lib, s, e).0 == s.(nextId := e.op.nextId)
  {
    hide Insert, Update, Set, Delete, Valid, DiskOk, Lists;
    ValidIsReadable(lib, s);
    if !e.op.TakeIds? && !e.op.RestartAt? {
      ReadableDocs(lib, s, e.listing);
      if e.op.RemoveMany? {
        SelectedDocs(lib, Import(lib, s, e.listing).docs, e.op.selector);
      }
    }
  }

  // --------------------------------------------------------------------- runs

  lemma {:induction false} RunValid(lib: Lib, ss: seq<Store>, es: seq<Event>, i: nat)
    requires lib.Valid() && Run(lib, ss, es) && i < |ss|
    ensures Valid(lib, ss[i])
  {
    hide Valid, Step, Legal, Readable;
    if i > 0 {
      RunValid(lib, ss, es, i - 1);
      StepKeeps(lib, ss[i - 1], es[i - 1]);
    } else {
      FreshIsValid(lib, ss[0]);
    }
  }

  lemma FreshIsValid(lib: Lib, s: Store)
    requires Fresh(s)
    ensures Valid(lib, s) && Coherent(lib, s)
  {
    assert Lengths(s.files) == map[];
  }

  /**
   In every state of every run from an empty disk, the files decode to documents named by their ids,
   the documents in memory have distinct ids that were already issued, every file has one, sizes are
   those of the files, and no operation is refused for unreadable files.
   */
  lemma RunSound(lib: Lib, ss: seq<Store>, es: seq<Event>, i: nat)
    requires lib.Valid() && Run(lib, ss, es) && i < |ss|
    ensures DiskOk(lib, ss[i].files) && Readable(lib, ss[i])
    ensures forall cid :: cid in ss[i].files ==> cid < ss[i].nextId
    ensures ss[i].imported ==> Sound(lib, ss[i])
    ensures !ss[i].wrapped ==> Sum(Lengths(ss[i].files)) <= MAX_DB_SIZE
  {
    RunValid(lib, ss, es, i);
  }

  lemma {:induction false} SomeListing(files: map<Cid, Bytes>) returns (listing: seq<Cid>)
    ensures Lists(listing, files)
    decreases |files|
  {
    listing := [];
    if files != map[] {
      var cid :| cid in files;
      assert (files - {cid}).Keys == files.Keys - {cid};
      var rest := SomeListing(files - {cid});
      listing := [cid] + rest;
    }
  }

  /** A run can always go on with any operation; none is refused because files cannot be read. */
  lemma RunGoesOn(lib: Lib, ss: seq<Store>, es: seq<Event>, op: Op) returns (e: Event)
    requires lib.Valid() && Run(lib, ss, es)
    requires op.TakeIds? || op.RestartAt? ==> ss[|es|].nextId <= op.nextId
    ensures e.op == op && Legal(ss[|es|], e) && Readable(lib, ss[|es|])
    ensures Run(lib, ss + [Step(lib, ss[|es|], e).0], es + [e])
  {
    var last := ss[|es|];
    RunSound(lib, ss, es, |es|);
    var listing := SomeListing(last.files);
    e := Event(op, listing);
    hide Step;
    var more, events := ss + [Step(lib, last, e).0], es + [e];
    forall i | 0 <= i < |events|
      ensures Legal(more[i], events[i]) && more[i + 1] == Step(lib, more[i], events[i]).0
    {
      if i < |es| {
        assert more[i] == ss[i] && more[i + 1] == ss[i + 1] && events[i] == es[i];
      }
    }
  }

  /**
   Memory and disk agree in every state of a run if and only if no `$db` call of the run throws
   after it opened a document or filled in its path.
   */
  lemma RunCoherent(lib: Lib, ss: seq<Store>, es: seq<Event>)
    requires lib.Valid() && Run(lib, ss, es)
    ensures (forall i :: 0 <= i < |ss| ==> Coherent(lib, ss[i])) <==>
            (forall i :: 0 <= i < |es| ==> !SpoilsStep(lib, ss[i], es[i]))
  {
    hide Valid, Step, Legal, Coherent, SpoilsStep, Readable;
    if forall i :: 0 <= i < |es| ==> !SpoilsStep(lib, ss[i], es[i]) {
      forall i | 0 <= i < |ss|
        ensures Coherent(lib, ss[i])
      {
        CoherentUpTo(lib, ss, es, i);
      }
    } else if forall i :: 0 <= i < |ss| ==> Coherent(lib, ss[i]) {
      var i :| 0 <= i < |es| && SpoilsStep(lib, ss[i], es[i]);
      assert Coherent(lib, ss[i]) && Coherent(lib, ss[i + 1]);
      RunValid(lib, ss, es, i);
      StepKeeps(lib, ss[i], es[i]);
    }
  }

  lemma {:induction false} CoherentUpTo(lib: Lib, ss: seq<Store>, es: seq<Event>, i: nat)
    requires lib.Valid() && Run(lib, ss, es) && i < |ss|
    requires forall i :: 0 <= i < |es| ==> !SpoilsStep(lib, ss[i], es[i])
    ensures Coherent(lib, ss[i])
  {
    hide Valid, Step, Legal, Coherent, SpoilsStep;
    if i > 0 {
      CoherentUpTo(lib, ss, es, i - 1);
      RunValid(lib, ss, es, i - 1);
      StepKeeps(lib, ss[i - 1], es[i - 1]);
    } else {
      FreshIsValid(lib, ss[0]);
    }
  }

  /**
   Such a call exists: assigning a number to `$db[0]` of an empty collection throws, and leaves in
   memory a document that no file holds.
   */
  lemma ThrownCallLeavesADocument(lib: Lib, s: Store)
    requires lib.Valid() && Fresh(s)
    ensures var e := Event(SetPath(["0"], Num(Whole(5))), []);
            && Legal(s, e)
            && SpoilsStep(lib, s, e)
            && Step(lib, s, e) == (s.(docs := [WithCid(map[], s.nextId)], sizes := map[], imported := true,
                                      nextId := s.nextId + 1), Threw)
            && !Coherent(lib, Step(lib, s, e).0)
  {
    var e := Event(SetPath(["0"], Num(Whole(5))), []);
    FreshIsValid(lib, s);
    var s0 := Import(lib, s, []);
    assert Lengths(s.files) == map[];
    assert s0 == s.(docs := [], sizes := map[], imported := true);
    assert Digits("0"[1..], 0) == 0;
    assert Digits("0", 0) == 0;
    assert Stoi("0") == Some(0);
    assert Root(s0.docs, ["0"]) == Some(0);
    assert ["0"][1..] == [];
    var s1 := Opened(s0, 0);
    assert s1.docs[0 := s1.docs[0]] == s1.docs == [WithCid(map[], s.nextId)];
    assert Set(lib, s0, ["0"], Num(Whole(5))) == (s1, Threw);
    assert !OnDisk(lib, s1, 0);
  }

  /** After a rejected write, the next operation starts from exactly what is on disk. */
  lemma RejectionReimports(lib: Lib, s: Store, e: Event, listing: seq<Cid>)
    requires lib.Valid() && Valid(lib, s) && Legal(s, e) && Step(lib, s, e).1 == OverQuota
    requires Lists(listing, Step(lib, s, e).0.files)
    ensures var s' := Step(lib, s, e).0;
            && DiskOk(lib, s'.files)
            && Import(lib, s', listing).docs == Decoded(lib, s'.files, listing)
            && (e.op.InsertOne? ==> s'.files == s.files)
  {
    hide Valid, Sound, Insert, UpdateFrom, Set, Delete;
    StepKeeps(lib, s, e);
    assert DiskOk(lib, Step(lib, s, e).0.files) by { ValidDisk(lib, Step(lib, s, e).0); }
    if e.op.InsertOne? {
      ImportKeeps(lib, s, e.listing);
      InsertKeeps(lib, Import(lib, s, e.listing), e.op.js);
    }
  }

  lemma ValidDisk(lib: Lib, s: Store)
    requires Valid(lib, s)
    ensures DiskOk(lib, s.files)
  {
  }
}
