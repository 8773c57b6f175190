/**
 The byte quota over whole runs, for documents of ordinary size: as long as no document encodes to
 2 GiB less the quota, no total can wrap round, and the files never exceed the quota.
 */
module StoreQuota {

  import opened Optional
  import opened Json
  import opened Query
  import opened Sums
  import opened DocumentStore
  import opened DbPaths
  import opened StoreInvariants
  import opened StoreSteps
  import opened StoreRuns

  const DOC_LIMIT := INT_MAX - MAX_DB_SIZE

  /** The document is not so large that it takes a total within the quota past an int. */
  predicate Small(lib: Lib, d: Json) {
    |lib.encode(d)| <= DOC_LIMIT
  }

  /** Every document that the operation would write to the imported collection is small. */
  ghost predicate SmallWrites(lib: Lib, s: Store, op: Op)
    requires AllDocs(s.docs)
  {
    match op
    case InsertOne(js) => js.Obj? || js.Null? ==> Small(lib, WithCid(Fields(js), s.nextId))
    case UpdateDocs(selector, update, _) => SmallUpdates(lib, s.docs, 0, selector, update)
    case SetPath(path, v) =>
      if path == [] then v.Obj? ==> Small(lib, WithCid(v.o, s.nextId))
      else
        Root(s.docs, path).Some? ==>
          Small(lib, Assigned(Opened(s, Root(s.docs, path).value).docs[Root(s.docs, path).value], path[1..], v))
    case DeletePath(path) =>
      |path| > 1 && Root(s.docs, path).Some? ==>
        var doc := Opened(s, Root(s.docs, path).value).docs[Root(s.docs, path).value];
        var rest := Without(GetAt(Vivify(doc, path[1..]).0, path[1..|path| - 1]).GetOr(Null), path[|path| - 1]);
        rest.Some? ==> Small(lib, Reduced(doc, path, rest.value))
    case _ => true
  }

  ghost predicate SmallUpdates(lib: Lib, docs: seq<Json>, from: nat, selector: Json, update: Json)
    requires AllDocs(docs)
  {
    forall j :: from <= j < |docs| && Matches(lib, docs[j], selector) ==> Small(lib, Updated(docs[j], update))
  }

  /** The document that a delete call below it writes. */
  function Reduced(doc: Json, path: Path, rest: Json): Json
    requires IsDoc(doc) && |path| > 1
  {
    WithCid(Fields(SetAt(Vivify(doc, path[1..]).0, path[1..|path| - 1], rest).GetOr(rest)), CidOf(doc))
  }

  ghost predicate Within(s: Store) {
    !s.wrapped && s.sizes == Lengths(s.files) && Sum(s.sizes) <= MAX_DB_SIZE
  }

  lemma FlushFits(lib: Lib, s: Store, d: Json)
    requires lib.Valid() && IsDoc(d) && Within(s) && Small(lib, d)
    ensures !Flush(lib, s, d).0.wrapped
  {
    hide Sum;
    OverQuotaOnlyByWrapping(lib, s, d);
  }

  lemma SoundIsWithin(lib: Lib, s: Store)
    requires Valid(lib, s) && Sound(lib, s) && !s.wrapped
    ensures Within(s)
  {
  }

  /** A write in a collection whose files are those of `s`. */
  lemma WriteFits(lib: Lib, s: Store, s0: Store, d: Json)
    requires lib.Valid() && Within(s) && IsDoc(d) && Small(lib, d)
    requires s0.wrapped == s.wrapped && s0.sizes == s.sizes && s0.files == s.files
    ensures !Flush(lib, s0, d).0.wrapped && !Flushed(lib, s0, d).0.wrapped
  {
    hide Flush, Sum;
    FlushFits(lib, s0, d);
  }

  lemma {:induction false} UpdateFits(lib: Lib, s: Store, i: nat, selector: Json, update: Json, many: bool)
    requires lib.Valid() && Valid(lib, s) && s.imported && !s.wrapped && i <= |s.docs| && AllDocs(s.docs)
    requires SmallUpdates(lib, s.docs, i, selector, update)
    ensures !UpdateFrom(lib, s, i, selector, update, many).0.wrapped
    decreases |s.docs| - i
  {
    hide Valid, Flush, Matches, Updated, DiskOk, Cids, Within, UpdateFrom, Sound, Synced, SyncedBut, Coherent;
    SoundWhenImported(lib, s);
    if i < |s.docs| {
      UpdateStep(lib, s, i, selector, update, many);
      if Matches(lib, s.docs[i], selector) {
        UpdatedKeepsCid(s.docs[i], update);
        var d := Updated(s.docs[i], update);
        var s0 := s.(docs := s.docs[i := d]);
        var (s1, ok) := Flush(lib, s0, d);
        FlushKeeps(lib, s, i, d);
        SoundIsWithin(lib, s);
        WriteFits(lib, s, s0, d);
        if ok && many {
          UpdateFits(lib, s1, i + 1, selector, update, many);
        }
      } else {
        UpdateFits(lib, s, i + 1, selector, update, many);
      }
    } else {
      UpdateEnd(lib, s, selector, update, many);
    }
  }

  lemma SetFits(lib: Lib, s: Store, path: Path, v: Json)
    requires lib.Valid() && Valid(lib, s) && s.imported && Sound(lib, s) && AllDocs(s.docs) && !s.wrapped
    requires SmallWrites(lib, s, SetPath(path, v))
    ensures !Set(lib, s, path, v).0.wrapped
  {
    hide Valid, Flush, Vivify, SetAt, Within, Sound, Cids, DiskOk;
    SoundIsWithin(lib, s);
    if path == [] {
      if v.Obj? {
        var d := WithCid(v.o, s.nextId);
        var gone := Cids(s.docs);
        var emptied := s.(docs := [], sizes := s.sizes - gone, files := s.files - gone);
        TakenAll(lib, s);
        SoundIsWithin(lib, emptied);
        WriteFits(lib, emptied, emptied.(docs := [d], nextId := s.nextId + 1), d);
      }
    } else if Root(s.docs, path).Some? {
      var i := Root(s.docs, path).value;
      var s1 := Opened(s, i);
      var d := Assigned(s1.docs[i], path[1..], v);
      WriteFits(lib, s, s1.(docs := s1.docs[i := d]), d);
    }
  }

  lemma DeleteFits(lib: Lib, s: Store, path: Path)
    requires lib.Valid() && Valid(lib, s) && s.imported && Sound(lib, s) && AllDocs(s.docs) && !s.wrapped
    requires SmallWrites(lib, s, DeletePath(path))
    ensures !Delete(lib, s, path).0.wrapped
  {
    hide Valid, Flush, Vivify, SetAt, GetAt, Without, Within, Sound, Cids, DiskOk;
    SoundIsWithin(lib, s);
    if |path| > 1 && Root(s.docs, path).Some? {
      var i := Root(s.docs, path).value;
      var s1 := Opened(s, i);
      var seen := Vivify(s1.docs[i], path[1..]).0;
      var rest := Without(GetAt(seen, path[1..|path| - 1]).GetOr(Null), path[|path| - 1]);
      if rest.Some? {
        var d := Reduced(s1.docs[i], path, rest.value);
        WriteFits(lib, s, s1.(docs := s1.docs[i := d]), d);
      }
    }
  }

  lemma OperateFits(lib: Lib, s: Store, op: Op)
    requires lib.Valid() && Valid(lib, s) && s.imported && Sound(lib, s) && AllDocs(s.docs) && !s.wrapped
    requires SmallWrites(lib, s, op)
    ensures !Operate(lib, s, op).0.wrapped
  {
    hide Valid, Small, UpdateFrom, Set, Delete, Within, Selected, Rest, Cids, DiskOk, Flush;
    match op
    case InsertOne(js) =>
      SoundIsWithin(lib, s);
      if js.Obj? || js.Null? {
        var d := WithCid(Fields(js), s.nextId);
        WriteFits(lib, s, s.(docs := s.docs + [d], nextId := s.nextId + 1), d);
      }
    case UpdateDocs(selector, update, many) => UpdateFits(lib, s, 0, selector, update, many);
    case RemoveMany(selector) => SelectedDocs(lib, s.docs, selector);
    case SetPath(path, v) => SetFits(lib, s, path, v);
    case DeletePath(path) => DeleteFits(lib, s, path);
    case _ =>
  }

  /** What an event of a run writes is small; seen from the state before it. */
  ghost predicate SmallStep(lib: Lib, s: Store, e: Event)
    requires Legal(s, e)
  {
    e.op.TakeIds? || e.op.RestartAt?
    || (Readable(lib, s) ==> (ReadableDocs(lib, s, e.listing); SmallWrites(lib, Import(lib, s, e.listing), e.op)))
  }

  lemma StepFits(lib: Lib, s: Store, e: Event)
    requires lib.Valid() && Valid(lib, s) && Legal(s, e) && !s.wrapped && SmallStep(lib, s, e)
    ensures !Step(lib, s, e).0.wrapped
  {
    hide Valid, SmallWrites, Operate, DiskOk, Lists;
    ValidIsReadable(lib, s);
    if !e.op.TakeIds? && !e.op.RestartAt? {
      ReadableDocs(lib, s, e.listing);
      ImportKeeps(lib, s, e.listing);
      OperateFits(lib, Import(lib, s, e.listing), e.op);
    }
  }

  /**
   In every state of every run in which no operation is about to write a document of nearly 2 GiB,
   the files of the collection hold at most the quota: after rejected writes, half-finished updates,
   deletions, assignments of the whole collection, restarts and imports.
   */
  lemma {:induction false} QuotaNeverExceeded(lib: Lib, ss: seq<Store>, es: seq<StoreRuns.Event>, i: nat)
    requires lib.Valid() && Run(lib, ss, es) && i < |ss|
    requires forall k :: 0 <= k < i ==> SmallStep(lib, ss[k], es[k])
    ensures !ss[i].wrapped && Sum(Lengths(ss[i].files)) <= MAX_DB_SIZE
  {
    hide Valid, SmallStep, Step, Legal, Sum, Readable;
    if i > 0 {
      QuotaNeverExceeded(lib, ss, es, i - 1);
      RunValid(lib, ss, es, i - 1);
      assert ss[i] == Step(lib, ss[i - 1], es[i - 1]).0;
      StepFits(lib, ss[i - 1], es[i - 1]);
    }
    RunSound(lib, ss, es, i);
  }
}
