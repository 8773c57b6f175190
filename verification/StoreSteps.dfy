/**
 Each operation on a collection keeps the invariant, and what a rejected write leaves behind.
 */
module StoreSteps {

  import opened Optional
  import opened Json
  import opened Query
  import opened Sums
  import opened DocumentStore
  import opened DbPaths
  import opened StoreInvariants

  /** An operation's result: sound and in the quota, and in step with the disk if `synced`. */
  ghost predicate Kept(lib: Lib, s: Store, s': Store, synced: bool) {
    && Valid(lib, s')
    && s.nextId <= s'.nextId
    && (s.wrapped ==> s'.wrapped)
    && (synced ==> Coherent(lib, s'))
  }

  lemma SumLess(m: map<Cid, nat>, keys: set<Cid>)
    ensures Sum(m - keys) <= Sum(m)
    decreases |keys|
  {
    if keys == {} {
      assert m - keys == m;
    } else {
      var k :| k in keys;
      SumDrop(m, k);
      SumLess(m - {k}, keys - {k});
      assert m - {k} - (keys - {k}) == m - keys;
    }
  }

  lemma LengthsDrop(files: map<Cid, Bytes>, keys: set<Cid>)
    ensures Lengths(files - keys) == Lengths(files) - keys
    ensures Sum(Lengths(files - keys)) <= Sum(Lengths(files))
  {
    assert Lengths(files - keys) == Lengths(files) - keys;
    SumLess(Lengths(files), keys);
  }

  // ------------------------------------------------------------------ import

  lemma DecodedCids(lib: Lib, files: map<Cid, Bytes>, listing: seq<Cid>)
    requires DiskOk(lib, files) && Lists(listing, files)
    ensures var docs := Decoded(lib, files, listing);
            AllDocs(docs) && DistinctCids(docs) && Cids(docs) == files.Keys
  {
    var docs := Decoded(lib, files, listing);
    assert forall i :: 0 <= i < |docs| ==> CidOf(docs[i]) == listing[i];
    forall cid | cid in files
      ensures cid in Cids(docs)
    {
      var i :| 0 <= i < |listing| && listing[i] == cid;
      CidIn(docs, i);
    }
  }

  lemma ImportKeeps(lib: Lib, s: Store, listing: seq<Cid>)
    requires Valid(lib, s) && Lists(listing, s.files)
    ensures var s' := Import(lib, s, listing);
            && Valid(lib, s') && s'.imported && Sound(lib, s')
            && s' == s.(docs := s'.docs, sizes := s'.sizes, imported := true)
            && (Coherent(lib, s) ==> Synced(lib, s'))
  {
    if !s.imported {
      DecodedCids(lib, s.files, listing);
      var s' := Import(lib, s, listing);
      forall j | 0 <= j < |s'.docs|
        ensures OnDisk(lib, s', j)
      {
        CidIn(s'.docs, j);
      }
    }
  }

  // ------------------------------------------------------------------ insert

  /** A new document at the end of a collection, before it is written. */
  lemma Appended(lib: Lib, s: Store, d: Json)
    requires Sound(lib, s) && IsDoc(d) && CidOf(d) == s.nextId
    ensures var s' := s.(docs := s.docs + [d], nextId := s.nextId + 1);
            && Sound(lib, s')
            && (Synced(lib, s) ==> SyncedBut(lib, s', |s.docs|))
            && s'.docs[|s.docs| := d] == s'.docs
  {
    hide DiskOk;
    var s' := s.(docs := s.docs + [d], nextId := s.nextId + 1);
    assert forall i :: 0 <= i < |s.docs| ==> s'.docs[i] == s.docs[i];
    forall i | 0 <= i < |s.docs|
      ensures CidOf(s'.docs[i]) < s.nextId
    {
      CidIn(s.docs, i);
    }
    forall cid | cid in Cids(s.docs)
      ensures cid in Cids(s'.docs)
    {
      var i :| 0 <= i < |s.docs| && cid == CidOf(s.docs[i]);
      CidIn(s'.docs, i);
    }
    if Synced(lib, s) {
      forall j | 0 <= j < |s'.docs| && j != |s.docs|
        ensures OnDisk(lib, s', j)
      {
        assert OnDisk(lib, s, j);
      }
    }
  }

  /** Writing document `i` of a sound collection with an unchanged id keeps the invariant. */
  lemma FlushKeeps(lib: Lib, s: Store, i: nat, d: Json)
    requires lib.Valid() && Valid(lib, s) && s.imported && i < |s.docs|
    requires IsDoc(d) && CidOf(d) == CidOf(s.docs[i])
    ensures var (s', ok) := Flush(lib, s.(docs := s.docs[i := d]), d);
            && Kept(lib, s, s', SyncedBut(lib, s, i))
            && s'.docs == s.docs[i := d] && s'.nextId == s.nextId
            && (ok ==> s'.imported && s'.files == s.files[CidOf(d) := lib.encode(d)])
            && (!ok ==> s'.files == s.files && !s'.imported)
  {
    hide DiskOk, Cids, Flush;
    WriteThrough(lib, s, i, d);
    CidIn(s.docs, i);
  }

  /** The allocator moving on, for whatever reason, breaks nothing. */
  lemma IdTaken(lib: Lib, s: Store, nextId: Cid)
    requires Valid(lib, s) && s.nextId <= nextId
    ensures Valid(lib, s.(nextId := nextId))
    ensures Coherent(lib, s) ==> Coherent(lib, s.(nextId := nextId))
  {
    var s' := s.(nextId := nextId);
    if s.imported && Synced(lib, s) {
      forall j | 0 <= j < |s.docs|
        ensures OnDisk(lib, s', j)
      {
        assert OnDisk(lib, s, j);
      }
    }
  }

  /** A rejected insert leaves the files, and so the collection the next operation imports, as they were. */
  lemma InsertKeeps(lib: Lib, s: Store, js: Json)
    requires lib.Valid() && Valid(lib, s) && s.imported
    ensures var (s', outcome) := Insert(lib, s, js);
            && Kept(lib, s, s', Synced(lib, s))
            && (outcome == OverQuota ==> s'.files == s.files && !s'.imported)
            && (outcome == Done ==>
                  var d := WithCid(Fields(js), s.nextId);
                  s'.docs == s.docs + [d] && s'.files == s.files[s.nextId := lib.encode(d)])
  {
    hide DiskOk, Cids, Flush;
    if js.Obj? || js.Null? {
      var d := WithCid(Fields(js), s.nextId);
      Appended(lib, s, d);
      FlushKeeps(lib, s.(docs := s.docs + [d], nextId := s.nextId + 1), |s.docs|, d);
    } else {
      IdTaken(lib, s, s.nextId + 1);
    }
  }

  // ------------------------------------------------------------------ update

  lemma UpdatedKeepsCid(d: Json, update: Json)
    requires IsDoc(d)
    ensures IsDoc(Updated(d, update)) && CidOf(Updated(d, update)) == CidOf(d)
  {
  }

  /** A document after an update with this selector. */
  function Revised(lib: Lib, d: Json, selector: Json, update: Json): Json
    requires IsDoc(d)
  {
    if Matches(lib, d, selector) then Updated(d, update) else d
  }

  /** The files once the matching documents among the first `k` are written. */
  ghost function WrittenUpTo(lib: Lib, files: map<Cid, Bytes>, docs: seq<Json>, selector: Json, update: Json, k: nat): map<Cid, Bytes>
    requires AllDocs(docs) && k <= |docs|
  {
    if k == 0 then files
    else
      var before := WrittenUpTo(lib, files, docs, selector, update, k - 1);
      if Matches(lib, docs[k - 1], selector)
      then before[CidOf(docs[k - 1]) := lib.encode(Updated(docs[k - 1], update))] else before
  }

  /** The sizes on record by then. */
  ghost function SizesUpTo(lib: Lib, sizes: map<Cid, nat>, docs: seq<Json>, selector: Json, update: Json, k: nat): map<Cid, nat>
    requires AllDocs(docs) && k <= |docs|
  {
    if k == 0 then sizes
    else
      var before := SizesUpTo(lib, sizes, docs, selector, update, k - 1);
      if Matches(lib, docs[k - 1], selector)
      then before[CidOf(docs[k - 1]) := |lib.encode(Updated(docs[k - 1], update))|] else before
  }

  /** Document `k` matches, and with the writes before it and its own the total fails the check. */
  ghost predicate RefusedAt(lib: Lib, sizes: map<Cid, nat>, docs: seq<Json>, selector: Json, update: Json, k: nat)
    requires AllDocs(docs) && k < |docs|
  {
    && Matches(lib, docs[k], selector)
    && ToInt(Sum(SizesUpTo(lib, sizes, docs, selector, update, k + 1))) > MAX_DB_SIZE
  }

  /** One turn of the update loop, and its end. */
  lemma {:induction false} UpdateStep(lib: Lib, s: Store, i: nat, selector: Json, update: Json, many: bool)
    requires lib.Valid() && AllDocs(s.docs) && i < |s.docs|
    ensures UpdateFrom(lib, s, i, selector, update, many) ==
            if Matches(lib, s.docs[i], selector) then
              UpdatedKeepsCid(s.docs[i], update);
              var d := Updated(s.docs[i], update);
              FlushWrites(lib, s.(docs := s.docs[i := d]), d);
              var (s', ok) := Flush(lib, s.(docs := s.docs[i := d]), d);
              if ok && many then UpdateFrom(lib, s', i + 1, selector, update, many) else (s', ok)
            else UpdateFrom(lib, s, i + 1, selector, update, many)
  {
    hide Flush, Matches, Updated;
    UpdatedKeepsCid(s.docs[i], update);
  }

  lemma UpdateEnd(lib: Lib, s: Store, selector: Json, update: Json, many: bool)
    requires AllDocs(s.docs)
    ensures UpdateFrom(lib, s, |s.docs|, selector, update, many) == (s, true)
  {
  }

  /** An update, finished or cut short by a rejected write, keeps the invariant, the positions and the ids. */
  lemma {:induction false} UpdateFromKeeps(lib: Lib, s: Store, i: nat, selector: Json, update: Json, many: bool)
    requires lib.Valid() && Valid(lib, s) && s.imported && i <= |s.docs|
    ensures var (s', ok) := UpdateFrom(lib, s, i, selector, update, many);
            && Kept(lib, s, s', Synced(lib, s))
            && |s'.docs| == |s.docs| && s'.nextId == s.nextId
            && s'.imported == ok
            && (forall j :: 0 <= j < i ==> s'.docs[j] == s.docs[j])
            && (forall j :: 0 <= j < |s.docs| ==> IsDoc(s'.docs[j]) && CidOf(s'.docs[j]) == CidOf(s.docs[j]))
    decreases |s.docs| - i
  {
    hide DiskOk, Cids, Flush, Valid, Synced;
    SoundWhenImported(lib, s);
    if i == |s.docs| {
    } else if Matches(lib, s.docs[i], selector) {
      var d := Updated(s.docs[i], update);
      UpdatedKeepsCid(s.docs[i], update);
      FlushKeeps(lib, s, i, d);
      SyncedIsSyncedBut(lib, s, i);
      var (s1, ok) := Flush(lib, s.(docs := s.docs[i := d]), d);
      if ok && many {
        CoherentIsSynced(lib, s1);
        UpdateFromKeeps(lib, s1, i + 1, selector, update, many);
      }
    } else {
      UpdateFromKeeps(lib, s, i + 1, selector, update, many);
    }
  }

  lemma SoundWhenImported(lib: Lib, s: Store)
    requires Valid(lib, s) && s.imported
    ensures Sound(lib, s)
  {
  }

  lemma SyncedIsSyncedBut(lib: Lib, s: Store, i: nat)
    ensures Synced(lib, s) ==> SyncedBut(lib, s, i)
  {
  }

  lemma CoherentIsSynced(lib: Lib, s: Store)
    requires s.imported
    ensures Coherent(lib, s) == Synced(lib, s)
  {
  }

  lemma WrittenNext(lib: Lib, files: map<Cid, Bytes>, docs: seq<Json>, selector: Json, update: Json, i: nat)
    requires AllDocs(docs) && i < |docs|
    ensures WrittenUpTo(lib, files, docs, selector, update, i + 1) ==
            var before := WrittenUpTo(lib, files, docs, selector, update, i);
            if Matches(lib, docs[i], selector) then before[CidOf(docs[i]) := lib.encode(Updated(docs[i], update))] else before
  {
    hide Matches, Updated;
  }

  lemma SizesNext(lib: Lib, sizes: map<Cid, nat>, docs: seq<Json>, selector: Json, update: Json, i: nat)
    requires AllDocs(docs) && i < |docs|
    ensures SizesUpTo(lib, sizes, docs, selector, update, i + 1) ==
            var before := SizesUpTo(lib, sizes, docs, selector, update, i);
            if Matches(lib, docs[i], selector) then before[CidOf(docs[i]) := |lib.encode(Updated(docs[i], update))|] else before
  {
    hide Matches, Updated;
  }

  lemma RefusedWhen(lib: Lib, sizes: map<Cid, nat>, docs: seq<Json>, selector: Json, update: Json, i: nat,
      after: map<Cid, nat>)
    requires AllDocs(docs) && i < |docs| && after == SizesUpTo(lib, sizes, docs, selector, update, i + 1)
    ensures RefusedAt(lib, sizes, docs, selector, update, i)
            <==> Matches(lib, docs[i], selector) && ToInt(Sum(after)) > MAX_DB_SIZE
  {
  }

  lemma FlushSizes(lib: Lib, s: Store, d: Json)
    requires IsDoc(d)
    ensures var (s', ok) := Flush(lib, s, d);
            && s'.sizes == s.sizes[CidOf(d) := |lib.encode(d)|]
            && (ok <==> ToInt(Sum(s'.sizes)) <= MAX_DB_SIZE)
  {
  }

  /**
   The writes of an update that reached disk are those of the matching documents before the first
   one that is refused, in order; of all matching documents if none is.
   */
  lemma {:induction false} UpdateFromFiles(lib: Lib, s: Store, i: nat, selector: Json, update: Json,
      files: map<Cid, Bytes>, sizes: map<Cid, nat>, docs: seq<Json>) returns (k: nat)
    requires lib.Valid() && AllDocs(s.docs) && AllDocs(docs) && i <= |docs| == |s.docs|
    requires forall j :: i <= j < |docs| ==> s.docs[j] == docs[j]
    requires s.files == WrittenUpTo(lib, files, docs, selector, update, i)
    requires s.sizes == SizesUpTo(lib, sizes, docs, selector, update, i)
    ensures var (s', ok) := UpdateFrom(lib, s, i, selector, update, true);
            && i <= k <= |docs| && (ok <==> k == |docs|)
            && (k < |docs| ==> RefusedAt(lib, sizes, docs, selector, update, k))
            && s'.files == WrittenUpTo(lib, files, docs, selector, update, k)
    ensures forall j :: i <= j < k ==> !RefusedAt(lib, sizes, docs, selector, update, j)
    decreases |docs| - i
  {
    hide Updated, Matches, Flush, WrittenUpTo, SizesUpTo, UpdateFrom, RefusedAt, IsDoc;
    k := i;
    if i == |docs| {
      UpdateEnd(lib, s, selector, update, true);
    } else {
      WrittenNext(lib, files, docs, selector, update, i);
      SizesNext(lib, sizes, docs, selector, update, i);
      UpdateStep(lib, s, i, selector, update, true);
      if Matches(lib, s.docs[i], selector) {
        UpdatedKeepsCid(s.docs[i], update);
        var d := Updated(s.docs[i], update);
        var s0 := s.(docs := s.docs[i := d]);
        var (s1, ok) := Flush(lib, s0, d);
        FlushWrites(lib, s0, d);
        FlushSizes(lib, s0, d);
        RefusedWhen(lib, sizes, docs, selector, update, i, s1.sizes);
        if ok {
          k := UpdateFromFiles(lib, s1, i + 1, selector, update, files, sizes, docs);
        }
      } else {
        RefusedWhen(lib, sizes, docs, selector, update, i, s.sizes);
        k := UpdateFromFiles(lib, s, i + 1, selector, update, files, sizes, docs);
      }
    }
  }

  /** A finished update has revised every document from its start on and no other. */
  lemma {:induction false} UpdateFromDocs(lib: Lib, s: Store, i: nat, selector: Json, update: Json)
    requires lib.Valid() && AllDocs(s.docs) && i <= |s.docs|
    ensures var (s', ok) := UpdateFrom(lib, s, i, selector, update, true);
            && |s'.docs| == |s.docs|
            && (forall j :: 0 <= j < i ==> s'.docs[j] == s.docs[j])
            && (ok ==> forall j :: i <= j < |s.docs| ==> s'.docs[j] == Revised(lib, s.docs[j], selector, update))
    decreases |s.docs| - i
  {
    hide Updated, Matches, Flush, Revised;
    if i < |s.docs| {
      RevisedBy(lib, s.docs[i], selector, update);
      if Matches(lib, s.docs[i], selector) {
        UpdatedKeepsCid(s.docs[i], update);
        var d := Updated(s.docs[i], update);
        var s0 := s.(docs := s.docs[i := d]);
        var (s1, ok) := Flush(lib, s0, d);
        FlushWrites(lib, s0, d);
        if ok {
          UpdateFromDocs(lib, s1, i + 1, selector, update);
        }
      } else {
        UpdateFromDocs(lib, s, i + 1, selector, update);
      }
    }
  }

  lemma RevisedBy(lib: Lib, d: Json, selector: Json, update: Json)
    requires IsDoc(d)
    ensures Revised(lib, d, selector, update) == if Matches(lib, d, selector) then Updated(d, update) else d
  {
  }

  lemma FlushWrites(lib: Lib, s: Store, d: Json)
    requires lib.Valid() && IsDoc(d)
    ensures var (s', ok) := Flush(lib, s, d);
            s'.docs == s.docs && s'.files == if ok then s.files[CidOf(d) := lib.encode(d)] else s.files
  {
    assert lib.encode(d) != [];
  }

  /**
   An update of many is rejected at the first matching document whose write takes the total past the
   check, and leaves for the next import the writes before that one and no others; without such a
   document it finishes, and has revised every document.
   */
  lemma UpdateManyWrites(lib: Lib, s: Store, selector: Json, update: Json) returns (k: nat)
    requires lib.Valid() && AllDocs(s.docs)
    ensures k <= |s.docs| && (k < |s.docs| ==> RefusedAt(lib, s.sizes, s.docs, selector, update, k))
    ensures forall j :: 0 <= j < k ==> !RefusedAt(lib, s.sizes, s.docs, selector, update, j)
    ensures var (s', outcome) := Update(lib, s, selector, update, true);
            && outcome == (if k == |s.docs| then Done else OverQuota)
            && s'.files == WrittenUpTo(lib, s.files, s.docs, selector, update, k)
            && (outcome == Done ==>
                  && |s'.docs| == |s.docs|
                  && forall j :: 0 <= j < |s.docs| ==> s'.docs[j] == Revised(lib, s.docs[j], selector, update))
  {
    hide UpdateFrom, Revised, RefusedAt;
    k := UpdateFromFiles(lib, s, 0, selector, update, s.files, s.sizes, s.docs);
    UpdateFromDocs(lib, s, 0, selector, update);
  }

  function FirstMatch(lib: Lib, docs: seq<Json>, selector: Json): (i: nat)
    ensures i <= |docs| && (i < |docs| ==> Matches(lib, docs[i], selector))
    ensures forall j :: 0 <= j < i ==> !Matches(lib, docs[j], selector)
  {
    if docs == [] || Matches(lib, docs[0], selector) then 0
    else
      assert forall j :: 1 <= j < |docs| ==> docs[j] == docs[1..][j - 1];
      1 + FirstMatch(lib, docs[1..], selector)
  }

  /** An update of one revises the first match in memory, and on disk unless it is rejected; no other. */
  lemma UpdateOneWrites(lib: Lib, s: Store, selector: Json, update: Json)
    requires lib.Valid() && AllDocs(s.docs)
    ensures var (s', outcome) := Update(lib, s, selector, update, false);
            var i := FirstMatch(lib, s.docs, selector);
            if i == |s.docs| then s' == s && outcome == Done
            else
              && s'.docs == s.docs[i := Updated(s.docs[i], update)]
              && s'.files == (if outcome == Done
                              then s.files[CidOf(s.docs[i]) := lib.encode(Updated(s.docs[i], update))] else s.files)
              && (outcome == Done <==>
                    ToInt(Sum(s.sizes[CidOf(s.docs[i]) := |lib.encode(Updated(s.docs[i], update))|])) <= MAX_DB_SIZE)
  {
    hide Matches, UpdateFrom, Updated, Flush;
    UpdateOneFrom(lib, s, 0, selector, update);
    var i := FirstMatch(lib, s.docs, selector);
    if i < |s.docs| {
      UpdatedKeepsCid(s.docs[i], update);
      var d := Updated(s.docs[i], update);
      FlushWrites(lib, s.(docs := s.docs[i := d]), d);
      FlushSizes(lib, s.(docs := s.docs[i := d]), d);
      UpdateStep(lib, s, i, selector, update, false);
    } else {
      UpdateEnd(lib, s, selector, update, false);
    }
  }

  /** The loop passes over what does not match. */
  lemma {:induction false} UpdateOneFrom(lib: Lib, s: Store, from: nat, selector: Json, update: Json)
    requires lib.Valid() && AllDocs(s.docs) && from <= FirstMatch(lib, s.docs, selector)
    ensures UpdateFrom(lib, s, from, selector, update, false) ==
            UpdateFrom(lib, s, FirstMatch(lib, s.docs, selector), selector, update, false)
    decreases |s.docs| - from
  {
    hide Matches, UpdateFrom, Updated, Flush, FirstMatch;
    if from < FirstMatch(lib, s.docs, selector) {
      UpdateStep(lib, s, from, selector, update, false);
      UpdateOneFrom(lib, s, from + 1, selector, update);
    }
  }

  // -------------------------------------------------------------- idempotence

  /** Once some write of a finished update went through, the last total passed the check. */
  lemma {:induction false} UpdateFromPasses(lib: Lib, s: Store, i: nat, selector: Json, update: Json)
    requires AllDocs(s.docs) && i <= |s.docs|
    ensures var (s', ok) := UpdateFrom(lib, s, i, selector, update, true);
            ok ==> s' == s || (ToInt(Sum(s'.sizes)) <= MAX_DB_SIZE && (Sum(s'.sizes) > MAX_DB_SIZE ==> s'.wrapped))
    decreases |s.docs| - i
  {
    hide Updated, Matches, ToInt;
    if i < |s.docs| {
      if Matches(lib, s.docs[i], selector) {
        UpdatedKeepsCid(s.docs[i], update);
        var d := Updated(s.docs[i], update);
        var (s1, ok) := Flush(lib, s.(docs := s.docs[i := d]), d);
        if ok {
          UpdateFromPasses(lib, s1, i + 1, selector, update);
        }
      } else {
        UpdateFromPasses(lib, s, i + 1, selector, update);
      }
    }
  }

  /** A document that an update leaves as it is and whose file is current can be updated for free. */
  ghost predicate Settled(lib: Lib, s: Store, j: nat, selector: Json, update: Json)
    requires AllDocs(s.docs) && j < |s.docs|
  {
    Matches(lib, s.docs[j], selector) ==>
      && Updated(s.docs[j], update) == s.docs[j]
      && CidOf(s.docs[j]) in s.files && s.files[CidOf(s.docs[j])] == lib.encode(s.docs[j])
  }

  lemma {:induction false} SettledStays(lib: Lib, s: Store, i: nat, selector: Json, update: Json)
    requires lib.Valid() && AllDocs(s.docs) && i <= |s.docs| && s.sizes == Lengths(s.files)
    requires ToInt(Sum(s.sizes)) <= MAX_DB_SIZE && (Sum(s.sizes) > MAX_DB_SIZE ==> s.wrapped)
    requires forall j :: i <= j < |s.docs| ==> Settled(lib, s, j, selector, update)
    ensures UpdateFrom(lib, s, i, selector, update, true) == (s, true)
    decreases |s.docs| - i
  {
    hide Updated, Matches, ToInt;
    if i < |s.docs| {
      assert Settled(lib, s, i, selector, update);
      SettledStays(lib, s, i + 1, selector, update);
      if Matches(lib, s.docs[i], selector) {
        var d := s.docs[i];
        assert lib.encode(d) != [];
        assert s.docs[i := d] == s.docs;
        assert s.sizes[CidOf(d) := |lib.encode(d)|] == s.sizes;
        assert s.files[CidOf(d) := lib.encode(d)] == s.files;
        assert Flush(lib, s, d) == (s, true);
      }
    }
  }

  lemma {:induction false} WrittenHas(lib: Lib, files: map<Cid, Bytes>, docs: seq<Json>, selector: Json, update: Json, k: nat, j: nat)
    requires AllDocs(docs) && DistinctCids(docs) && j < k <= |docs| && Matches(lib, docs[j], selector)
    ensures var written := WrittenUpTo(lib, files, docs, selector, update, k);
            CidOf(docs[j]) in written && written[CidOf(docs[j])] == lib.encode(Updated(docs[j], update))
    decreases k
  {
    hide Updated, Matches;
    if j < k - 1 {
      WrittenHas(lib, files, docs, selector, update, k - 1, j);
    }
  }

  lemma SettledAfter(lib: Lib, s: Store, s1: Store, selector: Json, update: Json, j: nat)
    requires AllDocs(s.docs) && DistinctCids(s.docs) && AllDocs(s1.docs) && j < |s1.docs| == |s.docs|
    requires s1.docs[j] == Revised(lib, s.docs[j], selector, update)
    requires s1.files == WrittenUpTo(lib, s.files, s.docs, selector, update, |s.docs|)
    ensures Settled(lib, s1, j, selector, update)
  {
    hide Updated, Matches;
    if Matches(lib, s1.docs[j], selector) {
      UpdateTwice(s.docs[j], update);
      WrittenHas(lib, s.files, s.docs, selector, update, |s.docs|, j);
      UpdatedKeepsCid(s.docs[j], update);
    }
  }

  /** Running a finished update again changes nothing, whichever documents match by then. */
  lemma UpdateManyTwice(lib: Lib, s: Store, selector: Json, update: Json)
    requires lib.Valid() && Valid(lib, s) && s.imported && Sound(lib, s)
    requires Update(lib, s, selector, update, true).1 == Done
    ensures var s1 := Update(lib, s, selector, update, true).0;
            AllDocs(s1.docs) && Update(lib, s1, selector, update, true) == (s1, Done)
  {
    hide Updated, Matches, ToInt, UpdateFrom, DiskOk, Cids, Revised, Settled;
    var s1 := Update(lib, s, selector, update, true).0;
    UpdateFromKeeps(lib, s, 0, selector, update, true);
    UpdateFromPasses(lib, s, 0, selector, update);
    var k := UpdateFromFiles(lib, s, 0, selector, update, s.files, s.sizes, s.docs);
    UpdateFromDocs(lib, s, 0, selector, update);
    assert AllDocs(s1.docs);
    if s1 != s {
      forall j | 0 <= j < |s1.docs|
        ensures Settled(lib, s1, j, selector, update)
      {
        SettledAfter(lib, s, s1, selector, update, j);
      }
      SettledStays(lib, s1, 0, selector, update);
    }
  }

  // ------------------------------------------------------------------ remove

  lemma {:induction false} Split(lib: Lib, docs: seq<Json>, selector: Json)
    ensures forall d :: d in Selected(lib, docs, selector) <==> d in docs && Matches(lib, d, selector)
    ensures forall d :: d in Rest(lib, docs, selector) <==> d in docs && !Matches(lib, d, selector)
  {
    hide Matches;
    if docs != [] {
      Split(lib, docs[1..], selector);
      assert docs == [docs[0]] + docs[1..];
    }
  }

  lemma {:induction false} RestDistinct(lib: Lib, docs: seq<Json>, selector: Json)
    requires AllDocs(docs) && DistinctCids(docs)
    ensures AllDocs(Rest(lib, docs, selector)) && DistinctCids(Rest(lib, docs, selector))
  {
    hide Matches;
    if docs != [] {
      var tail, rest := docs[1..], Rest(lib, docs[1..], selector);
      RestDistinct(lib, tail, selector);
      Split(lib, tail, selector);
      forall i | 0 <= i < |rest|
        ensures CidOf(rest[i]) != CidOf(docs[0])
      {
        assert rest[i] in tail;
      }
    }
  }

  lemma CidsByMember(docs: seq<Json>, cid: Cid)
    requires AllDocs(docs)
    ensures cid in Cids(docs) <==> exists d :: d in docs && HasCid(d, cid)
  {
  }

  /** Taking documents out, with their files, keeps the rest in step. */
  lemma Taken(lib: Lib, s: Store, rest: seq<Json>, gone: set<Cid>)
    requires Valid(lib, s) && s.imported
    requires AllDocs(rest) && DistinctCids(rest) && forall d :: d in rest ==> d in s.docs
    requires Cids(rest) == Cids(s.docs) - gone
    ensures var s' := s.(docs := rest, sizes := s.sizes - gone, files := s.files - gone);
            Kept(lib, s, s', Synced(lib, s))
  {
    hide Cids;
    var s' := s.(docs := rest, sizes := s.sizes - gone, files := s.files - gone);
    LengthsDrop(s.files, gone);
    if Synced(lib, s) {
      forall j | 0 <= j < |rest|
        ensures OnDisk(lib, s', j)
      {
        assert rest[j] in s.docs;
        var k :| 0 <= k < |s.docs| && s.docs[k] == rest[j];
        assert OnDisk(lib, s, k);
        CidIn(rest, j);
      }
    }
  }

  lemma SelectedDocs(lib: Lib, docs: seq<Json>, selector: Json)
    requires AllDocs(docs)
    ensures AllDocs(Selected(lib, docs, selector))
  {
    Split(lib, docs, selector);
    var sel := Selected(lib, docs, selector);
    forall i | 0 <= i < |sel|
      ensures IsDoc(sel[i])
    {
      assert sel[i] in docs;
    }
  }

  lemma RemoveKeeps(lib: Lib, s: Store, selector: Json)
    requires Valid(lib, s) && s.imported && Sound(lib, s)
    ensures AllDocs(Selected(lib, s.docs, selector))
    ensures Kept(lib, s, Remove(lib, s, selector), Synced(lib, s))
  {
    hide Valid, Synced;
    var sel, rest := Selected(lib, s.docs, selector), Rest(lib, s.docs, selector);
    SelectedDocs(lib, s.docs, selector);
    RestDistinct(lib, s.docs, selector);
    Split(lib, s.docs, selector);
    forall cid
      ensures cid in Cids(rest) <==> cid in Cids(s.docs) - Cids(sel)
    {
      CidsByMember(rest, cid);
      CidsByMember(sel, cid);
      CidsByMember(s.docs, cid);
      OneDocPerCid(s.docs, cid);
    }
    Taken(lib, s, rest, Cids(sel));
  }

  lemma OneDocPerCid(docs: seq<Json>, cid: Cid)
    requires AllDocs(docs) && DistinctCids(docs)
    ensures forall d, e :: d in docs && e in docs && HasCid(d, cid) && HasCid(e, cid) ==> d == e
  {
    forall d, e | d in docs && e in docs && HasCid(d, cid) && HasCid(e, cid)
      ensures d == e
    {
      var i :| 0 <= i < |docs| && docs[i] == d;
      var j :| 0 <= j < |docs| && docs[j] == e;
      assert CidOf(docs[i]) == CidOf(docs[j]);
    }
  }

  // -------------------------------------------------------------- $db paths

  /** A call that throws after it opened a document or filled in a path that was not there. */
  predicate Spoils(s: Store, path: Path, v: Option<Json>)
    requires AllDocs(s.docs)
  {
    && path != [] && Root(s.docs, path).Some?
    && var i := Root(s.docs, path).value;
       var doc := Opened(s, i).docs[i];
       var (seen, reached) := Vivify(doc, path[1..]);
       && (i == |s.docs| || seen != doc)
       && if v.Some? then !reached || (|path| == 1 && !v.value.Obj?)
          else !reached || (|path| > 1 && Without(GetAt(seen, path[1..|path| - 1]).GetOr(Null), path[|path| - 1]).None?)
  }

  /** The collection with the document a path starts at opened, and that document replaced but not written. */
  lemma OpenedSound(lib: Lib, s: Store, i: nat)
    requires Valid(lib, s) && s.imported && Sound(lib, s) && i <= |s.docs|
    ensures var s1 := Opened(s, i);
            && Valid(lib, s1) && s1.imported && Sound(lib, s1) && i < |s1.docs|
            && s.nextId <= s1.nextId && s1.wrapped == s.wrapped
            && (Synced(lib, s) ==> SyncedBut(lib, s1, i))
            && (i < |s.docs| ==> s1 == s)
  {
    if i == |s.docs| {
      Appended(lib, s, WithCid(map[], s.nextId));
    } else {
      SyncedIsSyncedBut(lib, s, i);
    }
  }

  /** A document changed in memory only: the collection stays sound, and out of step unless nothing changed. */
  lemma Abandoned(lib: Lib, s: Store, i: nat, d: Json)
    requires Valid(lib, s) && s.imported && Sound(lib, s) && i <= |s.docs|
    requires IsDoc(d) && CidOf(d) == CidOf(Opened(s, i).docs[i])
    ensures var s1 := Opened(s, i);
            var s' := s1.(docs := s1.docs[i := d]);
            && Kept(lib, s, s', false)
            && (Synced(lib, s) ==> (Coherent(lib, s') <==> i < |s.docs| && d == s.docs[i]))
  {
    hide DiskOk, Cids;
    var s1 := Opened(s, i);
    OpenedSound(lib, s, i);
    Replaced(s1.docs, i, d);
    var s' := s1.(docs := s1.docs[i := d]);
    CidIn(s1.docs, i);
    if Synced(lib, s) {
      if i < |s.docs| {
        assert OnDisk(lib, s, i);
        if d == s.docs[i] {
          assert s1.docs[i := d] == s.docs;
          assert s' == s;
        } else {
          assert !OnDisk(lib, s', i);
        }
      } else {
        assert CidOf(s1.docs[i]) == s.nextId;
        assert s.nextId !in s.files;
        assert !OnDisk(lib, s', i);
      }
    }
  }

  lemma RemovedAt(docs: seq<Json>, i: nat)
    requires AllDocs(docs) && DistinctCids(docs) && i < |docs|
    ensures var rest := docs[..i] + docs[i + 1..];
            && AllDocs(rest) && DistinctCids(rest)
            && Cids(rest) == Cids(docs) - {CidOf(docs[i])}
            && forall d :: d in rest ==> d in docs && d != docs[i]
  {
    var rest := docs[..i] + docs[i + 1..];
    assert forall k :: 0 <= k < |rest| ==> rest[k] == docs[if k < i then k else k + 1];
    forall cid
      ensures cid in Cids(rest) <==> cid in Cids(docs) - {CidOf(docs[i])}
    {
      if cid in Cids(docs) && cid != CidOf(docs[i]) {
        var k :| 0 <= k < |docs| && cid == CidOf(docs[k]);
        CidIn(rest, if k < i then k else k - 1);
      }
    }
  }

  /** Taking out document `i` puts the collection in step even if only that one was not. */
  lemma TakenAt(lib: Lib, s: Store, i: nat)
    requires Valid(lib, s) && s.imported && Sound(lib, s) && i < |s.docs|
    ensures var s' := Erase(s.(docs := s.docs[..i] + s.docs[i + 1..]), CidOf(s.docs[i]));
            Kept(lib, s, s', SyncedBut(lib, s, i))
  {
    hide Cids;
    var rest, cid := s.docs[..i] + s.docs[i + 1..], CidOf(s.docs[i]);
    var s' := Erase(s.(docs := rest), cid);
    RemovedAt(s.docs, i);
    LengthsDrop(s.files, {cid});
    if SyncedBut(lib, s, i) {
      forall j | 0 <= j < |rest|
        ensures OnDisk(lib, s', j)
      {
        var k := if j < i then j else j + 1;
        assert rest[j] == s.docs[k];
        assert OnDisk(lib, s, k);
      }
    }
  }

  lemma NoCids()
    ensures Cids([]) == {}
  {
  }

  /** Emptying the collection, and its disk. */
  lemma TakenAll(lib: Lib, s: Store)
    requires Valid(lib, s) && s.imported && Sound(lib, s)
    ensures var s' := s.(docs := [], sizes := s.sizes - Cids(s.docs), files := s.files - Cids(s.docs));
            && Kept(lib, s, s', true) && s'.imported && s'.files == map[] && s'.sizes == map[]
            && Synced(lib, s') && Sound(lib, s')
  {
    hide Cids;
    var gone := Cids(s.docs);
    NoCids();
    LengthsDrop(s.files, gone);
    assert s.files - gone == map[];
  }

  /** Setting a path keeps the invariant, and keeps memory and disk in step unless the call spoils them. */
  lemma SetKeeps(lib: Lib, s: Store, path: Path, v: Json)
    requires lib.Valid() && Valid(lib, s) && s.imported && Sound(lib, s)
    ensures var (s', outcome) := Set(lib, s, path, v);
            && Kept(lib, s, s', false)
            && (outcome == OverQuota ==> !s'.imported)
            && (Synced(lib, s) ==> (Coherent(lib, s') <==> !Spoils(s, path, Some(v))))
            && (Spoils(s, path, Some(v)) ==> outcome == Threw)
  {
    hide Valid, Synced, Cids, DiskOk, Flush, Vivify, SyncedBut, Coherent;
    if path == [] {
      if v.Obj? {
        var s0 := s.(docs := [], sizes := s.sizes - Cids(s.docs), files := s.files - Cids(s.docs));
        TakenAll(lib, s);
        SetWhole(lib, s0, WithCid(v.o, s.nextId));
      } else {
        StaysInStep(lib, s);
      }
    } else if Root(s.docs, path).None? {
      StaysInStep(lib, s);
    } else {
      SetInside(lib, s, path, v);
    }
  }

  lemma StaysInStep(lib: Lib, s: Store)
    requires Valid(lib, s) && s.imported
    ensures Kept(lib, s, s, false) && (Synced(lib, s) ==> Coherent(lib, s))
  {
  }

  lemma SetWhole(lib: Lib, s: Store, d: Json)
    requires lib.Valid() && Valid(lib, s) && s.imported && Synced(lib, s) && Sound(lib, s) && s.docs == []
    requires IsDoc(d) && CidOf(d) == s.nextId
    ensures var (s', outcome) := Flushed(lib, s.(docs := [d], nextId := s.nextId + 1), d);
            && Kept(lib, s, s', true) && (outcome == OverQuota ==> !s'.imported)
  {
    hide Sound, Cids, DiskOk, Flush;
    var s1 := s.(docs := s.docs + [d], nextId := s.nextId + 1);
    assert s1.docs == [d];
    Appended(lib, s, d);
    FlushKeeps(lib, s1, 0, d);
  }

  /** The document that a set call assigns to, afterwards. */
  function Assigned(doc: Json, path: Path, v: Json): Json
    requires IsDoc(doc)
  {
    WithCid(Fields(SetAt(Vivify(doc, path).0, path, v).GetOr(v)), CidOf(doc))
  }

  lemma SetInside(lib: Lib, s: Store, path: Path, v: Json)
    requires lib.Valid() && Valid(lib, s) && s.imported && Sound(lib, s)
    requires path != [] && Root(s.docs, path).Some?
    ensures var (s', outcome) := Set(lib, s, path, v);
            && Kept(lib, s, s', false)
            && (outcome == OverQuota ==> !s'.imported)
            && (Synced(lib, s) ==> (Coherent(lib, s') <==> !Spoils(s, path, Some(v))))
            && (Spoils(s, path, Some(v)) ==> outcome == Threw)
  {
    hide Valid, Synced, Cids, DiskOk, Flush, Vivify, SyncedBut, Coherent;
    var i := Root(s.docs, path).value;
    var s1 := Opened(s, i);
    OpenedSound(lib, s, i);
    var doc := s1.docs[i];
    var (seen, reached) := Vivify(doc, path[1..]);
    VivifyKeepsDoc(doc, path[1..]);
    if !reached || (|path| == 1 && !v.Obj?) {
      Abandoned(lib, s, i, seen);
    } else {
      FlushKeeps(lib, s1, i, Assigned(doc, path[1..], v));
    }
  }

  /** Deleting a path, likewise. */
  lemma DeleteKeeps(lib: Lib, s: Store, path: Path)
    requires lib.Valid() && Valid(lib, s) && s.imported && Sound(lib, s)
    ensures var (s', outcome) := Delete(lib, s, path);
            && Kept(lib, s, s', false)
            && (outcome == OverQuota ==> !s'.imported)
            && (Synced(lib, s) ==> (Coherent(lib, s') <==> !Spoils(s, path, None)))
            && (Spoils(s, path, None) ==> outcome == Threw)
  {
    hide Valid, Synced, Cids, DiskOk, Flush, Vivify, SyncedBut, Coherent;
    if path == [] {
      TakenAll(lib, s);
      StaysInStep(lib, Delete(lib, s, path).0);
    } else if Root(s.docs, path).None? {
      StaysInStep(lib, s);
    } else {
      DeleteInside(lib, s, path);
    }
  }

  lemma DeleteInside(lib: Lib, s: Store, path: Path)
    requires lib.Valid() && Valid(lib, s) && s.imported && Sound(lib, s)
    requires path != [] && Root(s.docs, path).Some?
    ensures var (s', outcome) := Delete(lib, s, path);
            && Kept(lib, s, s', false)
            && (outcome == OverQuota ==> !s'.imported)
            && (Synced(lib, s) ==> (Coherent(lib, s') <==> !Spoils(s, path, None)))
            && (Spoils(s, path, None) ==> outcome == Threw)
  {
    hide Valid, Synced, Cids, DiskOk, Flush, Vivify, SyncedBut, Coherent;
    var i := Root(s.docs, path).value;
    var s1 := Opened(s, i);
    OpenedSound(lib, s, i);
    var doc := s1.docs[i];
    var (seen, reached) := Vivify(doc, path[1..]);
    VivifyKeepsDoc(doc, path[1..]);
    if !reached {
      Abandoned(lib, s, i, seen);
    } else if |path| == 1 {
      assert path[1..] == [];
      TakenAt(lib, s1, i);
    } else {
      var up, key := path[1..|path| - 1], path[|path| - 1];
      match Without(GetAt(seen, up).GetOr(Null), key)
      case None => Abandoned(lib, s, i, seen);
      case Some(rest) =>
        FlushKeeps(lib, s1, i, WithCid(Fields(SetAt(seen, up, rest).GetOr(rest)), CidOf(doc)));
    }
  }
}
