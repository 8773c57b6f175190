/**
 What every operation on a collection keeps: memory and disk agree while the imported mark is set,
 ids are distinct, and the files stay within the quota.
 */
module StoreInvariants {

  import opened Optional
  import opened Json
  import opened Query
  import opened Sums
  import opened DocumentStore
  import opened DbPaths

  // -------------------------------------------------------------- agreement

  ghost predicate DistinctCids(docs: seq<Json>)
    requires AllDocs(docs)
  {
    forall i, j :: 0 <= i < j < |docs| ==> CidOf(docs[i]) != CidOf(docs[j])
  }

  /** The file of document `i` holds that document. */
  ghost predicate OnDisk(lib: Lib, s: Store, i: nat)
    requires AllDocs(s.docs) && i < |s.docs|
  {
    CidOf(s.docs[i]) in s.files && lib.decode(s.files[CidOf(s.docs[i])]) == Some(s.docs[i])
  }

  /** Sizes are those of the files, every file has a document, and ids are distinct and already issued. */
  ghost predicate Sound(lib: Lib, s: Store) {
    && DiskOk(lib, s.files)
    && AllDocs(s.docs) && DistinctCids(s.docs)
    && s.sizes == Lengths(s.files)
    && s.files.Keys <= Cids(s.docs)
    && forall cid :: cid in Cids(s.docs) ==> cid < s.nextId
  }

  /** Sound, and every document but possibly number `i` is on disk as it is in memory. */
  ghost predicate SyncedBut(lib: Lib, s: Store, i: nat) {
    Sound(lib, s) && forall j :: 0 <= j < |s.docs| && j != i ==> OnDisk(lib, s, j)
  }

  ghost predicate Synced(lib: Lib, s: Store) {
    Sound(lib, s) && forall j :: 0 <= j < |s.docs| ==> OnDisk(lib, s, j)
  }

  /** The invariant of a collection in every state of every run. */
  ghost predicate Valid(lib: Lib, s: Store) {
    && DiskOk(lib, s.files)
    && (forall cid :: cid in s.files ==> cid < s.nextId)
    && (s.imported ==> Sound(lib, s))
    && (!s.wrapped ==> Sum(Lengths(s.files)) <= MAX_DB_SIZE)
  }

  /** While the imported mark is set, the documents in memory are the decoded files. */
  ghost predicate Coherent(lib: Lib, s: Store) {
    s.imported ==> Synced(lib, s)
  }

  // ----------------------------------------------------------------- writing

  lemma LengthsPut(files: map<Cid, Bytes>, cid: Cid, bytes: Bytes)
    ensures Lengths(files[cid := bytes]) == Lengths(files)[cid := |bytes|]
  {
  }

  lemma CidIn(docs: seq<Json>, i: nat)
    requires AllDocs(docs) && i < |docs|
    ensures CidOf(docs[i]) in Cids(docs)
  {
  }

  lemma Replaced(docs: seq<Json>, i: nat, d: Json)
    requires AllDocs(docs) && i < |docs| && IsDoc(d) && CidOf(d) == CidOf(docs[i])
    ensures AllDocs(docs[i := d]) && Cids(docs[i := d]) == Cids(docs)
    ensures DistinctCids(docs) ==> DistinctCids(docs[i := d])
  {
    var docs' := docs[i := d];
    assert forall k :: 0 <= k < |docs| ==> CidOf(docs'[k]) == CidOf(docs[k]);
    forall cid
      ensures cid in Cids(docs') <==> cid in Cids(docs)
    {
      if cid in Cids(docs) {
        var k :| 0 <= k < |docs| && cid == CidOf(docs[k]);
        CidIn(docs', k);
      }
    }
  }

  lemma FlushAccepted(lib: Lib, s: Store, d: Json)
    requires lib.Valid() && IsDoc(d) && DiskOk(lib, s.files) && s.sizes == Lengths(s.files)
    ensures var (s', ok) := Flush(lib, s, d);
            ok ==>
              && s' == s.(sizes := Lengths(s'.files), files := s.files[CidOf(d) := lib.encode(d)],
                          wrapped := s.wrapped || Sum(Lengths(s'.files)) > MAX_DB_SIZE)
              && DiskOk(lib, s'.files)
  {
    assert lib.encode(d) != [];
    LengthsPut(s.files, CidOf(d), lib.encode(d));
  }

  /** A document written over document `i`: what an accepted and what a rejected write leave. */
  lemma WriteThrough(lib: Lib, s: Store, i: nat, d: Json)
    requires lib.Valid() && Sound(lib, s) && i < |s.docs|
    requires IsDoc(d) && CidOf(d) == CidOf(s.docs[i])
    ensures var (s', ok) := Flush(lib, s.(docs := s.docs[i := d]), d);
            && s'.docs == s.docs[i := d] && s'.nextId == s.nextId
            && (ok ==>
                  && Sound(lib, s') && OnDisk(lib, s', i)
                  && s'.files == s.files[CidOf(d) := lib.encode(d)]
                  && s'.imported == s.imported
                  && s'.wrapped == (s.wrapped || Sum(Lengths(s'.files)) > MAX_DB_SIZE)
                  && (SyncedBut(lib, s, i) ==> Synced(lib, s')))
            && (!ok ==> s'.files == s.files && !s'.imported && s'.wrapped == s.wrapped)
  {
    hide Cids, DiskOk;
    var s0 := s.(docs := s.docs[i := d]);
    var (s', ok) := Flush(lib, s0, d);
    Replaced(s.docs, i, d);
    FlushAccepted(lib, s0, d);
    CidIn(s.docs, i);
    if ok {
      forall j | 0 <= j < |s.docs| && j != i && SyncedBut(lib, s, i)
        ensures OnDisk(lib, s', j)
      {
        assert OnDisk(lib, s, j);
      }
    }
  }

  /** A write is let through over the quota exactly when the total wraps round to within it. */
  lemma OverQuotaOnlyByWrapping(lib: Lib, s: Store, d: Json)
    requires lib.Valid() && IsDoc(d) && s.sizes == Lengths(s.files)
    ensures var (s', ok) := Flush(lib, s, d);
            var total := Sum(s.sizes[CidOf(d) := |lib.encode(d)|]);
            && (ok ==> total == Sum(Lengths(s'.files)))
            && (total <= INT_MAX ==> ok == (total <= MAX_DB_SIZE))
            && (ok && total > MAX_DB_SIZE <==> total > INT_MAX && ToInt(total) <= MAX_DB_SIZE)
            && (Sum(s.sizes) <= MAX_DB_SIZE && |lib.encode(d)| <= INT_MAX - MAX_DB_SIZE ==> total <= INT_MAX)
  {
    assert lib.encode(d) != [];
    LengthsPut(s.files, CidOf(d), lib.encode(d));
    SumPut(s.sizes, CidOf(d), |lib.encode(d)|);
    SumDrop(s.sizes, CidOf(d));
  }
}
