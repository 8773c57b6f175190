/**
 What each operation does to the documents, read key by key: the fields of an inserted or updated
 document, the documents that a removal or a deletion leaves, and when a `$db` call throws.
 */
module StoreLaws {

  import opened Optional
  import opened Json
  import opened Query
  import opened Sums
  import opened DocumentStore
  import opened DbPaths
  import opened StoreInvariants
  import opened StoreSteps
  import opened Selectors

  // ------------------------------------------------------------------ insert

  /** The document has the id, and otherwise reads like `v`. */
  ghost predicate LikeWithId(d: Json, v: Json, cid: Cid) {
    && GetAt(d, [CID]) == Some(Num(Whole(cid)))
    && forall key :: key != CID ==> GetAt(d, [key]) == GetAt(v, [key])
  }

  lemma WithIdIsLike(v: Json, cid: Cid)
    requires v.Obj? || v.Null?
    ensures LikeWithId(WithCid(Fields(v), cid), v, cid)
  {
    ReadOneKey(WithCid(Fields(v), cid), CID, 0);
    forall key | key != CID
      ensures GetAt(WithCid(Fields(v), cid), [key]) == GetAt(v, [key])
    {
      ReadOneKey(v, key, 0);
      ReadOneKey(WithCid(Fields(v), cid), key, 0);
    }
  }

  /** An insert that returns adds one document at the end and one file, with the new id and the given fields. */
  lemma InsertReads(lib: Lib, s: Store, js: Json)
    requires lib.Valid()
    ensures Insert(lib, s, js).1 == Threw <==> !js.Obj? && !js.Null?
    ensures var (s', outcome) := Insert(lib, s, js);
            outcome == Done ==>
              && |s'.docs| == |s.docs| + 1 && s'.docs[..|s.docs|] == s.docs
              && LikeWithId(s'.docs[|s.docs|], js, s.nextId)
              && s.nextId in s'.files && lib.decode(s'.files[s.nextId]) == Some(s'.docs[|s.docs|])
              && s'.files - {s.nextId} == s.files - {s.nextId}
  {
    hide Flush;
    if js.Obj? || js.Null? {
      var d := WithCid(Fields(js), s.nextId);
      WithIdIsLike(js, s.nextId);
      FlushWrites(lib, s.(docs := s.docs + [d], nextId := s.nextId + 1), d);
    }
  }

  // ------------------------------------------------------------------ update

  /** Every key of the update's "$set" but the id reads as given there, every other key as before. */
  ghost predicate Revises(update: Json, d: Json, d': Json) {
    if update.Obj? && "$set" in update.o && update.o["$set"].Obj? then
      var given := update.o["$set"].o;
      forall key :: GetAt(d', [key]) == if key in given && key != CID then Some(given[key]) else GetAt(d, [key])
    else d' == d
  }

  lemma UpdatedRevises(d: Json, update: Json)
    requires d.Obj?
    ensures Revises(update, d, Updated(d, update))
  {
    forall key
      ensures GetAt(d, [key]) == Some(if key in d.o then d.o[key] else Null)
      ensures var u := Updated(d, update); GetAt(u, [key]) == Some(if key in u.o then u.o[key] else Null)
    {
      ReadOneKey(d, key, 0);
      ReadOneKey(Updated(d, update), key, 0);
    }
  }

  /** A finished update of many revises each matching document and no other. */
  lemma UpdateManyRevises(lib: Lib, s: Store, selector: Json, update: Json)
    requires lib.Valid() && AllDocs(s.docs) && Update(lib, s, selector, update, true).1 == Done
    ensures var s' := Update(lib, s, selector, update, true).0;
            && |s'.docs| == |s.docs|
            && forall j :: 0 <= j < |s.docs| ==>
                 if Matches(lib, s.docs[j], selector) then Revises(update, s.docs[j], s'.docs[j])
                 else s'.docs[j] == s.docs[j]
  {
    hide Update, Matches, Revises, Updated;
    var s' := Update(lib, s, selector, update, true).0;
    var _ := UpdateManyWrites(lib, s, selector, update);
    forall j | 0 <= j < |s.docs|
      ensures if Matches(lib, s.docs[j], selector) then Revises(update, s.docs[j], s'.docs[j])
              else s'.docs[j] == s.docs[j]
    {
      assert s'.docs[j] == Revised(lib, s.docs[j], selector, update);
      UpdatedRevises(s.docs[j], update);
    }
  }

  /** An update of one revises the first matching document and no other, finished or rejected. */
  lemma UpdateOneRevises(lib: Lib, s: Store, selector: Json, update: Json, i: nat)
    requires lib.Valid() && AllDocs(s.docs) && i < |s.docs| && Matches(lib, s.docs[i], selector)
    requires forall j :: 0 <= j < i ==> !Matches(lib, s.docs[j], selector)
    ensures var (s', outcome) := Update(lib, s, selector, update, false);
            && |s'.docs| == |s.docs| && Revises(update, s.docs[i], s'.docs[i])
            && (forall j :: 0 <= j < |s.docs| && j != i ==> s'.docs[j] == s.docs[j])
            && (outcome == Done ==>
                  var cid := CidOf(s.docs[i]);
                  && cid in s'.files && lib.decode(s'.files[cid]) == Some(s'.docs[i])
                  && s'.files - {cid} == s.files - {cid})
            && (outcome != Done ==> s'.files == s.files)
  {
    hide Update, Matches, Revises, Updated;
    UpdateOneWrites(lib, s, selector, update);
    assert FirstMatch(lib, s.docs, selector) == i;
    UpdatedRevises(s.docs[i], update);
  }

  /** On disk after an update of many, finished or not: revised up to some position, and as before elsewhere. */
  lemma UpdateManyOnDisk(lib: Lib, s: Store, selector: Json, update: Json) returns (k: nat)
    requires lib.Valid() && Sound(lib, s)
    ensures k <= |s.docs| && (Update(lib, s, selector, update, true).1 == Done <==> k == |s.docs|)
    ensures k < |s.docs| ==> Matches(lib, s.docs[k], selector)
    ensures var s' := Update(lib, s, selector, update, true).0;
            forall j :: 0 <= j < |s.docs| ==>
              var cid := CidOf(s.docs[j]);
              if j < k && Matches(lib, s.docs[j], selector) then
                && cid in s'.files && lib.decode(s'.files[cid]).Some?
                && Revises(update, s.docs[j], lib.decode(s'.files[cid]).value)
              else (cid in s'.files <==> cid in s.files) && (cid in s.files ==> s'.files[cid] == s.files[cid])
  {
    hide Update, Revises, Updated, DiskOk, Cids;
    k := UpdateManyWrites(lib, s, selector, update);
    forall j | 0 <= j < |s.docs|
      ensures var s', cid := Update(lib, s, selector, update, true).0, CidOf(s.docs[j]);
              if j < k && Matches(lib, s.docs[j], selector) then
                && cid in s'.files && lib.decode(s'.files[cid]).Some?
                && Revises(update, s.docs[j], lib.decode(s'.files[cid]).value)
              else (cid in s'.files <==> cid in s.files) && (cid in s.files ==> s'.files[cid] == s.files[cid])
    {
      if j < k && Matches(lib, s.docs[j], selector) {
        WrittenHas(lib, s.files, s.docs, selector, update, k, j);
        UpdatedRevises(s.docs[j], update);
      } else {
        WrittenKeeps(lib, s.files, s.docs, selector, update, k, j);
      }
    }
  }

  lemma {:induction false} WrittenKeeps(lib: Lib, files: map<Cid, Bytes>, docs: seq<Json>, selector: Json, update: Json,
      k: nat, j: nat)
    requires AllDocs(docs) && DistinctCids(docs) && k <= |docs| && j < |docs|
    requires j >= k || !Matches(lib, docs[j], selector)
    ensures var written, cid := WrittenUpTo(lib, files, docs, selector, update, k), CidOf(docs[j]);
            (cid in written <==> cid in files) && (cid in files ==> written[cid] == files[cid])
  {
    hide Matches, Updated;
    if k > 0 {
      WrittenKeeps(lib, files, docs, selector, update, k - 1, j);
      assert k - 1 != j ==> CidOf(docs[k - 1]) != CidOf(docs[j]);
    }
  }

  // ------------------------------------------------------------------ remove

  /** A removal leaves exactly the documents that do not match, in order, and their files. */
  lemma RemoveLeaves(lib: Lib, s: Store, selector: Json) returns (left: seq<nat>)
    requires AllDocs(s.docs)
    ensures AllDocs(Selected(lib, s.docs, selector))
    ensures var s' := Remove(lib, s, selector);
            && Chosen(lib, s.docs, selector, false, left, s'.docs)
            && forall cid :: cid in s'.files <==>
                 cid in s.files && !exists i :: 0 <= i < |s.docs| && Matches(lib, s.docs[i], selector) && CidOf(s.docs[i]) == cid
    ensures forall cid :: cid in Remove(lib, s, selector).files ==> Remove(lib, s, selector).files[cid] == s.files[cid]
  {
    hide Matches;
    SelectedDocs(lib, s.docs, selector);
    var picked;
    picked, left := SearchPicks(lib, s.docs, selector);
    var sel := Selected(lib, s.docs, selector);
    forall cid
      ensures cid in Cids(sel) <==>
              exists i :: 0 <= i < |s.docs| && Matches(lib, s.docs[i], selector) && CidOf(s.docs[i]) == cid
    {
      PickedCids(lib, s.docs, selector, picked, cid);
    }
  }

  lemma PickedCids(lib: Lib, docs: seq<Json>, selector: Json, picked: seq<nat>, cid: Cid)
    requires AllDocs(docs) && AllDocs(Selected(lib, docs, selector))
    requires Chosen(lib, docs, selector, true, picked, Selected(lib, docs, selector))
    ensures cid in Cids(Selected(lib, docs, selector)) <==>
            exists i :: 0 <= i < |docs| && Matches(lib, docs[i], selector) && CidOf(docs[i]) == cid
  {
    hide Matches;
    var sel := Selected(lib, docs, selector);
    if cid in Cids(sel) {
      var k :| 0 <= k < |sel| && CidOf(sel[k]) == cid;
      assert picked[k] in picked;
    }
    if i: nat :| i < |docs| && Matches(lib, docs[i], selector) && CidOf(docs[i]) == cid {
      assert i in picked;
      var k :| 0 <= k < |picked| && picked[k] == i;
      CidIn(sel, k);
    }
  }

  // ------------------------------------------------------------ `$db` as a whole

  /** `$db = v` leaves one document, with a new id and the fields of v; anything but an object throws. */
  lemma SetWholeLeaves(lib: Lib, s: Store, v: Json)
    requires lib.Valid() && AllDocs(s.docs)
    ensures var (s', outcome) := Set(lib, s, [], v);
            && (outcome == Threw <==> !v.Obj?) && (!v.Obj? ==> s' == s)
            && (v.Obj? ==>
                  && |s'.docs| == 1 && LikeWithId(s'.docs[0], v, s.nextId)
                  && (outcome == Done ==>
                        && s.nextId in s'.files && lib.decode(s'.files[s.nextId]) == Some(s'.docs[0])
                        && s'.files - {s.nextId} == s.files - Cids(s.docs) - {s.nextId})
                  && (outcome == OverQuota ==> s'.files == s.files - Cids(s.docs)))
  {
    hide Flush, Cids;
    if v.Obj? {
      var d, gone := WithCid(v.o, s.nextId), Cids(s.docs);
      WithIdIsLike(v, s.nextId);
      var s0 := s.(docs := [d], sizes := s.sizes - gone, files := s.files - gone, nextId := s.nextId + 1);
      FlushWrites(lib, s0, d);
    }
  }

  /** Deleting `$db` leaves nothing: no document, no size, no file. */
  lemma DeleteWholeLeaves(lib: Lib, s: Store)
    requires Sound(lib, s)
    ensures var (s', outcome) := Delete(lib, s, []);
            outcome == Done && s'.docs == [] && s'.sizes == map[] && s'.files == map[]
  {
    hide DiskOk, Cids;
    assert s.files - Cids(s.docs) == map[];
    assert s.sizes - Cids(s.docs) == map[];
  }

  // ----------------------------------------------------- one document, or a part

  /** Deleting `$db[i]` takes out document i and its file, and no other; at the end it changes no document. */
  lemma DeleteDocumentLeaves(lib: Lib, s: Store, path: Path, s': Store)
    requires AllDocs(s.docs) && |path| == 1 && Delete(lib, s, path) == (s', Done)
    ensures Index(path[0]).Some? && Index(path[0]).value <= |s.docs|
    ensures var i := Index(path[0]).value;
            if i < |s.docs| then
              && |s'.docs| == |s.docs| - 1
              && (forall k :: 0 <= k < |s'.docs| ==> s'.docs[k] == s.docs[if k < i then k else k + 1])
              && s'.files == s.files - {CidOf(s.docs[i])} && s'.sizes == s.sizes - {CidOf(s.docs[i])}
            else s'.docs == s.docs && s'.files == s.files - {s.nextId} && s'.sizes == s.sizes - {s.nextId}
  {
    assert path[1..] == [];
    var i := Root(s.docs, path).value;
    var s1 := Opened(s, i);
    if i == |s.docs| {
      assert s1.docs[..i] == s.docs && s1.docs[i + 1..] == [];
    }
  }

  /** The document a path starts at, opened if it is the next one. */
  ghost predicate StartsAt(s: Store, path: Path, i: nat) {
    path != [] && IsNumber(path[0]) && Index(path[0]) == Some(i) && i <= |s.docs|
  }

  /**
   Assignment along a path returns or is rejected exactly when the path starts at a document that is
   there or comes next, no other key is the id's, a write along it goes through, and a whole document
   is assigned an object; else it throws.
   */
  lemma SetThrowsUnless(lib: Lib, s: Store, path: Path, v: Json)
    requires AllDocs(s.docs) && path != []
    ensures Set(lib, s, path, v).1 != Threw <==>
            exists i: nat :: StartsAt(s, path, i) && CID !in path[1..] && SetAt(Opened(s, i).docs[i], path[1..], v).Some?
                             && (|path| == 1 ==> v.Obj?)
  {
    hide Vivify, Flush, SetAt, Stoi;
    if Root(s.docs, path).Some? {
      var i := Root(s.docs, path).value;
      VivifyReaches(Opened(s, i).docs[i], path[1..], v);
      assert StartsAt(s, path, i);
    }
  }

  /** And deletion likewise, when the parent has something to delete under the last key. */
  lemma DeleteThrowsUnless(lib: Lib, s: Store, path: Path)
    requires AllDocs(s.docs) && path != []
    ensures Delete(lib, s, path).1 != Threw <==>
            exists i: nat :: StartsAt(s, path, i) && CID !in path[1..]
                             && SetAt(Opened(s, i).docs[i], path[1..], Null).Some?
                             && (|path| > 1 ==>
                                   var parent := GetAt(Vivify(Opened(s, i).docs[i], path[1..]).0, path[1..|path| - 1]).GetOr(Null);
                                   parent.Arr? ==> var key := path[|path| - 1];
                                     IsNumber(key) && Index(key).Some? && Index(key).value < |parent.a|)
  {
    hide Vivify, Flush, SetAt, GetAt, Stoi;
    if Root(s.docs, path).Some? {
      var i := Root(s.docs, path).value;
      VivifyReaches(Opened(s, i).docs[i], path[1..], Null);
      assert StartsAt(s, path, i);
    }
  }

  // ------------------------------------------------------------------- sizes

  /** What a size_t reads as in an int: the one value of that range congruent to it modulo 2^32. */
  lemma ToIntIs(n: nat)
    ensures -INT_MAX - 1 <= ToInt(n) <= INT_MAX && (n - ToInt(n)) % WORD32 == 0
    ensures n <= INT_MAX ==> ToInt(n) == n
  {
    var m := n + INT_MAX + 1;
    assert n - ToInt(n) == m - m % WORD32 == WORD32 * (m / WORD32);
  }
}
