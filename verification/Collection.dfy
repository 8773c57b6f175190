/**
 The collection as the program keeps it: fields updated in place, files written through, loops
 over the documents. Every method is tied to its function on `State()`.
 */
module Collection {

  import opened Optional
  import opened Json
  import opened Query
  import opened Sums
  import opened DocumentStore
  import opened DbPaths
  import opened StoreInvariants
  import opened StoreSteps
  import IdAllocator

  // ---------------------------------------------------- walking a path in place

  lemma {:induction false} SetAtEnd(j: Json, p: Path, key: string, v: Json)
    requires GetAt(j, p).Some? && Child(GetAt(j, p).value, key).Some?
    ensures SetAt(j, p + [key], v) == SetAt(j, p, Put(GetAt(j, p).value, key, v))
    ensures SetAt(j, p + [key], v).Some?
    decreases |p|
  {
    var path := p + [key];
    if p == [] {
      assert path[1..] == [];
    } else {
      assert path[0] == p[0] && path[1..] == p[1..] + [key];
      SetAtEnd(Child(j, p[0]).value, p[1..], key, v);
    }
  }

  /** The document so far, with the rest of the walk done at the place reached. */
  function Resumed(seen: Json, before: Path, last: Json, rest: Path): (Json, bool) {
    var (sub, reached) := Vivify(last, rest);
    (SetAt(seen, before, sub).GetOr(seen), reached)
  }

  /** One step of the walk: the child is filled in if missing, and the reference moves to it. */
  lemma WalkOne(seen: Json, before: Path, last: Json, key: string, rest: Path)
    requires GetAt(seen, before) == Some(last) && SetAt(seen, before, last) == Some(seen)
    requires key != CID && Child(last, key).Some?
    ensures SetAt(seen, before, Put(last, key, Child(last, key).value)).Some?
    ensures var c := Child(last, key).value;
            var seen' := SetAt(seen, before, Put(last, key, c)).value;
            && GetAt(seen', before + [key]) == Some(c) && SetAt(seen', before + [key], c) == Some(seen')
            && Resumed(seen', before + [key], c, rest) == Resumed(seen, before, last, [key] + rest)
  {
    hide SetAt, GetAt, Put, Child;
    var c := Child(last, key).value;
    var (sub, reached) := Vivify(c, rest);
    var put := Put(last, key, c);
    SetAfterSet(seen, before, last, put);
    SetAfterSet(seen, before, last, Put(last, key, sub));
    var seen' := SetAt(seen, before, put).value;
    GetAfterSet(seen, before, put);
    ChildOfPut(last, key, c);
    PutPut(last, key, c, c);
    PutPut(last, key, c, sub);
    SetAtEnd(seen', before, key, c);
    SetAtEnd(seen', before, key, sub);
    SetAfterSet(seen, before, put, put);
    SetAfterSet(seen, before, put, Put(last, key, sub));
    SetAtEnd(seen, before, key, c);
    GetAfterSet(seen, before + [key], c);
    assert ([key] + rest)[1..] == rest;
  }

  /** The loop over the keys below a document: `last` is the value the reference stands at. */
  method GetLastJs(doc: Json, path: Path) returns (seen: Json, reached: bool)
    ensures (seen, reached) == Vivify(doc, path)
  {
    hide SetAt, GetAt, Put, Vivify;
    seen := doc;
    var last, i := doc, 0;
    ReferenceAtRoot(doc, path);
    while i < |path|
      invariant 0 <= i <= |path|
      invariant GetAt(seen, path[..i]) == Some(last) && SetAt(seen, path[..i], last) == Some(seen)
      invariant Resumed(seen, path[..i], last, path[i..]) == Vivify(doc, path)
    {
      var key := path[i];
      ghost var rest := path[i + 1..];
      assert path[i..] == [key] + rest && path[..i + 1] == path[..i] + [key];
      if key == CID || Child(last, key).None? {
        Stopped(last, path[i..]);
        return seen, false;
      }
      WalkOne(seen, path[..i], last, key, rest);
      seen := SetAt(seen, path[..i], Put(last, key, Child(last, key).value)).value;
      last := Child(last, key).value;
      i := i + 1;
    }
    Stopped(last, path[i..]);
    reached := true;
  }

  lemma ReferenceAtRoot(doc: Json, path: Path)
    ensures GetAt(doc, path[..0]) == Some(doc) && SetAt(doc, path[..0], doc) == Some(doc)
    ensures Resumed(doc, path[..0], doc, path[0..]) == Vivify(doc, path)
  {
    assert path[0..] == path;
  }

  lemma Stopped(last: Json, rest: Path)
    requires rest == [] || rest[0] == CID || Child(last, rest[0]).None?
    ensures Vivify(last, rest) == (last, rest == [])
  {
  }

  /** The loop over the files of a collection. */
  method LoadFiles(lib: Lib, files: map<Cid, Bytes>, listing: seq<Cid>) returns (docs: seq<Json>, sizes: map<Cid, nat>)
    requires DiskOk(lib, files) && Lists(listing, files)
    ensures docs == Decoded(lib, files, listing) && sizes == Lengths(files)
  {
    docs, sizes := [], map[];
    ghost var all := Decoded(lib, files, listing);
    for i := 0 to |listing|
      invariant docs == all[..i]
      invariant sizes.Keys <= files.Keys && forall k :: 0 <= k < i ==> listing[k] in sizes
      invariant forall cid :: cid in sizes ==> sizes[cid] == |files[cid]|
    {
      var data := files[listing[i]];
      var d := lib.decode(data).value;
      assert CidOf(d) == listing[i];
      docs := docs + [d];
      sizes := sizes[CidOf(d) := |data|];
    }
    assert all[..|listing|] == all;
    assert forall cid :: cid in files ==> cid in listing;
  }

  /** The loop over the documents that collects the matches. */
  method Collect(lib: Lib, docs: seq<Json>, selector: Json) returns (ret: seq<Json>)
    ensures ret == Selected(lib, docs, selector)
  {
    hide Matches;
    ret := [];
    for i := 0 to |docs|
      invariant ret + Selected(lib, docs[i..], selector) == Selected(lib, docs, selector)
    {
      assert docs[i..][0] == docs[i] && docs[i..][1..] == docs[i + 1..];
      if Matches(lib, docs[i], selector) {
        ret := ret + [docs[i]];
      }
    }
    assert docs[|docs|..] == [];
  }

  lemma RestFrom(lib: Lib, docs: seq<Json>, selector: Json, i: nat)
    requires i < |docs|
    ensures Rest(lib, docs[i..], selector) ==
            (if Matches(lib, docs[i], selector) then [] else [docs[i]]) + Rest(lib, docs[i + 1..], selector)
  {
    hide Matches;
    assert docs[i..][0] == docs[i] && docs[i..][1..] == docs[i + 1..];
  }

  lemma NoneRest(lib: Lib, selector: Json)
    ensures Rest(lib, [], selector) == []
  {
  }

  /** The loop that keeps what a removal does not pick. */
  method KeepRest(lib: Lib, docs: seq<Json>, selector: Json) returns (rest: seq<Json>)
    ensures rest == Rest(lib, docs, selector)
  {
    hide Matches, Rest;
    rest := [];
    assert docs[0..] == docs;
    for i := 0 to |docs|
      invariant rest + Rest(lib, docs[i..], selector) == Rest(lib, docs, selector)
    {
      RestFrom(lib, docs, selector, i);
      ghost var tail := Rest(lib, docs[i + 1..], selector);
      assert rest + ([docs[i]] + tail) == rest + [docs[i]] + tail;
      assert rest + ([] + tail) == rest + tail;
      if !Matches(lib, docs[i], selector) {
        rest := rest + [docs[i]];
      }
    }
    NoneRest(lib, selector);
    assert docs[|docs|..] == [];
  }

  lemma CidsOfMore(docs: seq<Json>, i: nat)
    requires AllDocs(docs) && i < |docs|
    ensures Cids(docs[..i + 1]) == Cids(docs[..i]) + {CidOf(docs[i])}
  {
    assert forall k :: 0 <= k <= i ==> docs[..i + 1][k] == docs[k];
    CidIn(docs[..i + 1], i);
    forall cid | cid in Cids(docs[..i])
      ensures cid in Cids(docs[..i + 1])
    {
      var k :| 0 <= k < i && cid == CidOf(docs[..i][k]);
      CidIn(docs[..i + 1], k);
    }
  }

  // -------------------------------------------------------------- the collection

  class Collection {
    const lib: Lib
    const ids: IdAllocator.Store
    var docs: seq<Json>
    var sizes: map<Cid, nat>
    var imported: bool
    /** The directory on disk, one file per document. */
    var files: map<Cid, Bytes>
    /** Some write was let through over the quota. */
    ghost var wrapped: bool

    ghost function State(): Store
      reads this, ids
    {
      Store(docs, sizes, imported, files, ids.globalId, wrapped)
    }

    /** A process that has just started over an existing directory. */
    constructor (lib: Lib, ids: IdAllocator.Store, files: map<Cid, Bytes>, ghost wrapped: bool)
      ensures State() == Store([], map[], false, files, ids.globalId, wrapped)
      ensures this.lib == lib && this.ids == ids
    {
      this.lib, this.ids, this.files := lib, ids, files;
      docs, sizes, imported := [], map[], false;
      this.wrapped := wrapped;
    }

    method GetTotalSize() returns (total: nat)
      ensures total == Sum(sizes)
    {
      total := 0;
      var left := sizes;
      while left != map[]
        invariant total + Sum(left) == Sum(sizes)
        decreases |left|
      {
        var cid :| cid in left;
        total := total + left[cid];
        SumTake(left, cid);
        Drops(left, cid);
        left := left - {cid};
      }
    }

    /** Records the size, checks the quota, and writes the file; false stands for the exception. */
    method Flush(d: Json) returns (ok: bool)
      requires IsDoc(d)
      modifies this
      ensures (State(), ok) == DocumentStore.Flush(lib, old(State()), d)
    {
      var data, cid := lib.encode(d), CidOf(d);
      sizes := sizes[cid := |data|];
      var total := GetTotalSize();
      if ToInt(total) > MAX_DB_SIZE {
        imported := false;
        return false;
      }
      wrapped := wrapped || Sum(sizes) > MAX_DB_SIZE;
      if |data| == 0 {
        return true;
      }
      files := files[cid := data];
      return true;
    }

    method DiskErase(cid: Cid)
      modifies this
      ensures State() == Erase(old(State()), cid)
    {
      sizes := sizes - {cid};
      files := files - {cid};
    }

    /** `listing` is what the directory shows. */
    method ImportCollection(listing: seq<Cid>)
      requires DiskOk(lib, files) && Lists(listing, files)
      modifies this
      ensures State() == Import(lib, old(State()), listing)
    {
      if imported {
        return;
      }
      docs, sizes := LoadFiles(lib, files, listing);
      imported := true;
    }

    method InsertOne(js: Json, listing: seq<Cid>) returns (outcome: Outcome)
      requires DiskOk(lib, files) && Lists(listing, files)
      modifies this, ids
      ensures (State(), outcome) == Insert(lib, Import(lib, old(State()), listing), js)
    {
      ImportCollection(listing);
      var cid := ids.GetNextId();
      if !js.Obj? && !js.Null? {
        return Threw;
      }
      var d := WithCid(Fields(js), cid);
      docs := docs + [d];
      var ok := Flush(d);
      outcome := if ok then Done else OverQuota;
    }

    method UpdateAt(i: nat, update: Json) returns (ok: bool)
      requires lib.Valid() && AllDocs(docs) && i < |docs|
      modifies this
      ensures IsDoc(Updated(old(docs)[i], update))
      ensures var d := Updated(old(docs)[i], update);
              (State(), ok) == DocumentStore.Flush(lib, old(State()).(docs := old(docs)[i := d]), d)
      ensures AllDocs(docs) && |docs| == |old(docs)|
    {
      hide DocumentStore.Flush, Updated;
      UpdatedKeepsCid(docs[i], update);
      var d := Updated(docs[i], update);
      docs := docs[i := d];
      FlushWrites(lib, State(), d);
      ok := Flush(d);
    }

    /** The loop over the matches, which update_one leaves after the first. */
    method UpdateLoop(selector: Json, update: Json, many: bool) returns (outcome: Outcome)
      requires lib.Valid() && AllDocs(docs)
      modifies this
      ensures (State(), outcome) == Update(lib, old(State()), selector, update, many)
    {
      hide DocumentStore.Flush, Updated, Matches, UpdateFrom;
      ghost var result := UpdateFrom(lib, State(), 0, selector, update, many);
      outcome := Done;
      var i, going := 0, true;
      while i < |docs| && going
        invariant 0 <= i <= |docs| && AllDocs(docs)
        invariant outcome != Threw && (going ==> outcome == Done)
        invariant result == if going then UpdateFrom(lib, State(), i, selector, update, many)
                            else (State(), outcome == Done)
      {
        UpdateStep(lib, State(), i, selector, update, many);
        if Matches(lib, docs[i], selector) {
          var ok := UpdateAt(i, update);
          outcome := if ok then Done else OverQuota;
          going := ok && many;
        }
        i := i + 1;
      }
      if going {
        UpdateEnd(lib, State(), selector, update, many);
      }
    }

    /** update_one, or update_many. */
    method UpdateDocs(selector: Json, update: Json, many: bool, listing: seq<Cid>) returns (outcome: Outcome)
      requires lib.Valid() && Valid(lib, State()) && Lists(listing, files)
      modifies this
      ensures AllDocs(Import(lib, old(State()), listing).docs)
      ensures (State(), outcome) == Update(lib, Import(lib, old(State()), listing), selector, update, many)
    {
      hide Update, Import, Lists;
      ImportKeeps(lib, State(), listing);
      ImportCollection(listing);
      outcome := UpdateLoop(selector, update, many);
    }

    /** The matches, then sorting, projection and limit; None is the exception of a missing sort key. */
    method FindMany(selector: Json, options: Options, listing: seq<Cid>)
      returns (r: Option<seq<Json>>, ghost all: seq<Json>)
      requires lib.Ordered() && DiskOk(lib, files) && Lists(listing, files)
      modifies this
      ensures State() == Import(lib, old(State()), listing)
      ensures var found := Selected(lib, docs, selector);
              && (r == None <==> options.sort.Some? && |found| >= 2 && !Sortable(found, options.sort.value))
              && (r.Some? ==>
                    var k := Limited(|found|, options.limit);
                    && multiset(all) == multiset(found) && |all| == |found|
                    && (options.sort.None? ==> all == found)
                    && (options.sort.Some? && |found| >= 2 ==>
                          && Sorted(lib, options.sort.value, all)
                          && forall kept, out :: 0 <= kept < k <= out < |all| ==>
                               !Before(lib, options.sort.value, all[out], all[kept]))
                    && r.value == Projected(all[..k], options.projection))
    {
      ImportCollection(listing);
      var ret := Collect(lib, docs, selector);
      r, all := Arrange(lib, ret, options);
    }

    /** Takes the given documents off the disk, one by one. */
    method EraseAll(gone: seq<Json>)
      requires AllDocs(gone)
      modifies this
      ensures State() == old(State()).(sizes := old(sizes) - Cids(gone), files := old(files) - Cids(gone))
    {
      hide Cids;
      ghost var s := State();
      assert Cids([]) == {} by { CidsOfNone(); }
      for i := 0 to |gone|
        invariant State() == s.(sizes := s.sizes - Cids(gone[..i]), files := s.files - Cids(gone[..i]))
      {
        CidsOfMore(gone, i);
        DiskErase(CidOf(gone[i]));
      }
      assert gone[..|gone|] == gone;
    }

    method RemoveMany(selector: Json, listing: seq<Cid>)
      requires Valid(lib, State()) && Lists(listing, files)
      modifies this
      ensures var s := Import(lib, old(State()), listing);
              AllDocs(s.docs) && AllDocs(Selected(lib, s.docs, selector)) && State() == Remove(lib, s, selector)
    {
      hide Import, Lists, Cids;
      ImportKeeps(lib, State(), listing);
      ImportCollection(listing);
      SelectedDocs(lib, docs, selector);
      var gone := Collect(lib, docs, selector);
      EraseAll(gone);
      docs := KeepRest(lib, docs, selector);
    }

    /** Opens the document a path starts at, or throws. */
    method OpenRoot(path: Path) returns (root: Option<nat>)
      requires path != [] && AllDocs(docs)
      modifies this, ids
      ensures root == Root(old(docs), path) && (root.Some? ==> root.value < |docs|)
      ensures State() == if root.Some? then Opened(old(State()), root.value) else old(State())
    {
      root := None;
      if IsNumber(path[0]) && Stoi(path[0]).Some? {
        var val := Stoi(path[0]).value;
        if 0 <= val <= |docs| {
          if val == |docs| {
            var cid := ids.GetNextId();
            docs := docs + [WithCid(map[], cid)];
          }
          root := Some(val);
        }
      }
    }

    /** `$db = v`: the new document is in memory before the old files go, and is written after that. */
    method SetWholeDb(v: Json) returns (outcome: Outcome)
      requires AllDocs(docs)
      modifies this, ids
      ensures (State(), outcome) == Set(lib, old(State()), [], v)
    {
      hide Cids, DocumentStore.Flush;
      if !v.Obj? {
        return Threw;
      }
      var oldDocs := docs;
      var cid := ids.GetNextId();
      var d := WithCid(v.o, cid);
      docs := [d];
      EraseAll(oldDocs);
      var ok := Flush(d);
      outcome := if ok then Done else OverQuota;
    }

    /** An assignment through `$db`, on the imported collection. */
    method SetFromRequest(path: Path, v: Json) returns (outcome: Outcome)
      requires AllDocs(docs)
      modifies this, ids
      ensures (State(), outcome) == Set(lib, old(State()), path, v)
    {
      hide DocumentStore.Flush, Vivify, SetAt, Root;
      if path == [] {
        outcome := SetWholeDb(v);
        return;
      }
      var root := OpenRoot(path);
      if root.None? {
        return Threw;
      }
      ghost var before := docs;
      var i := root.value;
      var doc := docs[i];
      var seen, reached := GetLastJs(doc, path[1..]);
      VivifyKeepsDoc(doc, path[1..]);
      docs := docs[i := seen];
      if !reached || (|path| == 1 && !v.Obj?) {
        return Threw;
      }
      var d := SetAt(seen, path[1..], v).GetOr(v);
      docs := docs[i := WithCid(Fields(d), CidOf(doc))];
      assert docs == before[i := docs[i]];
      var ok := Flush(docs[i]);
      outcome := if ok then Done else OverQuota;
    }

    /** A deletion through `$db`, on the imported collection. */
    method DeleteFromRequest(path: Path) returns (outcome: Outcome)
      requires AllDocs(docs)
      modifies this, ids
      ensures (State(), outcome) == Delete(lib, old(State()), path)
    {
      hide DocumentStore.Flush, Vivify, SetAt, GetAt, Root, Without, Cids;
      if path == [] {
        EraseAll(docs);
        docs := [];
        return Done;
      }
      var root := OpenRoot(path);
      if root.None? {
        return Threw;
      }
      ghost var before := docs;
      var i := root.value;
      var doc := docs[i];
      var seen, reached := GetLastJs(doc, path[1..]);
      VivifyKeepsDoc(doc, path[1..]);
      if !reached {
        docs := docs[i := seen];
        return Threw;
      }
      if |path| == 1 {
        DiskErase(CidOf(doc));
        docs := docs[..i] + docs[i + 1..];
        return Done;
      }
      docs := docs[i := seen];
      var up, key := path[1..|path| - 1], path[|path| - 1];
      var rest := Without(GetAt(seen, up).GetOr(Null), key);
      if rest.None? {
        return Threw;
      }
      var d := SetAt(seen, up, rest.value).GetOr(rest.value);
      docs := docs[i := WithCid(Fields(d), CidOf(doc))];
      assert docs == before[i := docs[i]];
      var ok := Flush(docs[i]);
      outcome := if ok then Done else OverQuota;
    }
  }

  lemma CidsOfNone()
    ensures Cids([]) == {}
  {
  }
}
