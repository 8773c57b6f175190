/**
 The laws of `$db` paths: a value set at a path of two or more keys is read back, a later one at
 the same path wins, other paths read as before, and documents keep their ids.
 */
module DbLens {

  import opened Optional
  import opened Json
  import opened Query
  import opened DocumentStore
  import opened DbPaths
  import opened StoreInvariants
  import opened StoreSteps

  /** The collection after a set call that returned. */
  ghost predicate SetTo(lib: Lib, s: Store, path: Path, v: Json, s': Store) {
    && lib.Valid() && AllDocs(s.docs) && |path| >= 2
    && Set(lib, s, path, v) == (s', Done)
  }

  lemma DocumentAfterSet(doc: Json, path: Path, v: Json)
    requires IsDoc(doc) && path != [] && Vivify(doc, path).1
    ensures SetAt(doc, path, v).Some? && SetAt(doc, path, v).value == Assigned(doc, path, v)
  {
    SetAfterVivify(doc, path, v);
    VivifyReaches(doc, path, v);
    assert path[0] != CID by { assert path[0] in path; }
    var d := SetAt(doc, path, v).value;
    assert d.Obj? && d.o[CID] == doc.o[CID];
    assert d.o[CID := d.o[CID]] == d.o;
  }

  /** A returned set call is a write into the list of documents, after opening a new one if needed. */
  lemma SetIsWrite(lib: Lib, s: Store, path: Path, v: Json, s': Store)
    requires SetTo(lib, s, path, v, s')
    ensures Root(s.docs, path).Some?
    ensures var i := Root(s.docs, path).value;
            && Some(i) == Index(path[0]) && path[1] != CID
            && SetAt(Arr(Opened(s, i).docs), path, v) == Some(Arr(s'.docs))
            && |s'.docs| == |Opened(s, i).docs|
            && IsDoc(s'.docs[i]) && CidOf(s'.docs[i]) == CidOf(Opened(s, i).docs[i])
            && forall k :: 0 <= k < |s'.docs| && k != i ==> s'.docs[k] == Opened(s, i).docs[k]
  {
    hide Vivify, SetAt, Flush;
    var i := Root(s.docs, path).value;
    var s1 := Opened(s, i);
    DocumentAfterSet(s1.docs[i], path[1..], v);
    VivifyReaches(s1.docs[i], path[1..], v);
    assert path[1] in path[1..];
    var d := Assigned(s1.docs[i], path[1..], v);
    FlushWrites(lib, s1.(docs := s1.docs[i := d]), d);
    SetAtArray(s1.docs, i, path, v);
  }

  lemma SetAtArray(docs: seq<Json>, i: nat, path: Path, v: Json)
    requires path != [] && Index(path[0]) == Some(i) && i < |docs| && SetAt(docs[i], path[1..], v).Some?
    ensures SetAt(Arr(docs), path, v) == Some(Arr(docs[i := SetAt(docs[i], path[1..], v).value]))
  {
  }

  /** Reading the path gives the value that was set. */
  lemma ReadAfterSet(lib: Lib, s: Store, path: Path, v: Json, s': Store)
    requires SetTo(lib, s, path, v, s')
    ensures Fetch(s'.docs, path) == Reads(v)
  {
    hide Set, SetAt, GetAt;
    SetIsWrite(lib, s, path, v, s');
    GetAfterSet(Arr(Opened(s, Root(s.docs, path).value).docs), path, v);
  }

  /** The id of the document that a set opens, or something below it: null before, and the id after. */
  predicate NewId(docs: seq<Json>, path: Path, q: Path) {
    && path != [] && |q| >= 2 && Index(path[0]) == Some(|docs|) && Index(q[0]) == Some(|docs|) && q[1] == CID
    && IsNumber(q[0])
  }

  /**
   A path that diverges from the one that was set reads as before if and only if there was a document
   before and the path is not that of the id of a document that the call opened.
   */
  lemma OtherReadsAfterSet(lib: Lib, s: Store, path: Path, v: Json, s': Store, q: Path)
    requires SetTo(lib, s, path, v, s') && Diverges(Arr(s.docs), path, q)
    ensures Fetch(s'.docs, q) == Fetch(s.docs, q) <==> s.docs != [] && !NewId(s.docs, path, q)
    ensures s.docs == [] ==> Fetch(s.docs, q) == Undefined
    ensures s.docs != [] && NewId(s.docs, path, q) ==>
              && Fetch(s.docs, q) == Reads(Null)
              && Fetch(s'.docs, q) == if |q| == 2 then Reads(Num(Whole(s.nextId))) else Raises
  {
    hide Set, SetAt, GetAt, Diverges;
    SetIsWrite(lib, s, path, v, s');
    var i := Root(s.docs, path).value;
    FirstKeys(Arr(s.docs), path, q);
    if i < |s.docs| {
      OtherAfterSet(Arr(s.docs), path, v, q);
    } else {
      OpenedReads(s.docs, s.nextId, path, q);
      OtherAfterSet(Arr(s.docs + [WithCid(map[], s.nextId)]), path, v, q);
    }
  }

  /** The first set in an empty collection turns readings beside it from undefined to null. */
  lemma UndefinedBecomesNull(lib: Lib, s: Store, v: Json, s': Store)
    requires s.docs == [] && SetTo(lib, s, ["0", "a"], v, s')
    ensures Fetch(s.docs, ["0", "b"]) == Undefined && Fetch(s'.docs, ["0", "b"]) == Reads(Null)
  {
    hide Set;
    var path, q := ["0", "a"], ["0", "b"];
    IndexOfZero();
    assert path[1..] == ["a"] && q[1..] == ["b"] && ["b"][1..] == [] && ["a"][1..] == [];
    SetIsWrite(lib, s, path, v, s');
    OtherAfterSet(Arr(Opened(s, 0).docs), path, v, q);
    GetStep(Opened(s, 0).docs, 0, q);
    assert GetAt(WithCid(map[], s.nextId), ["b"]) == Some(Null);
  }

  lemma IndexOfZero()
    ensures Index("0") == Some(0) && IsNumber("0")
  {
    assert Digits("0"[1..], 0) == 0;
    assert Digits("0", 0) == 0;
  }

  /** After a returned `$db[i] = v` the document at `i` is `v` with the id it had, or a new one. */
  lemma ReadDocumentAfterSet(lib: Lib, s: Store, path: Path, v: Json, s': Store)
    requires lib.Valid() && AllDocs(s.docs) && |path| == 1 && Set(lib, s, path, v) == (s', Done)
    ensures v.Obj? && Root(s.docs, path).Some?
    ensures var i := Root(s.docs, path).value;
            var d := WithCid(v.o, if i < |s.docs| then CidOf(s.docs[i]) else s.nextId);
            && Fetch(s'.docs, path) == Reads(d)
            && s'.docs == if i < |s.docs| then s.docs[i := d] else s.docs + [d]
  {
    hide Flush;
    assert path[1..] == [];
    var i := Root(s.docs, path).value;
    var s1 := Opened(s, i);
    var d := WithCid(v.o, CidOf(s1.docs[i]));
    FlushWrites(lib, s1.(docs := s1.docs[i := d]), d);
    assert i == |s.docs| ==> s1.docs[i := d] == s.docs + [d];
    GetStep(s'.docs, i, path);
  }

  lemma FirstKeys(j: Json, p: Path, q: Path)
    requires Diverges(j, p, q)
    ensures p != [] && q != []
  {
  }

  /** Opening a document at the end changes no reading there but that of its id, and no divergence. */
  lemma OpenedReads(docs: seq<Json>, cid: Cid, path: Path, q: Path)
    requires |path| >= 2 && Index(path[0]) == Some(|docs|) && path[1] != CID && Diverges(Arr(docs), path, q)
    ensures var more := docs + [WithCid(map[], cid)];
            && Diverges(Arr(more), path, q)
            && (IsNumber(q[0]) && !NewId(docs, path, q) ==> GetAt(Arr(more), q) == GetAt(Arr(docs), q))
            && (NewId(docs, path, q) ==>
                  && GetAt(Arr(docs), q) == Some(Null)
                  && GetAt(Arr(more), q) == if |q| == 2 then Some(Num(Whole(cid))) else None)
  {
    if Index(q[0]) == Some(|docs|) {
      OpenedReadsInside(docs, cid, path, q);
    } else {
      OpenedReadsBeside(docs, cid, path, q);
    }
  }

  lemma OpenedReadsBeside(docs: seq<Json>, cid: Cid, path: Path, q: Path)
    requires |path| >= 2 && Index(path[0]) == Some(|docs|) && q != [] && Index(q[0]) != Some(|docs|)
    ensures var more := docs + [WithCid(map[], cid)];
            Diverges(Arr(more), path, q) && GetAt(Arr(more), q) == GetAt(Arr(docs), q)
  {
    hide WithCid;
    var more := docs + [WithCid(map[], cid)];
    assert Child(Arr(more), q[0]) == Child(Arr(docs), q[0]);
  }

  lemma OpenedReadsInside(docs: seq<Json>, cid: Cid, path: Path, q: Path)
    requires |path| >= 2 && Index(path[0]) == Some(|docs|) && path[1] != CID && Diverges(Arr(docs), path, q)
    requires Index(q[0]) == Some(|docs|)
    ensures var more := docs + [WithCid(map[], cid)];
            && Diverges(Arr(more), path, q)
            && (IsNumber(q[0]) && !NewId(docs, path, q) ==> GetAt(Arr(more), q) == GetAt(Arr(docs), q))
            && (NewId(docs, path, q) ==>
                  && GetAt(Arr(docs), q) == Some(Null)
                  && GetAt(Arr(more), q) == if |q| == 2 then Some(Num(Whole(cid))) else None)
  {
    hide GetAt, WithCid;
    var more := docs + [WithCid(map[], cid)];
    assert path[1..][0] == path[1] && q[1..][0] == q[1];
    DivergesFromNew(cid, path[1..], q[1..]);
    GetStep(more, |docs|, q);
    GetStep(docs, |docs|, q);
    if q[1] != CID {
      NewDocReadsAsNull(cid, q[1..]);
    } else {
      ReadCid(cid, q[1..]);
    }
  }

  /** The id reads as a number, which has nothing below it; a null has nulls below it. */
  lemma ReadCid(cid: Cid, q: Path)
    requires q != [] && q[0] == CID
    ensures GetAt(WithCid(map[], cid), q) == if |q| == 1 then Some(Num(Whole(cid))) else None
    ensures GetAt(Null, q) == Some(Null)
  {
    NullsBelowNull(q);
  }

  lemma {:induction false} NullsBelowNull(q: Path)
    ensures GetAt(Null, q) == Some(Null)
  {
    if q != [] {
      NullsBelowNull(q[1..]);
    }
  }

  lemma GetStep(docs: seq<Json>, i: nat, q: Path)
    requires q != [] && Index(q[0]) == Some(i)
    ensures GetAt(Arr(docs), q) == GetAt(if i < |docs| then docs[i] else Null, q[1..])
  {
  }

  /** Paths that diverge below a null diverge below a fresh document. */
  lemma DivergesFromNew(cid: Cid, p: Path, q: Path)
    requires Diverges(Null, p, q) && p[0] != CID
    ensures Diverges(WithCid(map[], cid), p, q)
  {
  }

  lemma NewDocReadsAsNull(cid: Cid, q: Path)
    requires q != [] && q[0] != CID
    ensures GetAt(WithCid(map[], cid), q) == GetAt(Null, q)
  {
  }

  /** A later set at the same path leaves what it alone would have left. */
  lemma LaterSetWins(lib: Lib, s: Store, path: Path, v: Json, s1: Store, w: Json, s2: Store, s3: Store)
    requires SetTo(lib, s, path, v, s1) && AllDocs(s1.docs)
    requires SetTo(lib, s1, path, w, s2) && SetTo(lib, s, path, w, s3)
    ensures s2.docs == s3.docs
  {
    hide Set, SetAt;
    SetIsWrite(lib, s, path, v, s1);
    SetIsWrite(lib, s1, path, w, s2);
    SetIsWrite(lib, s, path, w, s3);
    var i := Root(s.docs, path).value;
    SetAfterSet(Arr(Opened(s, i).docs), path, v, w);
  }

  /** Every document that was there keeps its id and its position, whatever the call does short of emptying. */
  lemma SetKeepsIds(lib: Lib, s: Store, path: Path, v: Json)
    requires lib.Valid() && AllDocs(s.docs) && path != []
    ensures var s' := Set(lib, s, path, v).0;
            && |s.docs| <= |s'.docs| <= |s.docs| + 1
            && forall k :: 0 <= k < |s.docs| ==> IsDoc(s'.docs[k]) && CidOf(s'.docs[k]) == CidOf(s.docs[k])
  {
    hide Vivify, SetAt, Flush, Stoi, IsNumber;
    if Root(s.docs, path).Some? {
      var i := Root(s.docs, path).value;
      var s1 := Opened(s, i);
      VivifyKeepsDoc(s1.docs[i], path[1..]);
      var d := Assigned(s1.docs[i], path[1..], v);
      FlushWrites(lib, s1.(docs := s1.docs[i := d]), d);
    }
  }

  // ----------------------------------------------------------------- deletion

  /** What a container reads once a child is gone: an object's other children, an array's moved up. */
  lemma WithoutReads(j: Json, key: string, q: Path)
    requires j.Obj? || j.Arr?
    requires Without(j, key).Some? && q != []
    ensures var left := Without(j, key).value;
            && (j.Obj? ==> GetAt(left, q) == if q[0] == key then GetAt(Null, q[1..]) else GetAt(j, q))
            && (j.Arr? && Index(q[0]).Some? ==>
                  var n, gone := Index(q[0]).value, Index(key).value;
                  GetAt(left, q) == GetAt(if n < gone then j else Arr(j.a[1..]), q))
  {
    var left := Without(j, key).value;
    if j.Arr? && Index(q[0]).Some? {
      assert Child(left, q[0]) == Child(if Index(q[0]).value < Index(key).value then j else Arr(j.a[1..]), q[0]);
    }
  }

  lemma {:induction false} GetAppend(j: Json, p: Path, r: Path)
    requires GetAt(j, p).Some?
    ensures GetAt(j, p + r) == GetAt(GetAt(j, p).value, r)
    decreases |p|
  {
    if p == [] {
      assert p + r == r;
    } else {
      assert (p + r)[1..] == p[1..] + r;
      GetAppend(Child(j, p[0]).value, p[1..], r);
    }
  }

  /** Filling in along a path changes no reading that diverges from it. */
  lemma {:induction false} OtherAfterVivify(j: Json, path: Path, q: Path)
    requires Diverges(j, path, q)
    ensures GetAt(Vivify(j, path).0, q) == GetAt(j, q)
    ensures Vivify(j, path).1 ==> Diverges(Vivify(j, path).0, path, q)
    decreases |path|
  {
    if path[0] != CID && Child(j, path[0]).Some? {
      var c := Child(j, path[0]).value;
      var sub := Vivify(c, path[1..]).0;
      var j' := Put(j, path[0], sub);
      if SameKey(j, path[0], q[0]) {
        OtherAfterVivify(c, path[1..], q[1..]);
        ChildOfPut(j, path[0], sub);
        SameStep(j, path[0], q[0]);
        SameStep(j', path[0], q[0]);
      } else {
        OtherChildOfPut(j, path[0], sub, q[0]);
      }
    }
  }

  lemma {:induction false} DivergesLonger(j: Json, p: Path, r: Path, q: Path)
    requires Diverges(j, p, q)
    ensures Diverges(j, p + r, q)
    decreases |p|
  {
    assert (p + r)[0] == p[0] && (p + r)[1..] == p[1..] + r;
    if SameKey(j, p[0], q[0]) {
      DivergesLonger(Child(j, p[0]).value, p[1..], r, q[1..]);
    }
  }

  lemma {:induction false} ShorterDiverges(j: Json, p: Path, r: Path, q: Path)
    requires Vivify(j, p + r).1 && Diverges(j, p, q)
    ensures Diverges(Vivify(j, p + r).0, p, q)
    ensures SetAt(Vivify(j, p + r).0, p, Null).Some?
    decreases |p|
  {
    assert (p + r)[0] == p[0] && (p + r)[1..] == p[1..] + r;
    var c := Child(j, p[0]).value;
    var sub := Vivify(c, p[1..] + r).0;
    ChildOfPut(j, p[0], sub);
    if SameKey(j, p[0], q[0]) {
      ShorterDiverges(c, p[1..], r, q[1..]);
    } else {
      PrefixReached(c, p[1..], r);
    }
  }

  lemma {:induction false} PrefixReached(j: Json, p: Path, r: Path)
    requires Vivify(j, p + r).1
    ensures CID !in p && GetAt(Vivify(j, p + r).0, p).Some?
    ensures forall v :: SetAt(Vivify(j, p + r).0, p, v).Some?
    decreases |p|
  {
    if p != [] {
      assert (p + r)[0] == p[0] && (p + r)[1..] == p[1..] + r;
      var c := Child(j, p[0]).value;
      ChildOfPut(j, p[0], Vivify(c, p[1..] + r).0);
      PrefixReached(c, p[1..], r);
      assert p == [p[0]] + p[1..];
    }
  }

  /** The container a delete call takes a child out of, filled in as the call fills it in. */
  function Parent(doc: Json, path: Path): Json
    requires path != []
  {
    GetAt(Vivify(doc, path).0, path[..|path| - 1]).GetOr(Null)
  }

  /** The document that a returned delete call leaves. */
  lemma DocumentAfterDelete(doc: Json, path: Path, left: Json)
    requires IsDoc(doc) && path != [] && Vivify(doc, path).1
    requires Without(Parent(doc, path), path[|path| - 1]) == Some(left)
    ensures var seen, up := Vivify(doc, path).0, path[..|path| - 1];
            && SetAt(seen, up, left).Some?
            && WithCid(Fields(SetAt(seen, up, left).GetOr(left)), CidOf(doc)) == SetAt(seen, up, left).value
  {
    hide Vivify, SetAt;
    var seen, up, key := Vivify(doc, path).0, path[..|path| - 1], path[|path| - 1];
    assert path == up + [key];
    PrefixReached(doc, up, [key]);
    VivifyReaches(doc, path, Null);
    assert key in path;
    VivifyKeepsDoc(doc, path);
    IdSurvives(seen, up, left, key);
    var d := SetAt(seen, up, left).value;
    assert d.o[CID := d.o[CID]] == d.o;
  }

  lemma IdSurvives(seen: Json, up: Path, left: Json, key: string)
    requires IsDoc(seen) && CID !in up && key != CID && SetAt(seen, up, left).Some?
    requires up == [] ==> Without(seen, key) == Some(left)
    ensures var d := SetAt(seen, up, left).value; IsDoc(d) && CidOf(d) == CidOf(seen)
  {
    if up != [] {
      assert up[0] in up;
    }
  }

  /**
   A returned delete call inside a document, which it opens if the path starts at the end: below the
   parent container one reads what the container without the child holds, and every path that
   diverges from the parent reads as it did once the document was opened.
   */
  lemma ReadsAfterDelete(lib: Lib, s: Store, path: Path, s': Store, q: Path)
    requires lib.Valid() && AllDocs(s.docs) && |path| >= 2 && Delete(lib, s, path) == (s', Done)
    ensures Root(s.docs, path).Some?
    ensures var i := Root(s.docs, path).value;
            var docs := Opened(s, i).docs;
            && Without(Parent(docs[i], path[1..]), path[|path| - 1]).Some?
            && Fetch(s'.docs, path[..|path| - 1] + q) ==
               AsReading(GetAt(Without(Parent(docs[i], path[1..]), path[|path| - 1]).value, q))
            && (Diverges(Arr(docs), path[..|path| - 1], q) ==> Fetch(s'.docs, q) == Fetch(docs, q))
            && |s'.docs| == |docs| && CidOf(docs[i]) in s'.files
  {
    hide Vivify, SetAt, GetAt, Flush, Diverges, Without;
    var i := Root(s.docs, path).value;
    var s1 := Opened(s, i);
    var doc, inner := s1.docs[i], path[1..];
    var up := inner[..|inner| - 1];
    assert up == path[1..|path| - 1] && inner[|inner| - 1] == path[|path| - 1];
    var seen := Vivify(doc, inner).0;
    var left := Without(Parent(doc, inner), path[|path| - 1]).value;
    DocumentAfterDelete(doc, inner, left);
    var d := SetAt(seen, up, left).value;
    FlushWrites(lib, s1.(docs := s1.docs[i := d]), d);
    assert s'.docs == s1.docs[i := d];
    BelowParent(s'.docs, i, path[0], up, seen, left, q);
    assert path[..|path| - 1] == [path[0]] + up;
    if Diverges(Arr(s1.docs), path[..|path| - 1], q) {
      assert inner == up + [path[|path| - 1]];
      BesideParent(s1.docs, i, path[0], up, path[|path| - 1], left, q);
    }
  }

  lemma BelowParent(docs: seq<Json>, i: nat, root: string, up: Path, seen: Json, left: Json, q: Path)
    requires i < |docs| && Index(root) == Some(i) && SetAt(seen, up, left) == Some(docs[i])
    ensures GetAt(Arr(docs), [root] + up + q) == GetAt(left, q)
  {
    GetAfterSet(seen, up, left);
    GetAppend(docs[i], up, q);
    var all := [root] + up + q;
    assert all[0] == root && all[1..] == up + q;
  }

  lemma BesideParent(docs: seq<Json>, i: nat, root: string, up: Path, key: string, left: Json, q: Path)
    requires i < |docs| && Index(root) == Some(i) && Vivify(docs[i], up + [key]).1
    requires SetAt(Vivify(docs[i], up + [key]).0, up, left).Some?
    requires Diverges(Arr(docs), [root] + up, q)
    ensures GetAt(Arr(docs[i := SetAt(Vivify(docs[i], up + [key]).0, up, left).value]), q) == GetAt(Arr(docs), q)
  {
    var doc, seen := docs[i], Vivify(docs[i], up + [key]).0;
    var docs' := docs[i := SetAt(seen, up, left).value];
    assert ([root] + up)[0] == root && ([root] + up)[1..] == up;
    if Index(q[0]) == Some(i) {
      assert Diverges(doc, up, q[1..]);
      DivergesLonger(doc, up, [key], q[1..]);
      OtherAfterVivify(doc, up + [key], q[1..]);
      ShorterDiverges(doc, up, [key], q[1..]);
      OtherAfterSet(seen, up, left, q[1..]);
    } else {
      assert Child(Arr(docs'), q[0]) == Child(Arr(docs), q[0]);
    }
  }
}
