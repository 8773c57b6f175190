/**
 The `$db` interface of scripts: reading, setting and deleting along a path whose first key is a
 position in the collection.
 */
module DbPaths {

  import opened Optional
  import opened Json
  import opened Query
  import opened DocumentStore

  /**
   Walks a path through a document as an access in place does: what it fills in on the way stays,
   even when the walk ends early at the id key or at a value that has no children.
   */
  function Vivify(j: Json, path: Path): (Json, bool)
    decreases |path|
  {
    if path == [] then (j, true)
    else if path[0] == CID || Child(j, path[0]).None? then (j, false)
    else
      var (sub, reached) := Vivify(Child(j, path[0]).value, path[1..]);
      (Put(j, path[0], sub), reached)
  }

  /** The document position a path starts at, if it is one that exists or the next one. */
  function Root(docs: seq<Json>, path: Path): Option<nat>
    requires path != []
  {
    if IsNumber(path[0]) && Index(path[0]).Some? && Index(path[0]).value <= |docs| then Index(path[0]) else None
  }

  /** The collection with a new document at its end when the path starts there. */
  function Opened(s: Store, i: nat): Store {
    if i < |s.docs| then s else s.(docs := s.docs + [WithCid(map[], s.nextId)], nextId := s.nextId + 1)
  }

  /** Assignment to `$db`, to `$db[i]` or to something inside; `s` is the imported collection. */
  ghost function Set(lib: Lib, s: Store, path: Path, v: Json): (Store, Outcome)
    requires AllDocs(s.docs)
  {
    if path == [] then
      if !v.Obj? then (s, Threw)
      else
        var d := WithCid(v.o, s.nextId);
        var gone := Cids(s.docs);
        Flushed(lib, s.(docs := [d], sizes := s.sizes - gone, files := s.files - gone, nextId := s.nextId + 1), d)
    else
      match Root(s.docs, path)
      case None => (s, Threw)
      case Some(i) =>
        var s1 := Opened(s, i);
        var (seen, reached) := Vivify(s1.docs[i], path[1..]);
        if !reached || (|path| == 1 && !v.Obj?) then
          (s1.(docs := s1.docs[i := seen]), Threw)
        else
          var d := WithCid(Fields(SetAt(seen, path[1..], v).GetOr(v)), CidOf(s1.docs[i]));
          Flushed(lib, s1.(docs := s1.docs[i := d]), d)
  }

  ghost function Flushed(lib: Lib, s: Store, d: Json): (Store, Outcome)
    requires IsDoc(d)
  {
    var (s', ok) := Flush(lib, s, d);
    (s', if ok then Done else OverQuota)
  }

  /** A container without one of its children; the elements behind it in an array move up. */
  function Without(j: Json, key: string): Option<Json> {
    match j
    case Arr(a) =>
      if IsNumber(key) && Index(key).Some? && Index(key).value < |a|
      then Some(Arr(a[..Index(key).value] + a[Index(key).value + 1..])) else None
    case _ => Some(Obj(Fields(j) - {key}))
  }

  /** Deletion of `$db`, of `$db[i]` or of something inside. */
  ghost function Delete(lib: Lib, s: Store, path: Path): (Store, Outcome)
    requires AllDocs(s.docs)
  {
    if path == [] then
      var gone := Cids(s.docs);
      (s.(docs := [], sizes := s.sizes - gone, files := s.files - gone), Done)
    else
      match Root(s.docs, path)
      case None => (s, Threw)
      case Some(i) =>
        var s1 := Opened(s, i);
        var (seen, reached) := Vivify(s1.docs[i], path[1..]);
        var cid := CidOf(s1.docs[i]);
        if !reached then (s1.(docs := s1.docs[i := seen]), Threw)
        else if |path| == 1 then
          (Erase(s1.(docs := s1.docs[..i] + s1.docs[i + 1..]), cid), Done)
        else
          var up, key := path[1..|path| - 1], path[|path| - 1];
          match Without(GetAt(seen, up).GetOr(Null), key)
          case None => (s1.(docs := s1.docs[i := seen]), Threw)
          case Some(rest) =>
            var d := WithCid(Fields(SetAt(seen, up, rest).GetOr(rest)), cid);
            Flushed(lib, s1.(docs := s1.docs[i := d]), d)
  }

  datatype Reading = Undefined | Reads(value: Json) | Raises

  /** What a script reads. An empty collection reads as undefined, whatever the path. */
  function Fetch(docs: seq<Json>, path: Path): Reading {
    if docs == [] then Undefined
    else if path != [] && !IsNumber(path[0]) then Raises
    else AsReading(GetAt(Arr(docs), path))
  }

  function AsReading(j: Option<Json>): Reading {
    match j
    case Some(v) => Reads(v)
    case None => Raises
  }

  // ------------------------------------------------------------ paths that exist

  /** The walk reaches the end exactly when a write there goes through and no key is the id's. */
  lemma {:induction false} VivifyReaches(j: Json, path: Path, v: Json)
    ensures Vivify(j, path).1 <==> CID !in path && SetAt(j, path, v).Some?
    decreases |path|
  {
    if path != [] {
      assert path == [path[0]] + path[1..];
      if Child(j, path[0]).Some? {
        VivifyReaches(Child(j, path[0]).value, path[1..], v);
      }
    }
  }

  /** Filling in first and writing then is writing. */
  lemma {:induction false} SetAfterVivify(j: Json, path: Path, v: Json)
    requires Vivify(j, path).1
    ensures SetAt(Vivify(j, path).0, path, v) == SetAt(j, path, v)
    ensures SetAt(j, path, v).Some?
    decreases |path|
  {
    if path != [] {
      var c := Child(j, path[0]).value;
      var sub := Vivify(c, path[1..]).0;
      SetAfterVivify(c, path[1..], v);
      ChildOfPut(j, path[0], sub);
      PutPut(j, path[0], sub, SetAt(c, path[1..], v).value);
    }
  }

  /** Filling in changes neither the kind of a document nor its id. */
  lemma VivifyKeepsDoc(d: Json, path: Path)
    requires IsDoc(d)
    ensures IsDoc(Vivify(d, path).0) && CidOf(Vivify(d, path).0) == CidOf(d)
  {
  }
}
