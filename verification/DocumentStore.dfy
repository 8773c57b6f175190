/**
 One user collection: documents in memory, one file per document on disk, and a byte quota.

 The state and its operations as functions; `Collection.dfy` has the program. A rejected write
 clears the imported mark, so that the next operation starts over from what is on disk.
 */
module DocumentStore {

  import opened Optional
  import opened Json
  import opened Query
  import opened Sums

  const MAX_DB_SIZE := 16 * 1024 * 1024

  const WORD32 := 0x1_0000_0000

  /** A size_t stored in an int: the value modulo 2^32, from -2^31 on. */
  function ToInt(n: nat): int {
    (n + INT_MAX + 1) % WORD32 - INT_MAX - 1
  }

  type Cid = nat

  /**
   `docs`, `sizes` and `imported` live in memory, `files` on disk. `nextId` is what the id
   allocator issues next. `wrapped` is history: some write was let through although the total was
   over the quota, because the total did not fit the int it was compared in.
   */
  datatype Store = Store(docs: seq<Json>, sizes: map<Cid, nat>, imported: bool, files: map<Cid, Bytes>,
                         nextId: Cid, wrapped: bool)

  datatype Outcome = Done | OverQuota | Threw

  // --------------------------------------------------------------- documents

  predicate HasCid(d: Json, cid: Cid) {
    d.Obj? && CID in d.o && d.o[CID] == Num(Whole(cid))
  }

  predicate IsDoc(d: Json) {
    d.Obj? && CID in d.o && d.o[CID].Num? && d.o[CID].n.e == 0 && d.o[CID].n.m >= 0
  }

  function CidOf(d: Json): (cid: Cid)
    requires IsDoc(d)
    ensures HasCid(d, cid)
  {
    d.o[CID].n.m
  }

  function WithCid(o: map<string, Json>, cid: Cid): (d: Json)
    ensures IsDoc(d) && CidOf(d) == cid
  {
    Obj(o[CID := Num(Whole(cid))])
  }

  ghost predicate AllDocs(docs: seq<Json>) {
    forall i :: 0 <= i < |docs| ==> IsDoc(docs[i])
  }

  ghost function Lengths(files: map<Cid, Bytes>): map<Cid, nat> {
    map cid | cid in files :: |files[cid]|
  }

  // ----------------------------------------------------------------- the disk

  /** Every file decodes to the document it is named after. */
  ghost predicate DiskOk(lib: Lib, files: map<Cid, Bytes>) {
    forall cid :: cid in files ==> lib.decode(files[cid]).Some? && HasCid(lib.decode(files[cid]).value, cid)
  }

  /** A directory listing: every file once, in any order. */
  ghost predicate Lists(listing: seq<Cid>, files: map<Cid, Bytes>) {
    && (forall i :: 0 <= i < |listing| ==> listing[i] in files)
    && (forall cid :: cid in files ==> cid in listing)
    && (forall i, j :: 0 <= i < j < |listing| ==> listing[i] != listing[j])
  }

  ghost function Decoded(lib: Lib, files: map<Cid, Bytes>, listing: seq<Cid>): (docs: seq<Json>)
    requires DiskOk(lib, files) && forall i :: 0 <= i < |listing| ==> listing[i] in files
    ensures |docs| == |listing|
    ensures forall i :: 0 <= i < |docs| ==> HasCid(docs[i], listing[i])
    ensures forall i :: 0 <= i < |docs| ==> lib.decode(files[listing[i]]) == Some(docs[i])
  {
    seq(|listing|, i requires 0 <= i < |listing| => lib.decode(files[listing[i]]).value)
  }

  ghost function Import(lib: Lib, s: Store, listing: seq<Cid>): Store
    requires DiskOk(lib, s.files) && Lists(listing, s.files)
  {
    if s.imported then s
    else s.(docs := Decoded(lib, s.files, listing), sizes := Lengths(s.files), imported := true)
  }

  /** Writes one document through to its file, or rejects it and clears the imported mark. */
  ghost function Flush(lib: Lib, s: Store, d: Json): (Store, bool)
    requires IsDoc(d)
  {
    var bytes := lib.encode(d);
    var sizes := s.sizes[CidOf(d) := |bytes|];
    if ToInt(Sum(sizes)) > MAX_DB_SIZE then
      (s.(sizes := sizes, imported := false), false)
    else
      (s.(sizes := sizes, files := if bytes == [] then s.files else s.files[CidOf(d) := bytes],
          wrapped := s.wrapped || Sum(sizes) > MAX_DB_SIZE), true)
  }

  function Erase(s: Store, cid: Cid): Store {
    s.(sizes := s.sizes - {cid}, files := s.files - {cid})
  }

  // --------------------------------------------------------------- operations

  /** `s` is the collection after import in all of these. */
  ghost function Insert(lib: Lib, s: Store, js: Json): (Store, Outcome) {
    if !js.Obj? && !js.Null? then (s.(nextId := s.nextId + 1), Threw)
    else
      var d := WithCid(Fields(js), s.nextId);
      var (s', ok) := Flush(lib, s.(docs := s.docs + [d], nextId := s.nextId + 1), d);
      (s', if ok then Done else OverQuota)
  }

  /** The update loop from position `i` on; it ends at the first match unless `many`. */
  ghost function UpdateFrom(lib: Lib, s: Store, i: nat, selector: Json, update: Json, many: bool): (Store, bool)
    requires i <= |s.docs| && AllDocs(s.docs)
    decreases |s.docs| - i
  {
    if i == |s.docs| then (s, true)
    else if Matches(lib, s.docs[i], selector) then
      var d := Updated(s.docs[i], update);
      var (s', ok) := Flush(lib, s.(docs := s.docs[i := d]), d);
      if ok && many then UpdateFrom(lib, s', i + 1, selector, update, many) else (s', ok)
    else
      UpdateFrom(lib, s, i + 1, selector, update, many)
  }

  ghost function Update(lib: Lib, s: Store, selector: Json, update: Json, many: bool): (Store, Outcome)
    requires AllDocs(s.docs)
  {
    var (s', ok) := UpdateFrom(lib, s, 0, selector, update, many);
    (s', if ok then Done else OverQuota)
  }

  /** The documents a selector does not pick. */
  function Rest(lib: Lib, docs: seq<Json>, selector: Json): seq<Json> {
    if docs == [] then []
    else (if Matches(lib, docs[0], selector) then [] else [docs[0]]) + Rest(lib, docs[1..], selector)
  }

  ghost function Cids(docs: seq<Json>): set<Cid>
    requires AllDocs(docs)
  {
    set i | 0 <= i < |docs| :: CidOf(docs[i])
  }

  ghost function Remove(lib: Lib, s: Store, selector: Json): Store
    requires AllDocs(s.docs) && AllDocs(Selected(lib, s.docs, selector))
  {
    var gone := Cids(Selected(lib, s.docs, selector));
    s.(docs := Rest(lib, s.docs, selector), sizes := s.sizes - gone, files := s.files - gone)
  }

  /** The process ends and starts again: memory is lost, and the allocator may pass over ids. */
  function Restart(s: Store, nextId: Cid): Store {
    s.(docs := [], sizes := map[], imported := false, nextId := nextId)
  }
}
