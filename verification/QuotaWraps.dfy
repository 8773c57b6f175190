/**
 How the quota is passed: two `$db` calls on an empty collection make a document of more than 2^31
 bytes, whose total does not fit the int it is compared in.
 */
module QuotaWraps {

  import opened Optional
  import opened Json
  import opened Query
  import opened Sums
  import opened DocumentStore
  import opened DbPaths
  import opened StoreInvariants
  import opened StoreSteps
  import opened StoreRuns
  import opened DbLens
  import opened JsonCodec

  /** A size that does not fit an int and is read as one within the quota. */
  predicate Misread(n: nat) {
    INT_MAX < n <= WORD32 + MAX_DB_SIZE
  }

  /** A document that is the only one is written when its size fits, and when it is misread. */
  lemma OnlyDocument(lib: Lib, s: Store, d: Json)
    requires lib.Valid() && IsDoc(d) && s.sizes.Keys <= {CidOf(d)} && s.files.Keys <= {CidOf(d)}
    requires |lib.encode(d)| <= MAX_DB_SIZE || Misread(|lib.encode(d)|)
    ensures var n := |lib.encode(d)|;
            && Flush(lib, s, d) == (s.(sizes := map[CidOf(d) := n], files := map[CidOf(d) := lib.encode(d)],
                                       wrapped := s.wrapped || n > MAX_DB_SIZE), true)
            && Sum(Lengths(map[CidOf(d) := lib.encode(d)])) == n
  {
    var cid, n := CidOf(d), |lib.encode(d)|;
    assert lib.encode(d) != [];
    assert s.sizes[cid := n] == map[cid := n] && s.files[cid := lib.encode(d)] == map[cid := lib.encode(d)];
    assert Lengths(map[cid := lib.encode(d)]) == map[cid := n];
    SumPut(s.sizes, cid, n);
    assert s.sizes - {cid} == map[];
  }

  lemma InsertIsLetThrough(lib: Lib, s: Store, js: Json)
    requires lib.Valid() && s.docs == [] && s.sizes == map[] && s.files == map[]
    requires (js.Obj? || js.Null?) && Misread(|lib.encode(WithCid(Fields(js), s.nextId))|)
    ensures var (s', outcome) := Insert(lib, s, js);
            outcome == Done && Sum(Lengths(s'.files)) > MAX_DB_SIZE
  {
    var d := WithCid(Fields(js), s.nextId);
    OnlyDocument(lib, s.(docs := s.docs + [d], nextId := s.nextId + 1), d);
  }

  // ------------------------------------------------------ two calls of a script

  const LAST := 2147483640

  const FAR := "2147483640"

  lemma IndexOfFar()
    ensures Index(FAR) == Some(LAST)
  {
    assert Digits("", 2147483640) == 2147483640;
    assert Digits("0", 214748364) == 2147483640 by { assert "0"[1..] == ""; }
    assert Digits("40", 21474836) == 2147483640 by { assert "40"[1..] == "0"; }
    assert Digits("640", 2147483) == 2147483640 by { assert "640"[1..] == "40"; }
    assert Digits("3640", 214748) == 2147483640 by { assert "3640"[1..] == "640"; }
    assert Digits("83640", 21474) == 2147483640 by { assert "83640"[1..] == "3640"; }
    assert Digits("483640", 2147) == 2147483640 by { assert "483640"[1..] == "83640"; }
    assert Digits("7483640", 214) == 2147483640 by { assert "7483640"[1..] == "483640"; }
    assert Digits("47483640", 21) == 2147483640 by { assert "47483640"[1..] == "7483640"; }
    assert Digits("147483640", 2) == 2147483640 by { assert "147483640"[1..] == "47483640"; }
    assert Digits(FAR, 0) == 2147483640 by { assert FAR[1..] == "147483640"; }
  }

  /** A document with nothing but an array. */
  function WithArray(a: seq<Json>, cid: Cid): Json {
    WithCid(map["a" := Arr(a)], cid)
  }

  function Filled(): seq<Json> {
    Nulls(LAST) + [Num(Whole(1))]
  }

  const MAKE := SetPath(["0", "a"], Arr([]))

  const FILL := SetPath(["0", "a", FAR], Num(Whole(1)))

  /** `$db[0].a = []` */
  lemma Made(lib: Lib, s: Store)
    requires lib.Valid() && s.docs == []
    ensures Set(lib, s, MAKE.path, MAKE.value) ==
            Flushed(lib, s.(docs := [WithArray([], s.nextId)], nextId := s.nextId + 1), WithArray([], s.nextId))
  {
    hide Flush;
    IndexOfZero();
    var path := MAKE.path;
    assert path[1..] == ["a"] && ["a"][1..] == [];
    var doc := WithCid(map[], s.nextId);
    assert Vivify(doc, ["a"]).1;
    DocumentAfterSet(doc, ["a"], Arr([]));
    assert SetAt(doc, ["a"], Arr([])) == Some(Obj(doc.o["a" := Arr([])]));
    assert Obj(doc.o["a" := Arr([])]) == WithArray([], s.nextId);
    assert Opened(s, 0).docs[0 := WithArray([], s.nextId)] == [WithArray([], s.nextId)];
  }

  /** `$db[0].a[2147483640] = 1` */
  lemma Far(lib: Lib, s: Store, cid: Cid)
    requires lib.Valid() && s.docs == [WithArray([], cid)]
    ensures Set(lib, s, FILL.path, FILL.value) ==
            Flushed(lib, s.(docs := [WithArray(Filled(), cid)]), WithArray(Filled(), cid))
  {
    hide Flush, Digits, Stoi;
    IndexOfZero();
    IndexOfFar();
    var path, v := FILL.path, FILL.value;
    var inner := ["a", FAR];
    assert path[1..] == inner && inner[1..] == [FAR] && [FAR][1..] == [];
    var doc := s.docs[0];
    var one := Put(Arr([]), FAR, v);
    assert one == Arr(Filled()) by { assert [] + Nulls(LAST) + [v] == Filled(); }
    assert Vivify(Arr([]), [FAR]).1;
    assert Vivify(doc, inner).1;
    DocumentAfterSet(doc, inner, v);
    assert SetAt(Arr([]), [FAR], v) == Some(one);
    assert SetAt(doc, inner, v) == Some(Obj(doc.o["a" := one]));
    assert Obj(doc.o["a" := one]) == WithArray(Filled(), cid);
    assert s.docs[0 := WithArray(Filled(), cid)] == [WithArray(Filled(), cid)];
  }

  // ------------------------------------------------------------- their lengths

  lemma ArrayLengths()
    ensures |Encode(Arr([]))| == 2
    ensures |Encode(Arr(Filled()))| == LAST + 7
  {
    var none, j := Arr([]), Arr(Filled());
    assert Items(none, 0) == [BREAK];
    NullsLength(j, LAST, 0);
    WholeLength(1);
    assert Items(j, LAST) == Encode(Num(Whole(1))) + Items(j, LAST + 1);
    assert Items(j, LAST + 1) == [BREAK];
  }

  lemma DocumentLength(a: seq<Json>)
    requires |Encode(Arr(a))| >= 2
    ensures |Encode(Arr(a))| + 4 <= |Encode(WithArray(a, 0))| <= 2 * |Encode(Arr(a))| + 0x90_0000
  {
    var d := WithArray(a, 0);
    WholeLength(0);
    assert d.o.Keys == {"a", CID};
    var keys := Keys(d.o.Keys);
    assert "a" != CID;
    assert |keys| == 2;
    TextLength("a");
    TextLength(CID);
    PairsLength(d, keys, "a", 1 + 1 + 4 * 0x110001 + 4 + |Encode(Arr(a))|);
  }

  lemma StepIsSet(lib: Lib, s: Store, path: Path, v: Json, listing: seq<Cid>)
    requires DiskOk(lib, s.files) && Lists(listing, s.files) && (s.imported ==> AllDocs(s.docs))
    ensures AllDocs(Import(lib, s, listing).docs)
    ensures Legal(s, Event(SetPath(path, v), listing))
    ensures Step(lib, s, Event(SetPath(path, v), listing)) == Set(lib, Import(lib, s, listing), path, v)
  {
    hide DiskOk, Lists, Set, Import;
    ReadableDocs(lib, s, listing);
  }

  const EMPTY := Store([], map[], false, map[], 0, false)

  /** The collection with one document and its file. */
  ghost function Holding(lib: Lib, d: Json, wrapped: bool): Store {
    Store([d], map[0 := |lib.encode(d)|], true, map[0 := lib.encode(d)], 1, wrapped)
  }

  lemma FirstCall(lib: Lib)
    requires lib.Valid() && |lib.encode(WithArray([], 0))| <= MAX_DB_SIZE
    ensures Legal(EMPTY, Event(MAKE, []))
    ensures Step(lib, EMPTY, Event(MAKE, [])).0 == Holding(lib, WithArray([], 0), false)
  {
    hide Set, Flush, Step, Legal;
    StepIsSet(lib, EMPTY, MAKE.path, MAKE.value, []);
    var s := Import(lib, EMPTY, []);
    assert s == Store([], map[], true, map[], 0, false) by { assert Lengths(map[]) == map[]; }
    Made(lib, s);
    OnlyDocument(lib, s.(docs := [WithArray([], 0)], nextId := 1), WithArray([], 0));
  }

  lemma SecondCall(lib: Lib)
    requires lib.Valid() && Misread(|lib.encode(WithArray(Filled(), 0))|)
    ensures var s := Holding(lib, WithArray([], 0), false);
            && Legal(s, Event(FILL, [0]))
            && Step(lib, s, Event(FILL, [0])) == (Holding(lib, WithArray(Filled(), 0), true), Done)
  {
    hide Set, Flush, Step, Legal, Filled;
    var s := Holding(lib, WithArray([], 0), false);
    StepIsSet(lib, s, FILL.path, FILL.value, [0]);
    Far(lib, s, 0);
    OnlyDocument(lib, s.(docs := [WithArray(Filled(), 0)]), WithArray(Filled(), 0));
  }

  /** With the library at hand the first call's document fits, and the second's is misread. */
  lemma LibraryLengths()
    ensures |Library().encode(WithArray([], 0))| <= MAX_DB_SIZE
    ensures Misread(|Library().encode(WithArray(Filled(), 0))|)
  {
    hide Encode, Filled;
    ArrayLengths();
    DocumentLength([]);
    DocumentLength(Filled());
  }

  /** There are a library and a run of two calls that leaves files over the quota. */
  lemma QuotaCanBePassed()
    ensures exists lib: Lib, ss: seq<Store>, es: seq<StoreRuns.Event> ::
              lib.Valid() && Run(lib, ss, es) && |ss| == 3 && Sum(Lengths(ss[2].files)) > MAX_DB_SIZE
  {
    hide Encode, Filled, Step, Legal, WithArray, Sum, Lengths, Decode;
    SomeLibIsValid();
    LibraryLengths();
    var lib := Library();
    FirstCall(lib);
    SecondCall(lib);
    var d, e := WithArray([], 0), WithArray(Filled(), 0);
    OnlyFile(lib, e);
    var ss := [EMPTY, Holding(lib, d, false), Holding(lib, e, true)];
    var es := [Event(MAKE, []), Event(FILL, [0])];
    assert Run(lib, ss, es) by {
      forall i | 0 <= i < |es| ensures Legal(ss[i], es[i]) && ss[i + 1] == Step(lib, ss[i], es[i]).0 {
        assert i == 0 || i == 1;
      }
    }
  }

  lemma OnlyFile(lib: Lib, d: Json)
    requires lib.Valid() && Misread(|lib.encode(d)|)
    ensures Sum(Lengths(Holding(lib, d, true).files)) == |lib.encode(d)|
  {
    var n := |lib.encode(d)|;
    var none: map<Cid, nat> := map[];
    assert Lengths(map[0 := lib.encode(d)]) == none[0 := n];
    SumPut(none, 0, n);
    assert none - {0} == map[];
  }
}
