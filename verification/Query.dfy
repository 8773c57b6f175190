/**
 Selectors, updates, projections and sorted, limited results over documents.

 The encoder and the order on JSON values belong to the JSON library and are parameters.
 */
module Query {

  import opened Optional
  import opened Json

  type Bytes = seq<bv8>

  const CID := "_cid"

  /** The JSON library: its CBOR codec and its operator<. */
  datatype Lib = Lib(encode: Json -> Bytes, decode: Bytes -> Option<Json>, less: (Json, Json) -> bool)
  {
    /** Decoding inverts encoding, and no encoding is empty. */
    ghost predicate Valid() {
      && (forall j :: decode(encode(j)) == Some(j))
      && decode([]) == None
    }

    /** `less` is a strict weak order. */
    ghost predicate Ordered() {
      && (forall x, y :: less(x, y) ==> !less(y, x))
      && (forall x, y, z :: !less(x, y) && !less(y, z) ==> !less(x, z))
    }
  }

  /** Truncation toward zero, as in a cast to int, one binary digit at a time. */
  function Trunc(f: Fraction): int
    decreases f.e
  {
    if f.e == 0 then f.m
    else Trunc(Fraction(if f.m >= 0 then f.m / 2 else -(-f.m / 2), f.e - 1))
  }

  function Pow2(e: nat): nat {
    if e == 0 then 1 else 2 * Pow2(e - 1)
  }

  /** It is the nearest whole number on the side of zero. */
  lemma {:induction false} TruncTowardZero(f: Fraction)
    ensures f.m >= 0 ==> 0 <= Trunc(f) && Trunc(f) * Pow2(f.e) <= f.m < (Trunc(f) + 1) * Pow2(f.e)
    ensures f.m < 0 ==> Trunc(f) <= 0 && (Trunc(f) - 1) * Pow2(f.e) < f.m <= Trunc(f) * Pow2(f.e)
    decreases f.e
  {
    if f.e > 0 {
      var half := Fraction(if f.m >= 0 then f.m / 2 else -(-f.m / 2), f.e - 1);
      TruncTowardZero(half);
      var t, p := Trunc(f), Pow2(half.e);
      TwiceEach(t, p);
      TwiceEach(t + 1, p);
      TwiceEach(t - 1, p);
    }
  }

  lemma TwiceEach(t: int, p: int)
    ensures t * (2 * p) == 2 * (t * p)
  {
  }

  /** A flag given as a boolean or as a number. */
  predicate Truthy(j: Json) {
    match j
    case Bool(b) => b
    case Num(n) => Trunc(n) != 0
    case _ => false
  }

  function Fields(j: Json): map<string, Json> {
    if j.Obj? then j.o else map[]
  }

  // --------------------------------------------------------------- selectors

  /** One key of a selector: a comparison if its value is an object that names one, else equality. */
  predicate Clause(lib: Lib, data: Json, key: string, want: Json) {
    var fields, ops := Fields(data), Fields(want);
    if "$exists" in ops then Truthy(ops["$exists"]) == (key in fields)
    else if "$lt" in ops then key in fields && lib.less(fields[key], ops["$lt"])
    else if "$gt" in ops then key in fields && lib.less(ops["$gt"], fields[key])
    else if "$eq" in ops then key in fields && fields[key] == ops["$eq"]
    else if "$ne" in ops then key in fields && fields[key] != ops["$ne"]
    else if "$lte" in ops then key in fields && !lib.less(ops["$lte"], fields[key])
    else if "$gte" in ops then key in fields && !lib.less(fields[key], ops["$gte"])
    else key in fields && fields[key] == want
  }

  predicate Matches(lib: Lib, data: Json, selector: Json) {
    if selector.Obj? then forall key :: key in selector.o ==> Clause(lib, data, key, selector.o[key])
    else data == selector
  }

  /** The documents a selector picks, in collection order. */
  function Selected(lib: Lib, docs: seq<Json>, selector: Json): seq<Json> {
    if docs == [] then []
    else (if Matches(lib, docs[0], selector) then [docs[0]] else []) + Selected(lib, docs[1..], selector)
  }

  // ----------------------------------------------------------------- updates

  /** A document with the "$set" of an update applied; its id stays whatever the update says. */
  function Updated(data: Json, update: Json): Json
    requires data.Obj?
  {
    if "$set" in Fields(update) && Fields(update)["$set"].Obj?
    then Obj(data.o + (Fields(update)["$set"].o - {CID}))
    else data
  }

  lemma UpdateTwice(data: Json, update: Json)
    requires data.Obj?
    ensures Updated(Updated(data, update), update) == Updated(data, update)
  {
    if "$set" in Fields(update) && Fields(update)["$set"].Obj? {
      var set_ := Fields(update)["$set"].o - {CID};
      assert data.o + set_ + set_ == data.o + set_;
    }
  }

  // -------------------------------------------------------------- projection

  /** The fields a projection keeps; null, not an empty object, when it keeps none. */
  function Project(data: Json, proj: Json): Json {
    if !proj.Obj? || proj.o == map[] then data
    else
      var kept := map key | key in proj.o && key in Fields(data) && Truthy(proj.o[key]) :: Fields(data)[key];
      if kept == map[] then Null else Obj(kept)
  }

  function Projected(docs: seq<Json>, proj: Option<Json>): (r: seq<Json>)
    ensures |r| == |docs|
  {
    if proj.None? then docs else seq(|docs|, i requires 0 <= i < |docs| => Project(docs[i], proj.value))
  }

  // ------------------------------------------------------------------- order

  datatype Sort = Sort(key: string, direction: int)

  datatype Options = Options(sort: Option<Sort>, projection: Option<Json>, limit: Option<Json>)

  /** `x` must come before `y`. */
  predicate Before(lib: Lib, sort: Sort, x: Json, y: Json)
    requires sort.key in Fields(x) && sort.key in Fields(y)
  {
    var vx, vy := Fields(x)[sort.key], Fields(y)[sort.key];
    if sort.direction == 1 then lib.less(vx, vy) else lib.less(vy, vx)
  }

  predicate Sortable(docs: seq<Json>, sort: Sort) {
    forall i :: 0 <= i < |docs| ==> sort.key in Fields(docs[i])
  }

  ghost predicate Sorted(lib: Lib, sort: Sort, docs: seq<Json>) {
    && Sortable(docs, sort)
    && forall i, j :: 0 <= i < j < |docs| ==> !Before(lib, sort, docs[j], docs[i])
  }

  /** How many results a limit lets through. */
  function Limited(n: nat, limit: Option<Json>): (k: nat)
    ensures k <= n
  {
    if limit.Some? && limit.value.Num? && 0 <= Trunc(limit.value.n) < n then Trunc(limit.value.n) else n
  }

  /** Places a document behind everything it need not come before. */
  function Place(lib: Lib, sort: Sort, docs: seq<Json>, d: Json): (r: seq<Json>)
    requires Sortable(docs, sort) && sort.key in Fields(d)
    ensures multiset(r) == multiset(docs) + multiset{d}
    ensures Sortable(r, sort)
  {
    if docs == [] then [d]
    else
      var n := |docs| - 1;
      assert docs == docs[..n] + [docs[n]];
      if Before(lib, sort, d, docs[n]) then Place(lib, sort, docs[..n], d) + [docs[n]]
      else docs + [d]
  }

  lemma BeforeIsAnOrder(lib: Lib, sort: Sort, x: Json, y: Json, z: Json)
    requires lib.Ordered() && sort.key in Fields(x) && sort.key in Fields(y) && sort.key in Fields(z)
    ensures Before(lib, sort, x, y) ==> !Before(lib, sort, y, x)
    ensures !Before(lib, sort, x, y) && !Before(lib, sort, y, z) ==> !Before(lib, sort, x, z)
  {
  }

  lemma PlaceSorted(lib: Lib, sort: Sort, docs: seq<Json>, d: Json)
    requires lib.Ordered() && Sorted(lib, sort, docs) && sort.key in Fields(d)
    ensures Sorted(lib, sort, Place(lib, sort, docs, d))
  {
    hide Before, Fields;
    var n := |docs| - 1;
    if docs != [] && Before(lib, sort, d, docs[n]) {
      var front := Place(lib, sort, docs[..n], d);
      PlaceSorted(lib, sort, docs[..n], d);
      forall i | 0 <= i < |front|
        ensures !Before(lib, sort, docs[n], front[i])
      {
        assert front[i] in multiset(front);
        assert front[i] in docs[..n] || front[i] == d;
        BeforeIsAnOrder(lib, sort, d, docs[n], d);
      }
    } else if docs != [] {
      forall i | 0 <= i <= n
        ensures !Before(lib, sort, d, docs[i])
      {
        if i < n {
          BeforeIsAnOrder(lib, sort, d, docs[n], docs[i]);
        }
      }
    }
  }

  /** Stands for std::sort: some permutation in order. */
  method StdSort(lib: Lib, sort: Sort, docs: seq<Json>) returns (r: seq<Json>)
    requires lib.Ordered() && Sortable(docs, sort)
    ensures Sorted(lib, sort, r) && multiset(r) == multiset(docs)
  {
    r := [];
    for i := 0 to |docs|
      invariant Sorted(lib, sort, r) && multiset(r) == multiset(docs[..i])
    {
      PlaceSorted(lib, sort, r, docs[i]);
      r := Place(lib, sort, r, docs[i]);
      assert docs[..i + 1] == docs[..i] + [docs[i]];
    }
    assert docs[..|docs|] == docs;
  }

  /**
   The second half of find_many. `all` is the order the matches were put in: the result is the
   projection of its first documents, and none left out belongs before one kept. None stands for
   the exception of a comparison with a missing sort key.
   */
  method Arrange(lib: Lib, found: seq<Json>, options: Options) returns (r: Option<seq<Json>>, ghost all: seq<Json>)
    requires lib.Ordered()
    ensures r == None <==> options.sort.Some? && |found| >= 2 && !Sortable(found, options.sort.value)
    ensures r.Some? ==>
              var k := Limited(|found|, options.limit);
              && multiset(all) == multiset(found)
              && (options.sort.None? ==> all == found)
              && (options.sort.Some? && |found| >= 2 ==>
                    && Sorted(lib, options.sort.value, all)
                    && forall kept, out :: 0 <= kept < k <= out < |all| ==>
                         !Before(lib, options.sort.value, all[out], all[kept]))
              && |all| == |found|
              && r.value == Projected(all[..k], options.projection)
  {
    var ret := found;
    if options.sort.Some? && |found| >= 2 {
      if exists i :: 0 <= i < |found| && options.sort.value.key !in Fields(found[i]) {
        all := found;
        return None, all;
      }
      ret := StdSort(lib, options.sort.value, found);
    }
    all := ret;
    SameSize(all, found);
    ret := Projected(ret, options.projection);
    if options.limit.Some? && options.limit.value.Num? {
      var val := Trunc(options.limit.value.n);
      if val >= 0 && |ret| > val {
        ret := ret[..val];
      }
    }
    assert ret == Projected(all[..Limited(|found|, options.limit)], options.projection);
    r := Some(ret);
  }

  lemma SameSize(x: seq<Json>, y: seq<Json>)
    requires multiset(x) == multiset(y)
    ensures |x| == |y|
  {
    assert |multiset(x)| == |x| && |multiset(y)| == |y|;
  }
}
