/**
 What selectors pick and what projections keep, in terms of the documents' fields and the order
 that results are sorted by.
 */
module Selectors {

  import opened Optional
  import opened Json
  import opened Query
  import opened DocumentStore

  /** The selector {key: {op: want}}. */
  function Compare(key: string, op: string, want: Json): Json {
    Obj(map[key := Obj(map[op := want])])
  }

  // ------------------------------------------------------------ one comparison

  /** What matches "$lt" sorts before what does not. */
  lemma LessSortsFirst(lib: Lib, key: string, want: Json, x: Json, y: Json)
    requires lib.Ordered() && key in Fields(x) && key in Fields(y)
    requires Matches(lib, x, Compare(key, "$lt", want)) && !Matches(lib, y, Compare(key, "$lt", want))
    ensures Before(lib, Sort(key, 1), x, y)
  {
    var vx, vy := Fields(x)[key], Fields(y)[key];
    OneKey(lib, x, key, Obj(map["$lt" := want]));
    OneKey(lib, y, key, Obj(map["$lt" := want]));
    assert lib.less(vx, want) && !lib.less(vy, want);
  }

  /** What matches "$gt" sorts before what does not when sorting downwards. */
  lemma GreaterSortsFirstDownwards(lib: Lib, key: string, want: Json, x: Json, y: Json)
    requires lib.Ordered() && key in Fields(x) && key in Fields(y)
    requires Matches(lib, x, Compare(key, "$gt", want)) && !Matches(lib, y, Compare(key, "$gt", want))
    ensures Before(lib, Sort(key, -1), x, y)
  {
    var vx, vy := Fields(x)[key], Fields(y)[key];
    OneKey(lib, x, key, Obj(map["$gt" := want]));
    OneKey(lib, y, key, Obj(map["$gt" := want]));
    assert lib.less(want, vx) && !lib.less(want, vy);
  }

  /** Sorted results are in the order of the values, upwards for direction 1 and downwards otherwise. */
  lemma SortedByValue(lib: Lib, key: string, direction: int, docs: seq<Json>, i: nat, j: nat)
    requires Sorted(lib, Sort(key, direction), docs) && i < j < |docs|
    ensures key in Fields(docs[i]) && key in Fields(docs[j])
    ensures direction == 1 ==> !lib.less(Fields(docs[j])[key], Fields(docs[i])[key])
    ensures direction != 1 ==> !lib.less(Fields(docs[i])[key], Fields(docs[j])[key])
  {
    assert !Before(lib, Sort(key, direction), docs[j], docs[i]);
  }

  /** On documents that have the key, three comparisons are the complements of the other three. */
  lemma Complements(lib: Lib, key: string, want: Json, x: Json)
    requires key in Fields(x)
    ensures Matches(lib, x, Compare(key, "$gte", want)) <==> !Matches(lib, x, Compare(key, "$lt", want))
    ensures Matches(lib, x, Compare(key, "$lte", want)) <==> !Matches(lib, x, Compare(key, "$gt", want))
    ensures Matches(lib, x, Compare(key, "$ne", want)) <==> !Matches(lib, x, Compare(key, "$eq", want))
  {
    hide Clause;
    EachComparison(lib, key, want, x);
  }

  /** A document that holds exactly the value. */
  lemma ExactValue(lib: Lib, key: string, x: Json)
    requires lib.Ordered() && key in Fields(x)
    ensures var v := Fields(x)[key];
            && Matches(lib, x, Compare(key, "$eq", v))
            && Matches(lib, x, Compare(key, "$lte", v)) && Matches(lib, x, Compare(key, "$gte", v))
            && !Matches(lib, x, Compare(key, "$ne", v))
            && !Matches(lib, x, Compare(key, "$lt", v)) && !Matches(lib, x, Compare(key, "$gt", v))
  {
    hide Clause;
    EachComparison(lib, key, Fields(x)[key], x);
  }

  /** "$eq" is equality, and so is a value in the place of an operator. */
  lemma Equality(lib: Lib, key: string, want: Json, x: Json)
    ensures Matches(lib, x, Compare(key, "$eq", want)) <==> key in Fields(x) && Fields(x)[key] == want
    ensures !want.Obj? ==>
              (Matches(lib, x, Obj(map[key := want])) <==> key in Fields(x) && Fields(x)[key] == want)
    ensures want.Obj? && want.o.Keys !! Operators() ==>
              (Matches(lib, x, Obj(map[key := want])) <==> key in Fields(x) && Fields(x)[key] == want)
  {
    OneKey(lib, x, key, Obj(map["$eq" := want]));
    OneKey(lib, x, key, want);
  }

  /** Without the key only "$exists": false matches; with it, only "$exists": true. */
  lemma Existence(lib: Lib, key: string, want: Json, x: Json)
    ensures Matches(lib, x, Compare(key, "$exists", Bool(true))) <==> key in Fields(x)
    ensures Matches(lib, x, Compare(key, "$exists", Bool(false))) <==> key !in Fields(x)
    ensures key !in Fields(x) ==>
              && !Matches(lib, x, Compare(key, "$lt", want)) && !Matches(lib, x, Compare(key, "$gt", want))
              && !Matches(lib, x, Compare(key, "$eq", want)) && !Matches(lib, x, Compare(key, "$ne", want))
              && !Matches(lib, x, Compare(key, "$lte", want)) && !Matches(lib, x, Compare(key, "$gte", want))
              && ((want.Obj? ==> "$exists" !in want.o) ==> !Matches(lib, x, Obj(map[key := want])))
  {
    hide Clause;
    EachComparison(lib, key, want, x);
    OneKey(lib, x, key, Obj(map["$exists" := Bool(true)]));
    OneKey(lib, x, key, Obj(map["$exists" := Bool(false)]));
    OneKey(lib, x, key, want);
    if key !in Fields(x) && (want.Obj? ==> "$exists" !in want.o) {
      NeedsTheKey(lib, x, key, want);
    }
    ExistsClause(lib, x, key, true);
    ExistsClause(lib, x, key, false);
  }

  /** "$exists" takes numbers as flags too: those that are not zero after the cast to int. */
  lemma ExistsByNumber(lib: Lib, key: string, n: int, x: Json)
    ensures Matches(lib, x, Compare(key, "$exists", Num(Whole(n)))) <==> (key in Fields(x) <==> n != 0)
  {
    OneKey(lib, x, key, Obj(map["$exists" := Num(Whole(n))]));
  }

  lemma OneKey(lib: Lib, x: Json, key: string, want: Json)
    ensures Matches(lib, x, Obj(map[key := want])) == Clause(lib, x, key, want)
  {
    hide Clause;
    var o := map[key := want];
    assert key in o && o[key] == want;
  }

  lemma ExistsClause(lib: Lib, x: Json, key: string, b: bool)
    ensures Clause(lib, x, key, Obj(map["$exists" := Bool(b)])) <==> (b == (key in Fields(x)))
  {
  }

  lemma NeedsTheKey(lib: Lib, x: Json, key: string, want: Json)
    requires key !in Fields(x) && (want.Obj? ==> "$exists" !in want.o)
    ensures !Clause(lib, x, key, want)
  {
  }

  lemma EachComparison(lib: Lib, key: string, want: Json, x: Json)
    ensures Matches(lib, x, Compare(key, "$lt", want)) <==> key in Fields(x) && lib.less(Fields(x)[key], want)
    ensures Matches(lib, x, Compare(key, "$gt", want)) <==> key in Fields(x) && lib.less(want, Fields(x)[key])
    ensures Matches(lib, x, Compare(key, "$eq", want)) <==> key in Fields(x) && Fields(x)[key] == want
    ensures Matches(lib, x, Compare(key, "$ne", want)) <==> key in Fields(x) && Fields(x)[key] != want
    ensures Matches(lib, x, Compare(key, "$lte", want)) <==> key in Fields(x) && !lib.less(want, Fields(x)[key])
    ensures Matches(lib, x, Compare(key, "$gte", want)) <==> key in Fields(x) && !lib.less(Fields(x)[key], want)
  {
    OneKey(lib, x, key, Obj(map["$lt" := want]));
    OneKey(lib, x, key, Obj(map["$gt" := want]));
    OneKey(lib, x, key, Obj(map["$eq" := want]));
    OneKey(lib, x, key, Obj(map["$ne" := want]));
    OneKey(lib, x, key, Obj(map["$lte" := want]));
    OneKey(lib, x, key, Obj(map["$gte" := want]));
  }

  // ------------------------------------------------------------ whole selectors

  /** A selector of several keys asks for all of them. */
  lemma AllKeys(lib: Lib, x: Json, o: map<string, Json>)
    ensures Matches(lib, x, Obj(o)) <==> forall key :: key in o ==> Matches(lib, x, Obj(map[key := o[key]]))
  {
    hide Clause;
    forall key | key in o
      ensures Matches(lib, x, Obj(map[key := o[key]])) == Clause(lib, x, key, o[key])
    {
      OneKey(lib, x, key, o[key]);
    }
  }

  /** The order in which the program looks for operators; the first one that is there decides. */
  const ORDER: seq<string> := ["$exists", "$lt", "$gt", "$eq", "$ne", "$lte", "$gte"]

  function Operators(): set<string> {
    {"$exists", "$lt", "$gt", "$eq", "$ne", "$lte", "$gte"}
  }

  lemma FirstOperatorDecides(lib: Lib, x: Json, key: string, ops: map<string, Json>, i: nat)
    requires i < |ORDER| && ORDER[i] in ops && forall k :: 0 <= k < i ==> ORDER[k] !in ops
    ensures Matches(lib, x, Obj(map[key := Obj(ops)])) <==> Matches(lib, x, Compare(key, ORDER[i], ops[ORDER[i]]))
  {
    OneKey(lib, x, key, Obj(ops));
    OneKey(lib, x, key, Obj(map[ORDER[i] := ops[ORDER[i]]]));
    forall k: nat | k < i
      ensures ORDER[k] !in ops && ORDER[k] != ORDER[i]
    {
      assert ORDER[k] !in ops;
    }
    assert 0 < i ==> ORDER[0] !in ops;
    assert 1 < i ==> ORDER[1] !in ops;
    assert 2 < i ==> ORDER[2] !in ops;
    assert 3 < i ==> ORDER[3] !in ops;
    assert 4 < i ==> ORDER[4] !in ops;
    assert 5 < i ==> ORDER[5] !in ops;
  }

  /** A selector that is not an object is equal to what it picks. */
  lemma OtherSelectors(lib: Lib, x: Json, selector: Json)
    requires !selector.Obj?
    ensures Matches(lib, x, selector) <==> x == selector
  {
  }

  // -------------------------------------------------------------- whole searches

  ghost predicate Increasing(at: seq<nat>) {
    forall i, j :: 0 <= i < j < |at| ==> at[i] < at[j]
  }

  /** The documents at the given positions. */
  ghost predicate At(docs: seq<Json>, at: seq<nat>, chosen: seq<Json>) {
    && |at| == |chosen|
    && forall i :: 0 <= i < |at| ==> at[i] < |docs| && chosen[i] == docs[at[i]]
  }

  /** The chosen documents are those that match, or those that do not: each once, in order. */
  ghost predicate Chosen(lib: Lib, docs: seq<Json>, selector: Json, matching: bool, at: seq<nat>, chosen: seq<Json>) {
    && Increasing(at) && At(docs, at, chosen)
    && forall i: nat :: i in at <==> i < |docs| && Matches(lib, docs[i], selector) == matching
  }

  /** A search picks exactly the matching documents and leaves the others, both in order. */
  lemma {:induction false} SearchPicks(lib: Lib, docs: seq<Json>, selector: Json)
    returns (picked: seq<nat>, left: seq<nat>)
    ensures Chosen(lib, docs, selector, true, picked, Selected(lib, docs, selector))
    ensures Chosen(lib, docs, selector, false, left, Rest(lib, docs, selector))
    decreases |docs|
  {
    hide Matches, Chosen;
    picked, left := [], [];
    if docs == [] {
      NoneChosen(lib, selector);
    } else {
      var p, l := SearchPicks(lib, docs[1..], selector);
      picked := OneMore(lib, docs, selector, true, p, Selected(lib, docs[1..], selector));
      left := OneMore(lib, docs, selector, false, l, Rest(lib, docs[1..], selector));
    }
  }

  lemma NoneChosen(lib: Lib, selector: Json)
    ensures Chosen(lib, [], selector, true, [], []) && Chosen(lib, [], selector, false, [], [])
  {
  }

  lemma OneMore(lib: Lib, docs: seq<Json>, selector: Json, matching: bool, at: seq<nat>, chosen: seq<Json>)
    returns (more: seq<nat>)
    requires docs != [] && Chosen(lib, docs[1..], selector, matching, at, chosen)
    ensures Chosen(lib, docs, selector, matching, more,
                   (if Matches(lib, docs[0], selector) == matching then [docs[0]] else []) + chosen)
  {
    hide Matches, At, Increasing, Shifted;
    var first := Matches(lib, docs[0], selector) == matching;
    more := (if first then [0] else []) + Shifted(at);
    FirstInOrder(docs, at, chosen, first);
    forall i: nat
      ensures i in more <==> i < |docs| && Matches(lib, docs[i], selector) == matching
    {
      MoreMembers(at, first, i);
      if 0 < i < |docs| {
        assert docs[1..][i - 1] == docs[i];
      }
    }
  }

  lemma FirstInOrder(docs: seq<Json>, at: seq<nat>, chosen: seq<Json>, first: bool)
    requires docs != [] && Increasing(at) && At(docs[1..], at, chosen)
    ensures var more := (if first then [0] else []) + Shifted(at);
            Increasing(more) && At(docs, more, (if first then [docs[0]] else []) + chosen)
  {
    assert forall i :: 0 <= i < |docs| - 1 ==> docs[1..][i] == docs[i + 1];
  }

  lemma MoreMembers(at: seq<nat>, first: bool, i: nat)
    ensures i in (if first then [0] else []) + Shifted(at) <==> (i == 0 && first) || (i > 0 && i - 1 in at)
  {
    ShiftedFacts(at);
    var head: seq<nat> := if first then [0] else [];
    assert i in head + Shifted(at) <==> i in head || i in Shifted(at);
  }

  ghost function Shifted(at: seq<nat>): (r: seq<nat>)
    ensures |r| == |at| && forall i :: 0 <= i < |r| ==> r[i] == at[i] + 1
  {
    seq(|at|, i requires 0 <= i < |at| => at[i] + 1)
  }

  lemma ShiftedFacts(at: seq<nat>)
    ensures Increasing(at) ==> Increasing(Shifted(at))
    ensures forall i: nat :: i in Shifted(at) <==> i > 0 && i - 1 in at
  {
    forall i: nat
      ensures i in Shifted(at) <==> i > 0 && i - 1 in at
    {
      if i > 0 && i - 1 in at {
        var k :| 0 <= k < |at| && at[k] == i - 1;
        assert Shifted(at)[k] == i;
      }
    }
  }

  // ---------------------------------------------------------- projection and limit

  /** A projection keeps the fields it flags and no others, with their values. */
  lemma ProjectionKeeps(data: Json, proj: map<string, Json>, key: string)
    requires proj != map[]
    ensures key in Fields(Project(data, Obj(proj))) <==> key in proj && key in Fields(data) && Truthy(proj[key])
    ensures key in Fields(Project(data, Obj(proj))) ==> Fields(Project(data, Obj(proj)))[key] == Fields(data)[key]
  {
    var kept := map k | k in proj && k in Fields(data) && Truthy(proj[k]) :: Fields(data)[k];
    assert key in kept <==> key in proj && key in Fields(data) && Truthy(proj[key]);
  }

  /** Without fields to keep the result is null; without flags, or with something else, it is the document. */
  lemma EmptyProjection(data: Json, proj: Json)
    ensures !proj.Obj? || proj.o == map[] ==> Project(data, proj) == data
    ensures proj.Obj? && proj.o != map[] ==> (Project(data, proj).Null? <==> Fields(Project(data, proj)) == map[])
  {
  }

  /** Flags: booleans as they are, numbers that are not zero once cut off to an int, nothing else. */
  lemma Flags(j: Json)
    ensures Truthy(j) <==> j == Bool(true) || (j.Num? && (j.n.m >= Pow2(j.n.e) || j.n.m + Pow2(j.n.e) <= 0))
  {
    if j.Num? {
      TruncTowardZero(j.n);
      var t, p := Trunc(j.n), Pow2(j.n.e);
      if t >= 1 {
        AtLeast(t, p);
      } else if t <= -1 {
        AtLeast(-t, p);
        assert t * p == -(-t * p);
      }
    }
  }

  lemma AtLeast(t: int, p: nat)
    requires t >= 1
    ensures t * p >= p
  {
    assert t * p == p + (t - 1) * p;
  }

  /** A limit of k lets through k results or all there are; a negative one, or none, all of them. */
  lemma LimitIs(n: nat, k: int)
    ensures Limited(n, Some(Num(Whole(k)))) == if 0 <= k < n then k else n
    ensures Limited(n, None) == n
    ensures forall j: Json :: !j.Num? ==> Limited(n, Some(j)) == n
  {
  }
}
