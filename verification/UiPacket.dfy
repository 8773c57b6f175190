/**
 The columnar packet in which a running script's UI elements are sent to the client: a sorted
 table of the element types, one table index per element, one argument count per table entry,
 and all arguments in one flat list.
 */
module UiPacket {

  import opened Optional

  datatype Element<A> = Element(kind: string, elementId: string, args: seq<A>)

  // The part of an element that travels in the packet.
  datatype Row<A> = Row(kind: string, args: seq<A>)

  datatype Packet<A> = Packet(types: seq<nat>, typeidx: seq<string>, typeargc: seq<nat>, arguments: seq<A>)

  // ----- The sorted table of type names -----

  // Byte-wise lexicographic order, the order of a set of strings.
  predicate StrLess(a: string, b: string) {
    b != [] && (a == [] || a[0] < b[0] || (a[0] == b[0] && StrLess(a[1..], b[1..])))
  }

  ghost predicate Sorted(names: seq<string>) {
    forall i, j :: 0 <= i < j < |names| ==> StrLess(names[i], names[j])
  }

  lemma {:induction false} StrLessIsTransitive(a: string, b: string, c: string)
    requires StrLess(a, b) && StrLess(b, c)
    ensures StrLess(a, c)
  {
    if a != [] && a[0] == b[0] == c[0] {
      StrLessIsTransitive(a[1..], b[1..], c[1..]);
    }
  }

  lemma {:induction false} StrLessIsTotal(a: string, b: string)
    ensures StrLess(a, b) || StrLess(b, a) || a == b
    ensures !(StrLess(a, b) && StrLess(b, a)) && !StrLess(a, a)
  {
    if a != [] && b != [] && a[0] == b[0] {
      StrLessIsTotal(a[1..], b[1..]);
      assert a == [a[0]] + a[1..] && b == [b[0]] + b[1..];
    }
    if a != [] {
      StrLessIsTotal(a[1..], a[1..]);
    }
  }

  // Inserting a name into the ordered set of names.
  function Insert(names: seq<string>, name: string): (r: seq<string>)
    ensures forall s :: s in r <==> s in names || s == name
  {
    if names == [] then [name]
    else if names[0] == name then names
    else if StrLess(name, names[0]) then [name] + names
    else [names[0]] + Insert(names[1..], name)
  }

  lemma {:induction false} InsertKeepsOrder(names: seq<string>, name: string)
    requires Sorted(names)
    ensures Sorted(Insert(names, name))
  {
    if names != [] && names[0] != name {
      StrLessIsTotal(name, names[0]);
      if StrLess(name, names[0]) {
        forall j | 0 < j < |names| ensures StrLess(name, names[j]) {
          StrLessIsTransitive(name, names[0], names[j]);
        }
      } else {
        InsertKeepsOrder(names[1..], name);
        var rest := Insert(names[1..], name);
        forall j | 0 <= j < |rest| ensures StrLess(names[0], rest[j]) {
          assert rest[j] in rest;
        }
      }
    }
  }

  // Two ordered tables of the same names are the same table.
  lemma {:induction false} SortedTablesAgree(a: seq<string>, b: seq<string>)
    requires Sorted(a) && Sorted(b)
    requires forall s :: s in a <==> s in b
    ensures a == b
  {
    if a == [] {
      assert forall i :: 0 <= i < |b| ==> b[i] in b;
    } else {
      assert a[0] in b && b[0] in a;
      HeadIsLeast(a, b[0]);
      HeadIsLeast(b, a[0]);
      StrLessIsTotal(a[0], b[0]);
      forall s ensures s in a[1..] <==> s in b[1..] {
        TailWithoutHead(a, s);
        TailWithoutHead(b, s);
      }
      SortedTablesAgree(a[1..], b[1..]);
      assert a == [a[0]] + a[1..] && b == [b[0]] + b[1..];
    }
  }

  lemma HeadIsLeast(a: seq<string>, s: string)
    requires Sorted(a) && s in a
    ensures s == a[0] || StrLess(a[0], s)
  {
    var i :| 0 <= i < |a| && a[i] == s;
  }

  lemma TailWithoutHead(a: seq<string>, s: string)
    requires Sorted(a) && a != []
    ensures s in a[1..] <==> s in a && s != a[0]
  {
    StrLessIsTotal(a[0], a[0]);
    if s in a && s != a[0] {
      var i :| 0 <= i < |a| && a[i] == s;
      assert a[1..][i - 1] == s;
    }
    if s in a[1..] {
      var i :| 0 <= i < |a[1..]| && a[1..][i] == s;
      assert StrLess(a[0], a[i + 1]);
    }
  }

  // ----- What the packet of a list of elements is -----

  function Flatten<A>(elements: seq<Element<A>>): seq<A> {
    if elements == [] then [] else Flatten(elements[..|elements| - 1]) + elements[|elements| - 1].args
  }

  ghost predicate Uses<A>(elements: seq<Element<A>>, kind: string) {
    exists i :: 0 <= i < |elements| && elements[i].kind == kind
  }

  // The argument count of the last element of a type; a count starts at zero.
  function LastCount<A>(elements: seq<Element<A>>, kind: string): nat {
    if elements == [] then 0
    else if elements[|elements| - 1].kind == kind then |elements[|elements| - 1].args|
    else LastCount(elements[..|elements| - 1], kind)
  }

  ghost predicate Table<A>(names: seq<string>, elements: seq<Element<A>>) {
    Sorted(names) && forall s :: s in names <==> Uses(elements, s)
  }

  ghost predicate Indexed<A>(types: seq<nat>, names: seq<string>, elements: seq<Element<A>>) {
    && |types| == |elements|
    && forall i :: 0 <= i < |types| ==> types[i] < |names| && names[types[i]] == elements[i].kind
  }

  ghost predicate Counted<A>(counts: seq<nat>, names: seq<string>, elements: seq<Element<A>>) {
    && |counts| == |names|
    && forall j :: 0 <= j < |names| ==> counts[j] == LastCount(elements, names[j])
  }

  ghost predicate Encodes<A>(p: Packet<A>, elements: seq<Element<A>>) {
    && Table(p.typeidx, elements)
    && Indexed(p.types, p.typeidx, elements)
    && Counted(p.typeargc, p.typeidx, elements)
    && p.arguments == Flatten(elements)
  }

  // The description leaves no freedom: a list of elements has one packet.
  lemma {:induction false} OnePacket<A>(p: Packet<A>, q: Packet<A>, elements: seq<Element<A>>)
    requires Encodes(p, elements) && Encodes(q, elements)
    ensures p == q
  {
    SortedTablesAgree(p.typeidx, q.typeidx);
    forall i | 0 <= i < |p.types| ensures p.types[i] == q.types[i] {
      NoNameTwice(p.typeidx, p.types[i], q.types[i]);
    }
  }

  lemma NoNameTwice(names: seq<string>, i: nat, j: nat)
    requires Sorted(names) && i < |names| && j < |names| && names[i] == names[j]
    ensures i == j
  {
    StrLessIsTotal(names[i], names[j]);
  }

  // ----- The encoder -----

  method CollectTypes<A>(elements: seq<Element<A>>) returns (names: seq<string>)
    ensures Table(names, elements)
  {
    names := [];
    for i := 0 to |elements|
      invariant Table(names, elements[..i])
    {
      InsertKeepsOrder(names, elements[i].kind);
      UsesNext(elements, i);
      names := Insert(names, elements[i].kind);
    }
    assert elements[..|elements|] == elements;
  }

  lemma UsesNext<A>(elements: seq<Element<A>>, i: nat)
    requires i < |elements|
    ensures forall s :: Uses(elements[..i + 1], s) <==> Uses(elements[..i], s) || s == elements[i].kind
  {
    forall s ensures Uses(elements[..i + 1], s) <==> Uses(elements[..i], s) || s == elements[i].kind {
      if s == elements[i].kind {
        assert elements[..i + 1][i].kind == s;
      } else {
        forall k | 0 <= k < i ensures elements[..i][k] == elements[..i + 1][k] {
        }
      }
    }
  }

  // The place of a name in the table.
  method FindType(names: seq<string>, kind: string) returns (at: nat)
    requires kind in names
    ensures at < |names| && names[at] == kind
  {
    at := 0;
    while names[at] != kind
      invariant at < |names| && kind in names[at..]
      decreases |names| - at
    {
      at := at + 1;
    }
  }

  method EncodePacket<A>(elements: seq<Element<A>>) returns (p: Packet<A>)
    ensures Encodes(p, elements)
  {
    hide StrLess;
    var names := CollectTypes(elements);
    var counts: seq<nat> := seq(|names|, _ => 0);
    var types: seq<nat> := [];
    var arguments: seq<A> := [];
    for i := 0 to |elements|
      invariant Indexed(types, names, elements[..i])
      invariant Counted(counts, names, elements[..i])
      invariant arguments == Flatten(elements[..i])
    {
      var e := elements[i];
      assert Uses(elements, e.kind);
      var idx := FindType(names, e.kind);
      CountNext(counts, names, elements, i, idx);
      types := types + [idx];
      counts := counts[idx := |e.args|];
      arguments := arguments + e.args;
      assert elements[..i + 1][..i] == elements[..i];
    }
    assert elements[..|elements|] == elements;
    p := Packet(types, names, counts, arguments);
  }

  lemma CountNext<A>(counts: seq<nat>, names: seq<string>, elements: seq<Element<A>>, i: nat, idx: nat)
    requires i < |elements| && idx < |names| && names[idx] == elements[i].kind
    requires Sorted(names)
    requires Counted(counts, names, elements[..i])
    ensures Counted(counts[idx := |elements[i].args|], names, elements[..i + 1])
  {
    var upTo := elements[..i + 1];
    assert upTo[..i] == elements[..i];
    forall j | 0 <= j < |names|
      ensures counts[idx := |elements[i].args|][j] == LastCount(upTo, names[j])
    {
      if j != idx && names[j] == names[idx] {
        NoNameTwice(names, j, idx);
      }
    }
  }

  // ----- A decoder that reads only the four fields -----

  function Rows<A>(elements: seq<Element<A>>): (r: seq<Row<A>>)
    ensures |r| == |elements|
    ensures forall i :: 0 <= i < |r| ==> r[i] == Row(elements[i].kind, elements[i].args)
  {
    if elements == [] then []
    else [Row(elements[0].kind, elements[0].args)] + Rows(elements[1..])
  }

  // Decodes the elements from number i on, their arguments starting at `at`.
  function DecodeFrom<A>(p: Packet<A>, i: nat, at: nat): Option<seq<Row<A>>>
    decreases |p.types| - i
  {
    if i >= |p.types| then Some([])
    else
      var k := p.types[i];
      if k >= |p.typeidx| || k >= |p.typeargc| || at + p.typeargc[k] > |p.arguments| then None
      else
        var rest := DecodeFrom(p, i + 1, at + p.typeargc[k]);
        if rest.None? then None
        else Some([Row(p.typeidx[k], p.arguments[at..at + p.typeargc[k]])] + rest.value)
  }

  function Decode<A>(p: Packet<A>): Option<seq<Row<A>>> {
    DecodeFrom(p, 0, 0)
  }

  // Elements of one type all carry the same number of arguments.
  ghost predicate FixedArity<A>(elements: seq<Element<A>>) {
    forall i, j :: 0 <= i < |elements| && 0 <= j < |elements| && elements[i].kind == elements[j].kind
      ==> |elements[i].args| == |elements[j].args|
  }

  ghost predicate FitsFrom<A>(p: Packet<A>, elements: seq<Element<A>>, from: nat)
    requires Encodes(p, elements)
  {
    forall i :: from <= i < |elements| ==> |elements[i].args| == p.typeargc[p.types[i]]
  }

  lemma {:induction false} LastCountIsSomeones<A>(elements: seq<Element<A>>, kind: string)
    requires Uses(elements, kind)
    ensures exists j :: 0 <= j < |elements| && elements[j].kind == kind && |elements[j].args| == LastCount(elements, kind)
  {
    var n := |elements| - 1;
    if elements[n].kind != kind {
      var i :| 0 <= i < |elements| && elements[i].kind == kind;
      assert elements[..n][i].kind == kind;
      LastCountIsSomeones(elements[..n], kind);
      var j :| 0 <= j < n && elements[..n][j].kind == kind && |elements[..n][j].args| == LastCount(elements[..n], kind);
      assert elements[j].kind == kind;
    }
  }

  lemma FitsIsFixedArity<A>(p: Packet<A>, elements: seq<Element<A>>)
    requires Encodes(p, elements)
    ensures FitsFrom(p, elements, 0) <==> FixedArity(elements)
  {
    hide StrLess, Sorted;
    if FixedArity(elements) {
      forall i | 0 <= i < |elements| ensures |elements[i].args| == p.typeargc[p.types[i]] {
        assert Uses(elements, elements[i].kind);
        LastCountIsSomeones(elements, elements[i].kind);
      }
    }
    if FitsFrom(p, elements, 0) {
      forall i, j | 0 <= i < |elements| && 0 <= j < |elements| && elements[i].kind == elements[j].kind
        ensures |elements[i].args| == |elements[j].args|
      {
        assert p.typeargc[p.types[i]] == LastCount(elements, elements[i].kind);
        assert p.typeargc[p.types[j]] == LastCount(elements, elements[j].kind);
      }
    }
  }

  lemma {:induction false} FlattenAround<A>(elements: seq<Element<A>>, i: nat)
    requires i < |elements|
    ensures Flatten(elements[..i + 1]) == Flatten(elements[..i]) + elements[i].args
    ensures Flatten(elements[..i + 1]) <= Flatten(elements)
    decreases |elements|
  {
    assert elements[..i + 1][..i] == elements[..i];
    var n := |elements| - 1;
    if i < n {
      FlattenAround(elements[..n], i);
      assert elements[..n][..i + 1] == elements[..i + 1] && elements[..n][..i] == elements[..i];
    } else {
      assert elements[..i + 1] == elements;
    }
  }

  lemma {:induction false} DecodesFrom<A>(p: Packet<A>, elements: seq<Element<A>>, i: nat)
    requires Encodes(p, elements) && i <= |elements|
    ensures DecodeFrom(p, i, |Flatten(elements[..i])|) == Some(Rows(elements)[i..]) <==> FitsFrom(p, elements, i)
    decreases |elements| - i
  {
    hide StrLess, Sorted, LastCount, Flatten, Rows;
    if i == |elements| {
      assert Rows(elements)[i..] == [];
    } else {
      FlattenAround(elements, i);
      var at := |Flatten(elements[..i])|;
      var count := p.typeargc[p.types[i]];
      var row := Rows(elements)[i];
      var rest := Rows(elements)[i + 1..];
      assert Rows(elements)[i..] == [row] + rest;
      assert elements[i].args == p.arguments[at..at + |elements[i].args|];
      if count == |elements[i].args| {
        DecodesFrom(p, elements, i + 1);
        assert at + count == |Flatten(elements[..i + 1])|;
        var decoded := DecodeFrom(p, i + 1, at + count);
        SomeCons(row, decoded, rest);
        assert decoded.Some? ==> DecodeFrom(p, i, at) == Some([row] + decoded.value);
        assert FitsFrom(p, elements, i) <==> FitsFrom(p, elements, i + 1);
      } else {
        assert !FitsFrom(p, elements, i);
        if DecodeFrom(p, i, at).Some? {
          FirstRowCount(p, i, at);
          assert |([row] + rest)[0].args| == |elements[i].args|;
        }
      }
    }
  }

  // The first row decoded has the count of its type.
  lemma FirstRowCount<A>(p: Packet<A>, i: nat, at: nat)
    requires i < |p.types| && p.types[i] < |p.typeargc| && DecodeFrom(p, i, at).Some?
    ensures DecodeFrom(p, i, at).value != []
    ensures |DecodeFrom(p, i, at).value[0].args| == p.typeargc[p.types[i]]
  {
  }

  lemma SomeCons<T>(head: T, decoded: Option<seq<T>>, rest: seq<T>)
    ensures decoded.Some? ==> ([head] + decoded.value == [head] + rest <==> decoded.value == rest)
  {
    if decoded.Some? {
      assert ([head] + decoded.value)[1..] == decoded.value && ([head] + rest)[1..] == rest;
    }
  }

  /**
   The packet is lossless exactly when each type has one arity: the decoder then rebuilds the
   types and argument lists in order, and otherwise it does not.
   */
  lemma DecodesExactly<A>(p: Packet<A>, elements: seq<Element<A>>)
    requires Encodes(p, elements)
    ensures Decode(p) == Some(Rows(elements)) <==> FixedArity(elements)
  {
    hide StrLess, Sorted;
    DecodesFrom(p, elements, 0);
    FitsIsFixedArity(p, elements);
  }

  // Without one arity per type no decoder can do it: these two lists have the same packet.
  lemma MixedAritiesCollide(p: Packet<nat>, q: Packet<nat>)
    requires Encodes(p, [Element("t", "", [1]), Element("t", "", [2, 3]), Element("t", "", [])])
    requires Encodes(q, [Element("t", "", [1, 2]), Element("t", "", [3]), Element("t", "", [])])
    ensures p == q
  {
    var a: seq<Element<nat>> := [Element("t", "", [1]), Element("t", "", [2, 3]), Element("t", "", [])];
    var b: seq<Element<nat>> := [Element("t", "", [1, 2]), Element("t", "", [3]), Element("t", "", [])];
    FlattenThree(a);
    FlattenThree(b);
    assert a[2].kind == b[2].kind == "t";
    forall s ensures Uses(a, s) <==> s == "t" {
    }
    forall s ensures Uses(b, s) <==> s == "t" {
    }
    forall j | 0 <= j < |q.typeidx| ensures q.typeidx[j] == "t" {
      assert q.typeidx[j] in q.typeidx;
    }
    assert Flatten(a) == [1, 2, 3] == Flatten(b);
    OnePacket(p, q, a);
  }

  lemma FlattenThree<A>(a: seq<Element<A>>)
    requires |a| == 3
    ensures Flatten(a) == a[0].args + a[1].args + a[2].args
  {
    assert a[..2][..1] == [a[0]];
    assert Flatten([a[0]]) == a[0].args;
    assert Flatten(a[..2]) == a[0].args + a[1].args;
  }
}
