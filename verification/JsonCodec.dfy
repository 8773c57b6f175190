/**
 A codec and an order that obey the laws asked of the JSON library: items that end in a break byte,
 as CBOR's indefinite-length items do, with numbers in unary.
 */
module JsonCodec {

  import opened Optional
  import opened Json
  import opened Query

  const BREAK: bv8 := 0xFF

  // ----------------------------------------------------------------- encoding

  function Unary(n: nat): Bytes {
    if n == 0 then [0] else [1] + Unary(n - 1)
  }

  function Signed(n: int): Bytes {
    if n >= 0 then [0] + Unary(n) else [1] + Unary(-n)
  }

  function Text(s: string): Bytes {
    if s == [] then [BREAK] else [1] + Unary(s[0] as nat) + Text(s[1..])
  }

  /** The keys of an object in some order. */
  ghost function Keys(keys: set<string>): (ks: seq<string>)
    ensures |ks| == |keys| && forall k :: k in ks <==> k in keys
  {
    if keys == {} then []
    else
      var k :| k in keys;
      [k] + Keys(keys - {k})
  }

  ghost function Encode(j: Json): (bytes: Bytes)
    ensures bytes != [] && bytes[0] != BREAK
    decreases j, 1, 0
  {
    match j
    case Null => [0xF6]
    case Bool(b) => [if b then 0xF5 else 0xF4]
    case Num(n) => [0xFB] + Signed(n.m) + Unary(n.e)
    case Str(s) => [0x7F] + Text(s)
    case Arr(a) => [0x9F] + Items(j, 0)
    case Obj(o) => [0xBF] + Pairs(j, Keys(o.Keys))
  }

  /** The elements of an array from position `i` on. */
  ghost function Items(j: Json, i: nat): Bytes
    requires j.Arr? && i <= |j.a|
    decreases j, 0, |j.a| - i
  {
    if i == |j.a| then [BREAK] else Encode(j.a[i]) + Items(j, i + 1)
  }

  /** The fields of an object under the given keys. */
  ghost function Pairs(j: Json, keys: seq<string>): Bytes
    requires j.Obj? && forall k :: k in keys ==> k in j.o
    decreases j, 0, |keys|
  {
    if keys == [] then [BREAK] else [1] + Text(keys[0]) + Encode(j.o[keys[0]]) + Pairs(j, keys[1..])
  }

  // -------------------------------------------- an encoding tells where it ends

  lemma SplitHead(x: Bytes, r: Bytes)
    requires x != []
    ensures (x + r)[0] == x[0] && (x + r)[1..] == x[1..] + r
  {
  }

  lemma {:induction false} UnaryEnds(m: nat, n: nat, r: Bytes, s: Bytes)
    requires Unary(m) + r == Unary(n) + s
    ensures m == n && r == s
  {
    SplitHead(Unary(m), r);
    SplitHead(Unary(n), s);
    if m == 0 || n == 0 {
      assert [0][1..] + r == r && [0][1..] + s == s;
    } else {
      assert Unary(m)[1..] == Unary(m - 1) && Unary(n)[1..] == Unary(n - 1);
      UnaryEnds(m - 1, n - 1, r, s);
    }
  }

  lemma SignedEnds(m: int, n: int, r: Bytes, s: Bytes)
    requires Signed(m) + r == Signed(n) + s
    ensures m == n && r == s
  {
    SplitHead(Signed(m), r);
    SplitHead(Signed(n), s);
    assert Signed(m)[1..] == Unary(if m >= 0 then m else -m);
    assert Signed(n)[1..] == Unary(if n >= 0 then n else -n);
    UnaryEnds(if m >= 0 then m else -m, if n >= 0 then n else -n, r, s);
  }

  lemma {:induction false} TextEnds(x: string, y: string, r: Bytes, s: Bytes)
    requires Text(x) + r == Text(y) + s
    ensures x == y && r == s
    decreases |x|
  {
    SplitHead(Text(x), r);
    SplitHead(Text(y), s);
    if x == [] || y == [] {
      assert x == y;
      assert [BREAK][1..] + r == r && [BREAK][1..] + s == s;
    } else {
      var x', y' := Text(x[1..]), Text(y[1..]);
      assert Text(x)[1..] == Unary(x[0] as nat) + x' && Text(y)[1..] == Unary(y[0] as nat) + y';
      assert Unary(x[0] as nat) + x' + r == Unary(x[0] as nat) + (x' + r);
      assert Unary(y[0] as nat) + y' + s == Unary(y[0] as nat) + (y' + s);
      UnaryEnds(x[0] as nat, y[0] as nat, x' + r, y' + s);
      TextEnds(x[1..], y[1..], r, s);
      assert x == [x[0]] + x[1..] && y == [y[0]] + y[1..];
    }
  }

  /** Encodings end where they end, so that no two values share one. */
  lemma {:induction false} EncodingEnds(x: Json, y: Json, r: Bytes, s: Bytes)
    requires Encode(x) + r == Encode(y) + s
    ensures x == y && r == s
    decreases x, 1, 0
  {
    var b, c := Encode(x), Encode(y);
    SplitHead(b, r);
    SplitHead(c, s);
    match x
    case Null => assert b[1..] + r == r && c[1..] + s == s;
    case Bool(_) => assert b[1..] + r == r && c[1..] + s == s;
    case Num(n) => NumberEnds(n, y.n, r, s);
    case Str(t) =>
      assert b[1..] == Text(t) && c[1..] == Text(y.s);
      TextEnds(t, y.s, r, s);
    case Arr(_) =>
      assert b[1..] == Items(x, 0) && c[1..] == Items(y, 0);
      ItemsEnd(x, y, 0, r, s);
      assert x.a == y.a;
    case Obj(_) =>
      assert b[1..] == Pairs(x, Keys(x.o.Keys)) && c[1..] == Pairs(y, Keys(y.o.Keys));
      PairsEnd(x, y, Keys(x.o.Keys), Keys(y.o.Keys), r, s);
      assert x.o == y.o;
  }

  lemma NumberEnds(m: Number, n: Number, r: Bytes, s: Bytes)
    requires Encode(Num(m)) + r == Encode(Num(n)) + s
    ensures m == n && r == s
  {
    var x, y := Unary(m.e), Unary(n.e);
    SplitHead(Encode(Num(m)), r);
    SplitHead(Encode(Num(n)), s);
    assert Encode(Num(m))[1..] + r == Signed(m.m) + (x + r);
    assert Encode(Num(n))[1..] + s == Signed(n.m) + (y + s);
    SignedEnds(m.m, n.m, x + r, y + s);
    UnaryEnds(m.e, n.e, r, s);
  }

  lemma Regroup(a: Bytes, b: Bytes, c: Bytes)
    ensures a + b + c == a + (b + c)
  {
  }

  /** The break, or the first element and the rest. */
  lemma ItemsAt(x: Json, i: nat, r: Bytes)
    requires x.Arr? && i <= |x.a|
    ensures i == |x.a| ==> Items(x, i) + r == [BREAK] + r
    ensures i < |x.a| ==> Items(x, i) + r == Encode(x.a[i]) + (Items(x, i + 1) + r) && (Items(x, i) + r)[0] != BREAK
  {
    hide Encode;
    if i < |x.a| {
      Regroup(Encode(x.a[i]), Items(x, i + 1), r);
      SplitHead(Encode(x.a[i]), Items(x, i + 1) + r);
    }
  }

  lemma {:induction false} ItemsEnd(x: Json, y: Json, i: nat, r: Bytes, s: Bytes)
    requires x.Arr? && y.Arr? && i <= |x.a| && i <= |y.a|
    requires Items(x, i) + r == Items(y, i) + s
    ensures |x.a| == |y.a| && r == s
    ensures forall k :: i <= k < |x.a| ==> x.a[k] == y.a[k]
    decreases x, 0, |x.a| - i
  {
    hide Encode, Items;
    ItemsAt(x, i, r);
    ItemsAt(y, i, s);
    SplitHead([BREAK], r);
    SplitHead([BREAK], s);
    if i < |x.a| && i < |y.a| {
      EncodingEnds(x.a[i], y.a[i], Items(x, i + 1) + r, Items(y, i + 1) + s);
      ItemsEnd(x, y, i + 1, r, s);
    }
  }

  /** The break, or the first field and the rest. */
  lemma PairsAt(x: Json, keys: seq<string>, r: Bytes)
    requires x.Obj? && forall k :: k in keys ==> k in x.o
    ensures Pairs(x, keys) != [] && ((Pairs(x, keys) + r)[0] == BREAK <==> keys == [])
    ensures keys == [] ==> Pairs(x, keys) + r == [BREAK] + r
    ensures keys != [] ==>
              Pairs(x, keys) + r == [1] + (Text(keys[0]) + (Encode(x.o[keys[0]]) + (Pairs(x, keys[1..]) + r)))
  {
    hide Encode, Text;
    if keys != [] {
      var t, e, p := Text(keys[0]), Encode(x.o[keys[0]]), Pairs(x, keys[1..]);
      Regroup([1], t, e);
      Regroup([1], t + e, p);
      Regroup([1], t + e + p, r);
      Regroup(t + e, p, r);
      Regroup(t, e, p + r);
    }
  }

  lemma {:induction false} PairsEnd(x: Json, y: Json, keys: seq<string>, others: seq<string>, r: Bytes, s: Bytes)
    requires x.Obj? && y.Obj? && (forall k :: k in keys ==> k in x.o) && (forall k :: k in others ==> k in y.o)
    requires Pairs(x, keys) + r == Pairs(y, others) + s
    ensures keys == others && r == s
    ensures forall k :: k in keys ==> x.o[k] == y.o[k]
    decreases x, 0, |keys|, 1
  {
    hide Encode, Pairs, Text;
    PairsAt(x, keys, r);
    PairsAt(y, others, s);
    assert [BREAK][1..] + r == r && [BREAK][1..] + s == s;
    SplitHead([BREAK], r);
    SplitHead([BREAK], s);
    if keys != [] && others != [] {
      FirstPair(x, y, keys, others, r, s);
    }
  }

  lemma {:induction false} FirstPair(x: Json, y: Json, keys: seq<string>, others: seq<string>, r: Bytes, s: Bytes)
    requires x.Obj? && y.Obj? && (forall k :: k in keys ==> k in x.o) && (forall k :: k in others ==> k in y.o)
    requires keys != [] && others != [] && Pairs(x, keys) + r == Pairs(y, others) + s
    ensures keys == others && r == s
    ensures forall k :: k in keys ==> x.o[k] == y.o[k]
    decreases x, 0, |keys|, 0
  {
    hide Encode, Pairs, Text;
    var k, l := keys[0], others[0];
    var x', y' := Pairs(x, keys[1..]) + r, Pairs(y, others[1..]) + s;
    PairsAt(x, keys, r);
    PairsAt(y, others, s);
    SplitHead([1], Text(k) + (Encode(x.o[k]) + x'));
    SplitHead([1], Text(l) + (Encode(y.o[l]) + y'));
    assert [1][1..] == [];
    assert [] + (Text(k) + (Encode(x.o[k]) + x')) == Text(k) + (Encode(x.o[k]) + x');
    assert [] + (Text(l) + (Encode(y.o[l]) + y')) == Text(l) + (Encode(y.o[l]) + y');
    TextEnds(k, l, Encode(x.o[k]) + x', Encode(y.o[l]) + y');
    EncodingEnds(x.o[k], y.o[l], x', y');
    PairsEnd(x, y, keys[1..], others[1..], r, s);
    assert keys == [k] + keys[1..] && others == [l] + others[1..];
  }

  // ------------------------------------------------------------------ lengths

  lemma {:induction false} UnaryLength(n: nat)
    ensures |Unary(n)| == n + 1
  {
    if n > 0 {
      UnaryLength(n - 1);
    }
  }

  lemma {:induction false} TextLength(s: string)
    ensures |Text(s)| <= 1 + |s| * 0x110001
  {
    if s != [] {
      UnaryLength(s[0] as nat);
      TextLength(s[1..]);
    }
  }

  lemma WholeLength(n: nat)
    ensures |Encode(Num(Whole(n)))| == n + 4
  {
    UnaryLength(n);
    UnaryLength(0);
  }

  /** A null takes one byte. */
  lemma {:induction false} NullsLength(j: Json, n: nat, i: nat)
    requires j.Arr? && i <= n <= |j.a| && forall k :: 0 <= k < n ==> j.a[k] == Null
    ensures |Items(j, i)| == n - i + |Items(j, n)|
    decreases n - i
  {
    if i < n {
      assert Items(j, i) == Encode(Null) + Items(j, i + 1);
      NullsLength(j, n, i + 1);
    }
  }

  lemma {:induction false} PairsLength(j: Json, keys: seq<string>, k: string, most: nat)
    requires j.Obj? && k in keys && forall l :: l in keys ==> l in j.o
    requires forall l :: l in keys ==> 1 + |Text(l)| + |Encode(j.o[l])| <= most
    ensures 1 + |Text(k)| + |Encode(j.o[k])| < |Pairs(j, keys)| <= 1 + |keys| * most
    decreases |keys|
  {
    hide Encode, Text;
    var rest := keys[1..];
    assert Pairs(j, keys) == [1] + Text(keys[0]) + Encode(j.o[keys[0]]) + Pairs(j, rest);
    PairsNotEmpty(j, rest);
    assert |keys| * most == most + |rest| * most;
    if rest != [] {
      var l := if k in rest then k else rest[0];
      PairsLength(j, rest, l, most);
    }
  }

  lemma PairsNotEmpty(j: Json, keys: seq<string>)
    requires j.Obj? && forall k :: k in keys ==> k in j.o
    ensures |Pairs(j, keys)| >= 1
    ensures keys == [] ==> |Pairs(j, keys)| == 1
  {
  }

  // ------------------------------------------------------------------ library

  ghost function Decode(bytes: Bytes): Option<Json> {
    if exists j :: Encode(j) == bytes then
      var j :| Encode(j) == bytes;
      Some(j)
    else None
  }

  lemma {:induction false} DecodeInverts(j: Json)
    ensures Decode(Encode(j)) == Some(j)
  {
    var k := Decode(Encode(j)).value;
    assert Encode(k) == Encode(j);
    EncodingEnds(k, j, [], []);
  }

  /** Values compared by the lengths of their encodings. */
  ghost predicate Shorter(x: Json, y: Json) {
    |Encode(x)| < |Encode(y)|
  }

  ghost function Library(): Lib {
    Lib(j => Encode(j), bytes => Decode(bytes), (x, y) => Shorter(x, y))
  }

  /** What is asked of the library can be met. */
  lemma SomeLibIsValid()
    ensures Library().Valid() && Library().Ordered()
    ensures exists lib: Lib :: lib.Valid() && lib.Ordered()
  {
    var lib := Library();
    forall j ensures lib.decode(lib.encode(j)) == Some(j) {
      DecodeInverts(j);
    }
  }
}
