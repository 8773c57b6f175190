/**
 JSON documents, and reading and writing them along a path of keys.

 A path step on an array reads the key as a number, on an object it is the key, and a null
 turns into an object; a missing key or a short array is filled with nulls on the way.
 */
module Json {

  import opened Optional

  /** The number m / 2^e. */
  datatype Fraction = Fraction(m: int, e: nat)

  /** A number in lowest terms, which is what doubles and integers are: equal numbers are the same value. */
  type Number = f: Fraction | f.e > 0 ==> f.m % 2 == 1 witness Fraction(0, 0)

  function Whole(n: int): Number {
    Fraction(n, 0)
  }

  datatype Json =
    | Null
    | Bool(b: bool)
    | Num(n: Number)
    | Str(s: string)
    | Arr(a: seq<Json>)
    | Obj(o: map<string, Json>)

  type Path = seq<string>

  // ------------------------------------------------------------------ numbers

  const INT_MAX := 0x7FFF_FFFF

  predicate Digit(c: char) { '0' <= c <= '9' }

  predicate Space(c: char) { c == ' ' || '\t' <= c <= '\r' }

  /** The value of the leading digits of `s`, after `seen`. */
  function Digits(s: string, seen: nat): nat {
    if s == [] || !Digit(s[0]) then seen else Digits(s[1..], 10 * seen + (s[0] as int - '0' as int))
  }

  /** std::stoi: leading blanks and a sign, then digits, then anything; None stands for its exceptions. */
  function Stoi(s: string): Option<int> {
    if s != [] && Space(s[0]) then Stoi(s[1..])
    else
      var signed := s != [] && (s[0] == '+' || s[0] == '-');
      var digits := if signed then s[1..] else s;
      if digits == [] || !Digit(digits[0]) then None
      else
        var n: int := Digits(digits, 0);
        var value := if signed && s[0] == '-' then -n else n;
        if -INT_MAX - 1 <= value <= INT_MAX then Some(value) else None
  }

  /** Digits only, and at least one: what a root key must be. */
  predicate IsNumber(s: string) {
    s != [] && forall i :: 0 <= i < |s| ==> Digit(s[i])
  }

  /** An array position a key can name. */
  function Index(key: string): Option<nat> {
    match Stoi(key)
    case Some(i) => if i >= 0 then Some(i) else None
    case None => None
  }

  /** A number written out. */
  function Decimal(n: nat): (digits: string)
    ensures IsNumber(digits)
  {
    if n < 10 then [('0' as int + n) as char] else Decimal(n / 10) + [('0' as int + n % 10) as char]
  }

  lemma {:induction false} DigitsSnoc(s: string, c: char, seen: nat)
    requires Digit(c) && forall i :: 0 <= i < |s| ==> Digit(s[i])
    ensures Digits(s + [c], seen) == 10 * Digits(s, seen) + (c as int - '0' as int)
    decreases |s|
  {
    var more := s + [c];
    if s == [] {
      assert more == [c] && more[1..] == [];
    } else {
      assert more[1..] == s[1..] + [c];
      DigitsSnoc(s[1..], c, 10 * seen + (s[0] as int - '0' as int));
    }
  }

  lemma {:induction false} DigitsOfDecimal(n: nat)
    ensures Digits(Decimal(n), 0) == n
  {
    if n < 10 {
      assert Decimal(n)[1..] == "";
    } else {
      DigitsOfDecimal(n / 10);
      DigitsSnoc(Decimal(n / 10), ('0' as int + n % 10) as char, 0);
    }
  }

  /** A key written as a number names that position, if it fits an int. */
  lemma IndexOfDecimal(n: nat)
    ensures Index(Decimal(n)) == if n <= INT_MAX then Some(n) else None
  {
    hide Digits, Decimal;
    DigitsOfDecimal(n);
    assert Digit(Decimal(n)[0]);
  }

  // -------------------------------------------------------------------- steps

  /** The value one key below `j`, null where there is none yet; None is the library's exception. */
  function Child(j: Json, key: string): Option<Json> {
    match j
    case Arr(a) =>
      (match Index(key)
       case Some(i) => Some(if i < |a| then a[i] else Null)
       case None => None)
    case Obj(o) => Some(if key in o then o[key] else Null)
    case Null => Some(Null)
    case _ => None
  }

  function Nulls(n: nat): (a: seq<Json>)
    ensures |a| == n && forall i :: 0 <= i < n ==> a[i] == Null
  {
    seq(n, _ => Null)
  }

  /** `j` with the value one key below it replaced, filled up as far as that needs. */
  function Put(j: Json, key: string, v: Json): Json
    requires Child(j, key).Some?
  {
    match j
    case Arr(a) =>
      var i := Index(key).value;
      Arr(if i < |a| then a[i := v] else a + Nulls(i - |a|) + [v])
    case Obj(o) => Obj(o[key := v])
    case _ => Obj(map[key := v])
  }

  /** Reading along a path. */
  function GetAt(j: Json, path: Path): Option<Json>
    decreases |path|
  {
    if path == [] then Some(j)
    else
      match Child(j, path[0])
      case Some(c) => GetAt(c, path[1..])
      case None => None
  }

  /** Writing along a path. */
  function SetAt(j: Json, path: Path, v: Json): Option<Json>
    decreases |path|
  {
    if path == [] then Some(v)
    else
      match Child(j, path[0])
      case Some(c) =>
        (match SetAt(c, path[1..], v)
         case Some(sub) => Some(Put(j, path[0], sub))
         case None => None)
      case None => None
  }

  /** Two keys name the same child of `j`. */
  predicate SameKey(j: Json, key: string, other: string) {
    if j.Arr? then Index(key) == Index(other) else key == other
  }

  /** At some step both paths are still at the same place in `j` and take different ways. */
  predicate Diverges(j: Json, p: Path, q: Path)
    decreases |p|
  {
    && p != [] && q != []
    && (SameKey(j, p[0], q[0]) ==> Child(j, p[0]).Some? && Diverges(Child(j, p[0]).value, p[1..], q[1..]))
  }

  /** One key reads a field, or the element it numbers; what is missing reads as null. */
  lemma ReadOneKey(j: Json, key: string, n: nat)
    ensures j.Obj? ==> GetAt(j, [key]) == Some(if key in j.o then j.o[key] else Null)
    ensures j.Arr? && n <= INT_MAX ==> GetAt(j, [Decimal(n)]) == Some(if n < |j.a| then j.a[n] else Null)
    ensures j.Null? ==> GetAt(j, [key]) == Some(Null)
    ensures j.Bool? || j.Num? || j.Str? ==> GetAt(j, [key]) == None
  {
    hide Index, Decimal;
    IndexOfDecimal(n);
    assert [key][1..] == [] && [Decimal(n)][1..] == [];
  }

  // --------------------------------------------------------------------- laws

  lemma ChildOfPut(j: Json, key: string, v: Json)
    requires Child(j, key).Some?
    ensures Child(Put(j, key, v), key) == Some(v)
  {
  }

  lemma OtherChildOfPut(j: Json, key: string, v: Json, other: string)
    requires Child(j, key).Some?
    requires !SameKey(j, key, other)
    ensures Child(Put(j, key, v), other) == Child(j, other)
  {
  }

  /** What was written is what is read. */
  lemma {:induction false} GetAfterSet(j: Json, path: Path, v: Json)
    requires SetAt(j, path, v).Some?
    ensures GetAt(SetAt(j, path, v).value, path) == Some(v)
    decreases |path|
  {
    if path != [] {
      var c := Child(j, path[0]).value;
      ChildOfPut(j, path[0], SetAt(c, path[1..], v).value);
      GetAfterSet(c, path[1..], v);
    }
  }

  lemma PutPut(j: Json, key: string, v: Json, w: Json)
    requires Child(j, key).Some?
    ensures Child(Put(j, key, v), key).Some? && Put(Put(j, key, v), key, w) == Put(j, key, w)
  {
    if j.Arr? && Index(key).value >= |j.a| {
      var i := Index(key).value;
      assert (j.a + Nulls(i - |j.a|) + [v])[i := w] == j.a + Nulls(i - |j.a|) + [w];
    }
  }

  /** A later write at the same path wins, and always goes through. */
  lemma {:induction false} SetAfterSet(j: Json, path: Path, v: Json, w: Json)
    requires SetAt(j, path, v).Some?
    ensures SetAt(SetAt(j, path, v).value, path, w).Some?
    ensures SetAt(SetAt(j, path, v).value, path, w) == SetAt(j, path, w)
    decreases |path|
  {
    if path != [] {
      var c := Child(j, path[0]).value;
      var sub := SetAt(c, path[1..], v).value;
      ChildOfPut(j, path[0], sub);
      SetAfterSet(c, path[1..], v, w);
      PutPut(j, path[0], sub, SetAt(c, path[1..], w).value);
    }
  }

  /** A path that diverges from the written one reads as before, fillings and all. */
  lemma {:induction false} OtherAfterSet(j: Json, path: Path, v: Json, q: Path)
    requires SetAt(j, path, v).Some? && Diverges(j, path, q)
    ensures GetAt(SetAt(j, path, v).value, q) == GetAt(j, q)
    decreases |path|
  {
    var c := Child(j, path[0]).value;
    var sub := SetAt(c, path[1..], v).value;
    if SameKey(j, path[0], q[0]) {
      ChildOfPut(j, path[0], sub);
      OtherAfterSet(c, path[1..], v, q[1..]);
      SameStep(Put(j, path[0], sub), path[0], q[0]);
      SameStep(j, path[0], q[0]);
    } else {
      OtherChildOfPut(j, path[0], sub, q[0]);
    }
  }

  lemma SameStep(j: Json, key: string, other: string)
    requires SameKey(j, key, other)
    ensures Child(j, key) == Child(j, other)
  {
  }

  /** Writing back what a path reads changes no reading, though it may fill in nulls. */
  lemma {:induction false} SetOfGet(j: Json, path: Path, q: Path)
    requires GetAt(j, path).Some?
    ensures SetAt(j, path, GetAt(j, path).value).Some?
    ensures q != [] && |q| >= |path| ==> GetAt(SetAt(j, path, GetAt(j, path).value).value, q) == GetAt(j, q)
    decreases |path|
  {
    if path != [] {
      var c, v := Child(j, path[0]).value, GetAt(j, path).value;
      SetOfGet(c, path[1..], if q == [] then [] else q[1..]);
      var sub := SetAt(c, path[1..], v).value;
      if q != [] {
        if SameKey(j, path[0], q[0]) {
          ChildOfPut(j, path[0], sub);
          SameStep(Put(j, path[0], sub), path[0], q[0]);
          SameStep(j, path[0], q[0]);
        } else {
          OtherChildOfPut(j, path[0], sub, q[0]);
        }
      }
    }
  }
}
