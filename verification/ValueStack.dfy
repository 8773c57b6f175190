/**
 Slots of the Duktape value stack that C++ values own: freeing marks a slot, and slots are popped
 only from the top, once everything above is marked too.
 */
module ValueStack {

  import opened Optional

  /** What a slot holds: a reference to a script value. */
  type Content = nat

  /** The stack, and the marks of freed slots; there may be fewer marks than slots. */
  datatype Stack = Stack(slots: seq<Content>, marks: seq<bool>)

  predicate Marked(st: Stack, i: nat) { i < |st.marks| && st.marks[i] }

  predicate Used(st: Stack, i: nat) { i < |st.slots| && !Marked(st, i) }

  /** A value object: the slot it refers to, if any, and whether it was moved from. */
  datatype Value = Value(idx: Option<nat>, released: bool)

  predicate Owns(v: Value, i: nat) { v.idx == Some(i) && !v.released }

  // -------------------------------------------------------------- slot operations

  function Push(st: Stack, c: Content): Stack { st.(slots := st.slots + [c]) }

  function Resized(marks: seq<bool>, n: nat): (r: seq<bool>)
    ensures |r| == n
  {
    if n <= |marks| then marks[..n] else marks + seq(n - |marks|, _ => false)
  }

  /** How many marks at the end are set. */
  function Trailing(marks: seq<bool>): (n: nat)
    ensures n <= |marks|
    ensures forall i :: |marks| - n <= i < |marks| ==> marks[i]
    ensures n < |marks| ==> !marks[|marks| - n - 1]
  {
    if marks == [] || !marks[|marks| - 1] then 0 else 1 + Trailing(marks[..|marks| - 1])
  }

  function Freed(st: Stack, idx: nat): Stack {
    var marks := (if |st.marks| < idx + 1 then Resized(st.marks, idx + 1) else st.marks)[idx := true];
    if |st.slots| > |marks| then Stack(st.slots, marks)
    else
      var trimmed := marks[..|st.slots|];
      var top := |st.slots| - Trailing(trimmed);
      Stack(st.slots[..top], trimmed[..top])
  }

  /** What the destructor of a value does to the stack. */
  function Dropped(st: Stack, v: Value): Stack {
    if v.idx.Some? && !v.released then Freed(st, v.idx.value) else st
  }

  /** A slot's content copied to the top; without a slot the top itself is duplicated. */
  function Source(st: Stack, v: Value): Option<Content> {
    match v.idx
    case Some(i) => if i < |st.slots| then Some(st.slots[i]) else None
    case None => if st.slots != [] then Some(st.slots[|st.slots| - 1]) else None
  }

  /** Content assigned to a value: over the slot it refers to, or into a new one. */
  function Assigned(st: Stack, v: Value, c: Content): (Stack, Value)
    requires v.idx.Some? ==> v.idx.value < |st.slots|
  {
    match v.idx
    case Some(i) => (st.(slots := st.slots[i := c]), v)
    case None => (Push(st, c), v.(idx := Some(|st.slots|)))
  }

  /** The first slot of the run of marked ones below `i`. */
  function Gap(marks: seq<bool>, i: nat): (g: nat)
    requires 0 < i <= |marks|
    ensures 0 < g <= i && forall k :: g <= k < i ==> marks[k]
  {
    if i > 1 && marks[i - 1] then Gap(marks, i - 1) else i
  }

  /** A value at the top moved down over the freed slots right below it, unless there are fewer than two. */
  function Packed(st: Stack, v: Value): (Stack, Value) {
    if v.idx.None? || v.idx.value == 0 || v.idx.value != |st.slots| - 1 then (st, v)
    else
      var i := v.idx.value;
      if i > 1 && i - 1 >= |st.marks| then (st, v)  // the bounds check of the marks throws
      else
        var g := if i == 1 then 1 else Gap(st.marks, i);
        if g >= i - 1 then (st, v)
        else (Freed(Stack(st.slots[g := st.slots[i]], st.marks[g := false]), i), v.(idx := Some(g)))
  }

  // --------------------------------------------------------------------- freeing

  /** Marks never reach above the stack, and the topmost slot is in use. */
  ghost predicate Tight(st: Stack) {
    && |st.marks| <= |st.slots|
    && (st.slots != [] ==> Used(st, |st.slots| - 1))
  }

  /** Freeing takes exactly that slot out of use, moves nothing, and leaves the height one past the last slot in use. */
  lemma FreeingIsExact(st: Stack, idx: nat)
    requires |st.marks| <= |st.slots|
    ensures var st' := Freed(st, idx);
            && Tight(st')
            && st'.slots <= st.slots
            && forall i :: Used(st', i) <==> Used(st, i) && i != idx
  {
    var marks := (if |st.marks| < idx + 1 then Resized(st.marks, idx + 1) else st.marks)[idx := true];
    var st' := Freed(st, idx);
    assert forall i :: 0 <= i < |marks| ==> marks[i] == (i == idx || Marked(st, i));
    if |st.slots| <= |marks| {
      var trimmed, n := marks[..|st.slots|], |st'.slots|;
      assert forall i :: 0 <= i < |trimmed| ==> trimmed[i] == (i == idx || Marked(st, i));
      assert forall i :: 0 <= i < n ==> st'.marks[i] == trimmed[i];
      assert n > 0 ==> !trimmed[n - 1];
    }
  }

  /** A freshly pushed slot is in use: no mark from an earlier slot sticks to it. */
  lemma PushIsUsed(st: Stack, c: Content)
    requires |st.marks| <= |st.slots|
    ensures var st' := Push(st, c);
            && Tight(st') && (forall i :: Used(st', i) <==> Used(st, i) || i == |st.slots|)
  {
  }

  /** Packing keeps every other slot, and the moved value ends up at the new top. */
  lemma PackingIsExact(st: Stack, v: Value)
    requires Tight(st)
    ensures var (st', v') := Packed(st, v);
            && Tight(st') && v'.released == v.released
            && (v' == v ==> st' == st)
            && (v' != v ==>
                  && v.idx.Some? && v'.idx.Some? && v'.idx.value < v.idx.value < |st.slots|
                  && |st'.slots| == v'.idx.value + 1
                  && st'.slots[v'.idx.value] == st.slots[v.idx.value]
                  && !Used(st, v'.idx.value) && Used(st, v.idx.value)
                  && (forall i :: Used(st', i) <==> (Used(st, i) && i != v.idx.value) || i == v'.idx.value)
                  && (forall i :: 0 <= i < v'.idx.value ==> st'.slots[i] == st.slots[i]))
  {
    var (st', v') := Packed(st, v);
    if v' != v {
      var i, g := v.idx.value, v'.idx.value;
      var mid := Stack(st.slots[g := st.slots[i]], st.marks[g := false]);
      FreeingIsExact(mid, i);
      assert forall k :: g < k < i ==> !Used(mid, k);
      assert Used(st', g);
    }
  }

  // ----------------------------------------------------------------- value objects

  /** All value objects over one stack. */
  datatype World = World(st: Stack, vals: map<nat, Value>)

  /** What C++ code does with values; `id` is the object that is made, changed or destroyed. */
  datatype Op =
    | Create(id: nat, c: Content)
    | CreateEmpty(id: nat)
    | Copy(id: nat, from: nat)
    | Move(id: nat, from: nat)
    | AssignContent(id: nat, c: Content)
    | AssignCopy(id: nat, from: nat)
    | AssignMove(id: nat, from: nat)
    | AssignNull(id: nat)
    | Destroy(id: nat)
    | Pack(id: nat)

  /** What C++ and Duktape demand: the objects exist, and slots that are read or replaced are on the stack. */
  predicate Legal(w: World, op: Op) {
    match op
    case Create(id, _) => id !in w.vals
    case CreateEmpty(id) => id !in w.vals
    case Copy(id, from) => id !in w.vals && from in w.vals && Source(w.st, w.vals[from]).Some?
    case Move(id, from) => id !in w.vals && from in w.vals
    case AssignContent(id, _) => id in w.vals && Assignable(w.st, w.vals[id])
    case AssignCopy(id, from) =>
      && id in w.vals && from in w.vals && Assignable(w.st, w.vals[id])
      && ((w.vals[id].idx.None? && w.vals[from].idx.None?) || Source(w.st, w.vals[from]).Some?)
    case AssignMove(id, from) => id in w.vals && from in w.vals
    case AssignNull(id) => id in w.vals
    case Destroy(id) => id in w.vals
    case Pack(id) => id in w.vals
  }

  predicate Assignable(st: Stack, v: Value) { v.idx.Some? ==> v.idx.value < |st.slots| }

  function Step(w: World, op: Op): World
    requires Legal(w, op)
  {
    match op
    case Create(id, c) => World(Push(w.st, c), w.vals[id := Value(Some(|w.st.slots|), false)])
    case CreateEmpty(id) => w.(vals := w.vals[id := Value(None, false)])
    case Copy(id, from) =>
      World(Push(w.st, Source(w.st, w.vals[from]).value), w.vals[id := Value(Some(|w.st.slots|), false)])
    case Move(id, from) =>
      if w.vals[from].released then w
      else w.(vals := w.vals[id := w.vals[from]][from := w.vals[from].(released := true)])
    case AssignContent(id, c) =>
      var (st, v) := Assigned(w.st, w.vals[id], c);
      World(st, w.vals[id := v])
    case AssignCopy(id, from) =>
      if w.vals[id].idx.None? && w.vals[from].idx.None? then w
      else
        var (st, v) := Assigned(w.st, w.vals[id], Source(w.st, w.vals[from]).value);
        World(st, w.vals[id := v])
    case AssignMove(id, from) =>
      if w.vals[from].released then w
      else
        World(Dropped(w.st, w.vals[id]),
              w.vals[id := w.vals[id].(idx := w.vals[from].idx)]
                    [from := Value(w.vals[from].idx, true)])
    case AssignNull(id) =>
      if w.vals[id].idx.None? then w
      else World(Freed(w.st, w.vals[id].idx.value), w.vals[id := w.vals[id].(idx := None)])
    case Destroy(id) => World(Dropped(w.st, w.vals[id]), w.vals - {id})
    case Pack(id) =>
      var (st, v) := Packed(w.st, w.vals[id]);
      World(st, w.vals[id := v])
  }

  // -------------------------------------------------------------------- soundness

  /** Owners own slots in use, no two the same one, and every slot in use has an owner. */
  ghost predicate Sound(w: World) {
    && Tight(w.st)
    && (forall k, i :: k in w.vals && Owns(w.vals[k], i) ==> Used(w.st, i))
    && (forall k, l, i :: k in w.vals && l in w.vals && Owns(w.vals[k], i) && Owns(w.vals[l], i) ==> k == l)
    && (forall i :: Used(w.st, i) ==> HasOwner(w, i))
  }

  ghost predicate HasOwner(w: World, i: nat) {
    exists k :: k in w.vals && Owns(w.vals[k], i)
  }

  /** Objects an operation is about. */
  function Touched(op: Op): set<nat> {
    if op.Move? || op.AssignMove? then {op.id, op.from} else {op.id}
  }

  /** No other object changes, nor does what it owns. */
  ghost predicate OthersKeep(w: World, w': World, op: Op) {
    forall k :: k in w.vals && k !in Touched(op) ==> Keeps(w, w', k)
  }

  ghost predicate Keeps(w: World, w': World, k: nat)
    requires k in w.vals
  {
    && k in w'.vals && w'.vals[k] == w.vals[k]
    && forall i: nat :: Owns(w.vals[k], i) && i < |w.st.slots| ==> i < |w'.st.slots| && w'.st.slots[i] == w.st.slots[i]
  }

  /**
   The uses of a moved-from object that harm: writing other content over a slot that has an owner,
   giving up such a slot or packing it, and moving a slot into an object that will never free it.
   */
  ghost predicate Misuse(w: World, op: Op)
    requires Legal(w, op)
  {
    && op.id in w.vals && w.vals[op.id].released
    && match op
       case AssignContent(id, c) => Overwrites(w, w.vals[id], c)
       case AssignCopy(id, from) =>
         (w.vals[id].idx.Some? || w.vals[from].idx.Some?) && Overwrites(w, w.vals[id], Source(w.st, w.vals[from]).value)
       case AssignMove(id, from) => w.vals[from].idx.Some? && !w.vals[from].released
       case AssignNull(id) => w.vals[id].idx.Some? && HasOwner(w, w.vals[id].idx.value)
       case Pack(id) => Packed(w.st, w.vals[id]).1 != w.vals[id]
       case _ => false
  }

  ghost predicate Overwrites(w: World, v: Value, c: Content) {
    if v.idx.None? then true
    else v.idx.value < |w.st.slots| && w.st.slots[v.idx.value] != c && HasOwner(w, v.idx.value)
  }

  lemma FreedOwner(w: World, id: nat, vals: map<nat, Value>)
    requires Sound(w) && id in w.vals && w.vals[id].idx.Some? && !w.vals[id].released
    requires forall k :: k in w.vals && k != id ==> k in vals && vals[k] == w.vals[k]
    requires forall k :: k in vals && k != id ==> k in w.vals
    requires id in vals ==> forall i :: !Owns(vals[id], i)
    ensures Sound(World(Freed(w.st, w.vals[id].idx.value), vals))
  {
    var i := w.vals[id].idx.value;
    var w' := World(Freed(w.st, i), vals);
    FreeingIsExact(w.st, i);
    assert Owns(w.vals[id], i);
    forall j | Used(w'.st, j)
      ensures HasOwner(w', j)
    {
      var k :| k in w.vals && Owns(w.vals[k], j);
      assert k != id;
      assert Owns(vals[k], j);
    }
  }

  /** A new slot for an object that owned none. */
  lemma PushedOwner(w: World, id: nat, c: Content, released: bool)
    requires Sound(w) && (id in w.vals ==> forall i :: !Owns(w.vals[id], i))
    ensures var w' := World(Push(w.st, c), w.vals[id := Value(Some(|w.st.slots|), released)]);
            Sound(w') <==> !released
  {
    var w' := World(Push(w.st, c), w.vals[id := Value(Some(|w.st.slots|), released)]);
    PushIsUsed(w.st, c);
    assert !Used(w.st, |w.st.slots|);
    forall j | Used(w'.st, j) && !released
      ensures HasOwner(w', j)
    {
      if j == |w.st.slots| {
        assert Owns(w'.vals[id], j);
      } else {
        var k :| k in w.vals && Owns(w.vals[k], j);
        assert Owns(w'.vals[k], j);
      }
    }
    if released {
      assert Used(w'.st, |w.st.slots|) && !HasOwner(w', |w.st.slots|);
    }
  }

  /** Ownership handed from one object to another that owns nothing; to a moved-from one it is lost. */
  lemma HandedOver(w: World, id: nat, from: nat, released: bool)
    requires Sound(w) && from in w.vals && id != from && !w.vals[from].released
    requires id in w.vals ==> forall i :: !Owns(w.vals[id], i)
    ensures var w' := w.(vals := w.vals[id := Value(w.vals[from].idx, released)][from := Value(w.vals[from].idx, true)]);
            Sound(w') <==> !released || w.vals[from].idx.None?
  {
    var w' := w.(vals := w.vals[id := Value(w.vals[from].idx, released)][from := Value(w.vals[from].idx, true)]);
    forall j | Used(w.st, j) && (!released || w.vals[from].idx.None?)
      ensures HasOwner(w', j)
    {
      var k :| k in w.vals && Owns(w.vals[k], j);
      assert Owns(w'.vals[if k == from then id else k], j);
    }
    if released && w.vals[from].idx.Some? {
      var i := w.vals[from].idx.value;
      assert Owns(w.vals[from], i);
      assert Used(w'.st, i) && !HasOwner(w', i);
    }
  }

  /** Objects that change without owning anything, before or after, do not matter. */
  lemma BystanderChanged(w: World, id: nat, v: Value)
    requires Sound(w) && (id in w.vals ==> forall i :: !Owns(w.vals[id], i)) && forall i :: !Owns(v, i)
    ensures Sound(w.(vals := w.vals[id := v])) && Sound(w.(vals := w.vals - {id}))
  {
    var w', w2 := w.(vals := w.vals[id := v]), w.(vals := w.vals - {id});
    forall j | Used(w.st, j)
      ensures HasOwner(w', j) && HasOwner(w2, j)
    {
      var k :| k in w.vals && Owns(w.vals[k], j);
      assert Owns(w'.vals[k], j) && Owns(w2.vals[k], j);
    }
  }

  /** Writing over a slot changes no ownership. */
  lemma Overwritten(w: World, i: nat, c: Content)
    requires Sound(w) && i < |w.st.slots|
    ensures Sound(w.(st := w.st.(slots := w.st.slots[i := c])))
  {
    var w' := w.(st := w.st.(slots := w.st.slots[i := c]));
    assert forall j :: Used(w'.st, j) == Used(w.st, j);
    assert forall j :: HasOwner(w', j) == HasOwner(w, j);
  }

  lemma AssignSound(w: World, id: nat, c: Content)
    requires Sound(w) && id in w.vals && Assignable(w.st, w.vals[id])
    ensures var (st, v) := Assigned(w.st, w.vals[id], c);
            var w' := World(st, w.vals[id := v]);
            Sound(w') && OthersKeep(w, w', AssignContent(id, c)) <==> !(w.vals[id].released && Overwrites(w, w.vals[id], c))
  {
    var v := w.vals[id];
    match v.idx
    case None => PushedOwner(w, id, c, v.released);
    case Some(i) =>
      Overwritten(w, i, c);
      assert w.vals[id := v] == w.vals;
      var w' := w.(st := w.st.(slots := w.st.slots[i := c]));
      if v.released && Overwrites(w, v, c) {
        var k :| k in w.vals && Owns(w.vals[k], i);
        assert k != id && w'.st.slots[i] != w.st.slots[i];
      }
  }

  lemma PackSound(w: World, id: nat)
    requires Sound(w) && id in w.vals
    ensures var (st, v) := Packed(w.st, w.vals[id]);
            var w' := World(st, w.vals[id := v]);
            Sound(w') && OthersKeep(w, w', Pack(id)) <==> !(w.vals[id].released && v != w.vals[id])
  {
    var (st, v) := Packed(w.st, w.vals[id]);
    var w' := World(st, w.vals[id := v]);
    PackingIsExact(w.st, w.vals[id]);
    if v == w.vals[id] {
      assert w' == w;
    } else {
      var i, g := w.vals[id].idx.value, v.idx.value;
      if w.vals[id].released {
        assert Used(w'.st, g);
        assert !HasOwner(w', g) by {
          assert !Used(w.st, g);
        }
      } else {
        assert Owns(w.vals[id], i);
        forall j | Used(w'.st, j)
          ensures HasOwner(w', j)
        {
          if j == g {
            assert Owns(w'.vals[id], g);
          } else {
            var k :| k in w.vals && Owns(w.vals[k], j);
            assert Owns(w'.vals[k], j);
          }
        }
        forall k, j: nat | k in w.vals && k != id && Owns(w.vals[k], j)
          ensures j < g
        {
          assert Used(w.st, j) && j != i && Used(w'.st, j);
        }
      }
    }
  }

  lemma MoveAssignSound(w: World, id: nat, from: nat)
    requires Sound(w) && Legal(w, AssignMove(id, from))
    ensures var w' := Step(w, AssignMove(id, from));
            Sound(w') && OthersKeep(w, w', AssignMove(id, from)) <==> !Misuse(w, AssignMove(id, from))
  {
    var w', v := Step(w, AssignMove(id, from)), w.vals[id];
    if w.vals[from].released {
    } else if v.idx.None? || v.released {
      if id == from {
        BystanderChanged(w, id, Value(None, true));
        assert w'.vals == w.vals[id := Value(None, true)];
      } else {
        assert forall i :: !Owns(v, i);
        HandedOver(w, id, from, v.released);
      }
    } else {
      MoveOverOwner(w, id, from);
    }
  }

  lemma MoveOverOwner(w: World, id: nat, from: nat)
    requires Sound(w) && Legal(w, AssignMove(id, from)) && !w.vals[from].released
    requires w.vals[id].idx.Some? && !w.vals[id].released
    ensures var w' := Step(w, AssignMove(id, from));
            Sound(w') && OthersKeep(w, w', AssignMove(id, from))
  {
    var w', v := Step(w, AssignMove(id, from)), w.vals[id];
    var i := v.idx.value;
    assert Owns(v, i);
    OthersAboveFreed(w, id, w', AssignMove(id, from));
    if id == from {
      FreedOwner(w, id, w'.vals);
    } else {
      var w1 := World(Freed(w.st, i), w.vals[id := Value(None, false)]);
      FreedOwner(w, id, w1.vals);
      HandedOver(w1, id, from, false);
      assert w'.vals == w1.vals[id := Value(w.vals[from].idx, false)][from := Value(w.vals[from].idx, true)];
    }
  }

  /** When an owner's slot is freed, what others own lies below the new height and is not touched. */
  lemma OthersAboveFreed(w: World, id: nat, w': World, op: Op)
    requires Sound(w) && id in w.vals && w.vals[id].idx.Some? && !w.vals[id].released
    requires w'.st == Freed(w.st, w.vals[id].idx.value) && id in Touched(op)
    requires forall k :: k in w.vals && k !in Touched(op) ==> k in w'.vals && w'.vals[k] == w.vals[k]
    ensures OthersKeep(w, w', op)
  {
    var i := w.vals[id].idx.value;
    FreeingIsExact(w.st, i);
    assert Owns(w.vals[id], i);
    forall k | k in w.vals && k !in Touched(op)
      ensures Keeps(w, w', k)
    {
      forall j: nat | Owns(w.vals[k], j)
        ensures j < |w'.st.slots| && w'.st.slots[j] == w.st.slots[j]
      {
        assert Used(w.st, j) && j != i;
        assert Used(w'.st, j);
      }
    }
  }

  /** A slot that a moved-from object gives up: harmless exactly when it has no owner by now. */
  lemma NullSound(w: World, id: nat)
    requires Sound(w) && Legal(w, AssignNull(id))
    ensures var w' := Step(w, AssignNull(id));
            Sound(w') && OthersKeep(w, w', AssignNull(id)) <==> !Misuse(w, AssignNull(id))
  {
    var w', v := Step(w, AssignNull(id)), w.vals[id];
    if v.idx.Some? {
      var i := v.idx.value;
      FreeingIsExact(w.st, i);
      if !v.released {
        FreedOwner(w, id, w'.vals);
        OthersAboveFreed(w, id, w', AssignNull(id));
      } else if HasOwner(w, i) {
        var k :| k in w.vals && Owns(w.vals[k], i);
        assert Owns(w'.vals[k], i) && !Used(w'.st, i);
      } else {
        UnownedFreed(w, id, i);
      }
    }
  }

  lemma UnownedFreed(w: World, id: nat, i: nat)
    requires Sound(w) && id in w.vals && w.vals[id] == Value(Some(i), true) && !HasOwner(w, i)
    ensures var w' := Step(w, AssignNull(id));
            Sound(w') && OthersKeep(w, w', AssignNull(id))
  {
    var w' := Step(w, AssignNull(id));
    FreeingIsExact(w.st, i);
    assert forall j :: Used(w'.st, j) == Used(w.st, j);
    forall j | Used(w'.st, j)
      ensures HasOwner(w', j)
    {
      var k :| k in w.vals && Owns(w.vals[k], j);
      assert Owns(w'.vals[k], j);
    }
    forall k, j: nat | k in w.vals && k != id && Owns(w.vals[k], j)
      ensures j < |w'.st.slots| && w'.st.slots[j] == w.st.slots[j]
    {
      assert Used(w'.st, j);
    }
  }

  lemma DestroySound(w: World, id: nat)
    requires Sound(w) && Legal(w, Destroy(id))
    ensures Sound(Step(w, Destroy(id))) && OthersKeep(w, Step(w, Destroy(id)), Destroy(id))
  {
    var v := w.vals[id];
    if v.idx.Some? && !v.released {
      FreedOwner(w, id, w.vals - {id});
      OthersAboveFreed(w, id, Step(w, Destroy(id)), Destroy(id));
    } else {
      assert forall i :: !Owns(v, i);
      BystanderChanged(w, id, v);
    }
  }

  /**
   Every operation on sound values leaves them sound, with the height one past the last slot that is
   owned and every other object's content in place, if and only if it is not a misuse of a moved-from object.
   */
  lemma StepSound(w: World, op: Op)
    requires Sound(w) && Legal(w, op)
    ensures Sound(Step(w, op)) && OthersKeep(w, Step(w, op), op) <==> !Misuse(w, op)
  {
    hide Sound, OthersKeep, Freed, Packed, Assigned;
    match op
    case Create(id, c) => CreateSound(w, id, c, op);
    case CreateEmpty(id) => EmptySound(w, id);
    case Copy(id, from) => CreateSound(w, id, Source(w.st, w.vals[from]).value, op);
    case Move(id, from) => MoveSound(w, id, from);
    case AssignContent(id, c) => AssignSound(w, id, c);
    case AssignCopy(id, from) => AssignCopySound(w, id, from);
    case AssignMove(id, from) => MoveAssignSound(w, id, from);
    case AssignNull(id) => NullSound(w, id);
    case Destroy(id) => DestroySound(w, id);
    case Pack(id) => PackSound(w, id);
  }

  lemma CreateSound(w: World, id: nat, c: Content, op: Op)
    requires Sound(w) && id !in w.vals && Touched(op) == {id}
    ensures var w' := World(Push(w.st, c), w.vals[id := Value(Some(|w.st.slots|), false)]);
            Sound(w') && OthersKeep(w, w', op)
  {
    PushedOwner(w, id, c, false);
  }

  lemma EmptySound(w: World, id: nat)
    requires Sound(w) && id !in w.vals
    ensures var w' := w.(vals := w.vals[id := Value(None, false)]);
            Sound(w') && OthersKeep(w, w', CreateEmpty(id))
  {
    BystanderChanged(w, id, Value(None, false));
  }

  lemma MoveSound(w: World, id: nat, from: nat)
    requires Sound(w) && Legal(w, Move(id, from))
    ensures Sound(Step(w, Move(id, from))) && OthersKeep(w, Step(w, Move(id, from)), Move(id, from))
  {
    if !w.vals[from].released {
      HandedOver(w, id, from, false);
    }
  }

  lemma AssignCopySound(w: World, id: nat, from: nat)
    requires Sound(w) && Legal(w, AssignCopy(id, from))
    ensures var w' := Step(w, AssignCopy(id, from));
            Sound(w') && OthersKeep(w, w', AssignCopy(id, from)) <==> !Misuse(w, AssignCopy(id, from))
  {
    if w.vals[id].idx.Some? || w.vals[from].idx.Some? {
      AssignSound(w, id, Source(w.st, w.vals[from]).value);
    }
  }

  // -------------------------------------------------------------------------- runs

  ghost predicate Run(ws: seq<World>, ops: seq<Op>) {
    && |ws| == |ops| + 1
    && ws[0] == World(Stack([], []), map[])
    && forall i :: 0 <= i < |ops| ==> Legal(ws[i], ops[i]) && ws[i + 1] == Step(ws[i], ops[i])
  }

  ghost predicate GoodStep(w: World, w': World, op: Op) {
    Sound(w) && Sound(w') && OthersKeep(w, w', op)
  }

  /**
   Every state of a run is sound, and every step leaves other objects' contents alone, if and only
   if no step misuses a moved-from object.
   */
  lemma RunSound(ws: seq<World>, ops: seq<Op>)
    requires Run(ws, ops)
    ensures (forall i :: 0 <= i < |ops| ==> GoodStep(ws[i], ws[i + 1], ops[i])) <==>
            (forall i :: 0 <= i < |ops| ==> !Misuse(ws[i], ops[i]))
  {
    hide Sound, OthersKeep, Misuse, Step, Legal;
    if forall i :: 0 <= i < |ops| ==> !Misuse(ws[i], ops[i]) {
      forall i | 0 <= i < |ops|
        ensures GoodStep(ws[i], ws[i + 1], ops[i])
      {
        SoundUpTo(ws, ops, i);
        StepSound(ws[i], ops[i]);
      }
    } else if forall i :: 0 <= i < |ops| ==> GoodStep(ws[i], ws[i + 1], ops[i]) {
      var i :| 0 <= i < |ops| && Misuse(ws[i], ops[i]);
      assert GoodStep(ws[i], ws[i + 1], ops[i]);
      StepSound(ws[i], ops[i]);
    }
  }

  lemma {:induction false} SoundUpTo(ws: seq<World>, ops: seq<Op>, i: nat)
    requires Run(ws, ops) && i < |ws|
    requires forall i :: 0 <= i < |ops| ==> !Misuse(ws[i], ops[i])
    ensures Sound(ws[i])
  {
    hide OthersKeep, Misuse, Step, Legal;
    if i > 0 {
      SoundUpTo(ws, ops, i - 1);
      StepSound(ws[i - 1], ops[i - 1]);
    }
  }

  /** Where no target of an assignment or pack was moved from, nothing is misused. */
  lemma FreshTargetsAreSafe(w: World, op: Op)
    requires Legal(w, op) && (op.id in w.vals ==> !w.vals[op.id].released)
    ensures !Misuse(w, op)
  {
  }

  /** In a sound state the stack ends exactly at the highest slot that some object owns. */
  lemma HeightIsOwned(w: World)
    requires Sound(w)
    ensures w.st.slots != [] ==> HasOwner(w, |w.st.slots| - 1)
    ensures forall k, i: nat :: k in w.vals && Owns(w.vals[k], i) ==> i < |w.st.slots|
  {
    assert w.st.slots != [] ==> Used(w.st, |w.st.slots| - 1);
    forall k, i: nat | k in w.vals && Owns(w.vals[k], i)
      ensures i < |w.st.slots|
    {
      assert Used(w.st, i);
    }
  }

  /** A move hands over the slot with its content, also when the target gives up a slot of its own. */
  lemma MovedContent(w: World, op: Op, i: nat)
    requires (op.Move? || op.AssignMove?) && Legal(w, op) && op.id != op.from
    requires Sound(w) && !Misuse(w, op) && Owns(w.vals[op.from], i)
    ensures var w' := Step(w, op);
            && Owns(w'.vals[op.id], i) && !Owns(w'.vals[op.from], i)
            && i < |w'.st.slots| && w'.st.slots[i] == w.st.slots[i]
  {
    assert Used(w.st, i);
    if op.AssignMove? && w.vals[op.id].idx.Some? && !w.vals[op.id].released {
      var j := w.vals[op.id].idx.value;
      assert Owns(w.vals[op.id], j) && j != i;
      FreeingIsExact(w.st, j);
      assert Used(Freed(w.st, j), i);
    }
  }

  /** The object refers to a slot with this content, and owns it unless it was moved from. */
  ghost predicate Holds(w: World, id: nat, c: Content) {
    && id in w.vals && w.vals[id].idx.Some? && w.vals[id].idx.value < |w.st.slots|
    && w.st.slots[w.vals[id].idx.value] == c
    && (!w.vals[id].released ==> Owns(w.vals[id], w.vals[id].idx.value))
  }

  /** A value made from content, or assigned it, holds that content; a new one owns its slot. */
  lemma ContentIsHeld(w: World, op: Op)
    requires (op.Create? || op.AssignContent?) && Legal(w, op)
    ensures Holds(Step(w, op), op.id, op.c)
    ensures op.Create? || !w.vals[op.id].released ==> !Step(w, op).vals[op.id].released
  {
  }

  /**
   A copy, constructed or assigned, holds what its source holds, and the source keeps it: also when
   the target was moved from, unless that is a misuse.
   */
  lemma CopiedContent(w: World, op: Op, i: nat)
    requires (op.Copy? || op.AssignCopy?) && Legal(w, op) && op.id != op.from
    requires Sound(w) && !Misuse(w, op) && Owns(w.vals[op.from], i)
    ensures var w' := Step(w, op);
            && Holds(w', op.id, w.st.slots[i])
            && (op.Copy? || !w.vals[op.id].released ==> !w'.vals[op.id].released)
            && Owns(w'.vals[op.from], i) && i < |w'.st.slots| && w'.st.slots[i] == w.st.slots[i]
  {
    assert Used(w.st, i);
    if op.AssignCopy? && w.vals[op.id].idx == Some(i) {
      assert HasOwner(w, i);
    }
  }

  /** An object that gives up its slot, and one that is made empty, refers to none. */
  lemma NothingHeld(w: World, op: Op)
    requires (op.AssignNull? || op.CreateEmpty?) && Legal(w, op)
    ensures Step(w, op).vals[op.id].idx == None
  {
  }

  /** Packing an object changes where its content is, not what it is. */
  lemma PackedContent(w: World, id: nat, i: nat)
    requires Sound(w) && id in w.vals && Owns(w.vals[id], i)
    ensures i < |w.st.slots| && Holds(Step(w, Pack(id)), id, w.st.slots[i])
  {
    assert Used(w.st, i);
    PackingIsExact(w.st, w.vals[id]);
  }

  /**
   Packing moves a value exactly when it is at the top, with two freed slots right below it above
   slot 0, and it moves it to the lowest of the freed slots there.
   */
  lemma PacksWhen(st: Stack, v: Value)
    requires Tight(st)
    ensures var v' := Packed(st, v).1;
            && (v' != v <==>
                  && v.idx.Some? && v.idx.value == |st.slots| - 1 && v.idx.value >= 3
                  && Marked(st, v.idx.value - 1) && Marked(st, v.idx.value - 2))
            && (v' != v ==>
                  && v'.idx.Some? && 1 <= v'.idx.value
                  && (forall k: nat :: v'.idx.value <= k < v.idx.value ==> Marked(st, k))
                  && (v'.idx.value == 1 || !Marked(st, v'.idx.value - 1)))
  {
    if v.idx.Some? && v.idx.value == |st.slots| - 1 && 1 < v.idx.value <= |st.marks| {
      GapIsLowest(st.marks, v.idx.value);
    }
  }

  lemma {:induction false} GapIsLowest(marks: seq<bool>, i: nat)
    requires 0 < i <= |marks|
    ensures Gap(marks, i) == 1 || !marks[Gap(marks, i) - 1]
    ensures Gap(marks, i) < i - 1 <==> i >= 3 && marks[i - 1] && marks[i - 2]
  {
    if i > 1 && marks[i - 1] {
      GapIsLowest(marks, i - 1);
    }
  }

  /** Giving up a moved-from object frees the slot of the object it was moved to. */
  lemma NullAfterMoveFrees()
    ensures var w := Step(Step(World(Stack([], []), map[]), Create(0, 7)), Move(1, 0));
            && Sound(w) && Owns(w.vals[1], 0)
            && Misuse(w, AssignNull(0))
            && Step(w, AssignNull(0)).st.slots == []
  {
    var w0 := World(Stack([], []), map[]);
    var w1 := Step(w0, Create(0, 7));
    StepSound(w0, Create(0, 7));
    StepSound(w1, Move(1, 0));
    var w := Step(w1, Move(1, 0));
    assert Owns(w.vals[1], 0);
    assert [false][0 := true] == [true];
    var st' := Freed(w.st, 0);
    FreeingIsExact(w.st, 0);
    assert !Used(st', 0);
  }

  // ------------------------------------------------------------------------ program

  class ValueContext {
    var slots: seq<Content>
    var freeStack: seq<bool>

    ghost function State(): Stack
      reads this
    {
      Stack(slots, freeStack)
    }

    method Free(idx: nat)
      modifies this
      ensures State() == Freed(old(State()), idx)
    {
      if |freeStack| < idx + 1 {
        freeStack := Resized(freeStack, idx + 1);
      }
      freeStack := freeStack[idx := true];
      var dukTop := |slots|;
      if dukTop > |freeStack| {
        return;
      }
      freeStack := freeStack[..dukTop];
      var poppable := CountPoppable(freeStack);
      if poppable == 0 {
        return;
      }
      slots := slots[..dukTop - poppable];
      freeStack := freeStack[..|slots|];
    }
  }

  /** The loop from the top down over set marks. */
  method CountPoppable(marks: seq<bool>) returns (n: nat)
    ensures n == Trailing(marks)
  {
    n := 0;
    while n < |marks| && marks[|marks| - 1 - n]
      invariant n <= |marks|
      invariant Trailing(marks) == n + Trailing(marks[..|marks| - n])
    {
      assert marks[..|marks| - n][..|marks| - n - 1] == marks[..|marks| - n - 1];
      n := n + 1;
    }
  }

  /** The loop of pack, down over set marks. */
  method FindGap(marks: seq<bool>, i: nat) returns (g: nat)
    requires 0 < i <= |marks|
    ensures g == Gap(marks, i)
  {
    var cidx := i - 1;
    while cidx > 0 && marks[cidx]
      invariant 0 <= cidx < i
      invariant Gap(marks, cidx + 1) == Gap(marks, i)
    {
      cidx := cidx - 1;
    }
    g := cidx + 1;
  }

  /** A C++ value object; -1 stands for no slot. */
  class JsValue {
    const vctx: ValueContext
    var idx: int
    var released: bool

    predicate Valid()
      reads this
    {
      idx >= -1
    }

    function View(): Value
      reads this
      requires Valid()
    {
      Value(if idx == -1 then None else Some(idx), released)
    }

    /** A new value on top of the stack. */
    constructor Pushed(vctx: ValueContext, c: Content)
      modifies vctx
      ensures Valid() && this.vctx == vctx && vctx.State() == Push(old(vctx.State()), c)
      ensures View() == Value(Some(|old(vctx.slots)|), false)
    {
      this.vctx := vctx;
      idx, released := |vctx.slots|, false;
      new;
      vctx.slots := vctx.slots + [c];
    }

    /** The copy constructor: the content of the source's slot is duplicated to the top. */
    constructor CopiedFrom(other: JsValue)
      requires other.Valid() && Source(other.vctx.State(), other.View()).Some?
      modifies other.vctx
      ensures Valid() && vctx == other.vctx && View() == Value(Some(|old(other.vctx.slots)|), false)
      ensures vctx.State() == Push(old(other.vctx.State()), Source(old(other.vctx.State()), old(other.View())).value)
      ensures other.Valid() && other.View() == old(other.View())
    {
      vctx, idx, released := other.vctx, |other.vctx.slots|, false;
      new;
      var at := if other.idx == -1 then |vctx.slots| - 1 else other.idx;
      vctx.slots := vctx.slots + [vctx.slots[at]];
    }

    /** The move constructor; it throws, and there is no object, if the source was moved from. */
    constructor MovedFrom(other: JsValue)
      requires other.Valid() && !other.released
      modifies other`released
      ensures Valid() && vctx == other.vctx && View() == old(other.View())
      ensures other.Valid() && other.View() == old(other.View()).(released := true)
    {
      vctx, idx, released := other.vctx, other.idx, false;
      new;
      other.released := true;
    }

    /** Assignment of pushed content: it replaces the slot's content or stays where it was pushed. */
    method AssignContent(c: Content)
      requires Valid() && Assignable(vctx.State(), View())
      modifies this`idx, vctx
      ensures Valid() && (vctx.State(), View()) == Assigned(old(vctx.State()), old(View()), c)
    {
      vctx.slots := vctx.slots + [c];
      if idx != -1 {
        var top := vctx.slots[|vctx.slots| - 1];
        vctx.slots := vctx.slots[..|vctx.slots| - 1];
        vctx.slots := vctx.slots[idx := top];
      } else {
        idx := |vctx.slots| - 1;
      }
    }

    /** Copy assignment within one context: the source's content is pushed and then assigned. */
    method AssignCopy(other: JsValue)
      requires Valid() && other.Valid() && other.vctx == vctx && Assignable(vctx.State(), View())
      requires (View().idx.None? && other.View().idx.None?) || Source(vctx.State(), other.View()).Some?
      modifies this`idx, vctx
      ensures Valid() && other.Valid()
      ensures (vctx.State(), View()) ==
              if old(View()).idx.None? && old(other.View()).idx.None? then (old(vctx.State()), old(View()))
              else Assigned(old(vctx.State()), old(View()), Source(old(vctx.State()), old(other.View())).value)
    {
      if idx == -1 && other.idx == -1 {
        return;
      }
      var at := if other.idx == -1 then |vctx.slots| - 1 else other.idx;
      AssignContent(vctx.slots[at]);
    }

    method AssignNull()
      requires Valid()
      modifies this`idx, vctx
      ensures Valid() && View() == old(View()).(idx := None)
      ensures vctx.State() == if old(View()).idx.None? then old(vctx.State())
                              else Freed(old(vctx.State()), old(View()).idx.value)
    {
      if idx == -1 {
        return;
      }
      vctx.Free(idx);
      idx := -1;
    }

    /** Move assignment within one context; false stands for the exception of a source that was moved from. */
    method AssignMove(other: JsValue) returns (ok: bool)
      requires Valid() && other.Valid() && other.vctx == vctx
      modifies this`idx, other`released, vctx
      ensures Valid() && other.Valid()
      ensures ok == !old(other.released)
      ensures !ok ==> vctx.State() == old(vctx.State()) && View() == old(View()) && other.View() == old(other.View())
      ensures ok ==>
                && vctx.State() == Dropped(old(vctx.State()), old(View()))
                && other.View() == Value(old(other.View()).idx, true)
                && (other != this ==> View() == old(View()).(idx := old(other.View()).idx))
    {
      if other.released {
        return false;
      }
      if idx != -1 && !released {
        vctx.Free(idx);
      }
      idx := other.idx;
      other.released := true;
      ok := true;
    }

    /** The destructor. */
    method Destroy()
      requires Valid()
      modifies vctx
      ensures vctx.State() == Dropped(old(vctx.State()), View())
    {
      if idx != -1 && !released {
        vctx.Free(idx);
      }
    }

    method Pack()
      requires Valid()
      modifies this`idx, vctx
      ensures Valid() && (vctx.State(), View()) == Packed(old(vctx.State()), old(View()))
    {
      if idx <= 0 {
        return;
      }
      if |vctx.slots| - 1 != idx {
        return;
      }
      if idx > 1 && idx - 1 >= |vctx.freeStack| {
        return;
      }
      var cidx := 1;
      if idx > 1 {
        cidx := FindGap(vctx.freeStack, idx);
      }
      if cidx >= idx - 1 {
        return;
      }
      vctx.freeStack := vctx.freeStack[cidx := false];
      vctx.slots := vctx.slots[cidx := vctx.slots[idx]];
      vctx.Free(idx);
      idx := cidx;
    }
  }
}
