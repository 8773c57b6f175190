/**
 CommonJS module identifier resolution (section "Module Identifiers" of CommonJS Modules/1.1).

 `Resolve` is the reference: cut the input into terms and run them over a stack of terms.
 `ResolveModuleId` is the program: one reader and one writer on one shared buffer.
 */
module ModuleId {

  import opened Optional

  type Byte = char

  const NUL: Byte := '\0'
  const DOT: Byte := '.'
  const SLASH: Byte := '/'
  const ID_LIMIT := 256

  type Bytes = seq<Byte>

  const BACK: Bytes := [SLASH, DOT, DOT, SLASH]
  const HERE: Bytes := [DOT, SLASH]

  /** What the resolver leaves on the stack, or the type error it raises. */
  datatype Resolved = Resolved(id: Bytes, last: Bytes) | CannotResolve

  /** A C string: no NUL before its end. */
  predicate CString(s: Bytes) {
    forall i :: 0 <= i < |s| ==> s[i] != NUL
  }

  /** A proper term: not empty, no leading period, no slash and no NUL. */
  predicate Identifier(t: Bytes) {
    && t != []
    && t[0] != DOT
    && forall i :: 0 <= i < |t| ==> t[i] != SLASH && t[i] != NUL
  }

  // ---------------------------------------------------------------- reference

  function FirstSlash(s: Bytes): (i: nat)
    ensures i <= |s|
    ensures forall k :: 0 <= k < i ==> s[k] != SLASH
    ensures i < |s| ==> s[i] == SLASH
  {
    if s == [] || s[0] == SLASH then 0 else 1 + FirstSlash(s[1..])
  }

  function Slashes(s: Bytes): (n: nat)
    ensures n <= |s|
    ensures n < |s| ==> s[n] != SLASH
  {
    if s != [] && s[0] == SLASH then 1 + Slashes(s[1..]) else 0
  }

  /** What follows the run of slashes at `i`. */
  function Beyond(s: Bytes, i: nat): (r: Bytes)
    requires i <= |s|
    ensures |r| <= |s| - i
  {
    s[i + Slashes(s[i..])..]
  }

  /** The terms of an identifier; a run of slashes separates like one slash. */
  function Terms(s: Bytes): (ts: seq<Bytes>)
    ensures ts != []
    decreases |s|
  {
    var i := FirstSlash(s);
    if i == |s| then [s] else [s[..i]] + Terms(Beyond(s, i + 1))
  }

  /** Runs the terms over the stack: "." skips, ".." pops, an identifier pushes and must come last. */
  function Walk(ts: seq<Bytes>, stack: seq<Bytes>): (r: Option<seq<Bytes>>)
    requires ts != []
  {
    if |ts| == 1 then
      if Identifier(ts[0]) then Some(stack + [ts[0]]) else None
    else if ts[0] == [DOT] then
      Walk(ts[1..], stack)
    else if ts[0] == [DOT, DOT] then
      if stack == [] then None else Walk(ts[1..], stack[..|stack| - 1])
    else if Identifier(ts[0]) then
      Walk(ts[1..], stack + [ts[0]])
    else
      None
  }

  /** Each term followed by a slash: what the program has written before it reads the next term. */
  function Prefix(stack: seq<Bytes>): Bytes {
    if stack == [] then []
    else Prefix(stack[..|stack| - 1]) + stack[|stack| - 1] + [SLASH]
  }

  function Join(ts: seq<Bytes>): Bytes
    requires ts != []
  {
    Prefix(ts[..|ts| - 1]) + ts[|ts| - 1]
  }

  /** The identifier to resolve: a relative request is appended to the requiring module's id. */
  function Input(req: Bytes, mod: Option<Bytes>): Bytes {
    if mod.Some? && req != [] && req[0] == DOT then mod.value + BACK + req else req
  }

  function Outcome(r: Option<seq<Bytes>>): Resolved {
    match r
    case None => CannotResolve
    case Some(ts) => if ts == [] then CannotResolve else Resolved(Join(ts), ts[|ts| - 1])
  }

  /** The reference resolver. */
  function Resolve(req: Bytes, mod: Option<Bytes>): Resolved {
    var input := Input(req, mod);
    if |input| >= ID_LIMIT then CannotResolve else Outcome(Walk(Terms(input), []))
  }

  // ------------------------------------------------------------------ program

  /**
   The bytes from the reader `p` to the terminator are still those of the input, and so is the
   terminator, which is the last byte the program may look at.
   */
  ghost predicate Unread(buf: array<Byte>, p: nat, input: Bytes)
    reads buf
  {
    && p <= |input| < buf.Length
    && buf[|input|] == NUL
    && forall i :: p <= i < |input| ==> buf[i] == input[i]
  }

  /** Every read of the program goes through here: it never reads past the terminator. */
  function At(buf: array<Byte>, p: nat, ghost input: Bytes): Byte
    requires p <= |input| < buf.Length
    reads buf
  {
    buf[p]
  }

  ghost predicate Identifiers(ts: seq<Bytes>) {
    forall i :: 0 <= i < |ts| ==> Identifier(ts[i])
  }

  lemma PrefixEndsWithSlash(stack: seq<Bytes>)
    ensures stack != [] ==> |Prefix(stack)| > |stack[|stack| - 1]| && Prefix(stack)[|Prefix(stack)| - 1] == SLASH
    ensures stack == [] <==> Prefix(stack) == []
  {
  }

  /** Where the next term starts when the reader stands at `i`. */
  function After(s: Bytes, i: nat): (j: nat)
    requires i <= |s|
    ensures i <= j <= |s|
  {
    i + Slashes(s[i..])
  }

  /** Eats a run of slashes from `p0` on. */
  method EatSlashes(buf: array<Byte>, p0: nat, ghost input: Bytes) returns (p: nat)
    requires Unread(buf, p0, input) && CString(input)
    ensures p == After(input, p0)
  {
    p := p0;
    while At(buf, p, input) == SLASH
      invariant p0 <= p <= |input|
      invariant After(input, p) == After(input, p0)
      decreases |input| - p
    {
      assert input[p..][1..] == input[p + 1..];
      p := p + 1;
    }
  }

  /** Moves the writer back over the last finished component. */
  method Backtrack(buf: array<Byte>, q0: nat, ghost input: Bytes, ghost stack: seq<Bytes>) returns (q: nat)
    requires 0 < q0 <= |input| < buf.Length
    requires Identifiers(stack) && stack != [] && buf[..q0] == Prefix(stack)
    ensures q < q0 && buf[..q] == Prefix(stack[..|stack| - 1])
  {
    ghost var rest, top := Prefix(stack[..|stack| - 1]), stack[|stack| - 1];
    assert Prefix(stack) == rest + top + [SLASH];
    assert forall i :: |rest| <= i < q0 - 1 ==> buf[..q0][i] == top[i - |rest|];
    PrefixEndsWithSlash(stack[..|stack| - 1]);
    assert rest != [] ==> buf[..q0][|rest| - 1] == SLASH;
    q := q0 - 1;
    while q > 0 && At(buf, q - 1, input) != SLASH
      invariant |rest| <= q < q0
    {
      q := q - 1;
    }
    assert buf[..q] == buf[..q0][..q];
  }

  // One lemma per way the program can go at the start of a term.

  lemma {:induction false} CutAt(s: Bytes, p: nat)
    requires p <= |s|
    ensures var end := p + FirstSlash(s[p..]);
            && p <= end <= |s|
            && (forall i :: p <= i < end ==> s[i] != SLASH)
            && (end < |s| ==> s[end] == SLASH)
  {
    hide FirstSlash;
    var cut := FirstSlash(s[p..]);
    assert forall i :: p <= i < p + cut ==> s[i] == s[p..][i - p];
    assert p + cut < |s| ==> s[p + cut] == s[p..][cut];
  }

  lemma FirstSlashAt(s: Bytes, i: nat)
    requires i < |s| && s[i] == SLASH && forall k :: 0 <= k < i ==> s[k] != SLASH
    ensures FirstSlash(s) == i
  {
  }

  lemma {:induction false} TermsFrom(s: Bytes, p: nat, cut: nat)
    requires p + cut < |s| && FirstSlash(s[p..]) == cut
    ensures Terms(s[p..]) == [s[p..p + cut]] + Terms(s[After(s, p + cut + 1)..])
  {
    hide Slashes, FirstSlash;
    var rest := s[p..];
    assert rest[cut + 1..] == s[p + cut + 1..];
    assert Beyond(rest, cut + 1) == s[After(s, p + cut + 1)..];
    assert rest[..cut] == s[p..p + cut];
  }

  lemma {:induction false} SkipHere(s: Bytes, p: nat, stack: seq<Bytes>)
    requires p + 1 < |s| && s[p] == DOT && s[p + 1] == SLASH
    ensures Walk(Terms(s[p..]), stack) == Walk(Terms(s[After(s, p + 2)..]), stack)
  {
    hide Slashes, FirstSlash;
    FirstSlashAt(s[p..], 1);
    TermsFrom(s, p, 1);
    WalkStep(s[p..p + 1], Terms(s[After(s, p + 2)..]), stack);
  }

  lemma {:induction false} StepBack(s: Bytes, p: nat, stack: seq<Bytes>)
    requires p + 2 < |s| && s[p] == DOT && s[p + 1] == DOT && s[p + 2] == SLASH
    ensures Walk(Terms(s[p..]), stack) ==
            if stack == [] then None else Walk(Terms(s[After(s, p + 3)..]), stack[..|stack| - 1])
  {
    hide Slashes, FirstSlash;
    FirstSlashAt(s[p..], 2);
    TermsFrom(s, p, 2);
    WalkStep(s[p..p + 2], Terms(s[After(s, p + 3)..]), stack);
  }

  lemma {:induction false} WalkStep(t: Bytes, ts: seq<Bytes>, stack: seq<Bytes>)
    requires ts != []
    ensures Walk([t] + ts, stack) ==
            if t == HERE[..1] then Walk(ts, stack)
            else if t == [DOT, DOT] then (if stack == [] then None else Walk(ts, stack[..|stack| - 1]))
            else if Identifier(t) then Walk(ts, stack + [t])
            else None
  {
    assert ([t] + ts)[1..] == ts;
  }

  lemma {:induction false} TermsLast(s: Bytes)
    requires FirstSlash(s) == |s|
    ensures Terms(s) == [s]
  {
  }

  lemma {:induction false} WalkLast(t: Bytes, stack: seq<Bytes>)
    ensures Walk([t], stack) == if Identifier(t) then Some(stack + [t]) else None
  {
  }

  lemma {:induction false} PushTerm(s: Bytes, p: nat, stack: seq<Bytes>)
    requires CString(s) && p < |s| && s[p] != DOT && s[p] != SLASH
    ensures var cut := FirstSlash(s[p..]);
            && 0 < cut && Identifier(s[p..p + cut])
            && Walk(Terms(s[p..]), stack) ==
               if p + cut == |s| then Some(stack + [s[p..p + cut]])
               else Walk(Terms(s[After(s, p + cut + 1)..]), stack + [s[p..p + cut]])
  {
    hide Walk, Terms, FirstSlash, Slashes;
    var cut, t := FirstSlash(s[p..]), s[p..p + FirstSlash(s[p..])];
    CutAt(s, p);
    assert forall k :: 0 <= k < cut ==> t[k] == s[p + k];
    if p + cut < |s| {
      TermsFrom(s, p, cut);
      WalkStep(t, Terms(s[After(s, p + cut + 1)..]), stack);
    } else {
      assert s[p..] == t;
      TermsLast(t);
      WalkLast(t, stack);
    }
  }

  /** An empty term, or one that starts with a period and is not a whole "." or "..", stops the walk. */
  lemma {:induction false} Stuck(s: Bytes, p: nat, stack: seq<Bytes>)
    requires p <= |s| && (p < |s| ==> s[p] == SLASH || s[p] == DOT)
    requires p < |s| && s[p] == DOT ==> !(HERE <= s[p..]) && !([DOT, DOT, SLASH] <= s[p..])
    ensures Walk(Terms(s[p..]), stack) == None
  {
    hide Slashes;
    var cut, rest := FirstSlash(s[p..]), s[p..];
    if p + cut < |s| {
      TermsFrom(s, p, cut);
      WalkStep(s[p..p + cut], Terms(s[After(s, p + cut + 1)..]), stack);
      assert rest[..cut] == s[p..p + cut];
      assert s[p] == rest[0];
      assert rest[..cut] == [DOT] ==> cut == 1 && HERE <= rest;
      assert rest[..cut] == [DOT, DOT] ==> cut == 2 && [DOT, DOT, SLASH] <= rest;
    }
  }

  lemma {:induction false} Pushed(stack: seq<Bytes>, t: Bytes)
    requires Identifiers(stack) && Identifier(t)
    ensures Identifiers(stack + [t])
    ensures Prefix(stack + [t]) == Prefix(stack) + t + [SLASH]
    ensures Join(stack + [t]) == Prefix(stack) + t
  {
    assert (stack + [t])[..|stack|] == stack;
  }

  /** Writes one byte and moves the writer on. */
  method Put(buf: array<Byte>, q0: nat, c: Byte) returns (q: nat)
    requires q0 < buf.Length
    modifies buf
    ensures q == q0 + 1 && buf[..q] == old(buf[..q0]) + [c]
    ensures forall i :: q <= i < buf.Length ==> buf[i] == old(buf[i])
  {
    buf[q0] := c;
    q := q0 + 1;
  }

  /**
   Copies one term from the reader at `p0` to the writer at `q0`, with the slash that ends it.
   Only bytes already read are overwritten.
   */
  method CopyTerm(buf: array<Byte>, p0: nat, q0: nat, ghost input: Bytes) returns (p: nat, q: nat, done: bool)
    requires Unread(buf, p0, input) && CString(input)
    requires q0 <= p0 < |input| && input[p0] != SLASH
    modifies buf
    ensures var cut := FirstSlash(input[p0..]);
            && done == (p0 + cut == |input|)
            && p == p0 + cut + 1
            && q == q0 + cut + (if done then 0 else 1)
            && buf[..q] == old(buf[..q0]) + input[p0..p0 + cut] + if done then [] else [SLASH]
    ensures forall i :: p <= i < buf.Length ==> buf[i] == old(buf[i])
    ensures buf[|input|] == NUL
  {
    hide FirstSlash, Slashes;
    ghost var cut, out := FirstSlash(input[p0..]), buf[..q0];
    CutAt(input, p0);
    p, q := p0 + 1, q0;
    var c := At(buf, p0, input);
    while c != NUL && c != SLASH
      invariant p0 < p <= p0 + cut + 1 && q == q0 + (p - 1 - p0)
      invariant c == if p - 1 < |input| then input[p - 1] else NUL
      invariant buf[..q] == out + input[p0..p - 1]
      invariant forall i :: p <= i < buf.Length ==> buf[i] == old(buf[i])
      invariant buf[|input|] == NUL
      decreases |input| + 1 - p
    {
      q := Put(buf, q, c);
      assert input[p0..p] == input[p0..p - 1] + [c];
      c := At(buf, p, input);
      p := p + 1;
    }
    done := c == NUL;
    if !done {
      q := Put(buf, q, SLASH);
    }
  }

  /** What the loop keeps: the writer's output is the stack, and the walk over the rest gives the answer. */
  ghost predicate Walking(buf: array<Byte>, p: nat, q: nat, input: Bytes, stack: seq<Bytes>, answer: Option<seq<Bytes>>)
    reads buf
  {
    && q <= p && Unread(buf, p, input) && CString(input)
    && Identifiers(stack) && buf[..q] == Prefix(stack)
    && answer == Walk(Terms(input[p..]), stack)
  }

  /** The branch for an identifier: copy it, push it, and eat the slashes behind it unless it was the last. */
  method TakeTerm(buf: array<Byte>, p0: nat, q0: nat, ghost input: Bytes, ghost stack0: seq<Bytes>,
      ghost answer: Option<seq<Bytes>>)
    returns (p: nat, q: nat, done: bool, ghost stack: seq<Bytes>)
    requires Walking(buf, p0, q0, input, stack0, answer)
    requires p0 < |input| && input[p0] != DOT && input[p0] != SLASH
    modifies buf
    ensures !done ==> p0 < p && Walking(buf, p, q, input, stack, answer)
    ensures done ==> q0 <= q <= buf.Length && Outcome(answer) == Resolved(buf[..q], buf[q0..q])
    ensures forall i :: |input| <= i < buf.Length ==> buf[i] == old(buf[i])
  {
    hide Walk, Terms, Prefix, FirstSlash, Slashes;
    ghost var cut := FirstSlash(input[p0..]);
    ghost var t := input[p0..p0 + cut];
    PushTerm(input, p0, stack0);
    Pushed(stack0, t);
    p, q, done := CopyTerm(buf, p0, q0, input);
    stack := stack0 + [t];
    if done {
      assert buf[q0..q] == buf[..q][q0..] == t;
    } else {
      p := EatSlashes(buf, p, input);
    }
  }

  /** The branch for "..": drop the last output component, or fail when there is none. */
  method GoUp(buf: array<Byte>, p0: nat, q0: nat, ghost input: Bytes, ghost stack0: seq<Bytes>,
      ghost answer: Option<seq<Bytes>>)
    returns (p: nat, q: nat, ghost stack: seq<Bytes>)
    requires Walking(buf, p0, q0, input, stack0, answer)
    requires p0 + 2 < |input| && input[p0] == input[p0 + 1] == DOT && input[p0 + 2] == SLASH
    requires q0 > 0
    ensures p0 < p && Walking(buf, p, q, input, stack, answer)
  {
    hide Walk, Terms, Prefix, Slashes;
    PrefixEndsWithSlash(stack0);
    StepBack(input, p0, stack0);
    q := Backtrack(buf, q0, input, stack0);
    stack := stack0[..|stack0| - 1];
    p := EatSlashes(buf, p0 + 3, input);
  }

  /**
   The resolution loop. The result is that of the reference on the same bytes, and nothing
   at or after the terminator is written.
   */
  method ResolveInPlace(buf: array<Byte>, ghost input: Bytes) returns (r: Resolved)
    requires |input| < buf.Length && buf[..|input|] == input && buf[|input|] == NUL && CString(input)
    modifies buf
    ensures r == Outcome(Walk(Terms(input), []))
    ensures forall i :: |input| <= i < buf.Length ==> buf[i] == old(buf[i])
  {
    hide Walk, Terms, FirstSlash, Slashes;
    ghost var stack: seq<Bytes> := [];
    ghost var answer := Walk(Terms(input), []);
    var p: nat, q: nat := 0, 0;
    assert input[p..] == input;
    while true
      invariant Walking(buf, p, q, input, stack, answer)
      invariant forall i :: |input| <= i < buf.Length ==> buf[i] == old(buf[i])
      decreases |input| - p
    {
      var c := At(buf, p, input);
      if c == NUL {
        Stuck(input, p, stack);
        return CannotResolve;
      } else if c == DOT {
        c := At(buf, p + 1, input);
        if c == SLASH {
          SkipHere(input, p, stack);
          p := EatSlashes(buf, p + 2, input);
        } else if c == DOT && At(buf, p + 2, input) == SLASH {
          if q == 0 {
            StepBack(input, p, stack);
            PrefixEndsWithSlash(stack);
            return CannotResolve;
          }
          p, q, stack := GoUp(buf, p, q, input, stack, answer);
        } else {
          Stuck(input, p, stack);
          return CannotResolve;
        }
      } else if c == SLASH {
        Stuck(input, p, stack);
        return CannotResolve;
      } else {
        var qLast, done := q, false;
        p, q, done, stack := TakeTerm(buf, p, q, input, stack, answer);
        if done {
          return Resolved(buf[..q], buf[qLast..q]);
        }
      }
    }
  }

  /** The whole resolver: build the input in a fixed buffer, reject what does not fit, resolve. */
  method ResolveModuleId(req: Bytes, mod: Option<Bytes>) returns (r: Resolved)
    requires CString(req) && (mod.Some? ==> CString(mod.value))
    ensures r == Resolve(req, mod)
  {
    var input := Input(req, mod);
    if |input| >= ID_LIMIT {
      return CannotResolve;
    }
    var buf := new Byte[ID_LIMIT](i => if 0 <= i < |input| then input[i] else NUL);
    assert buf[..|input|] == input;
    r := ResolveInPlace(buf, input);
  }

  // ------------------------------------------------- what a resolved id looks like

  /** Non-empty terms with no leading period, single slashes between them, none at either end. */
  predicate Canonical(id: Bytes) {
    && id != [] && CString(id)
    && id[0] != SLASH && id[0] != DOT
    && forall i :: 0 <= i < |id| && id[i] == SLASH ==>
         i + 1 < |id| && id[i + 1] != SLASH && id[i + 1] != DOT
  }

  /** The directory part of an id: everything up to its last slash, that slash included. */
  function Directory(id: Bytes): Bytes {
    if id == [] || id[|id| - 1] == SLASH then id else Directory(id[..|id| - 1])
  }

  function Total(ts: seq<Bytes>): nat {
    if ts == [] then 0 else |ts[0]| + 1 + Total(ts[1..])
  }

  lemma {:induction false} WalkKeeps(ts: seq<Bytes>, stack: seq<Bytes>)
    requires ts != [] && Identifiers(stack)
    ensures var r := Walk(ts, stack);
            r.Some? ==> r.value != [] && Identifiers(r.value) && |Prefix(r.value)| <= |Prefix(stack)| + Total(ts)
    decreases |ts|
  {
    hide Prefix;
    if |ts| == 1 {
      if Identifier(ts[0]) {
        Pushed(stack, ts[0]);
      }
    } else if ts[0] == [DOT] {
      WalkKeeps(ts[1..], stack);
    } else if ts[0] == [DOT, DOT] {
      if stack != [] {
        var n := |stack| - 1;
        assert stack[..n] + [stack[n]] == stack;
        Pushed(stack[..n], stack[n]);
        WalkKeeps(ts[1..], stack[..n]);
      }
    } else if Identifier(ts[0]) {
      Pushed(stack, ts[0]);
      WalkKeeps(ts[1..], stack + [ts[0]]);
    }
  }

  lemma {:induction false} TermsFit(s: Bytes)
    ensures Total(Terms(s)) <= |s| + 1
    decreases |s|
  {
    var i := FirstSlash(s);
    if i < |s| {
      var rest := Terms(Beyond(s, i + 1));
      TermsFit(Beyond(s, i + 1));
      assert ([s[..i]] + rest)[1..] == rest;
    }
  }

  lemma {:induction false} PrefixIsClean(ts: seq<Bytes>)
    requires Identifiers(ts)
    ensures var out := Prefix(ts);
            && CString(out)
            && (out != [] ==> out[0] != SLASH && out[0] != DOT && out[|out| - 1] == SLASH)
            && forall i :: 0 <= i < |out| - 1 && out[i] == SLASH ==> out[i + 1] != SLASH && out[i + 1] != DOT
  {
    if ts != [] {
      var n := |ts| - 1;
      PrefixIsClean(ts[..n]);
      var out, t := Prefix(ts[..n]), ts[n];
      assert Prefix(ts) == out + t + [SLASH];
      assert forall i :: |out| <= i < |out| + |t| ==> Prefix(ts)[i] == t[i - |out|];
      assert forall i :: 0 <= i < |out| ==> Prefix(ts)[i] == out[i];
      assert t[0] != SLASH && t[0] != DOT;
    }
  }

  lemma {:induction false} JoinIsCanonical(ts: seq<Bytes>)
    requires ts != [] && Identifiers(ts)
    ensures Canonical(Join(ts)) && |Join(ts)| == |Prefix(ts)| - 1
  {
    PrefixIsClean(ts);
    assert Prefix(ts) == Join(ts) + [SLASH];
    assert forall i :: 0 <= i < |Join(ts)| ==> Prefix(ts)[i] == Join(ts)[i];
    PrefixEndsWithSlash(ts);
    var n := |ts| - 1;
    assert ts[n][|ts[n]| - 1] != SLASH;
    assert Join(ts)[|Join(ts)| - 1] == ts[n][|ts[n]| - 1];
  }

  /** Whatever resolves is canonical, ends in its last component, and is no longer than the input. */
  lemma ResolvedIsCanonical(req: Bytes, mod: Option<Bytes>)
    requires Resolve(req, mod).Resolved?
    ensures var r := Resolve(req, mod);
            && Canonical(r.id)
            && |r.id| <= |Input(req, mod)| < ID_LIMIT
            && Identifier(r.last) && r.id == Directory(r.id) + r.last
  {
    hide Prefix, Terms, Walk;
    var input := Input(req, mod);
    var ts := Walk(Terms(input), []).value;
    TermsFit(input);
    WalkKeeps(Terms(input), []);
    assert Prefix([]) == [] by { PrefixEndsWithSlash([]); }
    JoinIsCanonical(ts);
    DirectoryOfJoin(ts);
  }

  lemma {:induction false} DirectoryOf(out: Bytes, t: Bytes)
    requires out == [] || out[|out| - 1] == SLASH
    requires forall i :: 0 <= i < |t| ==> t[i] != SLASH
    ensures Directory(out + t) == out
    decreases |t|
  {
    if t == [] {
      assert out + t == out;
    } else {
      var n := |t| - 1;
      assert (out + t)[|out + t| - 1] == t[n];
      assert (out + t)[..|out + t| - 1] == out + t[..n];
      DirectoryOf(out, t[..n]);
    }
  }

  lemma DirectoryOfJoin(ts: seq<Bytes>)
    requires ts != [] && Identifiers(ts)
    ensures Directory(Join(ts)) == Prefix(ts[..|ts| - 1])
  {
    hide Directory;
    PrefixEndsWithSlash(ts[..|ts| - 1]);
    DirectoryOf(Prefix(ts[..|ts| - 1]), ts[|ts| - 1]);
  }

  lemma {:induction false} PrefixCons(t: Bytes, ts: seq<Bytes>)
    ensures Prefix([t] + ts) == t + [SLASH] + Prefix(ts)
    decreases |ts|
  {
    if ts == [] {
      assert ([t] + ts)[..0] == [];
    } else {
      var n := |ts| - 1;
      assert ([t] + ts)[..n + 1] == [t] + ts[..n];
      PrefixCons(t, ts[..n]);
    }
  }

  /** The tail of a canonical id behind its first term. */
  lemma {:induction false} CanonicalTail(s: Bytes)
    requires Canonical(s)
    ensures var i := FirstSlash(s);
            && Identifier(s[..i])
            && (i < |s| ==> Canonical(s[i + 1..]) && Beyond(s, i + 1) == s[i + 1..])
  {
    hide FirstSlash;
    var i := FirstSlash(s);
    assert i > 0 && s[..i][0] == s[0];
    if i < |s| {
      var tail := s[i + 1..];
      assert forall k :: 0 <= k < |tail| ==> tail[k] == s[i + 1 + k];
      assert Slashes(tail) == 0;
    }
  }

  lemma {:induction false} TermsCons(s: Bytes)
    requires FirstSlash(s) < |s|
    ensures Terms(s) == [s[..FirstSlash(s)]] + Terms(Beyond(s, FirstSlash(s) + 1))
  {
  }

  lemma JoinOne(t: Bytes)
    ensures Join([t]) == t
  {
  }

  lemma JoinCons(t: Bytes, ts: seq<Bytes>)
    requires ts != []
    ensures Join([t] + ts) == t + [SLASH] + Join(ts)
  {
    hide Prefix;
    var n := |ts| - 1;
    assert ([t] + ts)[..n + 1] == [t] + ts[..n];
    PrefixCons(t, ts[..n]);
  }

  /** Reading back a canonical id gives its terms, and joining them gives the id. */
  lemma {:induction false} TermsOfCanonical(s: Bytes)
    requires Canonical(s)
    ensures Identifiers(Terms(s)) && Join(Terms(s)) == s
    decreases |s|
  {
    hide FirstSlash, Slashes, Terms, Prefix, Canonical, Join;
    var i := FirstSlash(s);
    CanonicalTail(s);
    if i < |s| {
      var t, tail := s[..i], s[i + 1..];
      TermsCons(s);
      TermsOfCanonical(tail);
      JoinCons(t, Terms(tail));
      CutAt(s, 0);
      assert s[0..] == s;
      assert s == t + [SLASH] + tail;
    } else {
      assert s[..i] == s;
      TermsLast(s);
      JoinOne(s);
    }
  }

  lemma {:induction false} WalkPushesAll(ts: seq<Bytes>, stack: seq<Bytes>)
    requires ts != [] && Identifiers(ts)
    ensures Walk(ts, stack) == Some(stack + ts)
    decreases |ts|
  {
    if |ts| == 1 {
      assert ts == [ts[0]];
    } else {
      assert ts[0][0] != DOT;
      WalkPushesAll(ts[1..], stack + [ts[0]]);
      assert stack + [ts[0]] + ts[1..] == stack + ts;
    }
  }

  /** A canonical id that fits resolves to itself, from any module. */
  lemma ResolveCanonical(id: Bytes, mod: Option<Bytes>)
    requires Canonical(id) && |id| < ID_LIMIT
    ensures Resolve(id, mod).Resolved? && Resolve(id, mod).id == id
  {
    hide Terms, Walk;
    TermsOfCanonical(id);
    WalkPushesAll(Terms(id), []);
    assert [] + Terms(id) == Terms(id);
  }

  /** Resolving a resolved id again, from wherever, changes nothing. */
  lemma ResolveIsIdempotent(req: Bytes, mod: Option<Bytes>, other: Option<Bytes>)
    requires Resolve(req, mod).Resolved?
    ensures Resolve(Resolve(req, mod).id, other) == Resolve(req, mod)
  {
    hide Terms, Walk, Directory;
    var r := Resolve(req, mod);
    ResolvedIsCanonical(req, mod);
    ResolveCanonical(r.id, other);
    TermsOfCanonical(r.id);
    WalkPushesAll(Terms(r.id), []);
    assert [] + Terms(r.id) == Terms(r.id);
    DirectoryOfJoin(Terms(r.id));
    var n := |Terms(r.id)| - 1;
    assert r.id == Directory(r.id) + Terms(r.id)[n];
    assert Terms(r.id)[n] == r.id[|Directory(r.id)|..] == r.last;
  }

  // --------------------------------------------------------------- relative requests

  lemma {:induction false} TermsOfConcat(a: Bytes, b: Bytes)
    requires Canonical(a) && b != [] && b[0] != SLASH
    ensures Terms(a + [SLASH] + b) == Terms(a) + Terms(b)
    decreases |a|
  {
    hide FirstSlash, Slashes, Terms, Canonical;
    var i, s := FirstSlash(a), a + [SLASH] + b;
    CanonicalTail(a);
    CutInConcat(a, b);
    TermsCons(s);
    if i < |a| {
      TermsCons(a);
      assert s[i + 1..] == a[i + 1..] + [SLASH] + b;
      SlashesInConcat(a[i + 1..], b);
      TermsOfConcat(a[i + 1..], b);
    } else {
      assert s[i + 1..] == b;
      SlashesOfTerm(b);
      assert a[..i] == a;
      TermsLast(a);
    }
  }

  lemma {:induction false} CutInConcat(a: Bytes, b: Bytes)
    ensures FirstSlash(a + [SLASH] + b) == FirstSlash(a)
    ensures (a + [SLASH] + b)[..FirstSlash(a)] == a[..FirstSlash(a)]
  {
    hide FirstSlash;
    var i, s := FirstSlash(a), a + [SLASH] + b;
    assert forall k :: 0 <= k < |a| ==> s[k] == a[k];
    FirstSlashAt(s, i);
  }

  lemma SlashesInConcat(a: Bytes, b: Bytes)
    requires Canonical(a)
    ensures Slashes(a + [SLASH] + b) == 0
  {
    assert (a + [SLASH] + b)[0] == a[0];
    SlashesOfTerm(a + [SLASH] + b);
  }

  lemma {:induction false} WalkAppend(ts: seq<Bytes>, more: seq<Bytes>, stack: seq<Bytes>)
    requires Identifiers(ts) && more != []
    ensures Walk(ts + more, stack) == Walk(more, stack + ts)
    decreases |ts|
  {
    if ts == [] {
      assert ts + more == more && stack + ts == stack;
    } else {
      assert ts[0][0] != DOT;
      assert (ts + more)[1..] == ts[1..] + more;
      WalkAppend(ts[1..], more, stack + [ts[0]]);
      assert stack + [ts[0]] + ts[1..] == stack + ts;
    }
  }

  /** A relative request is walked from the requiring module's parent, provided the whole input fits. */
  lemma RelativeStartsAtParent(req: Bytes, m: Bytes)
    requires req != [] && req[0] == DOT && Canonical(m)
    ensures Resolve(req, Some(m)) ==
            if |m| + 4 + |req| < ID_LIMIT then Outcome(Walk(Terms(req), Terms(m)[..|Terms(m)| - 1]))
            else CannotResolve
  {
    hide Terms, Walk, FirstSlash, Slashes, Canonical, Prefix, Join;
    var back := [DOT, DOT, SLASH] + req;
    InputOfRelative(req, m);
    WalkFromModule(back, m);
    TermsOfCanonical(m);
    BackFirst(req, Terms(m));
  }

  lemma InputOfRelative(req: Bytes, m: Bytes)
    requires req != [] && req[0] == DOT
    ensures Input(req, Some(m)) == m + [SLASH] + ([DOT, DOT, SLASH] + req)
  {
    assert BACK == [SLASH] + [DOT, DOT, SLASH];
  }

  lemma WalkFromModule(rest: Bytes, m: Bytes)
    requires rest != [] && rest[0] != SLASH && Canonical(m)
    ensures Walk(Terms(m + [SLASH] + rest), []) == Walk(Terms(rest), Terms(m))
  {
    hide Terms, Walk, FirstSlash, Slashes, Canonical, Prefix, Join;
    TermsOfConcat(m, rest);
    TermsOfCanonical(m);
    WalkAppend(Terms(m), Terms(rest), []);
    assert [] + Terms(m) == Terms(m);
  }

  lemma BackFirst(req: Bytes, stack: seq<Bytes>)
    requires req != [] && req[0] != SLASH && stack != []
    ensures Walk(Terms([DOT, DOT, SLASH] + req), stack) == Walk(Terms(req), stack[..|stack| - 1])
  {
    hide Terms, Walk, FirstSlash, Slashes;
    var back := [DOT, DOT, SLASH] + req;
    StepBack(back, 0, stack);
    assert back[0..] == back && back[3..] == req;
    SlashesOfTerm(req);
  }

  lemma SlashesOfTerm(s: Bytes)
    requires s == [] || s[0] != SLASH
    ensures Slashes(s) == 0
  {
  }

  /** "./x" required from module m names x next to m, and resolves exactly when the input fits the buffer. */
  lemma SiblingRequest(x: Bytes, m: Bytes)
    requires Canonical(x) && Canonical(m)
    ensures var r := Resolve(HERE + x, Some(m));
            && (r.Resolved? <==> |m| + 4 + 2 + |x| < ID_LIMIT)
            && (r.Resolved? ==> r.id == Directory(m) + x)
  {
    hide Terms, Walk, FirstSlash, Slashes, Canonical, Prefix, Join, Directory;
    var parent, ts := Terms(m)[..|Terms(m)| - 1], Terms(x);
    assert HERE + x != [] && (HERE + x)[0] == DOT;
    RelativeStartsAtParent(HERE + x, m);
    HereFirst(x, parent);
    TermsOfCanonical(x);
    TermsOfCanonical(m);
    WalkPushesAll(ts, parent);
    DirectoryOfJoin(Terms(m));
    JoinAppend(parent, ts);
  }

  lemma HereFirst(x: Bytes, stack: seq<Bytes>)
    requires Canonical(x)
    ensures Walk(Terms(HERE + x), stack) == Walk(Terms(x), stack)
  {
    hide Terms, Walk, FirstSlash, Slashes;
    SkipHere(HERE + x, 0, stack);
    assert (HERE + x)[0..] == HERE + x && (HERE + x)[2..] == x;
    SlashesOfTerm(x);
  }

  lemma JoinAppend(a: seq<Bytes>, b: seq<Bytes>)
    requires b != []
    ensures Join(a + b) == Prefix(a) + Join(b)
  {
    hide Prefix;
    var n := |b| - 1;
    assert (a + b)[..|a| + n] == a + b[..n];
    PrefixAppend(a, b[..n]);
  }

  lemma {:induction false} PrefixAppend(a: seq<Bytes>, b: seq<Bytes>)
    ensures Prefix(a + b) == Prefix(a) + Prefix(b)
    decreases |b|
  {
    if b == [] {
      assert a + b == a;
    } else {
      var n := |b| - 1;
      assert (a + b)[..|a| + n] == a + b[..n];
      PrefixAppend(a, b[..n]);
    }
  }

  /** "../x" required from up/last names x next to up, and resolves exactly when the input fits the buffer. */
  lemma ParentRequest(x: Bytes, up: Bytes, last: Bytes)
    requires Canonical(x) && Canonical(up) && Identifier(last)
    ensures var m := up + [SLASH] + last;
            var r := Resolve([DOT, DOT, SLASH] + x, Some(m));
            && Canonical(m)
            && (r.Resolved? <==> |m| + 4 + 3 + |x| < ID_LIMIT)
            && (r.Resolved? ==> r.id == Directory(up) + x)
  {
    hide Terms, Walk, FirstSlash, Slashes, Canonical, Prefix, Join, Directory;
    var req, m := [DOT, DOT, SLASH] + x, up + [SLASH] + last;
    TermsBelow(up, last);
    assert req != [] && req[0] == DOT;
    RelativeStartsAtParent(req, m);
    assert Terms(m)[..|Terms(m)| - 1] == Terms(up);
    CanonicalStart(x);
    TermsOfCanonical(up);
    TermsOfCanonical(x);
    BackFirst(x, Terms(up));
    var above := Terms(up)[..|Terms(up)| - 1];
    WalkPushesAll(Terms(x), above);
    DirectoryOfJoin(Terms(up));
    JoinAppend(above, Terms(x));
  }

  /** From a module at the top "../x" fails. */
  lemma ParentOfTopFails(x: Bytes, m: Bytes)
    requires Canonical(x) && Identifier(m)
    ensures Resolve([DOT, DOT, SLASH] + x, Some(m)) == CannotResolve
  {
    hide Terms, Walk, FirstSlash, Slashes, Prefix, Join, Directory;
    var req := [DOT, DOT, SLASH] + x;
    OneTerm(m);
    JoinOne(m);
    JoinIsCanonical([m]);
    assert req != [] && req[0] == DOT;
    RelativeStartsAtParent(req, m);
    assert Terms(m)[..|Terms(m)| - 1] == [];
    StepBack(req, 0, []);
    assert req[0..] == req;
  }

  /** A proper term below a canonical id makes a canonical id, with that term at the end. */
  lemma TermsBelow(up: Bytes, last: Bytes)
    requires Canonical(up) && Identifier(last)
    ensures Canonical(up + [SLASH] + last) && Terms(up + [SLASH] + last) == Terms(up) + [last]
  {
    hide Terms, FirstSlash, Slashes, Canonical, Prefix, Join;
    OneTerm(last);
    TermsOfConcat(up, last);
    TermsOfCanonical(up);
    Pushed(Terms(up), last);
    JoinIsCanonical(Terms(up) + [last]);
    PrefixIsJoin(Terms(up));
  }

  lemma PrefixIsJoin(ts: seq<Bytes>)
    requires ts != []
    ensures Prefix(ts) == Join(ts) + [SLASH]
  {
  }

  lemma CanonicalStart(x: Bytes)
    requires Canonical(x)
    ensures x != [] && x[0] != SLASH && x[0] != DOT
  {
    CanonicalTail(x);
    assert x[..FirstSlash(x)][0] == x[0];
  }

  lemma OneTerm(t: Bytes)
    requires Identifier(t)
    ensures FirstSlash(t) == |t| && Terms(t) == [t]
    ensures t[0] != SLASH
  {
    TermsLast(t);
  }

  // ------------------------------------------------- requests without a module

  /** A request that does not start with a period is resolved alike from everywhere. */
  lemma AbsoluteIgnoresModule(req: Bytes, mod: Option<Bytes>, other: Option<Bytes>)
    requires req == [] || req[0] != DOT
    ensures Resolve(req, mod) == Resolve(req, other)
  {
  }

  /** Without a requiring module "./x" is x, and "../x" fails. */
  lemma BareRelative(x: Bytes)
    requires Canonical(x)
    ensures var r := Resolve(HERE + x, None);
            (r.Resolved? <==> 2 + |x| < ID_LIMIT) && (r.Resolved? ==> r.id == x)
    ensures Resolve([DOT, DOT, SLASH] + x, None) == CannotResolve
  {
    hide Terms, Walk, FirstSlash, Slashes, Canonical, Prefix, Join;
    HereFirst(x, []);
    TermsOfCanonical(x);
    WalkPushesAll(Terms(x), []);
    assert [] + Terms(x) == Terms(x);
    var up := [DOT, DOT, SLASH] + x;
    StepBack(up, 0, []);
    assert up[0..] == up;
  }

  /** An id whose last term is "." or ".." names nothing. */
  lemma LastTermIsProper(a: Bytes, mod: Option<Bytes>)
    requires Canonical(a)
    ensures Resolve(a + [SLASH, DOT], mod) == CannotResolve
    ensures Resolve(a + [SLASH, DOT, DOT], mod) == CannotResolve
  {
    hide Terms, Walk, FirstSlash, Slashes, Canonical, Prefix, Join;
    CanonicalStart(a);
    EndsImproper(a, [DOT]);
    EndsImproper(a, [DOT, DOT]);
    assert a + [SLASH, DOT] == a + [SLASH] + [DOT];
    assert a + [SLASH, DOT, DOT] == a + [SLASH] + [DOT, DOT];
  }

  lemma EndsImproper(a: Bytes, dots: Bytes)
    requires Canonical(a) && (dots == [DOT] || dots == [DOT, DOT])
    ensures Walk(Terms(a + [SLASH] + dots), []) == None
  {
    hide Slashes, Canonical, Prefix, Join;
    WalkFromModule(dots, a);
    assert FirstSlash(dots) == |dots| by {
      assert dots[1..] == [] || (dots[1..] == [DOT] && dots[1..][1..] == []);
    }
    TermsLast(dots);
    WalkLast(dots, Terms(a));
  }
}
