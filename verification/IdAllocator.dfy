/**
 The document id allocator: ids are issued from memory, in blocks reserved beforehand in one
 file, so that a crash at any point loses ids but never issues one twice.
 */
module IdAllocator {

  import opened Optional

  const BLOCK := 1024

  /** Where the process stands: inside the start-up code, between calls, or inside a call. */
  datatype Phase = Starting | Ready | MustWrite | MustIssue

  /** `file` survives a crash, `memory` does not; `issued` is every id ever handed out. */
  datatype System = System(file: Option<nat>, memory: Option<Memory>, issued: seq<nat>, restarts: nat)

  datatype Memory = Memory(globalId: nat, reserved: nat, phase: Phase)

  /** One atomic action of the process, or its loss. */
  datatype Event = Boot | WriteZero | Enter | WriteFile | Issue | Crash

  predicate Enabled(s: System, e: Event) {
    match e
    case Boot => s.memory.None?
    case WriteZero => s.memory.Some? && s.memory.value.phase == Starting
    case Enter => s.memory.Some? && s.memory.value.phase == Ready
    case WriteFile => s.memory.Some? && s.memory.value.phase == MustWrite
    case Issue => s.memory.Some? && s.memory.value.phase == MustIssue
    case Crash => s.memory.Some?
  }

  function Step(s: System, e: Event): System
    requires Enabled(s, e)
  {
    match e
    case Boot =>
      s.(memory := Some(match s.file
        case None => Memory(0, 0, Starting)
        case Some(id) => Memory(id, id, Ready)), restarts := s.restarts + 1)
    case WriteZero => s.(file := Some(0), memory := Some(s.memory.value.(phase := Ready)))
    case Enter =>
      var m := s.memory.value;
      s.(memory := Some(
        if m.globalId == m.reserved then m.(reserved := m.reserved + BLOCK, phase := MustWrite)
        else m.(phase := MustIssue)))
    case WriteFile =>
      var m := s.memory.value;
      s.(file := Some(m.reserved), memory := Some(m.(phase := MustIssue)))
    case Issue =>
      var m := s.memory.value;
      s.(memory := Some(m.(globalId := m.globalId + 1, phase := Ready)), issued := s.issued + [m.globalId])
    case Crash => s.(memory := None)
  }

  const FRESH := System(None, None, [], 0)

  ghost predicate Run(ss: seq<System>, es: seq<Event>) {
    && |ss| == |es| + 1
    && ss[0] == FRESH
    && forall i :: 0 <= i < |es| ==> Enabled(ss[i], es[i]) && ss[i + 1] == Step(ss[i], es[i])
  }

  // --------------------------------------------------------------- invariant

  /** Ids that were passed over so far. */
  function Skipped(s: System): int {
    (match s.memory
     case Some(m) => m.globalId
     case None => if s.file.Some? then s.file.value else 0) - |s.issued|
  }

  ghost predicate Valid(s: System) {
    && (forall i, j :: 0 <= i < j < |s.issued| ==> s.issued[i] < s.issued[j])
    && (s.file.None? ==> s.issued == [] && (s.memory.Some? ==> s.memory.value == Memory(0, 0, Starting)))
    && (s.file.Some? ==> forall i :: 0 <= i < |s.issued| ==> s.issued[i] < s.file.value)
    && (s.memory.Some? ==>
          var m := s.memory.value;
          && (forall i :: 0 <= i < |s.issued| ==> s.issued[i] < m.globalId)
          && (s.file.Some? ==>
                && m.phase != Starting
                && m.reserved == s.file.value + (if m.phase == MustWrite then BLOCK else 0)
                && (if m.phase == MustWrite then m.globalId == s.file.value
                    else m.globalId <= s.file.value <= m.globalId + BLOCK)
                && (m.phase == MustIssue ==> m.globalId < s.file.value)))
    && 0 <= Skipped(s) <= BLOCK * (s.restarts - (if s.memory.Some? then 1 else 0))
  }

  lemma {:induction false} RunKeepsValid(ss: seq<System>, es: seq<Event>, i: nat)
    requires Run(ss, es) && i < |ss|
    ensures Valid(ss[i])
  {
    hide Valid, Enabled, Step;
    if i > 0 {
      RunKeepsValid(ss, es, i - 1);
      StepKeepsValid(ss[i - 1], es[i - 1]);
    } else {
      FreshIsValid();
    }
  }

  lemma FreshIsValid()
    ensures Valid(FRESH)
  {
  }

  lemma StepKeepsValid(s: System, e: Event)
    requires Valid(s) && Enabled(s, e)
    ensures Valid(Step(s, e))
  {
  }

  /**
   In every state of every run, whatever crashed where: no id was issued twice, they were issued
   in increasing order, and the k-th one is at most 1024 too high for every earlier restart.
   */
  lemma IdsAreFresh(ss: seq<System>, es: seq<Event>, i: nat, k: nat)
    requires Run(ss, es) && i < |ss| && k < |ss[i].issued|
    ensures forall j :: 0 <= j < k ==> ss[i].issued[j] < ss[i].issued[k]
    ensures k <= ss[i].issued[k] <= k + BLOCK * (ss[i].restarts - (if ss[i].memory.Some? then 1 else 0))
  {
    RunKeepsValid(ss, es, i);
    IssuedAtLeast(ss[i], k);
    IssuedAtMost(ss[i], k);
  }

  lemma {:induction false} IssuedAtLeast(s: System, k: nat)
    requires Valid(s) && k < |s.issued|
    ensures s.issued[k] >= k
  {
    if k > 0 {
      IssuedAtLeast(s, k - 1);
    }
  }

  lemma {:induction false} IssuedAtMost(s: System, k: nat)
    requires Valid(s) && k < |s.issued|
    ensures s.issued[k] <= k + Skipped(s)
    decreases |s.issued| - k
  {
    if k + 1 < |s.issued| {
      IssuedAtMost(s, k + 1);
    }
  }

  /** A crash anywhere, and the restart after it, passes over at most 1024 ids and goes back over none. */
  lemma RestartSkipsAtMostOneBlock(ss: seq<System>, es: seq<Event>, i: nat)
    requires Run(ss, es) && i < |ss| && ss[i].memory.Some?
    ensures var s := Step(Step(ss[i], Crash), Boot);
            && ss[i].memory.value.globalId <= s.memory.value.globalId <= ss[i].memory.value.globalId + BLOCK
            && s.issued == ss[i].issued
  {
    RunKeepsValid(ss, es, i);
  }

  // ------------------------------------------------------------------ program

  /** A call that is not interrupted. */
  function Call(s: System): System
    requires Enabled(s, Enter)
  {
    var s1 := Step(s, Enter);
    var s2 := if s1.memory.value.phase == MustWrite then Step(s1, WriteFile) else s1;
    Step(s2, Issue)
  }

  /** A start-up that is not interrupted. */
  function Start(s: System): System
    requires Enabled(s, Boot)
  {
    var s1 := Step(s, Boot);
    if s1.memory.value.phase == Starting then Step(s1, WriteZero) else s1
  }

  class Store {
    var globalId: nat
    var reservedGlobalId: nat
    var rootFile: Option<nat>
    ghost var issued: seq<nat>
    ghost var restarts: nat

    ghost function State(): System
      reads this
    {
      System(rootFile, Some(Memory(globalId, reservedGlobalId, Ready)), issued, restarts)
    }

    /** A process started over the root file that an earlier one left. */
    constructor (file: Option<nat>, ghost before: System)
      requires before.memory.None? && before.file == file
      ensures State() == Start(before)
    {
      globalId, reservedGlobalId := 0, 0;
      rootFile := file;
      issued, restarts := before.issued, before.restarts + 1;
      if file.None? {
        rootFile := Some(0);
      } else {
        globalId := file.value;
        reservedGlobalId := file.value;
      }
    }

    method GetNextId() returns (id: nat)
      modifies this
      ensures State() == Call(old(State()))
      ensures issued == old(issued) + [id]
      ensures id == old(globalId) && globalId == id + 1
    {
      if globalId == reservedGlobalId {
        reservedGlobalId := reservedGlobalId + BLOCK;
        rootFile := Some(reservedGlobalId);
      }
      id := globalId;
      globalId := globalId + 1;
      issued := issued + [id];
    }
  }
}
