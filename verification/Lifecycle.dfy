/** Any number of concurrent calls on one tunnel: Close swaps the device out under the write lock and
    closes it outside the lock; Stats, IpcHandle and Wait read it under the read lock and use it
    outside. Every interleaving of the calls' atomic steps is a run. */
module Lifecycle {
  import opened Wrappers

  datatype Pointer = NilDevice | Device

  datatype Op = Close | Stats | IpcHandle | Wait

  /** Where a call stands: before the lock, holding it, with the pointer loaded, with the field
      cleared (Close only), after the unlock, or returned. */
  datatype Pc = Start | Locked | Loaded | Cleared | Released | Returned

  datatype Answer = NoAnswer | FromDevice | ClosedAnswer

  /** late: the call started when the field was already nil. */
  datatype Thread = Thread(op: Op, pc: Pc, dev: Pointer, answer: Answer, late: bool)

  /** device is the pointer field, writer and readers the state of the RWMutex, calls the receivers
      of every method call made on a device, closes how often the device was closed. */
  datatype State = State(
    device: Pointer, writer: Option<nat>, readers: set<nat>, threads: seq<Thread>, calls: seq<Pointer>, closes: nat)

  datatype Action = Spawn(op: Op) | Step(i: nat)

  function Init(device: Pointer): State {
    State(device, None, {}, [], [], 0)
  }

  // ----- one atomic step

  function Put(s: State, i: nat, t: Thread): State
    requires i < |s.threads|
  {
    s.(threads := s.threads[i := t])
  }

  /** None when the step is blocked on the lock or the call has returned. */
  function StepClose(s: State, i: nat): Option<State>
    requires i < |s.threads|
  {
    var t := s.threads[i];
    match t.pc
    case Start =>
      if s.writer.None? && s.readers == {} then Some(Put(s.(writer := Some(i)), i, t.(pc := Locked))) else None
    case Locked => Some(Put(s, i, t.(pc := Loaded, dev := s.device)))
    case Loaded => Some(Put(s.(device := NilDevice), i, t.(pc := Cleared)))
    case Cleared => Some(Put(s.(writer := None), i, t.(pc := Released)))
    case Released =>
      var done := t.(pc := Returned);
      if t.dev != NilDevice then Some(Put(s.(calls := s.calls + [t.dev], closes := s.closes + 1), i, done))
      else Some(Put(s, i, done))
    case Returned => None
  }

  function StepReader(s: State, i: nat): Option<State>
    requires i < |s.threads|
  {
    var t := s.threads[i];
    match t.pc
    case Start =>
      if s.writer.None? then Some(Put(s.(readers := s.readers + {i}), i, t.(pc := Locked))) else None
    case Locked => Some(Put(s, i, t.(pc := Loaded, dev := s.device)))
    case Loaded => Some(Put(s.(readers := s.readers - {i}), i, t.(pc := Released)))
    case Cleared => None
    case Released =>
      if t.dev != NilDevice then
        Some(Put(s.(calls := s.calls + [t.dev]), i, t.(pc := Returned, answer := FromDevice)))
      else Some(Put(s, i, t.(pc := Returned, answer := ClosedAnswer)))
    case Returned => None
  }

  function Exec(s: State, a: Action): Option<State> {
    match a
    case Spawn(op) =>
      Some(s.(threads := s.threads + [Thread(op, Start, NilDevice, NoAnswer, s.device == NilDevice)]))
    case Step(i) =>
      if i >= |s.threads| then None
      else if s.threads[i].op == Close then StepClose(s, i) else StepReader(s, i)
  }

  /** The state after a sequence of actions, each of which was enabled. */
  function Run(s: State, actions: seq<Action>): Option<State> {
    if actions == [] then Some(s)
    else
      var before :- Run(s, actions[..|actions| - 1]);
      Exec(before, actions[|actions| - 1])
  }

  // ----- the invariant

  predicate HoldsWrite(t: Thread) {
    t.op == Close && (t.pc == Locked || t.pc == Loaded || t.pc == Cleared)
  }

  predicate HoldsRead(t: Thread) {
    t.op != Close && (t.pc == Locked || t.pc == Loaded)
  }

  /** A Close that took the device out of the field and has not closed it yet. */
  predicate Owes(t: Thread) {
    t.op == Close && t.dev == Device && (t.pc == Cleared || t.pc == Released)
  }

  function Owing(threads: seq<Thread>): nat {
    if threads == [] then 0
    else Owing(threads[..|threads| - 1]) + (if Owes(threads[|threads| - 1]) then 1 else 0)
  }

  ghost predicate LockInv(s: State) {
    && (forall i :: 0 <= i < |s.threads| ==> (HoldsWrite(s.threads[i]) <==> s.writer == Some(i)))
    && (forall i :: 0 <= i < |s.threads| ==> (HoldsRead(s.threads[i]) <==> i in s.readers))
    && (s.writer.Some? ==> s.writer.value < |s.threads| && s.readers == {})
    && (forall i :: i in s.readers ==> i < |s.threads|)
  }

  predicate ThreadInv(device: Pointer, t: Thread) {
    && (t.pc == Start || t.pc == Locked ==> t.dev == NilDevice)
    && (t.op != Close ==> t.pc != Cleared)
    && (t.op == Close && t.pc == Loaded ==> t.dev == device)
    && (t.op == Close && (t.pc == Cleared || t.pc == Released || t.pc == Returned) ==> device == NilDevice)
    && (t.late ==> device == NilDevice && t.dev == NilDevice)
    && (t.op != Close && device == Device && t.pc != Start && t.pc != Locked ==> t.dev == Device)
    && (t.op != Close && t.pc == Returned ==> t.answer == if t.dev == Device then FromDevice else ClosedAnswer)
  }

  ghost predicate ThreadsInv(s: State) {
    forall i :: 0 <= i < |s.threads| ==> ThreadInv(s.device, s.threads[i])
  }

  /** The device is in the field, owed a close by one call, or closed: never two of these. */
  predicate Accounted(s: State, start: Pointer) {
    (if s.device == Device then 1 else 0) + Owing(s.threads) + s.closes == (if start == Device then 1 else 0)
  }

  /** A returned reader that called the device. */
  predicate Called(t: Thread) {
    t.op != Close && t.pc == Returned && t.answer == FromDevice
  }

  function Calls(threads: seq<Thread>): nat {
    if threads == [] then 0
    else Calls(threads[..|threads| - 1]) + (if Called(threads[|threads| - 1]) then 1 else 0)
  }

  /** Every call on the device is one close or one reader's, and each of those made exactly one. */
  predicate CallsCounted(s: State) {
    |s.calls| == s.closes + Calls(s.threads)
  }

  lemma {:induction false} CallsUpdate(threads: seq<Thread>, i: nat, t: Thread)
    requires i < |threads|
    ensures Calls(threads[i := t]) ==
            Calls(threads) - (if Called(threads[i]) then 1 else 0) + (if Called(t) then 1 else 0)
  {
    var n := |threads| - 1;
    if i < n {
      CallsUpdate(threads[..n], i, t);
      assert threads[i := t][..n] == threads[..n][i := t];
    } else {
      assert threads[i := t][..n] == threads[..n];
    }
  }

  /** In every state, the calls made on the device are those of its closes and of the readers that
      returned its answer, one each. */
  lemma {:induction false} OneCallEach(start: Pointer, actions: seq<Action>)
    requires Run(Init(start), actions).Some?
    ensures CallsCounted(Run(Init(start), actions).value)
  {
    if actions != [] {
      var n := |actions| - 1;
      OneCallEach(start, actions[..n]);
      RunInv(start, actions[..n]);
      CallsStep(Run(Init(start), actions[..n]).value, actions[n]);
    }
  }

  lemma CallsStep(s: State, a: Action)
    requires ThreadsInv(s) && CallsCounted(s) && Exec(s, a).Some?
    ensures CallsCounted(Exec(s, a).value)
  {
    var s' := Exec(s, a).value;
    match a
    case Spawn(op) =>
      assert s'.threads[..|s.threads|] == s.threads;
    case Step(i) =>
      assert ThreadInv(s.device, s.threads[i]);
      CallsUpdate(s.threads, i, s'.threads[i]);
  }

  ghost predicate NoNilCall(s: State) {
    forall k :: 0 <= k < |s.calls| ==> s.calls[k] == Device
  }

  ghost predicate Inv(s: State, start: Pointer) {
    LockInv(s) && ThreadsInv(s) && Accounted(s, start) && NoNilCall(s)
  }

  lemma {:induction false} OwingUpdate(threads: seq<Thread>, i: nat, t: Thread)
    requires i < |threads|
    ensures Owing(threads[i := t]) ==
            Owing(threads) - (if Owes(threads[i]) then 1 else 0) + (if Owes(t) then 1 else 0)
  {
    var n := |threads| - 1;
    if i < n {
      OwingUpdate(threads[..n], i, t);
      assert threads[i := t][..n] == threads[..n][i := t];
    } else {
      assert threads[i := t][..n] == threads[..n];
    }
  }

  lemma CloseStepLock(s: State, i: nat)
    requires LockInv(s) && i < |s.threads| && s.threads[i].op == Close && StepClose(s, i).Some?
    ensures LockInv(StepClose(s, i).value)
  {
  }

  lemma CloseStepThreads(s: State, i: nat)
    requires LockInv(s) && ThreadsInv(s) && i < |s.threads| && s.threads[i].op == Close && StepClose(s, i).Some?
    ensures ThreadsInv(StepClose(s, i).value)
  {
  }

  lemma CloseStepInv(s: State, i: nat, start: Pointer)
    requires Inv(s, start) && i < |s.threads| && s.threads[i].op == Close && StepClose(s, i).Some?
    ensures Inv(StepClose(s, i).value, start)
  {
    CloseStepLock(s, i);
    CloseStepThreads(s, i);
    CloseStepAccounts(s, i, start);
  }

  lemma CloseStepAccounts(s: State, i: nat, start: Pointer)
    requires LockInv(s) && ThreadsInv(s) && Accounted(s, start) && NoNilCall(s)
    requires i < |s.threads| && s.threads[i].op == Close && StepClose(s, i).Some?
    ensures Accounted(StepClose(s, i).value, start) && NoNilCall(StepClose(s, i).value)
  {
    OwingUpdate(s.threads, i, StepClose(s, i).value.threads[i]);
    assert ThreadInv(s.device, s.threads[i]);
  }

  lemma ReaderStepLock(s: State, i: nat)
    requires LockInv(s) && i < |s.threads| && s.threads[i].op != Close && StepReader(s, i).Some?
    ensures LockInv(StepReader(s, i).value)
  {
  }

  lemma ReaderStepThreads(s: State, i: nat)
    requires ThreadsInv(s) && i < |s.threads| && s.threads[i].op != Close && StepReader(s, i).Some?
    ensures ThreadsInv(StepReader(s, i).value)
  {
  }

  lemma ReaderStepInv(s: State, i: nat, start: Pointer)
    requires Inv(s, start) && i < |s.threads| && s.threads[i].op != Close && StepReader(s, i).Some?
    ensures Inv(StepReader(s, i).value, start)
  {
    ReaderStepLock(s, i);
    ReaderStepThreads(s, i);
    ReaderStepAccounts(s, i, start);
  }

  lemma ReaderStepAccounts(s: State, i: nat, start: Pointer)
    requires ThreadsInv(s) && Accounted(s, start) && NoNilCall(s)
    requires i < |s.threads| && s.threads[i].op != Close && StepReader(s, i).Some?
    ensures Accounted(StepReader(s, i).value, start) && NoNilCall(StepReader(s, i).value)
  {
    OwingUpdate(s.threads, i, StepReader(s, i).value.threads[i]);
    assert ThreadInv(s.device, s.threads[i]);
  }

  lemma SpawnLock(s: State, t: Thread)
    requires LockInv(s) && t.pc == Start
    ensures LockInv(s.(threads := s.threads + [t]))
  {
    var s' := s.(threads := s.threads + [t]);
    forall i | 0 <= i < |s'.threads|
      ensures (HoldsWrite(s'.threads[i]) <==> s'.writer == Some(i)) && (HoldsRead(s'.threads[i]) <==> i in s'.readers)
    {
      if i < |s.threads| {
        assert s'.threads[i] == s.threads[i];
        assert HoldsWrite(s.threads[i]) <==> s.writer == Some(i);
        assert HoldsRead(s.threads[i]) <==> i in s.readers;
      }
    }
  }

  lemma SpawnThreads(s: State, t: Thread)
    requires ThreadsInv(s) && ThreadInv(s.device, t)
    ensures ThreadsInv(s.(threads := s.threads + [t]))
  {
    var s' := s.(threads := s.threads + [t]);
    forall i | 0 <= i < |s'.threads| ensures ThreadInv(s'.device, s'.threads[i]) {
      if i < |s.threads| { assert s'.threads[i] == s.threads[i]; }
    }
  }

  lemma OwingAppend(threads: seq<Thread>, t: Thread)
    requires !Owes(t)
    ensures Owing(threads + [t]) == Owing(threads)
  {
    assert (threads + [t])[..|threads|] == threads;
  }

  lemma SpawnInv(s: State, op: Op, start: Pointer)
    requires Inv(s, start)
    ensures Inv(Exec(s, Spawn(op)).value, start)
  {
    var t := Thread(op, Start, NilDevice, NoAnswer, s.device == NilDevice);
    SpawnLock(s, t);
    SpawnThreads(s, t);
    OwingAppend(s.threads, t);
  }

  /** Every state of every run satisfies the invariant. */
  lemma {:induction false} RunInv(start: Pointer, actions: seq<Action>)
    requires Run(Init(start), actions).Some?
    ensures Inv(Run(Init(start), actions).value, start)
  {
    if actions != [] {
      var n := |actions| - 1;
      RunInv(start, actions[..n]);
      var before := Run(Init(start), actions[..n]).value;
      match actions[n]
      case Spawn(op) => SpawnInv(before, op, start);
      case Step(i) =>
        if before.threads[i].op == Close {
          CloseStepInv(before, i, start);
        } else {
          ReaderStepInv(before, i, start);
        }
    }
  }

  // ----- what the tunnel promises

  predicate CloseReturned(s: State) {
    exists i :: 0 <= i < |s.threads| && s.threads[i].op == Close && s.threads[i].pc == Returned
  }

  predicate NoCloseRunning(s: State) {
    forall i :: 0 <= i < |s.threads| && s.threads[i].op == Close ==> s.threads[i].pc == Returned
  }

  lemma {:induction false} OwingNone(threads: seq<Thread>)
    requires forall i :: 0 <= i < |threads| ==> !Owes(threads[i])
    ensures Owing(threads) == 0
  {
    if threads != [] {
      OwingNone(threads[..|threads| - 1]);
    }
  }

  /** In every interleaving the device is closed at most once, and exactly once as soon as a Close
      has been called and every started Close has returned. */
  lemma ClosedOnce(start: Pointer, actions: seq<Action>)
    requires Run(Init(start), actions).Some?
    ensures var s := Run(Init(start), actions).value;
            && s.closes <= 1
            && (start == Device && CloseReturned(s) && NoCloseRunning(s) ==> s.closes == 1)
  {
    RunInv(start, actions);
    var s := Run(Init(start), actions).value;
    if CloseReturned(s) && NoCloseRunning(s) {
      OwingNone(s.threads);
    }
  }

  /** No call is ever made on a nil device. */
  lemma NeverNil(start: Pointer, actions: seq<Action>)
    requires Run(Init(start), actions).Some?
    ensures NilDevice !in Run(Init(start), actions).value.calls
  {
    RunInv(start, actions);
  }

  /** The field is never written while it is read, nor by two calls at once. */
  lemma SwapExcludesReaders(start: Pointer, actions: seq<Action>, i: nat, j: nat)
    requires Run(Init(start), actions).Some?
    ensures var threads := Run(Init(start), actions).value.threads;
            i < |threads| && j < |threads| && i != j && HoldsWrite(threads[i]) ==>
              !HoldsWrite(threads[j]) && !HoldsRead(threads[j])
  {
    RunInv(start, actions);
  }

  lemma {:induction false} ThreadPersists(s: State, actions: seq<Action>, i: nat)
    requires i < |s.threads| && Run(s, actions).Some?
    ensures var s' := Run(s, actions).value;
            && i < |s'.threads| && s'.threads[i].op == s.threads[i].op
            && s'.threads[i].late == s.threads[i].late
  {
    if actions != [] {
      ThreadPersists(s, actions[..|actions| - 1], i);
    }
  }

  lemma {:induction false} RunConcat(s: State, first: seq<Action>, second: seq<Action>)
    requires Run(s, first).Some?
    ensures Run(s, first + second) == Run(Run(s, first).value, second)
  {
    if second == [] {
      assert first + second == first;
    } else {
      var n := |second| - 1;
      assert (first + second)[..|first| + n] == first + second[..n];
      RunConcat(s, first, second[..n]);
    }
  }

  /** A Stats, IpcHandle or Wait that starts after the field was cleared gets the closed answer,
      whatever runs beside it. */
  lemma LateReaderSeesClosed(start: Pointer, before: seq<Action>, op: Op, after: seq<Action>)
    requires op != Close && Run(Init(start), before).Some?
    requires Run(Init(start), before).value.device == NilDevice
    requires Run(Init(start), before + [Spawn(op)] + after).Some?
    ensures var s := Run(Init(start), before + [Spawn(op)] + after).value;
            var i := |Run(Init(start), before).value.threads|;
            i < |s.threads| && s.threads[i].op == op && (s.threads[i].pc == Returned ==> s.threads[i].answer == ClosedAnswer)
  {
    var cleared := Run(Init(start), before).value;
    var i := |cleared.threads|;
    assert (before + [Spawn(op)])[..|before|] == before;
    var spawned := Run(Init(start), before + [Spawn(op)]).value;
    RunConcat(Init(start), before + [Spawn(op)], after);
    ThreadPersists(spawned, after, i);
    RunInv(start, before + [Spawn(op)] + after);
    var s := Run(Init(start), before + [Spawn(op)] + after).value;
    assert ThreadInv(s.device, s.threads[i]);
  }

  /** Before the field is cleared, every Stats, IpcHandle or Wait that returns on an open tunnel has
      called the device and returns its answer. */
  lemma OpenReaderSeesDevice(start: Pointer, actions: seq<Action>, i: nat)
    requires Run(Init(start), actions).Some? && i < |Run(Init(start), actions).value.threads|
    ensures var s := Run(Init(start), actions).value;
            s.device == Device && s.threads[i].op != Close && s.threads[i].pc == Returned ==>
              start == Device && s.threads[i].answer == FromDevice
  {
    RunInv(start, actions);
    var s := Run(Init(start), actions).value;
    assert ThreadInv(s.device, s.threads[i]);
  }

  /** No interleaving deadlocks: while some call has not returned, some call can take a step. */
  lemma NeverStuck(start: Pointer, actions: seq<Action>) returns (i: nat)
    requires Run(Init(start), actions).Some?
    requires exists j :: 0 <= j < |Run(Init(start), actions).value.threads| && Run(Init(start), actions).value.threads[j].pc != Returned
    ensures Exec(Run(Init(start), actions).value, Step(i)).Some?
  {
    RunInv(start, actions);
    var s := Run(Init(start), actions).value;
    if s.writer.Some? {
      i := s.writer.value;
      assert HoldsWrite(s.threads[i]);
    } else if s.readers != {} {
      i :| i in s.readers;
      assert HoldsRead(s.threads[i]);
    } else {
      i :| 0 <= i < |s.threads| && s.threads[i].pc != Returned;
      assert ThreadInv(s.device, s.threads[i]);
    }
  }
}
