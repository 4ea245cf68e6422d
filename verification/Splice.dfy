/** Any number of concurrent TCP flows through the bridge. Each flow dials out, creates its local
    endpoint, and then splices two copying goroutines that report on a channel of capacity two while
    the main goroutine waits for both before closing. All flows add to two shared counters. */
module Splice {
  import opened Wrappers
  import Stats

  const CAPACITY: nat := 2

  /** One copying goroutine: copying, copy ended, bytes added to the shared counter, write side of the
      connection it wrote to closed, token sent. */
  datatype Stage = Copying | Copied | Counted | HalfClosed | Signalled

  /** shut: that write side is closed, so that the peer sees the end of this direction. */
  datatype Copier = Copier(stage: Stage, bytes: nat, shut: bool)

  /** The flow's main goroutine. Refused flows were answered with a reset. */
  datatype Main = Dialing | Creating | AbandonRemote | Refused | WaitFirst | WaitSecond | CloseLocal | CloseRemote | Finished

  /** dialed: a remote connection was opened for the flow. */
  datatype Flow = Flow(
    main: Main, up: Copier, down: Copier, tokens: nat, dialed: bool, localCloses: nat, remoteCloses: nat)

  /** rx and tx are everything ever added to the two atomic counters. A 64-bit counter holds that
      sum wrapped: adding to a wrapped value and wrapping again is wrapping the sum. */
  datatype State = State(flows: seq<Flow>, rx: int, tx: int)

  datatype Event =
    | DialOk | DialFailed
    | EndpointOk | EndpointFailed
    | MainStep
    | CopyUp(n: nat) | CopyDown(n: nat)
    | UpStep | DownStep

  datatype Action = Request | On(i: nat, event: Event)

  const INIT: State := State([], 0, 0)
  const NEW_FLOW: Flow := Flow(Dialing, Copier(Copying, 0, false), Copier(Copying, 0, false), 0, false, 0, 0)

  predicate Spliced(m: Main) {
    m == WaitFirst || m == WaitSecond || m == CloseLocal || m == CloseRemote || m == Finished
  }

  // ----- one atomic step of one flow, with what it adds to the shared counters

  /** A copier that is not copying any more moves on; the last move sends a token, which blocks on
      a full channel. */
  function Advance(c: Copier, tokens: nat): Option<(Copier, nat)> {
    match c.stage
    case Copying => Some((c.(stage := Copied), tokens))
    case Copied => Some((c.(stage := Counted), tokens))
    case Counted => Some((c.(stage := HalfClosed, shut := true), tokens))
    case HalfClosed => if tokens < CAPACITY then Some((c.(stage := Signalled), tokens + 1)) else None
    case Signalled => None
  }

  function StepMain(f: Flow): Option<Flow> {
    match f.main
    case AbandonRemote => Some(f.(main := Refused, remoteCloses := f.remoteCloses + 1))
    case WaitFirst => if f.tokens > 0 then Some(f.(main := WaitSecond, tokens := f.tokens - 1)) else None
    case WaitSecond => if f.tokens > 0 then Some(f.(main := CloseLocal, tokens := f.tokens - 1)) else None
    case CloseLocal => Some(f.(main := CloseRemote, localCloses := f.localCloses + 1))
    case CloseRemote => Some(f.(main := Finished, remoteCloses := f.remoteCloses + 1))
    case _ => None
  }

  function StepFlow(f: Flow, e: Event): Option<Flow> {
    match e
    case DialOk => if f.main == Dialing then Some(f.(main := Creating, dialed := true)) else None
    case DialFailed => if f.main == Dialing then Some(f.(main := Refused)) else None
    case EndpointOk => if f.main == Creating then Some(f.(main := WaitFirst)) else None
    case EndpointFailed => if f.main == Creating then Some(f.(main := AbandonRemote)) else None
    case MainStep => StepMain(f)
    case CopyUp(n) =>
      if Spliced(f.main) && f.up.stage == Copying then Some(f.(up := f.up.(bytes := f.up.bytes + n))) else None
    case CopyDown(n) =>
      if Spliced(f.main) && f.down.stage == Copying then Some(f.(down := f.down.(bytes := f.down.bytes + n))) else None
    case UpStep =>
      if !Spliced(f.main) then None
      else
        var (next, tokens) :- Advance(f.up, f.tokens);
        Some(f.(up := next, tokens := tokens))
    case DownStep =>
      if !Spliced(f.main) then None
      else
        var (next, tokens) :- Advance(f.down, f.tokens);
        Some(f.(down := next, tokens := tokens))
  }

  /** The atomic Add a goroutine performs when it leaves the Copied stage. */
  function TxAdded(f: Flow, e: Event): nat {
    if e == UpStep && f.up.stage == Copied then f.up.bytes else 0
  }

  function RxAdded(f: Flow, e: Event): nat {
    if e == DownStep && f.down.stage == Copied then f.down.bytes else 0
  }

  function Exec(s: State, a: Action): Option<State> {
    match a
    case Request => Some(s.(flows := s.flows + [NEW_FLOW]))
    case On(i, e) =>
      if i >= |s.flows| then None
      else
        var f := s.flows[i];
        var next :- StepFlow(f, e);
        Some(State(s.flows[i := next], s.rx + RxAdded(f, e), s.tx + TxAdded(f, e)))
  }

  /** counts: what the two counters read. */
  function Counts(s: State): (int, int) {
    (Stats.Wrap(s.rx), Stats.Wrap(s.tx))
  }

  function Run(actions: seq<Action>): Option<State> {
    if actions == [] then Some(INIT)
    else
      var before :- Run(actions[..|actions| - 1]);
      Exec(before, actions[|actions| - 1])
  }

  // ----- the invariant

  predicate HasCounted(c: Copier) {
    c.stage == Counted || c.stage == HalfClosed || c.stage == Signalled
  }

  /** The bytes of a direction whose goroutine has added them. */
  function CountedBytes(c: Copier): nat {
    if HasCounted(c) then c.bytes else 0
  }

  function UpTotal(flows: seq<Flow>): nat {
    if flows == [] then 0 else UpTotal(flows[..|flows| - 1]) + CountedBytes(flows[|flows| - 1].up)
  }

  function DownTotal(flows: seq<Flow>): nat {
    if flows == [] then 0 else DownTotal(flows[..|flows| - 1]) + CountedBytes(flows[|flows| - 1].down)
  }

  /** No copying goroutine was started. */
  predicate Idle(f: Flow) {
    f.up.stage == Copying && f.up.bytes == 0 && f.down.stage == Copying && f.down.bytes == 0 && f.tokens == 0
  }

  predicate Closes(f: Flow, local: nat, remote: nat) {
    f.localCloses == local && f.remoteCloses == remote
  }

  /** A flow whose two directions have ended and been counted. */
  predicate BothEnded(f: Flow) {
    f.up.stage == Signalled && f.down.stage == Signalled
  }

  /** The tokens sent so far, less those the main goroutine has taken, are in the channel. */
  predicate Tokens(f: Flow, taken: nat) {
    if BothEnded(f) then f.tokens + taken == 2
    else if f.up.stage == Signalled || f.down.stage == Signalled then f.tokens + taken == 1
    else f.tokens + taken == 0
  }

  /** The write side is closed from the half-close on. */
  predicate ShutInv(c: Copier) {
    c.shut <==> c.stage == HalfClosed || c.stage == Signalled
  }

  predicate FlowInv(f: Flow) {
    ShutInv(f.up) && ShutInv(f.down) &&
    match f.main
    case Dialing => Idle(f) && !f.dialed && Closes(f, 0, 0)
    case Creating => Idle(f) && f.dialed && Closes(f, 0, 0)
    case AbandonRemote => Idle(f) && f.dialed && Closes(f, 0, 0)
    case Refused => Idle(f) && Closes(f, 0, if f.dialed then 1 else 0)
    case WaitFirst => f.dialed && Tokens(f, 0) && Closes(f, 0, 0)
    case WaitSecond => f.dialed && Tokens(f, 1) && Closes(f, 0, 0)
    case CloseLocal => f.dialed && BothEnded(f) && f.tokens == 0 && Closes(f, 0, 0)
    case CloseRemote => f.dialed && BothEnded(f) && f.tokens == 0 && Closes(f, 1, 0)
    case Finished => f.dialed && BothEnded(f) && f.tokens == 0 && Closes(f, 1, 1)
  }

  predicate FlowsInv(flows: seq<Flow>) {
    flows == [] || (FlowsInv(flows[..|flows| - 1]) && FlowInv(flows[|flows| - 1]))
  }

  predicate Inv(s: State) {
    && FlowsInv(s.flows)
    && s.tx == UpTotal(s.flows)
    && s.rx == DownTotal(s.flows)
  }

  lemma {:induction false} FlowInvAt(flows: seq<Flow>, i: nat)
    requires FlowsInv(flows) && i < |flows|
    ensures FlowInv(flows[i])
  {
    if i < |flows| - 1 {
      FlowInvAt(flows[..|flows| - 1], i);
    }
  }

  lemma {:induction false} FlowsInvUpdate(flows: seq<Flow>, i: nat, f: Flow)
    requires FlowsInv(flows) && i < |flows| && FlowInv(f)
    ensures FlowsInv(flows[i := f])
  {
    var n := |flows| - 1;
    if i < n {
      FlowsInvUpdate(flows[..n], i, f);
      assert flows[i := f][..n] == flows[..n][i := f];
    } else {
      assert flows[i := f][..n] == flows[..n];
    }
  }

  lemma MainStepInv(f: Flow, e: Event)
    requires FlowInv(f) && StepFlow(f, e).Some?
    requires e == MainStep || e == DialOk || e == DialFailed || e == EndpointOk || e == EndpointFailed
    ensures var f' := StepFlow(f, e).value; FlowInv(f') && f'.up == f.up && f'.down == f.down
  {
  }

  /** Bytes copied while the direction is still copying are not counted yet. */
  lemma CopyInv(f: Flow, e: Event)
    requires FlowInv(f) && StepFlow(f, e).Some? && (e.CopyUp? || e.CopyDown?)
    ensures var f' := StepFlow(f, e).value;
            FlowInv(f') && CountedBytes(f'.up) == CountedBytes(f.up) && CountedBytes(f'.down) == CountedBytes(f.down)
  {
  }

  lemma UpStepInv(f: Flow)
    requires FlowInv(f) && StepFlow(f, UpStep).Some?
    ensures var f' := StepFlow(f, UpStep).value;
            FlowInv(f') && f'.down == f.down && CountedBytes(f'.up) == CountedBytes(f.up) + TxAdded(f, UpStep)
  {
  }

  lemma DownStepInv(f: Flow)
    requires FlowInv(f) && StepFlow(f, DownStep).Some?
    ensures var f' := StepFlow(f, DownStep).value;
            FlowInv(f') && f'.up == f.up && CountedBytes(f'.down) == CountedBytes(f.down) + RxAdded(f, DownStep)
  {
  }

  lemma FlowStepInv(f: Flow, e: Event)
    requires FlowInv(f) && StepFlow(f, e).Some?
    ensures var f' := StepFlow(f, e).value;
            && FlowInv(f')
            && CountedBytes(f'.up) == CountedBytes(f.up) + TxAdded(f, e)
            && CountedBytes(f'.down) == CountedBytes(f.down) + RxAdded(f, e)
  {
    if e.CopyUp? || e.CopyDown? {
      CopyInv(f, e);
    } else if e == UpStep {
      UpStepInv(f);
    } else if e == DownStep {
      DownStepInv(f);
    } else {
      MainStepInv(f, e);
    }
  }

  lemma {:induction false} TotalsUpdate(flows: seq<Flow>, i: nat, f: Flow)
    requires i < |flows|
    ensures UpTotal(flows[i := f]) == UpTotal(flows) - CountedBytes(flows[i].up) + CountedBytes(f.up)
    ensures DownTotal(flows[i := f]) == DownTotal(flows) - CountedBytes(flows[i].down) + CountedBytes(f.down)
  {
    var n := |flows| - 1;
    if i < n {
      TotalsUpdate(flows[..n], i, f);
      assert flows[i := f][..n] == flows[..n][i := f];
    } else {
      assert flows[i := f][..n] == flows[..n];
    }
  }

  lemma PutInv(s: State, i: nat, next: Flow, received: nat, sent: nat)
    requires Inv(s) && i < |s.flows| && FlowInv(next)
    requires CountedBytes(next.up) == CountedBytes(s.flows[i].up) + sent
    requires CountedBytes(next.down) == CountedBytes(s.flows[i].down) + received
    ensures Inv(State(s.flows[i := next], s.rx + received, s.tx + sent))
  {
    TotalsUpdate(s.flows, i, next);
    FlowsInvUpdate(s.flows, i, next);
  }

  lemma RequestInv(s: State)
    requires Inv(s)
    ensures Inv(s.(flows := s.flows + [NEW_FLOW]))
  {
  }

  lemma ExecInv(s: State, a: Action)
    requires Inv(s) && Exec(s, a).Some?
    ensures Inv(Exec(s, a).value)
  {
    match a
    case Request => RequestInv(s);
    case On(i, e) =>
      FlowInvAt(s.flows, i);
      FlowStepInv(s.flows[i], e);
      PutInv(s, i, StepFlow(s.flows[i], e).value, RxAdded(s.flows[i], e), TxAdded(s.flows[i], e));
  }

  /** Every state of every interleaving satisfies the invariant. */
  lemma {:induction false} RunInv(actions: seq<Action>)
    requires Run(actions).Some?
    ensures Inv(Run(actions).value)
  {
    if actions != [] {
      RunInv(actions[..|actions| - 1]);
      ExecInv(Run(actions[..|actions| - 1]).value, actions[|actions| - 1]);
    }
  }

  // ----- bytes copied, read off the events of a run

  /** The bytes that flow i has copied towards the internet, chunk by chunk. */
  function CopiedUp(actions: seq<Action>, i: nat): nat {
    if actions == [] then 0
    else
      CopiedUp(actions[..|actions| - 1], i)
      + match actions[|actions| - 1] case On(k, CopyUp(n)) => (if k == i then n else 0) case _ => 0
  }

  /** The bytes that flow i has copied towards the app. */
  function CopiedDown(actions: seq<Action>, i: nat): nat {
    if actions == [] then 0
    else
      CopiedDown(actions[..|actions| - 1], i)
      + match actions[|actions| - 1] case On(k, CopyDown(n)) => (if k == i then n else 0) case _ => 0
  }

  lemma CopyStep(f: Flow, e: Event)
    requires StepFlow(f, e).Some?
    ensures var f' := StepFlow(f, e).value;
            && f'.up.bytes == f.up.bytes + (match e case CopyUp(n) => n case _ => 0)
            && f'.down.bytes == f.down.bytes + (match e case CopyDown(n) => n case _ => 0)
  {
  }

  /** A flow that has not been requested yet has copied nothing. */
  lemma {:induction false} NothingBefore(actions: seq<Action>, i: nat)
    requires Run(actions).Some? && i >= |Run(actions).value.flows|
    ensures CopiedUp(actions, i) == 0 && CopiedDown(actions, i) == 0
  {
    if actions != [] {
      NothingBefore(actions[..|actions| - 1], i);
    }
  }

  /** The bytes a flow holds are exactly those of its copy events. */
  lemma {:induction false} BytesCopied(actions: seq<Action>, i: nat)
    requires Run(actions).Some? && i < |Run(actions).value.flows|
    ensures var f := Run(actions).value.flows[i];
            f.up.bytes == CopiedUp(actions, i) && f.down.bytes == CopiedDown(actions, i)
  {
    if actions != [] {
      var init, last := actions[..|actions| - 1], actions[|actions| - 1];
      var before := Run(init).value;
      if i < |before.flows| {
        BytesCopied(init, i);
        if last.On? && last.i == i { CopyStep(before.flows[i], last.event); }
      } else {
        NothingBefore(init, i);
      }
    }
  }

  /** What the first n flows copied in their finished directions. */
  function FinishedUp(actions: seq<Action>, flows: seq<Flow>, n: nat): nat
    requires n <= |flows|
  {
    if n == 0 then 0
    else FinishedUp(actions, flows, n - 1) + (if HasCounted(flows[n - 1].up) then CopiedUp(actions, n - 1) else 0)
  }

  function FinishedDown(actions: seq<Action>, flows: seq<Flow>, n: nat): nat
    requires n <= |flows|
  {
    if n == 0 then 0
    else FinishedDown(actions, flows, n - 1) + (if HasCounted(flows[n - 1].down) then CopiedDown(actions, n - 1) else 0)
  }

  lemma {:induction false} TotalsFinished(actions: seq<Action>, n: nat)
    requires Run(actions).Some? && n <= |Run(actions).value.flows|
    ensures var flows := Run(actions).value.flows;
            UpTotal(flows[..n]) == FinishedUp(actions, flows, n) && DownTotal(flows[..n]) == FinishedDown(actions, flows, n)
  {
    if n > 0 {
      var flows := Run(actions).value.flows;
      TotalsFinished(actions, n - 1);
      BytesCopied(actions, n - 1);
      assert flows[..n][..n - 1] == flows[..n - 1];
    }
  }

  /** All that a flow copied, in either direction. */
  function AllUp(actions: seq<Action>, n: nat): nat {
    if n == 0 then 0 else AllUp(actions, n - 1) + CopiedUp(actions, n - 1)
  }

  function AllDown(actions: seq<Action>, n: nat): nat {
    if n == 0 then 0 else AllDown(actions, n - 1) + CopiedDown(actions, n - 1)
  }

  predicate Ended(f: Flow) { f.main == Finished || f.main == Refused }

  lemma {:induction false} AllEnded(actions: seq<Action>, n: nat)
    requires Run(actions).Some? && n <= |Run(actions).value.flows|
    requires forall i :: 0 <= i < n ==> Ended(Run(actions).value.flows[i])
    ensures var flows := Run(actions).value.flows;
            FinishedUp(actions, flows, n) == AllUp(actions, n) && FinishedDown(actions, flows, n) == AllDown(actions, n)
  {
    if n > 0 {
      AllEnded(actions, n - 1);
      RunInv(actions);
      FlowInvAt(Run(actions).value.flows, n - 1);
      BytesCopied(actions, n - 1);
    }
  }

  // ----- what the bridge promises

  /** Once every flow has ended, the counters are all the bytes that were copied, none lost and none
      counted twice. */
  lemma AllCounted(actions: seq<Action>)
    requires Run(actions).Some?
    requires forall i :: 0 <= i < |Run(actions).value.flows| ==> Ended(Run(actions).value.flows[i])
    ensures var s := Run(actions).value; var n := |s.flows|;
            Counts(s) == (Stats.Wrap(AllDown(actions, n)), Stats.Wrap(AllUp(actions, n)))
  {
    var s := Run(actions).value;
    CountersExact(actions);
    AllEnded(actions, |s.flows|);
  }

  /** In every interleaving of any number of flows, the shared counters are exactly the bytes that the
      copy events of the ended directions moved, summed over all flows in 64-bit arithmetic. */
  lemma CountersExact(actions: seq<Action>)
    requires Run(actions).Some?
    ensures var s := Run(actions).value; var (rx, tx) := Counts(s);
            var up, down := FinishedUp(actions, s.flows, |s.flows|), FinishedDown(actions, s.flows, |s.flows|);
            && tx == Stats.Wrap(up) && rx == Stats.Wrap(down)
            && (up < Stats.TWO63 ==> tx == up) && (down < Stats.TWO63 ==> rx == down)
  {
    var s := Run(actions).value;
    RunInv(actions);
    TotalsFinished(actions, |s.flows|);
    assert s.flows[..|s.flows|] == s.flows;
  }

  /** Each atomic Add changes the wrapped counter as 64-bit addition does. */
  lemma AddsWrap(s: State, i: nat, e: Event)
    requires Exec(s, On(i, e)).Some?
    ensures var (rx, tx) := Counts(s);
            Counts(Exec(s, On(i, e)).value) ==
            (Stats.Wrap(rx + RxAdded(s.flows[i], e)), Stats.Wrap(tx + TxAdded(s.flows[i], e)))
  {
    Stats.WrapAdd(s.rx, RxAdded(s.flows[i], e));
    Stats.WrapAdd(s.tx, TxAdded(s.flows[i], e));
  }

  /** No connection is closed twice, none of a spliced flow is closed before both of its directions
      have ended, a finished flow has closed both exactly once, and a refused flow has closed the
      remote connection exactly when it had dialled one. */
  lemma ClosedOnceAfterBoth(actions: seq<Action>, i: nat)
    requires Run(actions).Some? && i < |Run(actions).value.flows|
    ensures var f := Run(actions).value.flows[i];
            && f.localCloses <= 1 && f.remoteCloses <= 1
            && (Spliced(f.main) && f.localCloses + f.remoteCloses > 0 ==> BothEnded(f))
            && (f.main == Finished ==> f.localCloses == 1 && f.remoteCloses == 1)
            && (f.main == Refused ==> f.localCloses == 0 && f.remoteCloses == if f.dialed then 1 else 0)
  {
    RunInv(actions);
    FlowInvAt(Run(actions).value.flows, i);
  }

  /** A write side is closed only after that direction has ended and been counted, and both are closed
      before either connection of a spliced flow is. */
  lemma HalfCloseFirst(actions: seq<Action>, i: nat)
    requires Run(actions).Some? && i < |Run(actions).value.flows|
    ensures var f := Run(actions).value.flows[i];
            && (f.up.shut ==> HasCounted(f.up)) && (f.down.shut ==> HasCounted(f.down))
            && (Spliced(f.main) && f.localCloses + f.remoteCloses > 0 ==> f.up.shut && f.down.shut)
  {
    RunInv(actions);
    FlowInvAt(Run(actions).value.flows, i);
  }

  /** The capacity suffices: a goroutine about to send its token never blocks, and a main goroutine
      that waits can proceed once both directions have ended. */
  lemma NoSendBlocks(actions: seq<Action>, i: nat)
    requires Run(actions).Some? && i < |Run(actions).value.flows|
    ensures var s := Run(actions).value; var f := s.flows[i];
            && f.tokens <= CAPACITY
            && (f.up.stage == HalfClosed ==> Exec(s, On(i, UpStep)).Some?)
            && (f.down.stage == HalfClosed ==> Exec(s, On(i, DownStep)).Some?)
            && (BothEnded(f) && f.main != Finished ==> Exec(s, On(i, MainStep)).Some?)
  {
    RunInv(actions);
    FlowInvAt(Run(actions).value.flows, i);
  }

  /** How much work a flow has left, from a state in which no more bytes are copied. */
  function Remaining(f: Flow): nat {
    StageRank(f.up.stage) + StageRank(f.down.stage) + MainRank(f.main)
  }

  function StageRank(s: Stage): nat {
    match s case Copying => 4 case Copied => 3 case Counted => 2 case HalfClosed => 1 case Signalled => 0
  }

  function MainRank(m: Main): nat {
    match m
    case Dialing => 7 case Creating => 6 case AbandonRemote => 1 case Refused => 0
    case WaitFirst => 4 case WaitSecond => 3 case CloseLocal => 2 case CloseRemote => 1 case Finished => 0
  }

  lemma FlowProgress(f: Flow) returns (e: Event)
    requires FlowInv(f) && f.main != Finished && f.main != Refused
    ensures StepFlow(f, e).Some? && Remaining(StepFlow(f, e).value) < Remaining(f)
  {
    match f.main
    case Dialing => e := DialOk;
    case Creating => e := EndpointOk;
    case AbandonRemote => e := MainStep;
    case CloseLocal => e := MainStep;
    case CloseRemote => e := MainStep;
    case _ =>
      if f.up.stage != Signalled {
        e := UpStep;
      } else if f.down.stage != Signalled {
        e := DownStep;
      } else {
        e := MainStep;
      }
  }

  /** Every flow can always be driven to its end: whatever state an interleaving leaves it in, a
      step of its own that makes progress is enabled until it is finished or refused. */
  lemma CanProgress(actions: seq<Action>, i: nat) returns (e: Event)
    requires Run(actions).Some? && i < |Run(actions).value.flows|
    requires Run(actions).value.flows[i].main != Finished && Run(actions).value.flows[i].main != Refused
    ensures var s := Run(actions).value;
            Exec(s, On(i, e)).Some? && Remaining(Exec(s, On(i, e)).value.flows[i]) < Remaining(s.flows[i])
  {
    RunInv(actions);
    FlowInvAt(Run(actions).value.flows, i);
    e := FlowProgress(Run(actions).value.flows[i]);
  }
}
