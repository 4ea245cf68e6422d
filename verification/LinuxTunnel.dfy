/** The Linux client's tunnel object: configuring the network step by step against a kernel whose
    commands may fail, and undoing the routes on close. */
module LinuxTunnel {
  import opened Wrappers
  import opened Routes
  import opened Capture
  import opened Exposure

  /** `ip addr add cidr dev dev`, and `ip link set dev dev mtu mtu up`. */
  datatype LinkCommand = AddAddress(cidr: string, dev: string) | SetUp(dev: string, mtu: int)

  /** The kernel's routing table behind the ip command. Every change may be refused from outside
      (faults), and so may every delete (stuck). */
  class Kernel {
    const read: Reader
    const faults: nat -> bool
    const stuck: nat -> bool
    var routes: Table
    var commands: nat
    var deletes: nat
    var links: seq<LinkCommand> // the interface commands that took effect
    ghost var trail: seq<Table> // the table after every route command, oldest first

    constructor (read: Reader, faults: nat -> bool, stuck: nat -> bool, routes: Table)
      ensures this.read == read && this.faults == faults && this.stuck == stuck
      ensures this.routes == routes && trail == [] && links == []
    {
      this.read, this.faults, this.stuck, this.routes := read, faults, stuck, routes;
      commands, deletes, trail, links := 0, 0, [], [];
    }

    ghost predicate LastFaulted()
      reads this
    {
      commands > 0 && faults(commands - 1)
    }

    /** An `ip addr` or `ip link` command: it does not touch the table. */
    method Link(c: LinkCommand) returns (ok: bool)
      modifies this`commands, this`links
      ensures commands == old(commands) + 1 && ok == !faults(old(commands))
      ensures links == old(links) + if ok then [c] else []
    {
      ok := !faults(commands);
      commands := commands + 1;
      if ok {
        links := links + [c];
      }
    }

    method Change(c: Command) returns (ok: bool)
      modifies this`commands, this`routes, this`trail
      ensures commands == old(commands) + 1
      ensures ok == (!faults(old(commands)) && Apply(old(routes), read, c).Some?)
      ensures routes == (if ok then Apply(old(routes), read, c).value else old(routes))
      ensures trail == old(trail) + [routes]
    {
      var after := Apply(routes, read, c);
      ok := !faults(commands) && after.Some?;
      commands := commands + 1;
      if ok {
        routes := after.value;
      }
      trail := trail + [routes];
    }

    method Delete(dst: string)
      modifies this`deletes, this`routes, this`trail
      ensures deletes == old(deletes) + 1
      ensures routes == Remove(old(routes), read, dst, stuck(old(deletes)))
      ensures trail == old(trail) + [routes]
    {
      var p := read(dst);
      if !stuck(deletes) && p.Some? {
        routes := routes - {p.value};
      }
      deletes := deletes + 1;
      trail := trail + [routes];
    }

    /** `ip route get`: the hop the kernel would use now. */
    method RouteTo(a: Address) returns (hop: Option<NextHop>)
      modifies this`commands
      ensures commands == old(commands) + 1
      ensures hop == (if faults(old(commands)) then None else Lookup(routes, a))
    {
      hop := if faults(commands) then None else Lookup(routes, a);
      commands := commands + 1;
    }
  }

  /** The userspace engine a tunnel owns. */
  class Engine {
    var closes: nat

    constructor ()
      ensures closes == 0
    {
      closes := 0;
    }

    method Close()
      modifies this
      ensures closes == old(closes) + 1
    {
      closes := closes + 1;
    }
  }

  const DEFAULT_MTU: int := 1420

  datatype Config = Config(address: string, mtu: int, allowed: seq<string>, endpoint: Option<Address>)

  datatype SetUpError = NoAddress | LinkFailed | Refused | Unresolved | NoRoute

  class Tunnel {
    const kernel: Kernel
    const iface: string
    var vt: Engine?
    var undo: seq<string>
    ghost var done: seq<Command> // the commands that took effect

    constructor (kernel: Kernel, iface: string, vt: Engine)
      ensures this.kernel == kernel && this.iface == iface && this.vt == vt && undo == [] && done == []
    {
      this.kernel, this.iface, this.vt := kernel, iface, vt;
      undo, done := [], [];
    }

    /** From the table `base`, exactly the commands in `done` took effect, in that order, and the
        undo stack names their destinations. */
    ghost predicate Followed(base: Table)
      reads this, kernel
    {
      undo == Dsts(done) && Replay(base, kernel.read, done) == Some(kernel.routes)
    }

    /** Every table since the first `from` is one the commands in `done` pass through. */
    ghost predicate OnPath(base: Table, from: nat)
      reads this, kernel
    {
      from <= |kernel.trail| &&
      forall i :: from <= i < |kernel.trail| ==> PassedThrough(base, kernel.read, done, kernel.trail[i])
    }

    /** One route command: on success it goes on the undo stack. */
    method Issue(c: Command, ghost base: Table, ghost from: nat) returns (ok: bool)
      requires Followed(base) && OnPath(base, from)
      modifies this`undo, this`done, kernel`commands, kernel`routes, kernel`trail
      ensures Followed(base) && OnPath(base, from)
      ensures done == old(done) + (if ok then [c] else [])
      ensures !ok ==> Stopped(c)
      ensures kernel.routes == (if ok then Apply(old(kernel.routes), kernel.read, c).value else old(kernel.routes))
      ensures ok == (!kernel.faults(old(kernel.commands)) && Apply(old(kernel.routes), kernel.read, c).Some?)
    {
      ReplayAppend(base, kernel.read, done, c);
      ghost var before := done;
      ok := kernel.Change(c);
      if ok {
        undo := undo + [c.dst];
        done := done + [c];
        DstsSnoc(before, c);
      }
      PathExtends(base, kernel.read, before, done, old(kernel.trail), from);
      PassedAtEnd(base, kernel.read, done, kernel.routes);
    }

    /** The split-mode loop: one add per listed IPv4 prefix, noting any default route listed. It
        stops at the first add that fails. */
    method AddListed(allowed: seq<string>, ghost base: Table, ghost from: nat) returns (capture: bool, ok: bool)
      requires Followed(base) && OnPath(base, from) && done == []
      modifies this`undo, this`done, kernel`commands, kernel`routes, kernel`trail
      ensures Followed(base) && OnPath(base, from)
      ensures done <= Adds(allowed, iface)
      ensures ok ==> done == Adds(allowed, iface) && capture == Captures(false, allowed)
      ensures !ok ==> |done| < |Adds(allowed, iface)| && Stopped(Adds(allowed, iface)[|done|])
    {
      capture, ok := false, true;
      var i := 0;
      while i < |allowed|
        invariant 0 <= i <= |allowed|
        invariant Followed(base) && OnPath(base, from)
        invariant done == Adds(allowed[..i], iface) && done <= Adds(allowed, iface)
        invariant capture == Captures(false, allowed[..i])
      {
        var cidr := allowed[i];
        AddsStep(allowed, i, iface);
        i := i + 1;
        if IsDefaultRoute(cidr) {
          capture := true;
          continue;
        }
        if ':' in cidr {
          continue;
        }
        ok := Issue(Command(Add, cidr, TunnelHop(iface)), base, from);
        if !ok {
          return;
        }
      }
      assert allowed[..i] == allowed;
    }

    /** The pin and the two halves, in that order; it stops at the first that fails. */
    method OverrideDefault(e: Address, hop: NextHop, ghost base: Table, ghost from: nat) returns (ok: bool)
      requires Followed(base) && OnPath(base, from)
      modifies this`undo, this`done, kernel`commands, kernel`routes, kernel`trail
      ensures Followed(base) && OnPath(base, from)
      ensures Went(old(done), Override(e, hop, iface), ok)
    {
      ok := PinThenHalves(Command(Replace, HostRoute(e), hop), [LOW_HALF, HIGH_HALF], Override(e, hop, iface), base, from);
    }

    method PinThenHalves(
        pin: Command, halves: seq<string>, ghost rest: seq<Command>, ghost base: Table, ghost from: nat)
      returns (ok: bool)
      requires Followed(base) && OnPath(base, from)
      requires |rest| == 1 + |halves| && rest[0] == pin
      requires forall i :: 0 <= i < |halves| ==> rest[1 + i] == Command(Replace, halves[i], TunnelHop(iface))
      modifies this`undo, this`done, kernel`commands, kernel`routes, kernel`trail
      ensures Followed(base) && OnPath(base, from)
      ensures Went(old(done), rest, ok)
    {
      ghost var start := done;
      PartWay(start, rest, 0);
      ok := IssueNext(pin, start, rest, 0, base, from);
      if ok {
        ok := IssueHalves(halves, start, rest, base, from);
      }
    }

    /** The loop over the two halves, after the pin. */
    method IssueHalves(
        halves: seq<string>, ghost start: seq<Command>, ghost rest: seq<Command>, ghost base: Table, ghost from: nat)
      returns (ok: bool)
      requires Followed(base) && OnPath(base, from)
      requires |rest| == 1 + |halves| && done == start + rest[..1]
      requires forall i :: 0 <= i < |halves| ==> rest[1 + i] == Command(Replace, halves[i], TunnelHop(iface))
      modifies this`undo, this`done, kernel`commands, kernel`routes, kernel`trail
      ensures Followed(base) && OnPath(base, from)
      ensures Went(start, rest, ok)
    {
      var i := 0;
      while i < |halves|
        invariant 0 <= i <= |halves|
        invariant Followed(base) && OnPath(base, from)
        invariant done == start + rest[..1 + i]
      {
        ok := IssueNext(Command(Replace, halves[i], TunnelHop(iface)), start, rest, 1 + i, base, from);
        if !ok {
          return;
        }
        i := i + 1;
      }
      AllWent(start, rest);
      return true;
    }

    /** From `start` on, the commands in `rest` were issued: all of them, or those before the first
        that failed. */
    ghost predicate Went(start: seq<Command>, rest: seq<Command>, ok: bool)
      reads this, kernel
    {
      && start <= done <= start + rest
      && (ok ==> done == start + rest)
      && (!ok ==> |done| < |start| + |rest| && Stopped((start + rest)[|done|]))
    }

    /** Issues command k of a run that started after `start`. */
    method IssueNext(
        c: Command, ghost start: seq<Command>, ghost rest: seq<Command>, ghost k: nat, ghost base: Table, ghost from: nat)
      returns (ok: bool)
      requires Followed(base) && OnPath(base, from)
      requires k < |rest| && c == rest[k] && done == start + rest[..k]
      modifies this`undo, this`done, kernel`commands, kernel`routes, kernel`trail
      ensures Followed(base) && OnPath(base, from)
      ensures if ok then done == start + rest[..k + 1] else Went(start, rest, false)
    {
      PartWay(start, rest, k);
      ok := Issue(c, base, from);
    }

    /** Why a run stopped before this command: it failed from outside or the kernel refuses it. */
    ghost predicate Stopped(next: Command)
      reads this, kernel
    {
      kernel.LastFaulted() || Apply(kernel.routes, kernel.read, next).None?
    }

    /** configureNetwork: addresses the interface, adds the listed prefixes in split mode, and when
        the default is captured pins the endpoint before overriding the default with two halves.
        It follows the plan: a prefix of it on failure, all of it on success. */
    method ConfigureNetwork(t: Config, mtu: int, full: bool) returns (err: Option<SetUpError>)
      requires undo == [] && done == []
      modifies this`undo, this`done, kernel`commands, kernel`routes, kernel`trail, kernel`links
      ensures err.None? ==> kernel.links == old(kernel.links) + [AddAddress(t.address + "/32", iface), SetUp(iface, mtu)]
      ensures Followed(old(kernel.routes))
      ensures OnPath(old(kernel.routes), old(|kernel.trail|))
      ensures done <= Plan(old(kernel.routes), kernel.read, full, t.allowed, t.endpoint, iface)
      ensures err.None? ==> done == Plan(old(kernel.routes), kernel.read, full, t.allowed, t.endpoint, iface)
      ensures err.None? && Captures(full, t.allowed) ==>
                t.endpoint.Some? && |done| == (if full then 0 else |Adds(t.allowed, iface)|) + 3
      ensures err == Some(NoAddress) <==> t.address == ""
      ensures err == Some(LinkFailed) ==> kernel.LastFaulted()
      ensures err == Some(Refused) ==>
                var plan := Plan(old(kernel.routes), kernel.read, full, t.allowed, t.endpoint, iface);
                |done| < |plan| && Stopped(plan[|done|])
      ensures err == Some(Unresolved) ==> Captures(full, t.allowed) && t.endpoint.None?
      ensures err == Some(NoRoute) ==>
                Captures(full, t.allowed) && t.endpoint.Some? &&
                (kernel.LastFaulted() || Lookup(kernel.routes, t.endpoint.value).None?)
    {
      ghost var base, from := kernel.routes, |kernel.trail|;
      ghost var adds := Listed(full, t.allowed, iface);
      PlanStartsWithAdds(base, kernel.read, full, t.allowed, t.endpoint, iface);
      if t.address == "" {
        return Some(NoAddress);
      }
      var ok := kernel.Link(AddAddress(t.address + "/32", iface));
      if !ok {
        return Some(LinkFailed);
      }
      ok := kernel.Link(SetUp(iface, mtu));
      if !ok {
        return Some(LinkFailed);
      }

      var captureDefault := full;
      if !full {
        captureDefault, ok := AddListed(t.allowed, base, from);
        if !ok {
          return Some(Refused);
        }
      }
      if !captureDefault {
        return None;
      }

      err := CaptureDefault(t, full, base, from);
    }

    /** The second half: resolve the endpoint, read its hop, override the default. */
    method CaptureDefault(t: Config, full: bool, ghost base: Table, ghost from: nat) returns (err: Option<SetUpError>)
      requires Followed(base) && OnPath(base, from) && Captures(full, t.allowed)
      requires done == Listed(full, t.allowed, iface)
      modifies this`undo, this`done, kernel`commands, kernel`routes, kernel`trail
      ensures Followed(base) && OnPath(base, from)
      ensures done <= Plan(base, kernel.read, full, t.allowed, t.endpoint, iface)
      ensures err.None? ==> done == Plan(base, kernel.read, full, t.allowed, t.endpoint, iface)
      ensures err.None? ==> t.endpoint.Some? && |done| == |old(done)| + 3
      ensures err.Some? ==> err.value in {Refused, Unresolved, NoRoute}
      ensures err == Some(Refused) ==>
                var plan := Plan(base, kernel.read, full, t.allowed, t.endpoint, iface);
                |done| < |plan| && Stopped(plan[|done|])
      ensures err == Some(Unresolved) ==> t.endpoint.None?
      ensures err == Some(NoRoute) ==>
                t.endpoint.Some? && (kernel.LastFaulted() || Lookup(kernel.routes, t.endpoint.value).None?)
    {
      PlanStartsWithAdds(base, kernel.read, full, t.allowed, t.endpoint, iface);
      if t.endpoint.None? {
        return Some(Unresolved);
      }
      var hop := kernel.RouteTo(t.endpoint.value);
      if hop.None? {
        return Some(NoRoute);
      }
      assert Plan(base, kernel.read, full, t.allowed, t.endpoint, iface) == done + Override(t.endpoint.value, hop.value, iface);
      var ok := OverrideDefault(t.endpoint.value, hop.value, base, from);
      return if ok then None else Some(Refused);
    }

    /** Close: deletes the recorded destinations last first, ignoring failures, then closes the
        engine once. A second Close changes nothing. */
    method Close()
      modifies this`undo, this`vt, kernel`deletes, kernel`routes, kernel`trail, vt
      ensures undo == [] && vt == null
      ensures old(vt) != null ==> old(vt).closes == old(vt.closes) + 1
      ensures kernel.routes == TornBy(old(kernel.routes), kernel.read, old(undo), kernel.stuck, old(kernel.deletes), |old(undo)|)
      ensures old(kernel.trail) <= kernel.trail && |kernel.trail| == |old(kernel.trail)| + |old(undo)|
      ensures TornTables(kernel.trail[|old(kernel.trail)|..], old(kernel.routes), kernel.read, old(undo), kernel.stuck, old(kernel.deletes))
    {
      var i := |undo|;
      ghost var tables := [];
      while i > 0
        invariant 0 <= i <= |undo| && undo == old(undo) && vt == old(vt)
        invariant vt != null ==> vt.closes == old(vt.closes)
        invariant kernel.deletes == old(kernel.deletes) + (|undo| - i)
        invariant kernel.routes == TornBy(old(kernel.routes), kernel.read, undo, kernel.stuck, old(kernel.deletes), |undo| - i)
        invariant |tables| == |undo| - i && kernel.trail == old(kernel.trail) + tables
        invariant TornTables(tables, old(kernel.routes), kernel.read, undo, kernel.stuck, old(kernel.deletes))
      {
        i := i - 1;
        kernel.Delete(undo[i]);
        tables := tables + [kernel.routes];
      }
      undo := [];
      if vt != null {
        vt.Close();
        vt := null;
      }
    }

    /** Close after a set-up that started from the table `base`, of which the tables since `from` were
        seen. */
    method CloseAfter(t: Config, full: bool, ghost base: Table, ghost from: nat)
      requires Followed(base) && from <= |kernel.trail|
      requires done <= Plan(base, kernel.read, full, t.allowed, t.endpoint, iface)
      requires Seen(kernel.trail[from..], 0, base, kernel, full, t, iface, done, kernel.deletes)
      modifies this`undo, this`vt, kernel`deletes, kernel`routes, kernel`trail, vt
      ensures undo == [] && vt == null && (old(vt) != null ==> old(vt).closes == old(vt.closes) + 1)
      ensures GivenBack(base, kernel.routes, kernel, t.endpoint, done, old(kernel.deletes))
      ensures from <= |kernel.trail|
      ensures Seen(kernel.trail[from..], |done|, base, kernel, full, t, iface, done, old(kernel.deletes))
    {
      ghost var built, start, before := kernel.routes, kernel.deletes, kernel.trail;
      Close();
      AfterClose(base, built, before, kernel.trail, from, kernel, full, t, iface, done, start);
    }

    /** connect: configures the network and, when that fails, closes again. A failed connect gives the
        routes back as far as GivenBack says; one that succeeds has the lookup of every address as its
        mode promises. Seen says in which tables on the way the endpoint is on the tunnel. */
    method Connect(t: Config, full: bool) returns (err: Option<SetUpError>)
      requires undo == [] && done == [] && vt != null
      modifies this, kernel`commands, kernel`deletes, kernel`routes, kernel`trail, kernel`links, vt
      ensures vt == (if err.Some? then null else old(vt))
      ensures old(vt).closes == old(vt.closes) + (if err.Some? then 1 else 0)
      ensures done <= Plan(old(kernel.routes), kernel.read, full, t.allowed, t.endpoint, iface)
      ensures err.None? ==>
                && done == Plan(old(kernel.routes), kernel.read, full, t.allowed, t.endpoint, iface)
                && Followed(old(kernel.routes)) && kernel.deletes == old(kernel.deletes)
                && Promised(old(kernel.routes), kernel.routes, kernel, full, t, iface)
                && kernel.links == old(kernel.links)
                                   + [AddAddress(t.address + "/32", iface), SetUp(iface, if t.mtu > 0 then t.mtu else 1420)]
      ensures err.Some? ==> GivenBack(old(kernel.routes), kernel.routes, kernel, t.endpoint, done, old(kernel.deletes))
      ensures |old(kernel.trail)| <= |kernel.trail|
      ensures Seen(kernel.trail[|old(kernel.trail)|..], if err.None? then 0 else |done|, old(kernel.routes), kernel,
                   full, t, iface, done, old(kernel.deletes))
    {
      ghost var base, from, start := kernel.routes, |kernel.trail|, kernel.deletes;
      var mtu := t.mtu;
      if mtu <= 0 {
        mtu := DEFAULT_MTU;
      }
      err := ConfigureNetwork(t, mtu, full);
      SeenUp(kernel.trail[from..], base, kernel, full, t, iface, done, start);
      if err.Some? {
        CloseAfter(t, full, base, from);
      } else {
        WholePlanPromised(base, kernel.routes, kernel, full, t, iface);
      }
    }

    /** A whole session, connect and then close, whatever was listed and wherever the set-up failed. */
    method Session(t: Config, full: bool) returns (err: Option<SetUpError>)
      requires undo == [] && done == [] && vt != null
      modifies this, kernel`commands, kernel`deletes, kernel`routes, kernel`trail, kernel`links, vt
      ensures vt == null && old(vt).closes == old(vt.closes) + 1
      ensures done <= Plan(old(kernel.routes), kernel.read, full, t.allowed, t.endpoint, iface)
      ensures GivenBack(old(kernel.routes), kernel.routes, kernel, t.endpoint, done, old(kernel.deletes))
      ensures |old(kernel.trail)| <= |kernel.trail|
      ensures Seen(kernel.trail[|old(kernel.trail)|..], |done|, old(kernel.routes), kernel,
                   full, t, iface, done, old(kernel.deletes))
    {
      ghost var base, from := kernel.routes, |kernel.trail|;
      err := Connect(t, full);
      if err.None? {
        CloseAfter(t, full, base, from);
      }
    }
  }

  // ----- the routes given back

  /** What a Close after these commands left of the table they started from, with its deletes counted
      from `start`. Whichever of them failed, it is the same table exactly when every named prefix
      came back. With working deletes that is when no replace overwrote an entry, and always so on a
      table without entries at the three prefixes that are replaced. */
  ghost predicate GivenBack(
      base: Table, after: Table, kernel: Kernel, endpoint: Option<Address>, done: seq<Command>, start: nat)
  {
    && Replay(base, kernel.read, done).Some?
    && (after == base <==> AllComeBack(base, kernel.read, done, kernel.stuck, start))
    && (NoneStuck(kernel.stuck) ==> (after == base <==> NothingOverwritten(base, kernel.read, done)))
    && (NoneStuck(kernel.stuck) && Restorable(base, kernel.read, endpoint) ==> after == base)
  }

  lemma Returned(
      base: Table, built: Table, kernel: Kernel, full: bool, t: Config, iface: string, done: seq<Command>, start: nat)
    requires done <= Plan(base, kernel.read, full, t.allowed, t.endpoint, iface)
    requires Replay(base, kernel.read, done) == Some(built)
    ensures GivenBack(base, TornBy(built, kernel.read, Dsts(done), kernel.stuck, start, |done|), kernel, t.endpoint, done, start)
  {
    PlanOverwrites(base, kernel.read, full, t.allowed, t.endpoint, iface, |done|);
    assert done == Plan(base, kernel.read, full, t.allowed, t.endpoint, iface)[..|done|];
    TearDownLeaves(base, kernel.read, done, kernel.stuck, start);
    if NoneStuck(kernel.stuck) {
      TearDownRestores(base, kernel.read, done, kernel.stuck, start);
    }
  }

  // ----- the endpoint, table by table

  /** The endpoint resolved, the interface is one that no route uses yet, and the ip tool reads the
      client's own destinations. */
  ghost predicate Watched(base: Table, kernel: Kernel, endpoint: Option<Address>, iface: string) {
    endpoint.Some? && FreshInterface(base, iface) && ReadsOwn(kernel.read, endpoint.value)
  }

  /** A table of the set-up: the one after some m of the commands, and the endpoint is on the tunnel
      in it exactly when those m commands expose it. */
  ghost predicate UpTo(
      table: Table, base: Table, read: Reader, adds: seq<Command>, done: seq<Command>, e: Address, iface: string)
  {
    exists m: nat :: m <= |done| && Replay(base, read, done[..m]) == Some(table)
                     && (OnTunnel(table, e, iface) <==> Exposed(base, read, adds, m, {}, e))
  }

  /** The tables of a set-up, in which a full tunnel never exposes its endpoint. */
  ghost predicate WayUp(
      tables: seq<Table>, base: Table, kernel: Kernel, full: bool, t: Config, iface: string, done: seq<Command>)
    requires t.endpoint.Some?
  {
    var e := t.endpoint.value;
    && (forall i :: 0 <= i < |tables| ==> UpTo(tables[i], base, kernel.read, Listed(full, t.allowed, iface), done, e, iface))
    && (full ==> StaysOff(tables, e, iface))
  }

  /** The table after j deletes: the endpoint is on the tunnel in it exactly when the commands that
      were done, less what was deleted so far, expose it. For a full tunnel that is so only when the
      tear-down strands it, and never when deletes work. */
  ghost predicate DownTo(
      table: Table, base: Table, kernel: Kernel, full: bool, t: Config, iface: string, done: seq<Command>, start: nat, j: nat)
    requires t.endpoint.Some? && j <= |done|
  {
    var e := t.endpoint.value;
    && (OnTunnel(table, e, iface) <==>
        Exposed(base, kernel.read, Listed(full, t.allowed, iface), |done|,
                Gone(kernel.read, Dsts(done), kernel.stuck, start, j), e))
    && (full ==> (OnTunnel(table, e, iface) <==> Strands(base, e, |done|, kernel.stuck, start, j)))
    && (full && NoneStuck(kernel.stuck) ==> !OnTunnel(table, e, iface))
  }

  ghost predicate WayDown(
      tables: seq<Table>, base: Table, kernel: Kernel, full: bool, t: Config, iface: string, done: seq<Command>, start: nat)
    requires t.endpoint.Some?
  {
    |tables| <= |done| &&
    forall j :: 0 <= j < |tables| ==> DownTo(tables[j], base, kernel, full, t, iface, done, start, j + 1)
  }

  /** The tables after the first, second, … delete of a tear-down. */
  ghost predicate TornTables(tables: seq<Table>, t: Table, read: Reader, undo: seq<string>, stuck: nat -> bool, start: nat) {
    |tables| <= |undo| &&
    forall j :: 0 <= j < |tables| ==> tables[j] == TornBy(t, read, undo, stuck, start, j + 1)
  }

  /** All the tables of a session: first a way up, then from `cut` on a way down. */
  ghost predicate Trace(
      tables: seq<Table>, cut: int, base: Table, kernel: Kernel, full: bool, t: Config, iface: string, done: seq<Command>,
      start: nat)
    requires t.endpoint.Some?
  {
    0 <= cut <= |tables|
    && WayUp(tables[..cut], base, kernel, full, t, iface, done)
    && WayDown(tables[cut..], base, kernel, full, t, iface, done, start)
  }

  /** The tables since a session started, of which the last `deletes` are its tear-down's. */
  ghost predicate Seen(
      tables: seq<Table>, deletes: nat, base: Table, kernel: Kernel, full: bool, t: Config, iface: string,
      done: seq<Command>, start: nat)
  {
    Watched(base, kernel, t.endpoint, iface) ==>
      Trace(tables, |tables| - deletes, base, kernel, full, t, iface, done, start)
  }

  lemma SeenUp(
      up: seq<Table>, base: Table, kernel: Kernel, full: bool, t: Config, iface: string, done: seq<Command>, start: nat)
    requires done <= Plan(base, kernel.read, full, t.allowed, t.endpoint, iface)
    requires forall i :: 0 <= i < |up| ==> PassedThrough(base, kernel.read, done, up[i])
    ensures Seen(up, 0, base, kernel, full, t, iface, done, start)
  {
    if Watched(base, kernel, t.endpoint, iface) {
      PathWayUp(base, kernel, full, t, iface, done, up);
      assert up[..|up|] == up;
    }
  }

  /** All that a tear-down establishes, from the tables before and after it. */
  lemma AfterClose(
      base: Table, built: Table, before: seq<Table>, after: seq<Table>, from: nat, kernel: Kernel, full: bool, t: Config,
      iface: string, done: seq<Command>, start: nat)
    requires from <= |before| && before <= after && |after| == |before| + |done|
    requires Seen(before[from..], 0, base, kernel, full, t, iface, done, start)
    requires done <= Plan(base, kernel.read, full, t.allowed, t.endpoint, iface)
    requires Replay(base, kernel.read, done) == Some(built)
    requires TornTables(after[|before|..], built, kernel.read, Dsts(done), kernel.stuck, start)
    ensures GivenBack(base, TornBy(built, kernel.read, Dsts(done), kernel.stuck, start, |done|), kernel, t.endpoint, done, start)
    ensures Seen(after[from..], |done|, base, kernel, full, t, iface, done, start)
  {
    Returned(base, built, kernel, full, t, iface, done, start);
    SeenTorn(before[from..], after[|before|..], base, kernel, full, t, iface, done, built, start);
    assert after[from..] == before[from..] + after[|before|..];
  }

  lemma SeenTorn(
      up: seq<Table>, down: seq<Table>, base: Table, kernel: Kernel, full: bool, t: Config, iface: string,
      done: seq<Command>, built: Table, start: nat)
    requires Seen(up, 0, base, kernel, full, t, iface, done, start) && |down| == |done|
    requires done <= Plan(base, kernel.read, full, t.allowed, t.endpoint, iface)
    requires Replay(base, kernel.read, done) == Some(built)
    requires TornTables(down, built, kernel.read, Dsts(done), kernel.stuck, start)
    ensures Seen(up + down, |done|, base, kernel, full, t, iface, done, start)
  {
    if Watched(base, kernel, t.endpoint, iface) {
      TornWayDown(base, kernel, full, t, iface, done, built, start, down);
      assert up[..|up|] == up && (up + down)[..|up|] == up && (up + down)[|up|..] == down;
    }
  }

  /** The lookups that the mode of a connect promises. */
  ghost predicate Promised(base: Table, after: Table, kernel: Kernel, full: bool, t: Config, iface: string) {
    var captures := Captures(full, t.allowed);
    && (captures ==> t.endpoint.Some?)
    && ((captures ==> ReadsOwn(kernel.read, t.endpoint.value)) ==>
          Captured(base, after, kernel.read, if full then [] else t.allowed, if captures then t.endpoint else None, iface))
  }

  lemma WholePlanPromised(base: Table, after: Table, kernel: Kernel, full: bool, t: Config, iface: string)
    requires Replay(base, kernel.read, Plan(base, kernel.read, full, t.allowed, t.endpoint, iface)) == Some(after)
    requires Captures(full, t.allowed) ==>
               |Plan(base, kernel.read, full, t.allowed, t.endpoint, iface)| > |Listed(full, t.allowed, iface)|
    ensures Promised(base, after, kernel, full, t, iface)
  {
    PlanPins(base, kernel.read, full, t.allowed, t.endpoint, iface);
    if Captures(full, t.allowed) ==> ReadsOwn(kernel.read, t.endpoint.value) {
      WholePlanLookups(base, kernel.read, full, t.allowed, t.endpoint, iface, after);
    }
  }

  /** No table of the list sends the endpoint into the tunnel. */
  ghost predicate StaysOff(tables: seq<Table>, e: Address, iface: string) {
    forall i :: 0 <= i < |tables| ==> !OnTunnel(tables[i], e, iface)
  }

  // ----- steps of the proofs above

  lemma PathWayUp(
      base: Table, kernel: Kernel, full: bool, t: Config, iface: string, done: seq<Command>, tables: seq<Table>)
    requires Watched(base, kernel, t.endpoint, iface)
    requires done <= Plan(base, kernel.read, full, t.allowed, t.endpoint, iface)
    requires forall i :: 0 <= i < |tables| ==> PassedThrough(base, kernel.read, done, tables[i])
    ensures WayUp(tables, base, kernel, full, t, iface, done)
  {
    var e, plan := t.endpoint.value, Plan(base, kernel.read, full, t.allowed, t.endpoint, iface);
    forall i | 0 <= i < |tables|
      ensures UpTo(tables[i], base, kernel.read, Listed(full, t.allowed, iface), done, e, iface)
      ensures full ==> !OnTunnel(tables[i], e, iface)
    {
      var m: nat :| m <= |done| && Replay(base, kernel.read, done[..m]) == Some(tables[i]);
      assert done[..m] == plan[..m];
      EndpointOnTunnel(base, kernel.read, full, t.allowed, e, iface, m, {});
      assert tables[i] - {} == tables[i];
      if full { SetUpKeepsEndpointOff(base, kernel.read, t.allowed, e, iface, m); }
    }
  }

  lemma TornWayDown(
      base: Table, kernel: Kernel, full: bool, t: Config, iface: string, done: seq<Command>, built: Table, start: nat,
      tables: seq<Table>)
    requires Watched(base, kernel, t.endpoint, iface)
    requires done <= Plan(base, kernel.read, full, t.allowed, t.endpoint, iface)
    requires Replay(base, kernel.read, done) == Some(built)
    requires TornTables(tables, built, kernel.read, Dsts(done), kernel.stuck, start)
    ensures WayDown(tables, base, kernel, full, t, iface, done, start)
  {
    forall j | 0 <= j < |tables| ensures DownTo(tables[j], base, kernel, full, t, iface, done, start, j + 1) {
      TornDownTo(base, kernel, full, t, iface, done, built, start, j + 1, tables[j]);
    }
  }

  lemma TornDownTo(
      base: Table, kernel: Kernel, full: bool, t: Config, iface: string, done: seq<Command>, built: Table, start: nat, j: nat,
      table: Table)
    requires Watched(base, kernel, t.endpoint, iface) && j <= |done|
    requires done <= Plan(base, kernel.read, full, t.allowed, t.endpoint, iface)
    requires Replay(base, kernel.read, done) == Some(built)
    requires table == TornBy(built, kernel.read, Dsts(done), kernel.stuck, start, j)
    ensures DownTo(table, base, kernel, full, t, iface, done, start, j)
  {
    var e := t.endpoint.value;
    TornExposed(base, kernel.read, full, t.allowed, e, iface, done, kernel.stuck, start, j);
    if full {
      assert done == Plan(base, kernel.read, true, t.allowed, Some(e), iface)[..|done|];
      StuckTearDownStrands(base, kernel.read, t.allowed, e, iface, |done|, kernel.stuck, start, j);
    }
  }

  ghost predicate PassedThrough(base: Table, read: Reader, cs: seq<Command>, t: Table) {
    exists k: nat :: k <= |cs| && Replay(base, read, cs[..k]) == Some(t)
  }

  lemma PassedAtEnd(base: Table, read: Reader, cs: seq<Command>, t: Table)
    requires Replay(base, read, cs) == Some(t)
    ensures PassedThrough(base, read, cs, t)
  {
    assert cs[..|cs|] == cs;
  }

  lemma DstsSnoc(cs: seq<Command>, c: Command)
    ensures Dsts(cs + [c]) == Dsts(cs) + [c.dst]
  {
  }

  lemma PathExtends(base: Table, read: Reader, before: seq<Command>, after: seq<Command>, trail: seq<Table>, from: nat)
    requires before <= after
    requires forall i :: from <= i < |trail| ==> PassedThrough(base, read, before, trail[i])
    ensures forall i :: from <= i < |trail| ==> PassedThrough(base, read, after, trail[i])
  {
    forall i | from <= i < |trail| ensures PassedThrough(base, read, after, trail[i]) {
      var k: nat :| k <= |before| && Replay(base, read, before[..k]) == Some(trail[i]);
      assert after[..k] == before[..k];
    }
  }

  lemma PartWay(start: seq<Command>, rest: seq<Command>, k: nat)
    requires k < |rest|
    ensures var before := start + rest[..k];
            && start <= before <= start + rest && |before| == |start| + k && (start + rest)[|before|] == rest[k]
            && before + [rest[k]] == start + rest[..k + 1]
    ensures start + rest[..0] == start
  {
  }

  lemma AllWent(start: seq<Command>, rest: seq<Command>)
    ensures start <= start + rest && rest[..|rest|] == rest
  {
  }

  lemma PlanStartsWithAdds(base: Table, read: Reader, full: bool, allowed: seq<string>, endpoint: Option<Address>, iface: string)
    ensures Listed(full, allowed, iface) <= Plan(base, read, full, allowed, endpoint, iface)
  {
  }

  lemma {:induction false} AddsGrow(allowed: seq<string>, i: nat, iface: string)
    requires i <= |allowed|
    ensures Adds(allowed[..i], iface) <= Adds(allowed, iface)
  {
    if i == |allowed| {
      assert allowed[..i] == allowed;
    } else {
      var n := |allowed| - 1;
      AddsGrow(allowed[..n], i, iface);
      assert allowed[..n][..i] == allowed[..i];
    }
  }

  lemma AddsStep(allowed: seq<string>, i: nat, iface: string)
    requires i < |allowed|
    ensures Adds(allowed[..i + 1], iface) ==
            Adds(allowed[..i], iface) + (if Routed(allowed[i]) then [Command(Add, allowed[i], TunnelHop(iface))] else [])
    ensures Adds(allowed[..i + 1], iface) <= Adds(allowed, iface)
    ensures Captures(false, allowed[..i + 1]) <==> Captures(false, allowed[..i]) || IsDefaultRoute(allowed[i])
  {
    assert allowed[..i + 1][..i] == allowed[..i];
    assert allowed[..i + 1] == allowed[..i] + [allowed[i]];
    AddsGrow(allowed, i + 1, iface);
  }
}
