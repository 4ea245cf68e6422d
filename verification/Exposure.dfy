/** Whether the encrypted traffic to the endpoint itself is sent into the tunnel: at every table of a
    set-up, of a set-up that failed half-way, and of a tear-down of which any deletes may fail. */
module Exposure {
  import opened Wrappers
  import opened Routes
  import opened Capture

  /** The half of the address space the endpoint is in. */
  function HalfOf(e: Address): Prefix {
    if e < HALF then LOW else HIGH
  }

  /** Which override command adds that half: the pin is command 0. */
  function HalfStep(e: Address): nat {
    if e < HALF then 1 else 2
  }

  /** After the first m commands of a plan and the deletion of the prefixes in `gone`: while the pin
      is there, the endpoint is on the tunnel when an add had taken it over before the pin was set;
      else when an add that is left takes it over, or the half around it is left and nothing of the
      initial table beats that. */
  ghost predicate Exposed(base: Table, read: Reader, adds: seq<Command>, m: nat, gone: set<Prefix>, e: Address) {
    if m > |adds| && Prefix(e, 32) !in gone then TakenOver(base, read, adds, {}, e)
    else
      || TakenOver(base, read, adds[..if m < |adds| then m else |adds|], gone, e)
      || HalfLeft(base, |adds| + HalfStep(e) < m, gone, e)
  }

  predicate HalfLeft(base: Table, added: bool, gone: set<Prefix>, e: Address) {
    added && HalfOf(e) !in gone && BestLength(base - gone, e) <= 1
  }

  lemma FreshOffTunnel(base: Table, gone: set<Prefix>, a: Address, iface: string)
    requires FreshInterface(base, iface)
    ensures !OnTunnel(base - gone, a, iface)
  {
    LookupIsLongest(base - gone, a);
  }

  /** Before the pin, only the adds count. */
  lemma ExposedByAdds(base: Table, read: Reader, adds: seq<Command>, gone: set<Prefix>, e: Address, iface: string)
    requires FreshInterface(base, iface) && AllAdds(adds, iface) && Replay(base, read, adds).Some?
    ensures OnTunnel(Replay(base, read, adds).value - gone, e, iface) <==> TakenOver(base, read, adds, gone, e)
  {
    AddedLookup(base, read, adds, gone, iface, e);
    FreshOffTunnel(base, gone, e, iface);
  }

  lemma PinLeft(t: Table, e: Address, hop: NextHop, iface: string, k: nat, gone: set<Prefix>)
    requires 1 <= k <= 3 && Prefix(e, 32) !in gone
    ensures Lookup(Overridden(t, e, hop, iface, k) - gone, e) == Some(hop)
  {
    var t' := Overridden(t, e, hop, iface, k) - gone;
    NetworkEnds(e);
    LookupIsLongest(t', e);
    BestIs(t', e, Prefix(e, 32));
  }

  function WithHalf(t: Table, added: bool, half: Prefix, iface: string): Table {
    if added then t[half := TunnelHop(iface)] else t
  }

  /** Once the pin is gone, what is left of the override are the halves that were added and kept. */
  lemma HalvesLeft(t: Table, e: Address, hop: NextHop, iface: string, k: nat, gone: set<Prefix>)
    requires k <= 3 && Prefix(e, 32) in gone
    ensures Overridden(t, e, hop, iface, k) - gone ==
            WithHalf(WithHalf(t - gone, k >= 2 && LOW !in gone, LOW, iface), k >= 3 && HIGH !in gone, HIGH, iface)
  {
  }

  /** Only the half around the endpoint matters to it, and only to a shorter match. */
  lemma HalvesTake(t: Table, e: Address, iface: string, low: bool, high: bool)
    ensures var t' := WithHalf(WithHalf(t, low, LOW, iface), high, HIGH, iface);
            Lookup(t', e) ==
            if (if e < HALF then low else high) && BestLength(t, e) <= 1 then Some(TunnelHop(iface)) else Lookup(t, e)
  {
    NetworkEnds(e);
    LookupUpdate(t, LOW, TunnelHop(iface), e);
    LookupUpdate(WithHalf(t, low, LOW, iface), HIGH, TunnelHop(iface), e);
  }

  lemma ExposedWithoutPin(
      base: Table, read: Reader, adds: seq<Command>, hop: NextHop, k: nat, gone: set<Prefix>, e: Address, iface: string)
    requires FreshInterface(base, iface) && AllAdds(adds, iface) && Replay(base, read, adds).Some?
    requires k <= 3 && Prefix(e, 32) in gone
    ensures OnTunnel(Overridden(Replay(base, read, adds).value, e, hop, iface, k) - gone, e, iface) <==>
            TakenOver(base, read, adds, gone, e) || HalfLeft(base, HalfStep(e) < k, gone, e)
  {
    var t := Replay(base, read, adds).value;
    HalvesLeft(t, e, hop, iface, k, gone);
    HalvesTake(t - gone, e, iface, k >= 2 && LOW !in gone, k >= 3 && HIGH !in gone);
    AddedLookup(base, read, adds, gone, iface, e);
    FreshOffTunnel(base, gone, e, iface);
  }

  lemma ExposedWithPin(
      base: Table, read: Reader, adds: seq<Command>, k: nat, gone: set<Prefix>, e: Address, iface: string)
    requires FreshInterface(base, iface) && AllAdds(adds, iface) && Replay(base, read, adds).Some?
    requires Lookup(Replay(base, read, adds).value, e).Some? && 1 <= k <= 3 && Prefix(e, 32) !in gone
    ensures var t := Replay(base, read, adds).value;
            OnTunnel(Overridden(t, e, Lookup(t, e).value, iface, k) - gone, e, iface) <==> TakenOver(base, read, adds, {}, e)
  {
    var t := Replay(base, read, adds).value;
    PinLeft(t, e, Lookup(t, e).value, iface, k, gone);
    ExposedByAdds(base, read, adds, {}, e, iface);
    assert t - {} == t;
  }

  /** The table after the first m commands of a plan, past the adds. */
  lemma PlanOverridden(base: Table, read: Reader, adds: seq<Command>, e: Address, hop: NextHop, iface: string, k: nat)
    requires ReadsOwn(read, e) && Replay(base, read, adds).Some? && k <= 3
    ensures Replay(base, read, (adds + Override(e, hop, iface))[..|adds| + k])
            == Some(Overridden(Replay(base, read, adds).value, e, hop, iface, k))
  {
    var over := Override(e, hop, iface);
    assert (adds + over)[..|adds| + k] == adds + over[..k];
    ReplayConcat(base, read, adds, over[..k]);
    OverrideReplay(Replay(base, read, adds).value, read, e, hop, iface, k);
  }

  lemma ExposedPastAdds(
      base: Table, read: Reader, adds: seq<Command>, e: Address, iface: string, k: nat, gone: set<Prefix>)
    requires FreshInterface(base, iface) && ReadsOwn(read, e) && AllAdds(adds, iface) && 1 <= k <= 3
    requires Replay(base, read, adds).Some? && Lookup(Replay(base, read, adds).value, e).Some?
    ensures var plan := adds + Override(e, Lookup(Replay(base, read, adds).value, e).value, iface);
            var t := Replay(base, read, plan[..|adds| + k]);
            t.Some? && (OnTunnel(t.value - gone, e, iface) <==> Exposed(base, read, adds, |adds| + k, gone, e))
  {
    var hop := Lookup(Replay(base, read, adds).value, e).value;
    PlanOverridden(base, read, adds, e, hop, iface, k);
    assert adds[..|adds|] == adds;
    if Prefix(e, 32) in gone {
      ExposedWithoutPin(base, read, adds, hop, k, gone, e, iface);
    } else {
      ExposedWithPin(base, read, adds, k, gone, e, iface);
    }
  }

  /** In every mode, for any list, any initial table that does not use the fresh interface, any point
      at which the set-up stopped and any prefixes deleted since: the exact condition under which the
      endpoint is on the tunnel. */
  lemma EndpointOnTunnel(
      base: Table, read: Reader, full: bool, allowed: seq<string>, e: Address, iface: string, m: nat, gone: set<Prefix>)
    requires FreshInterface(base, iface) && ReadsOwn(read, e)
    requires m <= |Plan(base, read, full, allowed, Some(e), iface)|
    requires Replay(base, read, Plan(base, read, full, allowed, Some(e), iface)[..m]).Some?
    ensures OnTunnel(Replay(base, read, Plan(base, read, full, allowed, Some(e), iface)[..m]).value - gone, e, iface)
            <==> Exposed(base, read, Listed(full, allowed, iface), m, gone, e)
  {
    var plan, adds := Plan(base, read, full, allowed, Some(e), iface), Listed(full, allowed, iface);
    PlanPins(base, read, full, allowed, Some(e), iface);
    AddsOnlyAdd(allowed, iface);
    if m <= |adds| {
      assert plan[..m] == adds[..m];
      ExposedByAdds(base, read, adds[..m], gone, e, iface);
    } else {
      ExposedPastAdds(base, read, adds, e, iface, m - |adds|, gone);
    }
  }

  /** The same after the first j deletes of a tear-down, any of which may fail. */
  lemma TornExposed(
      base: Table, read: Reader, full: bool, allowed: seq<string>, e: Address, iface: string, done: seq<Command>,
      stuck: nat -> bool, start: nat, j: nat)
    requires FreshInterface(base, iface) && ReadsOwn(read, e)
    requires done <= Plan(base, read, full, allowed, Some(e), iface) && j <= |done| && Replay(base, read, done).Some?
    ensures OnTunnel(TornBy(Replay(base, read, done).value, read, Dsts(done), stuck, start, j), e, iface) <==>
            Exposed(base, read, Listed(full, allowed, iface), |done|, Gone(read, Dsts(done), stuck, start, j), e)
  {
    var plan := Plan(base, read, full, allowed, Some(e), iface);
    assert done == plan[..|done|];
    TornGone(Replay(base, read, done).value, read, Dsts(done), stuck, start, j);
    EndpointOnTunnel(base, read, full, allowed, e, iface, |done|, Gone(read, Dsts(done), stuck, start, j));
  }

  // ----- full tunnel

  lemma PlanReplays(base: Table, read: Reader, allowed: seq<string>, e: Address, iface: string, m: nat)
    requires ReadsOwn(read, e) && m <= |Plan(base, read, true, allowed, Some(e), iface)|
    ensures Replay(base, read, Plan(base, read, true, allowed, Some(e), iface)[..m]).Some?
    ensures m > 0 ==> Lookup(base, e).Some? && |Plan(base, read, true, allowed, Some(e), iface)| == 3
  {
    PlanPins(base, read, true, allowed, Some(e), iface);
    assert Replay(base, read, []) == Some(base);
    if m > 0 {
      var hop := Lookup(base, e).value;
      assert [] + Override(e, hop, iface) == Override(e, hop, iface);
      PlanOverridden(base, read, [], e, hop, iface, m);
    }
  }

  /** In full-tunnel mode no table of the set-up, at whichever command it stops, sends the endpoint
      into the tunnel: it keeps the hop it had. */
  lemma SetUpKeepsEndpointOff(base: Table, read: Reader, allowed: seq<string>, e: Address, iface: string, k: nat)
    requires FreshInterface(base, iface) && ReadsOwn(read, e)
    requires k <= |Plan(base, read, true, allowed, Some(e), iface)|
    ensures var t := Replay(base, read, Plan(base, read, true, allowed, Some(e), iface)[..k]);
            t.Some? && Lookup(t.value, e) == Lookup(base, e) && !OnTunnel(t.value, e, iface)
  {
    assert Replay(base, read, []) == Some(base);
    LookupIsLongest(base, e);
    if Lookup(base, e).Some? {
      var hop := Lookup(base, e).value;
      assert Plan(base, read, true, allowed, Some(e), iface) == Override(e, hop, iface);
      OverrideReplay(base, read, e, hop, iface, k);
      EndpointKeepsHop(base, e, iface, k);
    }
  }

  /** The prefix that each command of the override names. */
  function OverridePrefix(e: Address, i: nat): Prefix
    requires i < 3
  {
    if i == 0 then Prefix(e, 32) else if i == 1 then LOW else HIGH
  }

  lemma OverrideNames(read: Reader, e: Address, hop: NextHop, iface: string, k: nat, i: nat)
    requires ReadsOwn(read, e) && i < k <= 3
    ensures read(Dsts(Override(e, hop, iface)[..k])[i]) == Some(OverridePrefix(e, i))
  {
    assert Override(e, hop, iface)[..k][i] == Override(e, hop, iface)[i];
  }

  /** The tear-down of a full tunnel's first k commands runs from the last of them back to the pin:
      command c is undone by delete k - 1 - c. */
  lemma GoneOfOverride(
      read: Reader, e: Address, hop: NextHop, iface: string, k: nat, stuck: nat -> bool, start: nat, j: nat, c: nat)
    requires ReadsOwn(read, e) && j <= k <= 3 && c < k
    ensures var gone := Gone(read, Dsts(Override(e, hop, iface)[..k]), stuck, start, j);
            OverridePrefix(e, c) in gone <==> j >= k - c && !stuck(start + k - 1 - c)
  {
    var undo, p := Dsts(Override(e, hop, iface)[..k]), OverridePrefix(e, c);
    GoneIs(read, undo, stuck, start, j, p);
    forall i | 0 <= i < j ensures DeletedAt(read, undo, stuck, start, i, p) <==> i == k - 1 - c && !stuck(start + i) {
      OverrideNames(read, e, hop, iface, k, k - 1 - i);
    }
    if j >= k - c { assert DeletedAt(read, undo, stuck, start, k - 1 - c, p) <==> !stuck(start + k - 1 - c); }
  }

  lemma GoneWithin(read: Reader, e: Address, hop: NextHop, iface: string, k: nat, stuck: nat -> bool, start: nat, j: nat)
    requires ReadsOwn(read, e) && j <= k <= 3
    ensures forall p :: p in Gone(read, Dsts(Override(e, hop, iface)[..k]), stuck, start, j) ==>
                          p == Prefix(e, 32) || p == LOW || p == HIGH
  {
    var undo := Dsts(Override(e, hop, iface)[..k]);
    forall p | p in Gone(read, undo, stuck, start, j) ensures p == Prefix(e, 32) || p == LOW || p == HIGH {
      GoneIs(read, undo, stuck, start, j, p);
      var i :| 0 <= i < j && DeletedAt(read, undo, stuck, start, i, p);
      OverrideNames(read, e, hop, iface, k, k - 1 - i);
    }
  }

  /** The other half never matched the endpoint. */
  lemma OnlyOwnHalf(base: Table, gone: set<Prefix>, e: Address)
    requires Prefix(e, 32) in gone && HalfOf(e) !in gone
    requires forall p :: p in gone ==> p == Prefix(e, 32) || p == LOW || p == HIGH
    ensures BestLength(base - gone, e) == BestLength(base - {Prefix(e, 32)}, e)
  {
    var rest := base - {Prefix(e, 32)};
    LookupIsLongest(rest, e);
    NetworkEnds(e);
    LookupRemove(rest, gone, e);
    assert rest - gone == base - gone;
  }

  /** A full tunnel's first k commands, taken back by j deletes, leave the endpoint on the tunnel: the
      tear-down is through, the pin was deleted, the half around the endpoint was added and its delete
      failed, and no initial entry but one at the pin's prefix is a longer match than that half. */
  predicate Strands(base: Table, e: Address, k: nat, stuck: nat -> bool, start: nat, j: nat) {
    && j == k && HalfStep(e) < k
    && !stuck(start + k - 1) && stuck(start + k - 1 - HalfStep(e))
    && BestLength(base - {Prefix(e, 32)}, e) <= 1
  }

  /** When deletes may fail, the endpoint of a full tunnel can be stranded: from whichever command the
      set-up stopped at, whatever the initial table holds, and after any number of deletes, exactly
      then. */
  lemma StuckTearDownStrands(
      base: Table, read: Reader, allowed: seq<string>, e: Address, iface: string, k: nat,
      stuck: nat -> bool, start: nat, j: nat)
    requires FreshInterface(base, iface) && ReadsOwn(read, e)
    requires k <= |Plan(base, read, true, allowed, Some(e), iface)| && j <= k
    ensures var done := Plan(base, read, true, allowed, Some(e), iface)[..k];
            Replay(base, read, done).Some? &&
            (OnTunnel(TornBy(Replay(base, read, done).value, read, Dsts(done), stuck, start, j), e, iface) <==>
             Strands(base, e, k, stuck, start, j))
  {
    var done := Plan(base, read, true, allowed, Some(e), iface)[..k];
    PlanReplays(base, read, allowed, e, iface, k);
    TornExposed(base, read, true, allowed, e, iface, done, stuck, start, j);
    if k > 0 {
      PlanPins(base, read, true, allowed, Some(e), iface);
      var hop := Lookup(base, e).value;
      assert done == Override(e, hop, iface)[..k];
      StrandsIfExposed(base, read, e, hop, iface, k, stuck, start, j);
    }
  }

  lemma StrandsIfExposed(
      base: Table, read: Reader, e: Address, hop: NextHop, iface: string, k: nat, stuck: nat -> bool, start: nat, j: nat)
    requires ReadsOwn(read, e) && j <= k <= 3 && k > 0
    ensures Exposed(base, read, [], k, Gone(read, Dsts(Override(e, hop, iface)[..k]), stuck, start, j), e)
            <==> Strands(base, e, k, stuck, start, j)
  {
    var gone := Gone(read, Dsts(Override(e, hop, iface)[..k]), stuck, start, j);
    GoneOfOverride(read, e, hop, iface, k, stuck, start, j, 0);
    ExposedAlone(base, read, k, gone, e);
    if Prefix(e, 32) in gone && HalfStep(e) < k {
      GoneOfOverride(read, e, hop, iface, k, stuck, start, j, HalfStep(e));
      GoneWithin(read, e, hop, iface, k, stuck, start, j);
      if HalfOf(e) !in gone {
        OnlyOwnHalf(base, gone, e);
      }
    }
  }

  lemma ExposedAlone(base: Table, read: Reader, k: nat, gone: set<Prefix>, e: Address)
    requires k > 0
    ensures Exposed(base, read, [], k, gone, e) <==> Prefix(e, 32) in gone && HalfLeft(base, HalfStep(e) < k, gone, e)
  {
  }

  /** Nothing on the way down sends the endpoint into the tunnel either, when deletes work: from
      whichever command the set-up stopped at and whatever the initial table holds, because the pin
      comes out last. The endpoint keeps its old hop while the pin is there, and throughout when the
      table had no entry at the three prefixes. */
  lemma TearDownKeepsEndpointOff(
      base: Table, read: Reader, allowed: seq<string>, e: Address, iface: string, k: nat,
      stuck: nat -> bool, start: nat, j: nat)
    requires FreshInterface(base, iface) && ReadsOwn(read, e) && NoneStuck(stuck)
    requires k <= |Plan(base, read, true, allowed, Some(e), iface)| && j <= k
    ensures var done := Plan(base, read, true, allowed, Some(e), iface)[..k];
            Replay(base, read, done).Some? &&
            var t := TornBy(Replay(base, read, done).value, read, Dsts(done), stuck, start, j);
            && !OnTunnel(t, e, iface)
            && (j < k || NothingReplaced(base, e) ==> Lookup(t, e) == Lookup(base, e))
  {
    var plan := Plan(base, read, true, allowed, Some(e), iface);
    var done := plan[..k];
    StuckTearDownStrands(base, read, allowed, e, iface, k, stuck, start, j);
    if j < k {
      PinStays(base, read, allowed, e, iface, k, stuck, start, j);
    } else if NothingReplaced(base, e) {
      PlanFresh(base, read, allowed, e, iface, k);
      TearDownRetraces(base, read, done, stuck, start, j);
      assert done[..k - j] == [];
    }
  }

  lemma PinStays(
      base: Table, read: Reader, allowed: seq<string>, e: Address, iface: string, k: nat,
      stuck: nat -> bool, start: nat, j: nat)
    requires ReadsOwn(read, e) && j < k <= |Plan(base, read, true, allowed, Some(e), iface)|
    ensures var done := Plan(base, read, true, allowed, Some(e), iface)[..k];
            Replay(base, read, done).Some? &&
            Lookup(TornBy(Replay(base, read, done).value, read, Dsts(done), stuck, start, j), e) == Lookup(base, e)
  {
    var done := Plan(base, read, true, allowed, Some(e), iface)[..k];
    PlanReplays(base, read, allowed, e, iface, k);
    PlanPins(base, read, true, allowed, Some(e), iface);
    var hop := Lookup(base, e).value;
    assert done == Override(e, hop, iface)[..k];
    OverrideReplay(base, read, e, hop, iface, k);
    TornGone(Overridden(base, e, hop, iface, k), read, Dsts(done), stuck, start, j);
    GoneOfOverride(read, e, hop, iface, k, stuck, start, j, 0);
    PinLeft(base, e, hop, iface, k, Gone(read, Dsts(done), stuck, start, j));
  }

  lemma PlanFresh(base: Table, read: Reader, allowed: seq<string>, e: Address, iface: string, k: nat)
    requires ReadsOwn(read, e) && NothingReplaced(base, e)
    requires k <= |Plan(base, read, true, allowed, Some(e), iface)|
    ensures AllFresh(base, read, Plan(base, read, true, allowed, Some(e), iface)[..k])
  {
    var plan := Plan(base, read, true, allowed, Some(e), iface);
    assert Replay(base, read, []) == Some(base);
    forall i | 0 <= i < k ensures FreshAt(base, read, plan[..k], i) {
      var hop := Lookup(base, e).value;
      assert plan == Override(e, hop, iface);
      assert plan[..k][..i] == Override(e, hop, iface)[..i];
      OverrideReplay(base, read, e, hop, iface, i);
    }
  }

  // ----- hosts on which a full tunnel does less than one might expect

  const GATEWAY: NextHop := NextHop("10.0.0.1", "eth0")
  const OTHER: NextHop := NextHop("10.0.0.2", "eth1")

  predicate NeverStuck(n: nat) { false }

  /** The plan of a full tunnel on a host that reaches the endpoint. */
  lemma FullPlan(base: Table, read: Reader, e: Address, iface: string)
    requires ReadsOwn(read, e) && Lookup(base, e).Some?
    ensures var plan := Plan(base, read, true, [], Some(e), iface);
            && plan == Override(e, Lookup(base, e).value, iface)
            && Replay(base, read, plan).Some?
  {
    PlanPins(base, read, true, [], Some(e), iface);
    var hop := Lookup(base, e).value;
    assert [] + Override(e, hop, iface) == Override(e, hop, iface);
    OverrideReplay(base, read, e, hop, iface, 3);
    assert Override(e, hop, iface)[..3] == Override(e, hop, iface);
  }

  lemma DefaultReaches(base: Table, e: Address)
    requires Prefix(0, 0) in base
    ensures Lookup(base, e).Some?
  {
    NetworkEnds(e);
    LookupIsLongest(base, e);
  }

  /** A host that already routes the low half on its own does not get its table back, although every
      delete works. */
  lemma CloseLosesEntry(read: Reader, e: Address, iface: string)
    requires ReadsOwn(read, e)
    ensures var base: Table := map[Prefix(0, 0) := GATEWAY, LOW := OTHER];
            var plan := Plan(base, read, true, [], Some(e), iface);
            var t := Replay(base, read, plan);
            t.Some? && TornBy(t.value, read, Dsts(plan), NeverStuck, 0, |plan|) != base
  {
    var base: Table := map[Prefix(0, 0) := GATEWAY, LOW := OTHER];
    DefaultReaches(base, e);
    FullPlan(base, read, e, iface);
    var plan := Plan(base, read, true, [], Some(e), iface);
    assert Overwrites(base, read, plan[1]);
    TearDownRestores(base, read, plan, NeverStuck, 0);
  }

  /** On a host with nothing but a default route, one failing delete strands the endpoint: that of
      the half around it, after a set-up of any length that added that half. */
  lemma StuckDeleteStrands(read: Reader, e: Address, iface: string, k: nat)
    requires ReadsOwn(read, e) && iface != "eth0" && HalfStep(e) < k <= 3
    ensures var base: Table := map[Prefix(0, 0) := GATEWAY];
            var plan := Plan(base, read, true, [], Some(e), iface);
            |plan| == 3 &&
            var t := Replay(base, read, plan[..k]);
            var stuck := (n: nat) => n == k - 1 - HalfStep(e);
            t.Some? && OnTunnel(TornBy(t.value, read, Dsts(plan[..k]), stuck, 0, k), e, iface)
  {
    var base: Table := map[Prefix(0, 0) := GATEWAY];
    DefaultReaches(base, e);
    FullPlan(base, read, e, iface);
    LookupIsLongest(base - {Prefix(e, 32)}, e);
    StuckTearDownStrands(base, read, [], e, iface, k, (n: nat) => n == k - 1 - HalfStep(e), 0, k);
  }
}
