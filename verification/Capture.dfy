/** The route commands `caravel connect` issues, and what they do to the lookup of every address. */
module Capture {
  import opened Wrappers
  import opened Text
  import opened Routes

  const DEFAULT4: string := "0.0.0.0/0"
  const DEFAULT6: string := "::/0"
  const LOW_HALF: string := "0.0.0.0/1"
  const HIGH_HALF: string := "128.0.0.0/1"
  const LOW: Prefix := Prefix(0, 1)
  const HIGH: Prefix := Prefix(HALF, 1)

  predicate IsDefaultRoute(cidr: string) {
    cidr == DEFAULT4 || cidr == DEFAULT6
  }

  /** The listed entries that become a route of their own: not a default, not IPv6. */
  predicate Routed(cidr: string) {
    !IsDefaultRoute(cidr) && ':' !in cidr
  }

  function TunnelHop(iface: string): NextHop {
    NextHop("", iface)
  }

  ghost predicate OnTunnel(t: Table, a: Address, iface: string) {
    Lookup(t, a).Some? && Lookup(t, a).value.dev == iface
  }

  /** The interface was created for this tunnel, so no route uses it yet. */
  ghost predicate FreshInterface(t: Table, iface: string) {
    forall p :: p in t ==> t[p].dev != iface
  }

  function Dotted(a: Address): string {
    Quads(a / 0x100_0000, a / 0x1_0000 % 256, a / 0x100 % 256, a % 256)
  }

  function Quads(a: nat, b: nat, c: nat, d: nat): string {
    Dec(a) + "." + Dec(b) + "." + Dec(c) + "." + Dec(d)
  }

  function HostRoute(e: Address): string {
    Dotted(e) + "/32"
  }

  /** The ip tool reads the three destinations the client writes itself as what they say. */
  ghost predicate ReadsOwn(read: Reader, e: Address) {
    read(HostRoute(e)) == Some(Prefix(e, 32)) && read(LOW_HALF) == Some(LOW) && read(HIGH_HALF) == Some(HIGH)
  }

  // ----- the commands

  /** One add per routed entry, in order. */
  function Adds(allowed: seq<string>, iface: string): seq<Command> {
    if allowed == [] then []
    else
      var last := allowed[|allowed| - 1];
      Adds(allowed[..|allowed| - 1], iface) + (if Routed(last) then [Command(Add, last, TunnelHop(iface))] else [])
  }

  predicate Captures(full: bool, allowed: seq<string>) {
    full || DEFAULT4 in allowed || DEFAULT6 in allowed
  }

  function Override(e: Address, hop: NextHop, iface: string): seq<Command> {
    [Command(Replace, HostRoute(e), hop),
     Command(Replace, LOW_HALF, TunnelHop(iface)),
     Command(Replace, HIGH_HALF, TunnelHop(iface))]
  }

  /** The adds a set-up issues before it looks at the endpoint: none in full-tunnel mode. */
  function Listed(full: bool, allowed: seq<string>, iface: string): seq<Command> {
    if full then [] else Adds(allowed, iface)
  }

  /** All the commands of a set-up that meets no failure; the pin uses the hop read after the adds. */
  function Plan(
      base: Table, read: Reader, full: bool, allowed: seq<string>,
      endpoint: Option<Address>, iface: string): seq<Command>
  {
    var adds := Listed(full, allowed, iface);
    if !Captures(full, allowed) then adds
    else match (endpoint, Replay(base, read, adds))
      case (Some(e), Some(t)) =>
        (match Lookup(t, e)
         case Some(hop) => adds + Override(e, hop, iface)
         case None => adds)
      case _ => adds
  }

  /** A plan that goes on beyond the adds found a hop to the endpoint after them. */
  lemma PlanPins(base: Table, read: Reader, full: bool, allowed: seq<string>, endpoint: Option<Address>, iface: string)
    ensures var plan, adds := Plan(base, read, full, allowed, endpoint, iface), Listed(full, allowed, iface);
            && adds <= plan
            && (plan == adds || (
                && endpoint.Some? && Replay(base, read, adds).Some?
                && Lookup(Replay(base, read, adds).value, endpoint.value).Some?
                && plan == adds + Override(endpoint.value, Lookup(Replay(base, read, adds).value, endpoint.value).value, iface)))
  {
  }

  // ----- which entries of a list become routes

  /** The entries of a list that are IPv4 prefixes other than the default route, in order. */
  function Ipv4Entries(allowed: seq<string>): seq<string> {
    if allowed == [] then []
    else (if ':' in allowed[0] || allowed[0] == "0.0.0.0/0" then [] else [allowed[0]]) + Ipv4Entries(allowed[1..])
  }

  lemma {:induction false} Ipv4Append(a: seq<string>, b: seq<string>)
    ensures Ipv4Entries(a + b) == Ipv4Entries(a) + Ipv4Entries(b)
  {
    if a == [] {
      assert a + b == b;
    } else {
      assert (a + b)[1..] == a[1..] + b;
      Ipv4Append(a[1..], b);
    }
  }

  lemma Ipv4One(cidr: string)
    ensures Ipv4Entries([cidr]) == if ':' in cidr || cidr == "0.0.0.0/0" then [] else [cidr]
    ensures Routed(cidr) <==> !(':' in cidr || cidr == "0.0.0.0/0")
  {
    assert DEFAULT6[0] == ':';
    assert [cidr][1..] == [];
  }

  /** Each of those entries becomes one add over the tunnel interface, with no gateway, and nothing
      else does. */
  lemma {:induction false} AddsAre(allowed: seq<string>, iface: string)
    ensures var adds, entries := Adds(allowed, iface), Ipv4Entries(allowed);
            |adds| == |entries|
            && forall i :: 0 <= i < |adds| ==> adds[i] == Command(Add, entries[i], NextHop("", iface))
  {
    if allowed != [] {
      var n := |allowed| - 1;
      AddsAre(allowed[..n], iface);
      Ipv4Append(allowed[..n], [allowed[n]]);
      Ipv4One(allowed[n]);
      assert allowed == allowed[..n] + [allowed[n]];
    }
  }

  lemma SameAdds(a: seq<string>, b: seq<string>, iface: string)
    requires Ipv4Entries(a) == Ipv4Entries(b)
    ensures Adds(a, iface) == Adds(b, iface)
  {
    AddsAre(a, iface);
    AddsAre(b, iface);
  }

  /** An IPv6 entry other than the default route changes nothing of a set-up, wherever it is listed. */
  lemma Ipv6Skipped(
      base: Table, read: Reader, full: bool, a: seq<string>, cidr: string, b: seq<string>,
      endpoint: Option<Address>, iface: string)
    requires ':' in cidr && cidr != "::/0"
    ensures Plan(base, read, full, a + [cidr] + b, endpoint, iface) == Plan(base, read, full, a + b, endpoint, iface)
  {
    Ipv4Append(a + [cidr], b);
    Ipv4Append(a, [cidr]);
    Ipv4Append(a, b);
    Ipv4One(cidr);
    assert Ipv4Entries(a) + [] == Ipv4Entries(a);
    SameAdds(a + [cidr] + b, a + b, iface);
    SameCaptures(full, a, cidr, b);
  }

  lemma SameCaptures(full: bool, a: seq<string>, cidr: string, b: seq<string>)
    requires ':' in cidr && cidr != "::/0"
    ensures Captures(full, a + [cidr] + b) <==> Captures(full, a + b)
  {
    assert ':' !in DEFAULT4;
    assert DEFAULT4 in a + [cidr] + b <==> DEFAULT4 in a + b;
    assert DEFAULT6 in a + [cidr] + b <==> DEFAULT6 in a + b;
  }

  /** A set-up that can reach the endpoint goes on to override the default exactly in full-tunnel mode
      and when the list holds a default route of either kind. */
  lemma OverridesWhen(base: Table, read: Reader, full: bool, allowed: seq<string>, e: Address, iface: string)
    requires Replay(base, read, Listed(full, allowed, iface)).Some?
    requires Lookup(Replay(base, read, Listed(full, allowed, iface)).value, e).Some?
    ensures |Plan(base, read, full, allowed, Some(e), iface)| == |Listed(full, allowed, iface)| + 3
            <==> full || "0.0.0.0/0" in allowed || "::/0" in allowed
    ensures Listed(full, allowed, iface) == if full then [] else Adds(allowed, iface)
  {
  }

  // ----- splitting: lookups after the listed prefixes were added

  /** A listed entry that takes an address over: it covers it and had no match as long. */
  predicate Takes(base: Table, read: Reader, cidr: string, a: Address) {
    Routed(cidr) && read(cidr).Some? && Covers(read(cidr).value, a) && read(cidr).value.len > BestLength(base, a)
  }

  ghost predicate Taken(base: Table, read: Reader, allowed: seq<string>, a: Address) {
    exists i :: 0 <= i < |allowed| && Takes(base, read, allowed[i], a)
  }

  lemma TakenAppend(base: Table, read: Reader, allowed: seq<string>, cidr: string, a: Address)
    ensures Taken(base, read, allowed + [cidr], a) <==> Taken(base, read, allowed, a) || Takes(base, read, cidr, a)
  {
    var all := allowed + [cidr];
    if Taken(base, read, allowed, a) {
      var i :| 0 <= i < |allowed| && Takes(base, read, allowed[i], a);
      assert all[i] == allowed[i];
    }
    assert all[|allowed|] == cidr;
  }

  /** The same for one issued add, in a table from which the prefixes in `gone` were deleted since:
      the add's own prefix was not, and it beats what is left of the initial table. */
  predicate Wins(base: Table, read: Reader, c: Command, gone: set<Prefix>, a: Address) {
    read(c.dst).Some? && read(c.dst).value !in gone && Covers(read(c.dst).value, a)
    && read(c.dst).value.len > BestLength(base - gone, a)
  }

  ghost predicate TakenOver(base: Table, read: Reader, adds: seq<Command>, gone: set<Prefix>, a: Address) {
    exists i :: 0 <= i < |adds| && Wins(base, read, adds[i], gone, a)
  }

  lemma TakenOverSnoc(base: Table, read: Reader, adds: seq<Command>, c: Command, gone: set<Prefix>, a: Address)
    ensures TakenOver(base, read, adds + [c], gone, a) <==>
            TakenOver(base, read, adds, gone, a) || Wins(base, read, c, gone, a)
  {
    var all := adds + [c];
    if TakenOver(base, read, adds, gone, a) {
      var i :| 0 <= i < |adds| && Wins(base, read, adds[i], gone, a);
      assert all[i] == adds[i];
    }
    assert all[|adds|] == c;
  }

  /** The two readings agree: a list takes an address over exactly when one of its adds does. */
  lemma {:induction false} TakenByAdds(base: Table, read: Reader, allowed: seq<string>, iface: string, a: Address)
    ensures TakenOver(base, read, Adds(allowed, iface), {}, a) <==> Taken(base, read, allowed, a)
  {
    if allowed != [] {
      var n := |allowed| - 1;
      var c := Command(Add, allowed[n], TunnelHop(iface));
      TakenByAdds(base, read, allowed[..n], iface, a);
      assert allowed == allowed[..n] + [allowed[n]];
      TakenAppend(base, read, allowed[..n], allowed[n], a);
      TakenOverSnoc(base, read, Adds(allowed[..n], iface), c, {}, a);
      assert base - {} == base;
      assert Adds(allowed[..n], iface) + [] == Adds(allowed[..n], iface);
    }
  }

  ghost predicate AllAdds(cs: seq<Command>, iface: string) {
    forall i :: 0 <= i < |cs| ==> cs[i].verb == Add && cs[i].hop == TunnelHop(iface)
  }

  lemma {:induction false} AddsOnlyAdd(allowed: seq<string>, iface: string)
    ensures AllAdds(Adds(allowed, iface), iface)
  {
    if allowed != [] {
      AddsOnlyAdd(allowed[..|allowed| - 1], iface);
    }
  }

  /** What a lookup is once an add may have taken the address over. */
  ghost predicate Rerouted(base: Table, t: Table, taken: bool, iface: string, a: Address) {
    if taken then Lookup(t, a) == Some(TunnelHop(iface)) && BestLength(t, a) > BestLength(base, a)
    else Lookup(t, a) == Lookup(base, a) && BestLength(t, a) == BestLength(base, a)
  }

  lemma OneAdded(base: Table, t: Table, p: Prefix, iface: string, a: Address, was: bool)
    requires p !in t && base.Keys <= t.Keys && Rerouted(base, t, was, iface, a)
    ensures Rerouted(base, t[p := TunnelHop(iface)], was || (Covers(p, a) && p.len > BestLength(base, a)), iface, a)
  {
    LookupUpdate(t, p, TunnelHop(iface), a);
    LookupIsLongest(base, a);
    assert Covers(p, a) && p.len == BestLength(base, a) ==> Best(base, a) == Some(p);
  }

  lemma AddedThenGone(base: Table, before: Table, p: Prefix, hop: NextHop, gone: set<Prefix>)
    requires base.Keys <= before.Keys && p !in before
    ensures p in gone ==> before[p := hop] - gone == before - gone
    ensures p !in gone ==> before[p := hop] - gone == (before - gone)[p := hop]
    ensures p !in before - gone && (base - gone).Keys <= (before - gone).Keys
  {
  }

  /** After any run of adds and the deletion of any prefixes, an address is on the tunnel by the adds
      left exactly when one of them beats what is left of the initial table; otherwise its lookup is
      the one of that table. */
  lemma {:induction false} AddedLookup(
      base: Table, read: Reader, adds: seq<Command>, gone: set<Prefix>, iface: string, a: Address)
    requires AllAdds(adds, iface) && Replay(base, read, adds).Some?
    ensures Rerouted(base - gone, Replay(base, read, adds).value - gone, TakenOver(base, read, adds, gone, a), iface, a)
  {
    if adds != [] {
      var n := |adds| - 1;
      var c := adds[n];
      assert adds == adds[..n] + [c];
      AddedLookup(base, read, adds[..n], gone, iface, a);
      ReplayFrame(base, read, adds[..n]);
      TakenOverSnoc(base, read, adds[..n], c, gone, a);
      var before, p := Replay(base, read, adds[..n]).value, read(c.dst).value;
      AddedThenGone(base, before, p, c.hop, gone);
      if p !in gone {
        OneAdded(base - gone, before - gone, p, iface, a, TakenOver(base, read, adds[..n], gone, a));
      }
    }
  }

  /** Split tunnel, for a list of any length: once the listed prefixes are added, an address uses the
      tunnel exactly when some listed IPv4 prefix covers it and is longer than its old match; every
      other lookup is unchanged. Without a default route in the list this is the whole set-up. */
  lemma SplitLookup(base: Table, read: Reader, allowed: seq<string>, iface: string, a: Address)
    requires Replay(base, read, Adds(allowed, iface)).Some?
    ensures !Captures(false, allowed) ==>
              forall endpoint :: Plan(base, read, false, allowed, endpoint, iface) == Adds(allowed, iface)
    ensures Rerouted(base, Replay(base, read, Adds(allowed, iface)).value, Taken(base, read, allowed, a), iface, a)
  {
    var t := Replay(base, read, Adds(allowed, iface)).value;
    AddsOnlyAdd(allowed, iface);
    AddedLookup(base, read, Adds(allowed, iface), {}, iface, a);
    TakenByAdds(base, read, allowed, iface, a);
    assert base - {} == base && t - {} == t;
  }

  // ----- capturing: lookups after the pin and the two halves

  /** The table after the first k override commands. */
  function Overridden(t: Table, e: Address, hop: NextHop, iface: string, k: nat): Table
    requires k <= 3
  {
    if k == 0 then t
    else if k == 1 then t[Prefix(e, 32) := hop]
    else if k == 2 then t[Prefix(e, 32) := hop][LOW := TunnelHop(iface)]
    else t[Prefix(e, 32) := hop][LOW := TunnelHop(iface)][HIGH := TunnelHop(iface)]
  }

  lemma OverrideReplay(t: Table, read: Reader, e: Address, hop: NextHop, iface: string, k: nat)
    requires ReadsOwn(read, e) && k <= 3
    ensures Replay(t, read, Override(e, hop, iface)[..k]) == Some(Overridden(t, e, hop, iface, k))
  {
    var cs := Override(e, hop, iface);
    assert cs[..0] == [];
    assert cs[..1] == cs[..0] + [cs[0]];
    assert cs[..2] == cs[..1] + [cs[1]];
    assert cs[..3] == cs[..2] + [cs[2]];
    ReplayAppend(t, read, cs[..0], cs[0]);
    ReplayAppend(t, read, cs[..1], cs[1]);
    ReplayAppend(t, read, cs[..2], cs[2]);
  }

  /** Every step of the override leaves the endpoint on the hop it had: the pin goes in before the
      halves. */
  lemma EndpointKeepsHop(t: Table, e: Address, iface: string, k: nat)
    requires Lookup(t, e).Some? && k <= 3
    ensures Lookup(Overridden(t, e, Lookup(t, e).value, iface, k), e) == Lookup(t, e)
  {
  }

  /** Full tunnel: the endpoint keeps its hop, an address whose old match is longer than /1 is
      unchanged, and every other address of the IPv4 space uses the tunnel; all other entries of
      the table, the old default among them, are still there. */
  lemma FullCapture(t: Table, e: Address, iface: string, a: Address)
    requires Lookup(t, e).Some?
    ensures var t' := Overridden(t, e, Lookup(t, e).value, iface, 3);
            && Lookup(t', a) == (if a == e || BestLength(t, a) > 1 then Lookup(t, a) else Some(TunnelHop(iface)))
            && (forall p :: p in t && p != Prefix(e, 32) && p != LOW && p != HIGH ==> p in t' && t'[p] == t[p])
  {
    var hop := Lookup(t, e).value;
    EndpointKeepsHop(t, e, iface, 3);
    NetworkEnds(a);
    LookupUpdate(t, Prefix(e, 32), hop, a);
    LookupUpdate(Overridden(t, e, hop, iface, 1), LOW, TunnelHop(iface), a);
    LookupUpdate(Overridden(t, e, hop, iface, 2), HIGH, TunnelHop(iface), a);
  }

  // ----- the whole plan

  lemma {:induction false} ReplayConcat(t: Table, read: Reader, cs: seq<Command>, ds: seq<Command>)
    requires Replay(t, read, cs).Some?
    ensures Replay(t, read, cs + ds) == Replay(Replay(t, read, cs).value, read, ds)
  {
    if ds == [] {
      assert cs + ds == cs;
    } else {
      var n := |ds| - 1;
      assert (cs + ds)[..|cs| + n] == cs + ds[..n];
      ReplayConcat(t, read, cs, ds[..n]);
    }
  }

  /** A set-up that captures the default and meets no failure ends in a table where the endpoint and
      every address with a match longer than /1 are as after the adds, and every other address uses
      the tunnel. In full-tunnel mode there are no adds, so this is the initial table's lookup. */
  lemma CapturedLookup(
      base: Table, read: Reader, full: bool, allowed: seq<string>, e: Address, iface: string, t1: Table, a: Address)
    requires ReadsOwn(read, e) && Captures(full, allowed)
    requires Replay(base, read, Listed(full, allowed, iface)) == Some(t1) && Lookup(t1, e).Some?
    ensures var t := Replay(base, read, Plan(base, read, full, allowed, Some(e), iface));
            && t.Some?
            && Lookup(t.value, a) == (if a == e || BestLength(t1, a) > 1 then Lookup(t1, a) else Some(TunnelHop(iface)))
            && (forall p :: p in t1 && p != Prefix(e, 32) && p != LOW && p != HIGH ==> p in t.value && t.value[p] == t1[p])
  {
    var adds := Listed(full, allowed, iface);
    var hop := Lookup(t1, e).value;
    ReplayConcat(base, read, adds, Override(e, hop, iface));
    OverrideReplay(t1, read, e, hop, iface, 3);
    assert Override(e, hop, iface)[..3] == Override(e, hop, iface);
    FullCapture(t1, e, iface, a);
  }

  /** Every address's lookup after a whole set-up: a listed prefix takes over what it covers with a
      longer match than before; a captured default takes over every other address but the pinned
      endpoint and those with a match longer than /1; the rest is unchanged. */
  ghost predicate Captured(
      before: Table, after: Table, read: Reader, listed: seq<string>, pinned: Option<Address>, iface: string)
  {
    forall a: Address :: Lookup(after, a) ==
      if Taken(before, read, listed, a) then Some(TunnelHop(iface))
      else if pinned.None? || pinned == Some(a) || BestLength(before, a) > 1 then Lookup(before, a)
      else Some(TunnelHop(iface))
  }

  /** What a set-up that followed its whole plan did to all lookups, in every mode. */
  lemma WholePlanLookups(
      base: Table, read: Reader, full: bool, allowed: seq<string>,
      endpoint: Option<Address>, iface: string, t: Table)
    requires Replay(base, read, Plan(base, read, full, allowed, endpoint, iface)) == Some(t)
    requires Captures(full, allowed) ==>
               && |Plan(base, read, full, allowed, endpoint, iface)| > |Listed(full, allowed, iface)|
               && ReadsOwn(read, endpoint.value)
    ensures Captured(base, t, read, if full then [] else allowed, if Captures(full, allowed) then endpoint else None, iface)
  {
    var listed := if full then [] else allowed;
    var pinned := if Captures(full, allowed) then endpoint else None;
    PlanPins(base, read, full, allowed, endpoint, iface);
    forall a: Address ensures Lookup(t, a) ==
      if Taken(base, read, listed, a) then Some(TunnelHop(iface))
      else if pinned.None? || pinned == Some(a) || BestLength(base, a) > 1 then Lookup(base, a)
      else Some(TunnelHop(iface))
    {
      assert Adds(listed, iface) == Listed(full, allowed, iface);
      SplitLookup(base, read, listed, iface, a);
      if pinned.Some? {
        CapturedLookup(base, read, full, allowed, endpoint.value, iface, Replay(base, read, Adds(listed, iface)).value, a);
      }
    }
  }

  /** With a default route in a split list, the adds come before the endpoint's hop is read. The
      endpoint therefore stays off the tunnel exactly when no listed IPv4 prefix takes it over. */
  lemma SplitCaptureEndpoint(base: Table, read: Reader, allowed: seq<string>, e: Address, iface: string)
    requires FreshInterface(base, iface) && ReadsOwn(read, e) && Captures(false, allowed)
    requires Replay(base, read, Adds(allowed, iface)).Some? && Lookup(Replay(base, read, Adds(allowed, iface)).value, e).Some?
    ensures var t := Replay(base, read, Plan(base, read, false, allowed, Some(e), iface));
            t.Some? && (OnTunnel(t.value, e, iface) <==> Taken(base, read, allowed, e))
  {
    SplitLookup(base, read, allowed, iface, e);
    LookupIsLongest(base, e);
    CapturedLookup(base, read, false, allowed, e, iface, Replay(base, read, Adds(allowed, iface)).value, e);
  }

  lemma HostRouteRouted(e: Address)
    ensures Routed(HostRoute(e))
  {
  }

  /** The failing case exists: listing the endpoint's own /32 beside a default route pins the
      endpoint to the tunnel. */
  lemma SplitCaptureCanStrand(read: Reader, e: Address, iface: string)
    requires ReadsOwn(read, e) && read(DEFAULT4) == Some(Prefix(0, 0)) && iface != "eth0"
    ensures var base: Table := map[Prefix(0, 0) := NextHop("10.0.0.1", "eth0")];
            var t := Replay(base, read, Plan(base, read, false, [HostRoute(e), DEFAULT4], Some(e), iface));
            FreshInterface(base, iface) && t.Some? && OnTunnel(t.value, e, iface)
  {
    var base: Table := map[Prefix(0, 0) := NextHop("10.0.0.1", "eth0")];
    var allowed := [HostRoute(e), DEFAULT4];
    var c := Command(Add, HostRoute(e), TunnelHop(iface));
    HostRouteRouted(e);
    assert allowed[..1] == [HostRoute(e)];
    assert [HostRoute(e)][..0] == [];
    assert Adds([HostRoute(e)], iface) == [c];
    assert Adds(allowed, iface) == [c];
    ReplayAppend(base, read, [], c);
    assert [] + [c] == [c];
    NetworkEnds(e);
    LookupIsLongest(base, e);
    assert Takes(base, read, allowed[0], e);
    SplitLookup(base, read, allowed, iface, e);
    SplitCaptureEndpoint(base, read, allowed, e, iface);
  }

  // ----- what a set-up overwrites

  /** The initial table has none of the three entries that a full tunnel replaces. */
  ghost predicate NothingReplaced(base: Table, e: Address) {
    Prefix(e, 32) !in base && LOW !in base && HIGH !in base
  }

  /** What the override needs of the host so that undoing it restores the table: the three prefixes
      it replaces have no entry. Without an endpoint nothing is replaced. */
  ghost predicate Restorable(base: Table, read: Reader, endpoint: Option<Address>) {
    endpoint.Some? ==> ReadsOwn(read, endpoint.value) && NothingReplaced(base, endpoint.value)
  }

  /** In either mode, whatever is listed and wherever it stops, a set-up overwrites no entry of a
      table that has none at the three prefixes; and one that goes through to the end overwrites
      nothing only on such a table. */
  lemma PlanOverwrites(
      base: Table, read: Reader, full: bool, allowed: seq<string>,
      endpoint: Option<Address>, iface: string, k: nat)
    requires k <= |Plan(base, read, full, allowed, endpoint, iface)|
    ensures var plan := Plan(base, read, full, allowed, endpoint, iface);
            var adds := Listed(full, allowed, iface);
            && (Restorable(base, read, endpoint) ==> NothingOverwritten(base, read, plan[..k]))
            && (endpoint.Some? && ReadsOwn(read, endpoint.value) && |adds| < |plan| && NothingOverwritten(base, read, plan) ==>
                  NothingReplaced(base, endpoint.value))
  {
    var plan := Plan(base, read, full, allowed, endpoint, iface);
    var adds := Listed(full, allowed, iface);
    AddsOnlyAdd(allowed, iface);
    if |adds| < |plan| {
      var e := endpoint.value;
      var hop := Lookup(Replay(base, read, adds).value, e).value;
      OverrideOverwrites(base, read, adds, e, hop, iface);
      assert plan == adds + Override(e, hop, iface);
      if Restorable(base, read, endpoint) {
        forall i | 0 <= i < k ensures !Overwrites(base, read, plan[..k][i]) {
          assert plan[..k][i] == plan[i];
        }
      }
    } else {
      assert plan == adds;
    }
  }

  lemma OverrideOverwrites(base: Table, read: Reader, adds: seq<Command>, e: Address, hop: NextHop, iface: string)
    requires AllAdds(adds, iface)
    ensures ReadsOwn(read, e) ==>
              (NothingOverwritten(base, read, adds + Override(e, hop, iface)) <==> NothingReplaced(base, e))
  {
    var all, n := adds + Override(e, hop, iface), |adds|;
    assert all[n] == Command(Replace, HostRoute(e), hop);
    assert all[n + 1] == Command(Replace, LOW_HALF, TunnelHop(iface));
    assert all[n + 2] == Command(Replace, HIGH_HALF, TunnelHop(iface));
    if ReadsOwn(read, e) && NothingOverwritten(base, read, all) {
      assert !Overwrites(base, read, all[n]) && !Overwrites(base, read, all[n + 1]) && !Overwrites(base, read, all[n + 2]);
    }
  }
}
