/** Picking the entry point to dial at random from a node's pool, and reading the picked text back
    into the host and port the engine dials. */
module Endpoints {
  import opened Wrappers
  import opened Text
  import opened HostPort
  import opened JsonRecords

  const CLIENT_PORT: int64 := 443

  datatype Pool = Pool(ip: string, portMin: int64, portMax: int64)

  datatype NoEndpoint = NoEndpoint

  // ----- drawing

  /** rand.IntN(n) for the raw draw d: any value in [0, n); it panics on n <= 0. */
  function IntN(n: int64, d: nat): (r: int64)
    requires n > 0
    ensures 0 <= r < n
  {
    d % n
  }

  /** The effective range of an entry: an unset minimum is the client port, and a range that is
      empty or inverted is the single minimum. */
  function LowPort(min: int64): (low: int64)
    ensures low > 0
  {
    if min <= 0 then CLIENT_PORT else min
  }

  function HighPort(min: int64, max: int64): (high: int64)
    ensures high >= LowPort(min)
  {
    if max <= LowPort(min) then LowPort(min) else max
  }

  /** randPort. Every intermediate value is typed as a 64-bit integer, so that `max-min+1` is shown
      to be positive and never to overflow. */
  function RandPort(min: int64, max: int64, d: nat): (port: int64)
    ensures LowPort(min) <= port <= HighPort(min, max)
  {
    var low := LowPort(min);
    if max <= low then low
    else
      var span: int64 := max - low;
      var width: int64 := span + 1;
      low + IntN(width, d)
  }

  /** Every port of the effective range is some draw's outcome. */
  lemma RandPortReaches(min: int64, max: int64, port: int64)
    requires LowPort(min) <= port <= HighPort(min, max)
    ensures RandPort(min, max, port - LowPort(min)) == port
  {
    var low := LowPort(min);
    if max > low {
      SmallMod(port - low, max - low + 1);
    }
  }

  /** The ports that can be drawn: an unset minimum is 443, and a maximum that does not exceed the
      minimum leaves the single minimum. */
  lemma DrawnPorts(min: int64, max: int64, port: int64)
    ensures (exists d: nat :: RandPort(min, max, d) == port) <==>
            var low := if min <= 0 then 443 else min;
            if max <= low then port == low else low <= port <= max
  {
    var low := if min <= 0 then 443 else min;
    if LowPort(min) <= port <= HighPort(min, max) {
      RandPortReaches(min, max, port);
      assert RandPort(min, max, port - LowPort(min)) == port;
    }
  }

  lemma SmallMod(d: nat, n: nat)
    requires d < n
    ensures d % n == d
  {
  }

  // ----- picking

  function Named(endpoints: seq<Pool>): seq<Pool> {
    if endpoints == [] then []
    else
      var n := |endpoints| - 1;
      Named(endpoints[..n]) + (if endpoints[n].ip != "" then [endpoints[n]] else [])
  }

  function NonEmpty(ips: seq<string>): seq<string> {
    if ips == [] then []
    else
      var n := |ips| - 1;
      NonEmpty(ips[..n]) + (if ips[n] != "" then [ips[n]] else [])
  }

  /** The pair two draws pick. */
  function Pick(endpoints: seq<Pool>, fallback: seq<string>, d1: nat, d2: nat): Option<(string, int64)> {
    var pool, ips := Named(endpoints), NonEmpty(fallback);
    if pool != [] then
      var ep := pool[d1 % |pool|];
      Some((ep.ip, RandPort(ep.portMin, ep.portMax, d2)))
    else if ips != [] then Some((ips[d1 % |ips|], CLIENT_PORT))
    else None
  }

  /** pickEndpoint: filters the pool, then draws; the flat list is used only when the pool names no
      address at all. */
  method PickEndpoint(endpoints: seq<Pool>, fallback: seq<string>, d1: nat, d2: nat) returns (r: Result<string, NoEndpoint>)
    ensures r == (match Pick(endpoints, fallback, d1, d2)
                  case Some((ip, port)) => Ok(JoinHostPort(ip, Itoa(port)))
                  case None => Err(NoEndpoint))
  {
    var pool: seq<Pool> := [];
    for i := 0 to |endpoints|
      invariant pool == Named(endpoints[..i])
    {
      assert endpoints[..i + 1][..i] == endpoints[..i];
      if endpoints[i].ip != "" {
        pool := pool + [endpoints[i]];
      }
    }
    assert endpoints[..|endpoints|] == endpoints;
    if |pool| > 0 {
      var ep := pool[d1 % |pool|];
      return Ok(JoinHostPort(ep.ip, Itoa(RandPort(ep.portMin, ep.portMax, d2))));
    }
    var ips: seq<string> := [];
    for i := 0 to |fallback|
      invariant ips == NonEmpty(fallback[..i])
    {
      assert fallback[..i + 1][..i] == fallback[..i];
      if fallback[i] != "" {
        ips := ips + [fallback[i]];
      }
    }
    assert fallback[..|fallback|] == fallback;
    if |ips| > 0 {
      return Ok(JoinHostPort(ips[d1 % |ips|], Itoa(CLIENT_PORT)));
    }
    return Err(NoEndpoint);
  }

  /** The text of a pair: the port in decimal after the address, which is in brackets if it holds a
      colon. */
  function PairText(ip: string, port: int64): string {
    if ':' in ip then "[" + ip + "]:" + Itoa(port) else ip + ":" + Itoa(port)
  }

  /** What the draws pick is an allowed pair, in its text form. */
  ghost predicate PicksAllowed(endpoints: seq<Pool>, fallback: seq<string>, text: string) {
    exists ip, port :: Allowed(endpoints, fallback, ip, port) && text == PairText(ip, port)
  }

  lemma PickedText(endpoints: seq<Pool>, fallback: seq<string>, d1: nat, d2: nat)
    ensures Pick(endpoints, fallback, d1, d2).None? <==> !HasPool(endpoints) && !HasFallback(fallback)
    ensures Pick(endpoints, fallback, d1, d2).Some? ==>
              var (ip, port) := Pick(endpoints, fallback, d1, d2).value;
              PicksAllowed(endpoints, fallback, JoinHostPort(ip, Itoa(port)))
  {
    PickIsAllowed(endpoints, fallback, d1, d2);
    if Pick(endpoints, fallback, d1, d2).Some? {
      var (ip, port) := Pick(endpoints, fallback, d1, d2).value;
      JoinIs(ip, Itoa(port));
      assert Allowed(endpoints, fallback, ip, port) && JoinHostPort(ip, Itoa(port)) == PairText(ip, port);
    }
  }

  // ----- what may be picked

  ghost predicate HasPool(endpoints: seq<Pool>) {
    exists ep :: ep in endpoints && ep.ip != ""
  }

  ghost predicate HasFallback(fallback: seq<string>) {
    exists ip :: ip in fallback && ip != ""
  }

  /** A port of an entry's range, where an unset minimum is 443 and a range that is empty or inverted is
      its minimum alone. */
  predicate InRange(ep: Pool, port: int64) {
    var low := if ep.portMin <= 0 then 443 else ep.portMin;
    if ep.portMax <= low then port == low else low <= port <= ep.portMax
  }

  /** The pairs a node allows: an address of a named pool entry with a port of that entry's range,
      or, when no entry is named, a non-empty fallback address at the client port. */
  ghost predicate Allowed(endpoints: seq<Pool>, fallback: seq<string>, ip: string, port: int64) {
    ip != "" &&
    if HasPool(endpoints) then
      exists ep :: ep in endpoints && ep.ip == ip && InRange(ep, port)
    else
      ip in fallback && port == 443
  }

  lemma {:induction false} NamedMember(endpoints: seq<Pool>, ep: Pool)
    ensures ep in Named(endpoints) <==> ep in endpoints && ep.ip != ""
  {
    if endpoints != [] {
      var n := |endpoints| - 1;
      NamedMember(endpoints[..n], ep);
      assert endpoints == endpoints[..n] + [endpoints[n]];
    }
  }

  lemma NamedMembers(endpoints: seq<Pool>)
    ensures forall ep :: ep in Named(endpoints) <==> ep in endpoints && ep.ip != ""
    ensures Named(endpoints) != [] <==> HasPool(endpoints)
  {
  }

  lemma {:induction false} NonEmptyMember(ips: seq<string>, ip: string)
    ensures ip in NonEmpty(ips) <==> ip in ips && ip != ""
  {
    if ips != [] {
      var n := |ips| - 1;
      NonEmptyMember(ips[..n], ip);
      assert ips == ips[..n] + [ips[n]];
    }
  }

  lemma NonEmptyMembers(ips: seq<string>)
    ensures forall ip :: ip in NonEmpty(ips) <==> ip in ips && ip != ""
    ensures NonEmpty(ips) != [] <==> HasFallback(ips)
  {
    forall ip ensures ip in NonEmpty(ips) <==> ip in ips && ip != "" {
      NonEmptyMember(ips, ip);
    }
    if NonEmpty(ips) != [] { assert NonEmpty(ips)[0] in NonEmpty(ips); }
  }

  /** Whatever is drawn, the pick is an allowed pair, and there is none exactly when neither list
      names an address. */
  lemma PickIsAllowed(endpoints: seq<Pool>, fallback: seq<string>, d1: nat, d2: nat)
    ensures var r := Pick(endpoints, fallback, d1, d2);
            && (r.None? <==> !HasPool(endpoints) && !HasFallback(fallback))
            && (r.Some? ==> Allowed(endpoints, fallback, r.value.0, r.value.1))
  {
    NamedMembers(endpoints);
    NonEmptyMembers(fallback);
    var pool, ips := Named(endpoints), NonEmpty(fallback);
    if pool != [] {
      assert pool[d1 % |pool|] in pool;
    } else if ips != [] {
      assert ips[d1 % |ips|] in ips;
    }
  }

  /** Every allowed pair is picked by some draw: no address and no port of a range is out of reach. */
  lemma PickReaches(endpoints: seq<Pool>, fallback: seq<string>, ip: string, port: int64) returns (d1: nat, d2: nat)
    requires Allowed(endpoints, fallback, ip, port)
    ensures Pick(endpoints, fallback, d1, d2) == Some((ip, port))
  {
    NamedMembers(endpoints);
    NonEmptyMembers(fallback);
    var pool, ips := Named(endpoints), NonEmpty(fallback);
    if HasPool(endpoints) {
      var ep :| ep in endpoints && ep.ip == ip && InRange(ep, port);
      assert ep in pool;
      d1 :| d1 < |pool| && pool[d1] == ep;
      d2 := port - LowPort(ep.portMin);
      RandPortReaches(ep.portMin, ep.portMax, port);
      SmallMod(d1, |pool|);
    } else {
      assert ip in ips;
      d1 :| d1 < |ips| && ips[d1] == ip;
      d2 := 0;
      SmallMod(d1, |ips|);
    }
  }

  // ----- reading the endpoint back

  /** How the XRay engine reads an endpoint: split, then a decimal port. */
  function DialTarget(endpoint: string): Result<(string, int), AddrError> {
    match SplitHostPort(endpoint)
    case Err(e) => Err(e)
    case Ok((host, portText)) =>
      match ParseInt64(portText)
      case Some(port) => Ok((host, port))
      case None => Err(BadPort)
  }

  /** What dials: a well-formed pair of host and port whose port is a decimal integer, and nothing else. */
  lemma DialsExactly(endpoint: string, host: string, port: int)
    ensures DialTarget(endpoint) == Ok((host, port)) <==>
            exists text :: SplitHostPort(endpoint) == Ok((host, text)) && ParseInt64(text) == Some(port)
    ensures DialTarget(endpoint) == Err(BadPort) <==>
            SplitHostPort(endpoint).Ok? && ParseInt64(SplitHostPort(endpoint).value.1).None?
  {
  }

  lemma PortPlain(port: int64)
    requires port >= 0
    ensures PlainPort(Itoa(port)) && ParseInt64(Itoa(port)) == Some(port)
  {
    ParseInt64Itoa(port);
    assert AllDigits(Itoa(port));
  }

  /** The picked endpoint dials exactly the picked pair if and only if the address is free of
      brackets; an IPv6 literal without them is. */
  lemma PickedEndpointDials(endpoints: seq<Pool>, fallback: seq<string>, d1: nat, d2: nat)
    requires Pick(endpoints, fallback, d1, d2).Some?
    ensures var (ip, port) := Pick(endpoints, fallback, d1, d2).value;
            DialTarget(JoinHostPort(ip, Itoa(port))) == Ok((ip, port)) <==> Bracketless(ip)
  {
    var (ip, port) := Pick(endpoints, fallback, d1, d2).value;
    PickIsAllowed(endpoints, fallback, d1, d2);
    PortPlain(port);
    SplitJoin(ip, Itoa(port));
    var r := SplitHostPort(JoinHostPort(ip, Itoa(port)));
    if r.Ok? && r != Ok((ip, Itoa(port))) {
      SplitOther(ip, Itoa(port));
    }
  }

  /** A host with brackets is never read back as itself, whatever port is read. */
  lemma SplitOther(host: string, port: string)
    requires PlainPort(port) && !Bracketless(host)
    ensures var r := SplitHostPort(JoinHostPort(host, port)); r.Ok? ==> r.value.0 != host
  {
    if SplitHostPort(JoinHostPort(host, port)).Ok? {
      SplitHostBracketless(JoinHostPort(host, port));
    }
  }

  lemma SplitHostBracketless(s: string)
    requires SplitHostPort(s).Ok?
    ensures Bracketless(SplitHostPort(s).value.0)
  {
    var i := Last(s, ':');
    if s[0] == '[' {
      var end := First(s, ']');
      assert s[1..end] == s[1..][..end - 1] && s[1..end] == s[..end][1..];
    }
  }

  /** A pool that writes its IPv6 address in brackets does not dial it. */
  lemma BracketedPoolDoesNotDial(d1: nat, d2: nat)
    ensures var pool := [Pool("[::1]", 0, 0)];
            Pick(pool, [], d1, d2) == Some(("[::1]", CLIENT_PORT)) &&
            DialTarget(JoinHostPort("[::1]", Itoa(CLIENT_PORT))) != Ok(("[::1]", CLIENT_PORT))
  {
    var pool := [Pool("[::1]", 0, 0)];
    assert pool[..0] == [];
    assert Named(pool) == pool;
    assert '[' in "[::1]";
    PickedEndpointDials(pool, [], d1, d2);
  }
}
