/** IPv4 destinations in prefix notation, as the ip command reads them: the reader that the route
    theorems leave open exists, and reads the client's own destinations back as what they say. */
module Cidr {
  import opened Wrappers
  import opened Text
  import opened Routes
  import opened Capture

  /** A decimal number of at least one digit and at most this value. */
  function ReadNumber(s: string, max: nat): Option<nat> {
    if s == "" then None
    else
      var n :- DecValue(s);
      if n <= max then Some(n) else None
  }

  function ReadAddress(s: string): Option<Address> {
    var quads := Split(s, '.');
    if |quads| != 4 then None
    else
      var a :- ReadNumber(quads[0], 255);
      var b :- ReadNumber(quads[1], 255);
      var c :- ReadNumber(quads[2], 255);
      var d :- ReadNumber(quads[3], 255);
      Some(FromQuads(a, b, c, d))
  }

  function FromQuads(a: nat, b: nat, c: nat, d: nat): Address
    requires a < 256 && b < 256 && c < 256 && d < 256
  {
    a * 0x100_0000 + b * 0x1_0000 + c * 0x100 + d
  }

  /** `net/len`; a network with host bits set is refused. */
  function ReadCidr(s: string): (p: Option<Prefix>)
    ensures p.Some? ==> p.value.net % Size(p.value.len) == 0
  {
    var parts := Split(s, '/');
    if |parts| != 2 then None
    else
      var net :- ReadAddress(parts[0]);
      var len :- ReadNumber(parts[1], 32);
      if net % Size(len) == 0 then Some(Prefix(net, len)) else None
  }

  // ----- what the client writes

  lemma DigitsLack(s: string, c: char)
    requires AllDigits(s) && !IsDigit(c)
    ensures c !in s
  {
  }

  lemma {:induction false} SplitNone(s: string, sep: char)
    requires sep !in s
    ensures Split(s, sep) == [s]
  {
    if s != "" {
      SplitNone(s[1..], sep);
      assert s == [s[0]] + s[1..];
    }
  }

  lemma QuadsNest(a: string, b: string, c: string, d: string)
    ensures a + "." + b + "." + c + "." + d == a + ['.'] + (b + ['.'] + (c + ['.'] + d))
  {
  }

  lemma SplitQuads(a: string, b: string, c: string, d: string)
    requires '.' !in a && '.' !in b && '.' !in c && '.' !in d
    ensures Split(a + "." + b + "." + c + "." + d, '.') == [a, b, c, d]
  {
    QuadsNest(a, b, c, d);
    var cd := c + ['.'] + d;
    var bcd := b + ['.'] + cd;
    SplitNone(d, '.');
    SplitFirst(c, '.', d);
    SplitFirst(b, '.', cd);
    SplitFirst(a, '.', bcd);
    assert Split(bcd, '.') == [b, c, d];
  }

  lemma ReadsNumber(n: nat, max: nat)
    requires n <= max
    ensures ReadNumber(Dec(n), max) == Some(n)
  {
    DecValueDec(n);
  }

  lemma QuadsOf(e: Address, hi: nat, lo: nat)
    requires hi == e / 0x1_0000 && lo == e % 0x1_0000
    ensures e == hi * 0x1_0000 + lo
    ensures e / 0x100_0000 == hi / 0x100 && e / 0x1_0000 % 256 == hi % 0x100
    ensures e / 0x100 % 256 == lo / 0x100 && e % 256 == lo % 0x100
  {
  }

  /** Every address survives dotted-decimal notation. */
  lemma DottedReadsBack(e: Address)
    ensures ReadAddress(Dotted(e)) == Some(e)
  {
    var a, b, c, d := e / 0x100_0000, e / 0x1_0000 % 256, e / 0x100 % 256, e % 256;
    DigitsLack(Dec(a), '.');
    DigitsLack(Dec(b), '.');
    DigitsLack(Dec(c), '.');
    DigitsLack(Dec(d), '.');
    SplitQuads(Dec(a), Dec(b), Dec(c), Dec(d));
    ReadsNumber(a, 255);
    ReadsNumber(b, 255);
    ReadsNumber(c, 255);
    ReadsNumber(d, 255);
    QuadsOf(e, e / 0x1_0000, e % 0x1_0000);
    assert FromQuads(a, b, c, d) == e;
  }

  lemma DottedPlain(e: Address)
    ensures '/' !in Dotted(e)
  {
  }

  lemma CidrReadsBack(e: Address, len: Length)
    requires e % Size(len) == 0
    ensures ReadCidr(Dotted(e) + "/" + Dec(len)) == Some(Prefix(e, len))
  {
    DottedPlain(e);
    DottedReadsBack(e);
    DigitsLack(Dec(len), '/');
    SplitNone(Dec(len), '/');
    SplitFirst(Dotted(e), '/', Dec(len));
    ReadsNumber(len, 32);
  }

  lemma DottedOf(e: Address, a: nat, b: nat, c: nat, d: nat)
    requires e / 0x100_0000 == a && e / 0x1_0000 % 256 == b && e / 0x100 % 256 == c && e % 256 == d
    ensures Dotted(e) == Quads(a, b, c, d)
  {
  }

  lemma ZeroAligned(s: nat)
    requires s > 0
    ensures 0 % s == 0
  {
  }

  lemma Literals()
    ensures Quads(0, 0, 0, 0) == "0.0.0.0" && Quads(128, 0, 0, 0) == "128.0.0.0"
    ensures Dec(0) == "0" && Dec(1) == "1" && Dec(32) == "32"
  {
  }

  lemma ReadsText(s: string, net: string, len: string, p: Prefix)
    requires s == net + "/" + len && net == Dotted(p.net) && len == Dec(p.len) && p.net % Size(p.len) == 0
    ensures ReadCidr(s) == Some(p)
  {
    CidrReadsBack(p.net, p.len);
  }

  lemma ReadsHost(e: Address)
    ensures ReadCidr(HostRoute(e)) == Some(Prefix(e, 32))
  {
    Sizes();
    Literals();
    ReadsText(HostRoute(e), Dotted(e), "32", Prefix(e, 32));
  }

  lemma ReadsLow()
    ensures ReadCidr(LOW_HALF) == Some(LOW)
  {
    Sizes();
    Literals();
    DottedOf(0, 0, 0, 0, 0);
    ZeroAligned(Size(1));
    ReadsText(LOW_HALF, "0.0.0.0", "1", LOW);
  }

  lemma ReadsHigh()
    ensures ReadCidr(HIGH_HALF) == Some(HIGH)
  {
    Sizes();
    Literals();
    DottedOf(HALF, 128, 0, 0, 0);
    ReadsText(HIGH_HALF, "128.0.0.0", "1", HIGH);
  }

  lemma ReadsDefault()
    ensures ReadCidr(DEFAULT4) == Some(Prefix(0, 0))
  {
    Sizes();
    Literals();
    DottedOf(0, 0, 0, 0, 0);
    ZeroAligned(Size(0));
    ReadsText(DEFAULT4, "0.0.0.0", "0", Prefix(0, 0));
  }

  /** The endpoint's host route and the two halves are read as the prefixes they name, and the
      default route as the prefix of length zero. */
  lemma ReadsClientRoutes(e: Address)
    ensures ReadsOwn(ReadCidr, e)
    ensures ReadCidr(DEFAULT4) == Some(Prefix(0, 0))
  {
    ReadsHost(e);
    ReadsLow();
    ReadsHigh();
    ReadsDefault();
  }

  /** With this reader, listing the endpoint's own /32 beside a default route sends the encrypted
      traffic into the tunnel itself: the condition of the split-mode theorem is not idle. */
  lemma StrandedEndpoint(e: Address, iface: string)
    requires iface != "eth0"
    ensures var base: Table := map[Prefix(0, 0) := NextHop("10.0.0.1", "eth0")];
            var t := Replay(base, ReadCidr, Plan(base, ReadCidr, false, [HostRoute(e), DEFAULT4], Some(e), iface));
            FreshInterface(base, iface) && t.Some? && OnTunnel(t.value, e, iface)
  {
    ReadsClientRoutes(e);
    SplitCaptureCanStrand(ReadCidr, e, iface);
  }
}
