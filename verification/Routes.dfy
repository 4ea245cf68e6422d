/** An IPv4 routing table with longest-prefix lookup (section 5.2.4.3 of RFC 1812), and the route
    commands that capture a host's traffic and give it back. */
module Routes {
  import opened Wrappers

  const SPACE: int := 0x1_0000_0000
  const HALF: Address := 0x8000_0000

  type Address = a: int | 0 <= a < SPACE
  type Length = n: int | 0 <= n <= 32

  datatype Prefix = Prefix(net: Address, len: Length)

  datatype NextHop = NextHop(via: string, dev: string)

  type Table = map<Prefix, NextHop>

  // ----- prefixes

  /** How many addresses a prefix of this length covers. */
  function Size(len: Length): (n: nat)
    ensures n > 0
    decreases 32 - len
  {
    if len == 32 then 1 else 2 * Size(len + 1)
  }

  function Network(a: Address, len: Length): (net: Address)
    ensures net <= a
  {
    Align(a, Size(len))
  }

  function Align(a: nat, s: nat): (n: nat)
    requires s > 0
    ensures n <= a
  {
    a - a % s
  }

  predicate Covers(p: Prefix, a: Address) {
    p.net == Network(a, p.len)
  }

  /** A prefix without host bits covers exactly the block of addresses that starts at its network. */
  lemma CoversBlock(p: Prefix, a: Address)
    requires p.net % Size(p.len) == 0
    ensures Covers(p, a) <==> p.net <= a < p.net + Size(p.len)
  {
    AlignBlock(p.net, a, Size(p.len));
  }

  lemma AlignBlock(net: nat, a: nat, s: nat)
    requires s > 0 && net % s == 0
    ensures net == Align(a, s) <==> net <= a < net + s
  {
    if net <= a < net + s {
      var q, k, r := net / s, a / s, a % s;
      assert net == q * s && a == k * s + r;
      MultiplesApart(k, q, s);
      MultiplesApart(q, k, s);
    }
  }

  lemma {:induction false} MultiplesApart(k: nat, q: nat, s: nat)
    ensures k > q ==> k * s >= q * s + s
  {
    if k > q {
      MultiplesApart(k - 1, q, s);
    }
  }

  lemma Sizes()
    ensures Size(32) == 1 && Size(1) == HALF && Size(0) == SPACE
  {
    assert Size(24) == 0x100;
    assert Size(16) == 0x1_0000;
    assert Size(8) == 0x100_0000;
  }

  /** The prefixes of length 32, 1 and 0 that cover an address. */
  lemma NetworkEnds(a: Address)
    ensures Network(a, 32) == a
    ensures Network(a, 1) == (if a < HALF then 0 else HALF)
    ensures Network(a, 0) == 0
  {
    Sizes();
  }

  // ----- lookup

  /** The longest prefix of at most this length that is in the table and covers the address. */
  function BestUpTo(t: Table, a: Address, len: Length): Option<Prefix> {
    var p := Prefix(Network(a, len), len);
    if p in t then Some(p) else if len == 0 then None else BestUpTo(t, a, len - 1)
  }

  function Best(t: Table, a: Address): Option<Prefix> {
    BestUpTo(t, a, 32)
  }

  function Lookup(t: Table, a: Address): Option<NextHop> {
    var best := Best(t, a);
    if best.Some? && best.value in t then Some(t[best.value]) else None
  }

  function BestLength(t: Table, a: Address): int {
    if Best(t, a).Some? then Best(t, a).value.len else -1
  }

  lemma {:induction false} BestUpToSpec(t: Table, a: Address, len: Length)
    ensures var b := BestUpTo(t, a, len);
            b.Some? ==> b.value in t && Covers(b.value, a) && b.value.len <= len
    ensures forall p :: p in t && Covers(p, a) && p.len <= len ==>
              BestUpTo(t, a, len).Some? && p.len <= BestUpTo(t, a, len).value.len
  {
    if Prefix(Network(a, len), len) !in t && len > 0 {
      BestUpToSpec(t, a, len - 1);
    }
  }

  /** Lookup is longest-prefix match: the matched entry covers the address, no covering entry is
      longer, and there is no match only when nothing covers the address. */
  lemma LookupIsLongest(t: Table, a: Address)
    ensures Best(t, a).Some? ==>
              && Best(t, a).value in t && Covers(Best(t, a).value, a)
              && Lookup(t, a) == Some(t[Best(t, a).value])
    ensures forall p :: p in t && Covers(p, a) ==> p.len <= BestLength(t, a)
    ensures Lookup(t, a).None? <==> forall p :: p in t ==> !Covers(p, a)
  {
    BestUpToSpec(t, a, 32);
  }

  lemma BestIs(t: Table, a: Address, p: Prefix)
    requires p in t && Covers(p, a)
    requires forall q :: q in t && Covers(q, a) ==> q.len <= p.len
    ensures Best(t, a) == Some(p) && Lookup(t, a) == Some(t[p])
  {
    LookupIsLongest(t, a);
    assert Best(t, a).value.len == p.len;
  }

  /** One entry changes the lookup of exactly the addresses it covers that had no longer match. */
  lemma LookupUpdate(t: Table, p: Prefix, hop: NextHop, a: Address)
    ensures var takes := Covers(p, a) && BestLength(t, a) <= p.len;
            Lookup(t[p := hop], a) == (if takes then Some(hop) else Lookup(t, a)) &&
            BestLength(t[p := hop], a) == (if takes then p.len else BestLength(t, a))
  {
    LookupIsLongest(t, a);
    LookupIsLongest(t[p := hop], a);
    var t' := t[p := hop];
    if Covers(p, a) && BestLength(t, a) <= p.len {
      BestIs(t', a, p);
    } else if Best(t, a).Some? {
      var b := Best(t, a).value;
      assert b != p;
      BestIs(t', a, b);
    } else {
      assert forall q :: q in t' ==> !Covers(q, a);
    }
  }

  /** Removing entries that are not the match leaves a lookup alone. */
  lemma LookupRemove(t: Table, ps: set<Prefix>, a: Address)
    requires Best(t, a).Some? ==> Best(t, a).value !in ps
    ensures Lookup(t - ps, a) == Lookup(t, a) && BestLength(t - ps, a) == BestLength(t, a)
  {
    LookupIsLongest(t, a);
    LookupIsLongest(t - ps, a);
    if Best(t, a).Some? {
      BestIs(t - ps, a, Best(t, a).value);
    }
  }

  // ----- route commands

  datatype Verb = Add | Replace

  /** `ip route add|replace dst via hop.via dev hop.dev`. */
  datatype Command = Command(verb: Verb, dst: string, hop: NextHop)

  /** How the ip tool reads a destination; None is a text it rejects. */
  type Reader = string -> Option<Prefix>

  /** The table after a command, or None when the kernel refuses it: an unreadable destination, or
      an add of a prefix that is already there. */
  function Apply(t: Table, read: Reader, c: Command): Option<Table> {
    var p :- read(c.dst);
    if c.verb == Add && p in t then None else Some(t[p := c.hop])
  }

  function Replay(t: Table, read: Reader, cs: seq<Command>): Option<Table> {
    if cs == [] then Some(t)
    else
      var before :- Replay(t, read, cs[..|cs| - 1]);
      Apply(before, read, cs[|cs| - 1])
  }

  function Dsts(cs: seq<Command>): (r: seq<string>)
    ensures |r| == |cs|
  {
    seq(|cs|, i requires 0 <= i < |cs| => cs[i].dst)
  }

  /** The prefixes a list of destination texts names. */
  function Named(read: Reader, dsts: seq<string>): set<Prefix> {
    set i | 0 <= i < |dsts| && read(dsts[i]).Some? :: read(dsts[i]).value
  }

  lemma {:induction false} ReplayPrefix(t: Table, read: Reader, cs: seq<Command>, k: nat)
    requires k <= |cs| && Replay(t, read, cs).Some?
    ensures Replay(t, read, cs[..k]).Some?
  {
    if k < |cs| {
      ReplayPrefix(t, read, cs[..|cs| - 1], k);
      assert cs[..|cs| - 1][..k] == cs[..k];
    } else {
      assert cs[..k] == cs;
    }
  }

  lemma ReplayAppend(t: Table, read: Reader, cs: seq<Command>, c: Command)
    ensures Replay(t, read, cs + [c]) ==
            (match Replay(t, read, cs) case Some(before) => Apply(before, read, c) case None => None)
  {
  }

  /** Commands touch only the prefixes they name, and name only prefixes that end up in the table. */
  lemma {:induction false} ReplayFrame(t: Table, read: Reader, cs: seq<Command>)
    requires Replay(t, read, cs).Some?
    ensures var t' := Replay(t, read, cs).value; var named := Named(read, Dsts(cs));
            t' - named == t - named && named <= t'.Keys && t.Keys <= t'.Keys
  {
    if cs == [] {
      assert Named(read, Dsts(cs)) == {};
    } else {
      var n := |cs| - 1;
      ReplayFrame(t, read, cs[..n]);
      var p := read(cs[n].dst).value;
      NamedAppend(read, Dsts(cs[..n]), cs[n].dst);
      assert Dsts(cs) == Dsts(cs[..n]) + [cs[n].dst];
      var before := Replay(t, read, cs[..n]).value;
      var t' := Replay(t, read, cs).value;
      var small, named := Named(read, Dsts(cs[..n])), Named(read, Dsts(cs));
      assert named == small + {p};
      assert t' - named == (before - small) - {p};
      assert t - named == (t - small) - {p};
    }
  }

  lemma NamedAppend(read: Reader, dsts: seq<string>, dst: string)
    ensures Named(read, dsts + [dst]) ==
            Named(read, dsts) + (if read(dst).Some? then {read(dst).value} else {})
  {
    var all := dsts + [dst];
    forall p | p in Named(read, dsts) ensures p in Named(read, all) {
      var i :| 0 <= i < |dsts| && read(dsts[i]).Some? && read(dsts[i]).value == p;
      assert all[i] == dsts[i];
    }
    if read(dst).Some? {
      assert all[|dsts|] == dst;
      assert read(dst).value in Named(read, all);
    }
    forall p | p in Named(read, all) ensures p in Named(read, dsts) || read(dst) == Some(p) {
      var i :| 0 <= i < |all| && read(all[i]).Some? && read(all[i]).value == p;
    }
  }

  // ----- taking routes back

  /** `ip route del dst`, whose failure is ignored. */
  function Remove(t: Table, read: Reader, dst: string, stuck: bool): Table {
    if stuck || read(dst).None? then t else t - {read(dst).value}
  }

  /** The table after the last j of the destinations were deleted, last first; stuck(i) says
      whether the i-th delete fails. */
  function TornBy(t: Table, read: Reader, undo: seq<string>, stuck: nat -> bool, start: nat, j: nat): Table
    requires j <= |undo|
  {
    if j == 0 then t
    else Remove(TornBy(t, read, undo, stuck, start, j - 1), read, undo[|undo| - j], stuck(start + j - 1))
  }

  ghost predicate NoneStuck(stuck: nat -> bool) {
    forall n: nat :: !stuck(n)
  }

  /** The prefixes that the first j deletes of a tear-down take out. */
  function Gone(read: Reader, undo: seq<string>, stuck: nat -> bool, start: nat, j: nat): set<Prefix>
    requires j <= |undo|
  {
    if j == 0 then {} else Gone(read, undo, stuck, start, j - 1) + Deletes(read, undo[|undo| - j], stuck(start + j - 1))
  }

  /** What one delete takes out. */
  function Deletes(read: Reader, dst: string, stuck: bool): set<Prefix> {
    if stuck || read(dst).None? then {} else {read(dst).value}
  }

  lemma {:induction false} TornGone(t: Table, read: Reader, undo: seq<string>, stuck: nat -> bool, start: nat, j: nat)
    requires j <= |undo|
    ensures TornBy(t, read, undo, stuck, start, j) == t - Gone(read, undo, stuck, start, j)
  {
    if j > 0 {
      TornGone(t, read, undo, stuck, start, j - 1);
    }
  }

  /** A prefix goes exactly when one of those deletes names it and does not fail. */
  lemma {:induction false} GoneIs(read: Reader, undo: seq<string>, stuck: nat -> bool, start: nat, j: nat, p: Prefix)
    requires j <= |undo|
    ensures p in Gone(read, undo, stuck, start, j) <==>
            exists i :: 0 <= i < j && DeletedAt(read, undo, stuck, start, i, p)
  {
    if j > 0 {
      GoneIs(read, undo, stuck, start, j - 1, p);
      assert p in Deletes(read, undo[|undo| - j], stuck(start + j - 1)) <==> DeletedAt(read, undo, stuck, start, j - 1, p);
    }
  }

  /** Delete i of a tear-down takes this prefix out. */
  predicate DeletedAt(read: Reader, undo: seq<string>, stuck: nat -> bool, start: nat, i: nat, p: Prefix)
    requires i < |undo|
  {
    !stuck(start + i) && read(undo[|undo| - 1 - i]) == Some(p)
  }

  /** Only destinations of the stack go, and all of the last j go when no delete fails. */
  lemma {:induction false} GoneNamed(read: Reader, undo: seq<string>, stuck: nat -> bool, start: nat, j: nat)
    requires j <= |undo|
    ensures var gone, named := Gone(read, undo, stuck, start, j), Named(read, undo[|undo| - j..]);
            gone <= named && (NoneStuck(stuck) ==> gone == named)
  {
    if j > 0 {
      GoneNamed(read, undo, stuck, start, j - 1);
      var dst, tail := undo[|undo| - j], undo[|undo| - (j - 1)..];
      assert undo[|undo| - j..] == [dst] + tail;
      NamedPrepend(read, dst, tail);
    }
  }

  lemma NamedPrepend(read: Reader, dst: string, dsts: seq<string>)
    ensures Named(read, [dst] + dsts) ==
            Named(read, dsts) + (if read(dst).Some? then {read(dst).value} else {})
  {
    var all := [dst] + dsts;
    forall p | p in Named(read, dsts) ensures p in Named(read, all) {
      var i :| 0 <= i < |dsts| && read(dsts[i]).Some? && read(dsts[i]).value == p;
      assert all[i + 1] == dsts[i];
    }
    if read(dst).Some? {
      assert all[0] == dst;
      assert read(dst).value in Named(read, all);
    }
    forall p | p in Named(read, all) ensures p in Named(read, dsts) || read(dst) == Some(p) {
      var i :| 0 <= i < |all| && read(all[i]).Some? && read(all[i]).value == p;
      if i > 0 { assert all[i] == dsts[i - 1]; }
    }
  }

  /** A replace of a prefix the table already has an entry for. */
  predicate Overwrites(t: Table, read: Reader, c: Command) {
    c.verb == Replace && read(c.dst).Some? && read(c.dst).value in t
  }

  ghost predicate NothingOverwritten(t: Table, read: Reader, cs: seq<Command>) {
    forall i :: 0 <= i < |cs| ==> !Overwrites(t, read, cs[i])
  }

  /** What taking all the commands back leaves of their prefix p is what the initial table had. */
  predicate ComesBack(t: Table, built: Table, gone: set<Prefix>, p: Prefix) {
    if p in gone then p !in t else p in t && p in built && built[p] == t[p]
  }

  ghost predicate AllComeBack(t: Table, read: Reader, cs: seq<Command>, stuck: nat -> bool, start: nat)
    requires Replay(t, read, cs).Some?
  {
    forall p :: p in Named(read, Dsts(cs)) ==>
      ComesBack(t, Replay(t, read, cs).value, Gone(read, Dsts(cs), stuck, start, |cs|), p)
  }

  /** Taking the commands back, wherever their run stopped and whichever deletes fail, leaves the
      built table without the prefixes that were deleted. It is the initial table exactly when each
      named prefix was either deleted and had no entry before, or kept with the entry it had. */
  lemma TearDownLeaves(t: Table, read: Reader, cs: seq<Command>, stuck: nat -> bool, start: nat)
    requires Replay(t, read, cs).Some?
    ensures var built := Replay(t, read, cs).value;
            var gone := Gone(read, Dsts(cs), stuck, start, |cs|);
            var back := TornBy(built, read, Dsts(cs), stuck, start, |cs|);
            back == built - gone &&
            (back == t <==> AllComeBack(t, read, cs, stuck, start))
  {
    var dsts, built := Dsts(cs), Replay(t, read, cs).value;
    TornGone(built, read, dsts, stuck, start, |cs|);
    GoneNamed(read, dsts, stuck, start, |cs|);
    assert dsts[|dsts| - |cs|..] == dsts;
    ReplayFrame(t, read, cs);
    ReturnsIff(t, built, Named(read, dsts), Gone(read, dsts, stuck, start, |cs|));
  }

  lemma ReturnsIff(t: Table, built: Table, named: set<Prefix>, gone: set<Prefix>)
    requires built - named == t - named && gone <= named <= built.Keys
    ensures built - gone == t <==> forall p :: p in named ==> ComesBack(t, built, gone, p)
  {
    if forall p :: p in named ==> ComesBack(t, built, gone, p) {
      AllComesBack(t, built, named, gone);
    } else {
      var p :| p in named && !ComesBack(t, built, gone, p);
      assert p in built && (p in built - gone <==> p !in gone);
    }
  }

  lemma AllComesBack(t: Table, built: Table, named: set<Prefix>, gone: set<Prefix>)
    requires built - named == t - named && gone <= named
    requires forall p :: p in named ==> ComesBack(t, built, gone, p)
    ensures built - gone == t
  {
    forall p ensures (p in built - gone <==> p in t) && (p in t ==> (built - gone)[p] == t[p]) {
      if p !in named {
        SameOutside(t, built, named, p);
      } else {
        assert ComesBack(t, built, gone, p);
      }
    }
  }

  lemma SameOutside(t: Table, built: Table, named: set<Prefix>, p: Prefix)
    requires built - named == t - named && p !in named
    ensures (p in built <==> p in t) && (p in t ==> built[p] == t[p])
  {
    assert p in built <==> p in built - named;
    assert p in t <==> p in t - named;
    if p in t { assert (built - named)[p] == (t - named)[p]; }
  }

  /** When no delete fails, all of it comes back exactly when no replace overwrote an entry; adds
      never do. */
  lemma TearDownRestores(t: Table, read: Reader, cs: seq<Command>, stuck: nat -> bool, start: nat)
    requires Replay(t, read, cs).Some? && NoneStuck(stuck)
    ensures var back := TornBy(Replay(t, read, cs).value, read, Dsts(cs), stuck, start, |cs|);
            back == t - Named(read, Dsts(cs)) &&
            (back == t <==> NothingOverwritten(t, read, cs))
  {
    var dsts := Dsts(cs);
    var named := Named(read, dsts);
    TearDownLeaves(t, read, cs, stuck, start);
    GoneNamed(read, dsts, stuck, start, |cs|);
    assert dsts[|dsts| - |cs|..] == dsts;
    ReplayFrame(t, read, cs);
    AddsAreFresh(t, read, cs);
    if NothingOverwritten(t, read, cs) {
      forall p | p in named ensures p !in t {
        var i :| 0 <= i < |dsts| && read(dsts[i]).Some? && read(dsts[i]).value == p;
        assert dsts[i] == cs[i].dst;
      }
    } else {
      var i :| 0 <= i < |cs| && Overwrites(t, read, cs[i]);
      assert dsts[i] == cs[i].dst && read(dsts[i]).Some?;
      assert read(dsts[i]).value in named;
    }
  }

  lemma {:induction false} AddsAreFresh(t: Table, read: Reader, cs: seq<Command>)
    requires Replay(t, read, cs).Some?
    ensures forall i :: 0 <= i < |cs| ==> read(cs[i].dst).Some?
    ensures forall i :: 0 <= i < |cs| && cs[i].verb == Add ==> read(cs[i].dst).value !in t
  {
    if cs != [] {
      var n := |cs| - 1;
      AddsAreFresh(t, read, cs[..n]);
      ReplayFrame(t, read, cs[..n]);
      forall i | 0 <= i < |cs|
        ensures read(cs[i].dst).Some? && (cs[i].verb == Add ==> read(cs[i].dst).value !in t)
      {
        if i < n { assert cs[..n][i] == cs[i]; }
      }
    }
  }

  /** Every command names a prefix that is absent when its turn comes. */
  ghost predicate AllFresh(t: Table, read: Reader, cs: seq<Command>) {
    forall k :: 0 <= k < |cs| ==> FreshAt(t, read, cs, k)
  }

  predicate FreshAt(t: Table, read: Reader, cs: seq<Command>, k: nat)
    requires k < |cs|
  {
    var before := Replay(t, read, cs[..k]);
    before.Some? && read(cs[k].dst).Some? && read(cs[k].dst).value !in before.value
  }

  lemma UndoOne(t: Table, read: Reader, cs: seq<Command>, k: nat)
    requires k < |cs| && FreshAt(t, read, cs, k)
    ensures Replay(t, read, cs[..k + 1]).Some?
    ensures Remove(Replay(t, read, cs[..k + 1]).value, read, cs[k].dst, false) == Replay(t, read, cs[..k]).value
  {
    assert cs[..k + 1] == cs[..k] + [cs[k]];
    ReplayAppend(t, read, cs[..k], cs[k]);
    var before := Replay(t, read, cs[..k]).value;
    var p := read(cs[k].dst).value;
    assert before[p := cs[k].hop] - {p} == before;
  }

  /** When every command named a prefix that was absent at the time, last-in first-out deletion
      passes back through exactly the tables the commands built, in reverse. */
  lemma {:induction false} TearDownRetraces(t: Table, read: Reader, cs: seq<Command>, stuck: nat -> bool, start: nat, j: nat)
    requires Replay(t, read, cs).Some? && NoneStuck(stuck) && j <= |cs| && AllFresh(t, read, cs)
    ensures Some(TornBy(Replay(t, read, cs).value, read, Dsts(cs), stuck, start, j))
            == Replay(t, read, cs[..|cs| - j])
  {
    if j == 0 {
      assert cs[..|cs|] == cs;
    } else {
      TearDownRetraces(t, read, cs, stuck, start, j - 1);
      var built, k := Replay(t, read, cs).value, |cs| - j;
      assert FreshAt(t, read, cs, k);
      UndoOne(t, read, cs, k);
      assert TornBy(built, read, Dsts(cs), stuck, start, j)
          == Remove(TornBy(built, read, Dsts(cs), stuck, start, j - 1), read, cs[k].dst, false);
    }
  }
}
