/** Summing the per-peer byte counters out of the device's status text. */
module Stats {
  import opened Text

  const RX: string := "rx_bytes="
  const TX: string := "tx_bytes="
  const TWO64: int := 0x1_0000_0000_0000_0000
  const TWO63: int := 0x8000_0000_0000_0000

  /** The value a 64-bit signed variable holds after arithmetic that overflows. */
  function Wrap(n: int): (w: int)
    ensures -TWO63 <= w < TWO63
    ensures -TWO63 <= n < TWO63 ==> w == n
  {
    (n + TWO63) % TWO64 - TWO63
  }

  lemma WrapAdd(a: int, b: int)
    ensures Wrap(Wrap(a) + b) == Wrap(a + b)
  {
  }

  /** What a line adds to the counter with this prefix: nothing, unless the rest of the line is a
      decimal number. */
  function Amount(line: string, prefix: string): int {
    match CutPrefix(line, prefix)
    case None => 0
    case Some(v) => (match ParseInt64(TrimSpace(v)) case Some(n) => n case None => 0)
  }

  function Total(lines: seq<string>, prefix: string): int {
    if lines == [] then 0 else Total(lines[..|lines| - 1], prefix) + Amount(lines[|lines| - 1], prefix)
  }

  /** The device as the reader finds it: already closed, failing to report, or reporting a text. */
  datatype Device = Closed | Unavailable | Reporting(status: string)

  /** Stats: the loop refines the two totals over the lines of the text, in 64-bit arithmetic. */
  method Stats(dev: Device) returns (rx: int, tx: int, ok: bool)
    ensures ok <==> dev.Reporting?
    ensures !ok ==> rx == 0 && tx == 0
    ensures ok ==> rx == Wrap(Total(Split(dev.status, NEWLINE), RX)) && tx == Wrap(Total(Split(dev.status, NEWLINE), TX))
  {
    rx, tx := 0, 0;
    if !dev.Reporting? {
      return 0, 0, false;
    }
    var lines := Split(dev.status, NEWLINE);
    for i := 0 to |lines|
      invariant rx == Wrap(Total(lines[..i], RX)) && tx == Wrap(Total(lines[..i], TX))
    {
      TotalStep(lines, i, RX);
      TotalStep(lines, i, TX);
      rx, tx := AddLine(lines[i], rx, tx);
    }
    assert lines[..|lines|] == lines;
    return rx, tx, true;
  }

  /** The body of the loop: a line counts towards at most one of the two. */
  method AddLine(line: string, rx0: int, tx0: int) returns (rx: int, tx: int)
    requires -TWO63 <= rx0 < TWO63 && -TWO63 <= tx0 < TWO63
    ensures rx == Wrap(rx0 + Amount(line, RX)) && tx == Wrap(tx0 + Amount(line, TX))
  {
    rx, tx := rx0, tx0;
    PrefixesDiffer(line);
    var v := CutPrefix(line, RX);
    if v.Some? {
      var n := ParseInt64(TrimSpace(v.value));
      if n.Some? {
        rx := Wrap(rx + n.value);
      }
    } else {
      v := CutPrefix(line, TX);
      if v.Some? {
        var n := ParseInt64(TrimSpace(v.value));
        if n.Some? {
          tx := Wrap(tx + n.value);
        }
      }
    }
  }

  lemma TotalStep(lines: seq<string>, i: nat, prefix: string)
    requires i < |lines|
    ensures Wrap(Total(lines[..i + 1], prefix)) == Wrap(Wrap(Total(lines[..i], prefix)) + Amount(lines[i], prefix))
    ensures Amount(lines[i], prefix) == 0 ==> Wrap(Total(lines[..i + 1], prefix)) == Wrap(Total(lines[..i], prefix))
  {
    assert lines[..i + 1][..i] == lines[..i];
    WrapAdd(Total(lines[..i], prefix), Amount(lines[i], prefix));
  }

  lemma PrefixesDiffer(line: string)
    ensures RX <= line ==> !(TX <= line)
  {
    assert RX[0] != TX[0];
  }

  // ----- a status text with any number of peers

  /** A line of a status text: a counter of some peer, with any white space around its number, a
      counter that is no number, or a line with another key. */
  datatype Item =
    | Received(n: nat, left: string, right: string)
    | Sent(n: nat, left: string, right: string)
    | Garbled(received: bool, text: string)
    | Other(line: string)

  ghost predicate Blank(s: string) {
    AllSpace(s) && NEWLINE !in s
  }

  ghost predicate ValidItem(item: Item) {
    match item
    case Received(_, left, right) => Blank(left) && Blank(right)
    case Sent(_, left, right) => Blank(left) && Blank(right)
    case Garbled(_, text) => NEWLINE !in text && ParseInt64(TrimSpace(text)).None?
    case Other(line) => NEWLINE !in line && !("rx_bytes=" <= line) && !("tx_bytes=" <= line)
  }

  function ItemLine(item: Item): string {
    match item
    case Received(n, left, right) => "rx_bytes=" + (left + Dec(n) + right)
    case Sent(n, left, right) => "tx_bytes=" + (left + Dec(n) + right)
    case Garbled(received, text) => (if received then "rx_bytes=" else "tx_bytes=") + text
    case Other(line) => line
  }

  function ItemLines(items: seq<Item>): (r: seq<string>)
    ensures |r| == |items| && forall i :: 0 <= i < |items| ==> r[i] == ItemLine(items[i])
  {
    seq(|items|, i requires 0 <= i < |items| => ItemLine(items[i]))
  }

  function ReceivedSum(items: seq<Item>): nat {
    if items == [] then 0
    else ReceivedSum(items[..|items| - 1]) + (if items[|items| - 1].Received? then items[|items| - 1].n else 0)
  }

  function SentSum(items: seq<Item>): nat {
    if items == [] then 0
    else SentSum(items[..|items| - 1]) + (if items[|items| - 1].Sent? then items[|items| - 1].n else 0)
  }

  lemma AmountOfNumber(prefix: string, n: nat, left: string, right: string)
    requires n <= INT64_MAX && AllSpace(left) && AllSpace(right)
    ensures Amount(prefix + (left + Dec(n) + right), prefix) == n
  {
    var text := left + Dec(n) + right;
    assert (prefix + text)[|prefix|..] == text;
    DecTrimmed(n);
    TrimSpacePadded(left, Dec(n), right);
    ParseInt64Itoa(n);
  }

  lemma AmountOfText(prefix: string, text: string)
    requires ParseInt64(TrimSpace(text)).None?
    ensures Amount(prefix + text, prefix) == 0
  {
    assert (prefix + text)[|prefix|..] == text;
  }

  lemma AmountElsewhere(prefix: string, other: string, text: string)
    requires |prefix| == |other| && prefix != other
    ensures Amount(other + text, prefix) == 0
  {
    assert (other + text)[..|prefix|] == other;
  }

  lemma AmountOfItem(item: Item)
    requires ValidItem(item)
    requires (item.Received? || item.Sent?) ==> item.n <= INT64_MAX
    ensures Amount(ItemLine(item), RX) == if item.Received? then item.n else 0
    ensures Amount(ItemLine(item), TX) == if item.Sent? then item.n else 0
  {
    assert RX != TX by { PrefixesDiffer(RX); }
    match item
    case Received(n, left, right) =>
      AmountOfNumber(RX, n, left, right);
      AmountElsewhere(TX, RX, left + Dec(n) + right);
    case Sent(n, left, right) =>
      AmountOfNumber(TX, n, left, right);
      AmountElsewhere(RX, TX, left + Dec(n) + right);
    case Garbled(received, text) =>
      AmountOfText(RX, text);
      AmountOfText(TX, text);
      AmountElsewhere(RX, TX, text);
      AmountElsewhere(TX, RX, text);
    case Other(line) =>
  }

  lemma {:induction false} TotalOfItems(items: seq<Item>)
    requires forall i :: 0 <= i < |items| ==> ValidItem(items[i])
    requires ReceivedSum(items) <= INT64_MAX && SentSum(items) <= INT64_MAX
    ensures Total(ItemLines(items), RX) == ReceivedSum(items)
    ensures Total(ItemLines(items), TX) == SentSum(items)
  {
    if items != [] {
      var n := |items| - 1;
      TotalOfItems(items[..n]);
      assert ItemLines(items)[..n] == ItemLines(items[..n]);
      AmountOfItem(items[n]);
    }
  }

  lemma DigitsOneLine(s: string)
    requires AllDigits(s)
    ensures NEWLINE !in s
  {
  }

  lemma ItemOneLine(item: Item)
    requires ValidItem(item)
    ensures NEWLINE !in ItemLine(item)
  {
    if item.Received? || item.Sent? { DigitsOneLine(Dec(item.n)); }
  }

  lemma ItemsOneLine(items: seq<Item>)
    requires forall i :: 0 <= i < |items| ==> ValidItem(items[i])
    ensures SingleLines(ItemLines(items))
  {
    forall i | 0 <= i < |items| ensures NEWLINE !in ItemLines(items)[i] {
      ItemOneLine(items[i]);
    }
  }

  /** For any peers amid any other lines, with totals below 2^63, the two totals of the printed text
      are exactly the sums of the peers' counters. */
  lemma StatsOfPeers(items: seq<Item>)
    requires forall i :: 0 <= i < |items| ==> ValidItem(items[i])
    requires ReceivedSum(items) <= INT64_MAX && SentSum(items) <= INT64_MAX
    ensures var lines := Split(Unlines(ItemLines(items)), NEWLINE);
            Total(lines, RX) == ReceivedSum(items) && Total(lines, TX) == SentSum(items)
  {
    var texts := ItemLines(items);
    ItemsOneLine(items);
    SplitSingleLines(texts);
    TotalOfItems(items);
    TotalEndsEmpty(texts, RX);
    TotalEndsEmpty(texts, TX);
  }

  lemma TotalEndsEmpty(texts: seq<string>, prefix: string)
    requires prefix != ""
    ensures Total(texts + [""], prefix) == Total(texts, prefix)
  {
  }

  /** The method's answer on such a text. */
  method StatsOnPeers(items: seq<Item>) returns (rx: int, tx: int, ok: bool)
    requires forall i :: 0 <= i < |items| ==> ValidItem(items[i])
    requires ReceivedSum(items) <= INT64_MAX && SentSum(items) <= INT64_MAX
    ensures ok && rx == ReceivedSum(items) && tx == SentSum(items)
  {
    StatsOfPeers(items);
    rx, tx, ok := Stats(Reporting(Unlines(ItemLines(items))));
  }
}
