/** The configuration text handed to the AmneziaWG device, and a key=value line reader for it. */
module Uapi {
  import opened Wrappers
  import opened Text
  import opened Base64
  import opened JsonRecords
  import opened HostPort

  /** jc, jmin, jmax, s1-s4, h1-h4 in that order, then the templates I1-I5. */
  datatype Obfuscation = Obfuscation(numbers: seq<uint32>, templates: seq<string>)

  datatype Config = Config(
    privateKey: string,
    serverPublicKey: string,
    presharedKey: string,
    endpoint: string,
    allowedIps: seq<string>,
    keepalive: int64,
    obfuscation: Obfuscation)

  const NUMBERS: nat := 11
  const TEMPLATES: nat := 5

  ghost predicate WellTyped(cfg: Config) {
    |cfg.obfuscation.numbers| == NUMBERS && |cfg.obfuscation.templates| == TEMPLATES
  }

  // ----- lines

  const KEYS: seq<string> := [
    "private_key", "jc", "jmin", "jmax", "s1", "s2", "s3", "s4", "h1", "h2", "h3", "h4",
    "i1", "i2", "i3", "i4", "i5", "public_key", "preshared_key", "endpoint",
    "persistent_keepalive_interval", "allowed_ip"]

  const PRIVATE: nat := 0
  const FIRST_NUMBER: nat := 1
  const FIRST_TEMPLATE: nat := 12
  const PUBLIC: nat := 17
  const PRESHARED: nat := 18
  const ENDPOINT: nat := 19
  const KEEPALIVE: nat := 20
  const ALLOWED: nat := 21

  /** One line: the index of its key and its value. Indices below PUBLIC are interface keys, those
      above are keys of the peer. */
  datatype Line = Line(key: nat, value: string)

  function Render(l: Line): string
    requires l.key < |KEYS|
  {
    KEYS[l.key] + "=" + l.value
  }

  ghost predicate Known(lines: seq<Line>) {
    forall i :: 0 <= i < |lines| ==> lines[i].key < |KEYS|
  }

  function RenderAll(lines: seq<Line>): (r: seq<string>)
    requires Known(lines)
    ensures |r| == |lines| && forall i :: 0 <= i < |lines| ==> r[i] == Render(lines[i])
  {
    seq(|lines|, i requires 0 <= i < |lines| => Render(lines[i]))
  }

  function Optional(present: bool, l: Line): seq<Line> {
    if present then [l] else []
  }

  /** The values a field prints: none when it is empty. */
  function Given(s: string): seq<string> {
    if |s| > 0 then [s] else []
  }

  function NumberLines(numbers: seq<uint32>): seq<Line> {
    if numbers == [] then []
    else
      var n := |numbers| - 1;
      NumberLines(numbers[..n]) + [Line(FIRST_NUMBER + n, Dec(numbers[n]))]
  }

  /** Only the templates that are not empty, each under its own index. */
  function TemplateLines(templates: seq<string>): seq<Line> {
    if templates == [] then []
    else
      var n := |templates| - 1;
      TemplateLines(templates[..n]) + Optional(|templates[n]| > 0, Line(FIRST_TEMPLATE + n, templates[n]))
  }

  function AllowedLines(ips: seq<string>): seq<Line> {
    if ips == [] then [] else AllowedLines(ips[..|ips| - 1]) + [Line(ALLOWED, ips[|ips| - 1])]
  }

  function AllowedOrDefault(ips: seq<string>): seq<string> {
    if ips == [] then ["0.0.0.0/0", "::/0"] else ips
  }

  datatype Hex = Hex(private: string, public: string, preshared: string)

  function InterfaceLines(cfg: Config, hex: Hex): seq<Line> {
    [Line(PRIVATE, hex.private)] + NumberLines(cfg.obfuscation.numbers) + TemplateLines(cfg.obfuscation.templates)
  }

  function Interval(cfg: Config): nat {
    if cfg.keepalive > 0 then cfg.keepalive else 0
  }

  function OptionLines(cfg: Config, hex: Hex): seq<Line> {
    Optional(cfg.presharedKey != "", Line(PRESHARED, hex.preshared))
    + Optional(cfg.endpoint != "", Line(ENDPOINT, cfg.endpoint))
    + Optional(cfg.keepalive > 0, Line(KEEPALIVE, Dec(Interval(cfg))))
  }

  function PeerLines(cfg: Config, hex: Hex): seq<Line> {
    OptionLines(cfg, hex) + AllowedLines(AllowedOrDefault(cfg.allowedIps))
  }

  function Lines(cfg: Config, hex: Hex): seq<Line> {
    InterfaceLines(cfg, hex) + [Line(PUBLIC, hex.public)] + PeerLines(cfg, hex)
  }

  // ----- where the keys stand

  ghost predicate KeysWithin(lines: seq<Line>, low: nat, high: nat) {
    forall i :: 0 <= i < |lines| ==> low <= lines[i].key <= high
  }

  lemma {:induction false} NumberKeys(numbers: seq<uint32>)
    requires |numbers| <= NUMBERS
    ensures KeysWithin(NumberLines(numbers), FIRST_NUMBER, FIRST_NUMBER + |numbers| - 1)
  {
    if numbers != [] {
      NumberKeys(numbers[..|numbers| - 1]);
    }
  }

  lemma {:induction false} TemplateKeys(templates: seq<string>)
    requires |templates| <= TEMPLATES
    ensures KeysWithin(TemplateLines(templates), FIRST_TEMPLATE, FIRST_TEMPLATE + |templates| - 1)
  {
    if templates != [] {
      TemplateKeys(templates[..|templates| - 1]);
    }
  }

  lemma {:induction false} AllowedKeys(ips: seq<string>)
    ensures KeysWithin(AllowedLines(ips), ALLOWED, ALLOWED)
  {
    if ips != [] {
      AllowedKeys(ips[..|ips| - 1]);
    }
  }

  lemma WithinAppend(a: seq<Line>, b: seq<Line>, low: nat, high: nat)
    requires KeysWithin(a, low, high) && KeysWithin(b, low, high)
    ensures KeysWithin(a + b, low, high)
  {
  }

  lemma InterfaceKeys(cfg: Config, hex: Hex)
    requires WellTyped(cfg)
    ensures KeysWithin(InterfaceLines(cfg, hex), PRIVATE, PUBLIC - 1)
  {
    var numbers, templates := NumberLines(cfg.obfuscation.numbers), TemplateLines(cfg.obfuscation.templates);
    NumberKeys(cfg.obfuscation.numbers);
    TemplateKeys(cfg.obfuscation.templates);
    WithinAppend([Line(PRIVATE, hex.private)], numbers, PRIVATE, PUBLIC - 1);
    WithinAppend([Line(PRIVATE, hex.private)] + numbers, templates, PRIVATE, PUBLIC - 1);
  }

  lemma PeerKeys(cfg: Config, hex: Hex)
    ensures KeysWithin(PeerLines(cfg, hex), PUBLIC + 1, ALLOWED)
  {
    AllowedKeys(AllowedOrDefault(cfg.allowedIps));
    OptionKeys(cfg, hex);
    WithinAppend(OptionLines(cfg, hex), AllowedLines(AllowedOrDefault(cfg.allowedIps)), PUBLIC + 1, ALLOWED);
  }

  lemma OptionKeys(cfg: Config, hex: Hex)
    ensures KeysWithin(OptionLines(cfg, hex), PUBLIC + 1, ALLOWED)
  {
    var a := Optional(cfg.presharedKey != "", Line(PRESHARED, hex.preshared));
    var b := Optional(cfg.endpoint != "", Line(ENDPOINT, cfg.endpoint));
    WithinAppend(a, b, PUBLIC + 1, ALLOWED);
    WithinAppend(a + b, Optional(cfg.keepalive > 0, Line(KEEPALIVE, Dec(Interval(cfg)))), PUBLIC + 1, ALLOWED);
  }

  lemma ThreeParts(iface: seq<Line>, middle: Line, peer: seq<Line>)
    requires KeysWithin(iface, PRIVATE, PUBLIC - 1) && middle.key == PUBLIC && KeysWithin(peer, PUBLIC + 1, ALLOWED)
    ensures var lines := iface + [middle] + peer;
            && Known(lines) && lines[|iface|] == middle
            && (forall i :: 0 <= i < |iface| ==> lines[i].key < PUBLIC)
            && (forall i :: |iface| < i < |lines| ==> lines[i].key > PUBLIC)
  {
    var lines := iface + [middle] + peer;
    forall i | |iface| < i < |lines| ensures PUBLIC < lines[i].key <= ALLOWED {
      assert lines[i] == peer[i - |iface| - 1];
    }
  }

  /** All interface keys come before the single public_key, and all peer keys after it. */
  lemma KeyOrder(cfg: Config, hex: Hex)
    requires WellTyped(cfg)
    ensures var at := |InterfaceLines(cfg, hex)|; var lines := Lines(cfg, hex);
            && Known(lines) && lines[at] == Line(PUBLIC, hex.public)
            && (forall i :: 0 <= i < at ==> lines[i].key < PUBLIC)
            && (forall i :: at < i < |lines| ==> lines[i].key > PUBLIC)
  {
    InterfaceKeys(cfg, hex);
    PeerKeys(cfg, hex);
    ThreeParts(InterfaceLines(cfg, hex), Line(PUBLIC, hex.public), PeerLines(cfg, hex));
  }

  // ----- printing

  datatype UapiError = BadPrivateKey(e: KeyError) | BadPublicKey(e: KeyError) | BadPresharedKey(e: KeyError)

  function PresharedHex(b64: string): Result<string, KeyError> {
    if b64 == "" then Ok("") else KeyHex(b64)
  }

  function HexOf(priv: Result<string, KeyError>, pub: Result<string, KeyError>, psk: Result<string, KeyError>)
    : (r: Result<Hex, UapiError>)
    ensures r.Ok? <==> priv.Ok? && pub.Ok? && psk.Ok?
  {
    if priv.Err? then Err(BadPrivateKey(priv.error))
    else if pub.Err? then Err(BadPublicKey(pub.error))
    else if psk.Err? then Err(BadPresharedKey(psk.error))
    else Ok(Hex(priv.value, pub.value, psk.value))
  }

  /** The keys of a configuration in hex, or the first that does not convert. */
  function HexKeys(cfg: Config): Result<Hex, UapiError> {
    HexOf(KeyHex(cfg.privateKey), KeyHex(cfg.serverPublicKey), PresharedHex(cfg.presharedKey))
  }

  function Printed(lines: seq<Line>): string
    requires Known(lines)
  {
    Unlines(RenderAll(lines))
  }

  lemma PrintedAppend(a: seq<Line>, b: seq<Line>)
    requires Known(a) && Known(b)
    ensures Known(a + b) && Printed(a + b) == Printed(a) + Printed(b)
  {
    assert RenderAll(a + b) == RenderAll(a) + RenderAll(b);
    UnlinesAppend(RenderAll(a), RenderAll(b));
  }

  lemma PrintedOne(l: Line)
    requires l.key < |KEYS|
    ensures Printed([l]) == KEYS[l.key] + "=" + l.value + "\n"
  {
    assert RenderAll([l]) == [Render(l)];
    assert Unlines([Render(l)]) == Render(l) + "\n" + Unlines([]);
  }

  /** One Fprintf of a key=value line onto a builder that holds the given lines. */
  method Emit(b: string, ghost lines: seq<Line>, key: nat, value: string) returns (r: string)
    requires Known(lines) && b == Printed(lines) && key < |KEYS|
    ensures Known(lines + [Line(key, value)]) && r == Printed(lines + [Line(key, value)])
  {
    PrintedAppend(lines, [Line(key, value)]);
    PrintedOne(Line(key, value));
    r := b + (KEYS[key] + "=" + value + "\n");
  }

  method PrintNumbers(b: string, numbers: seq<uint32>, ghost before: seq<Line>) returns (r: string)
    requires |numbers| == NUMBERS && Known(before) && b == Printed(before)
    ensures Known(before + NumberLines(numbers)) && r == Printed(before + NumberLines(numbers))
  {
    r := b;
    assert before + NumberLines(numbers[..0]) == before;
    for i := 0 to NUMBERS
      invariant Known(before + NumberLines(numbers[..i])) && r == Printed(before + NumberLines(numbers[..i]))
    {
      assert numbers[..i + 1][..i] == numbers[..i];
      r := Emit(r, before + NumberLines(numbers[..i]), FIRST_NUMBER + i, Dec(numbers[i]));
      assert before + NumberLines(numbers[..i + 1])
             == before + NumberLines(numbers[..i]) + [Line(FIRST_NUMBER + i, Dec(numbers[i]))];
    }
    assert numbers[..NUMBERS] == numbers;
  }

  method PrintTemplates(b: string, templates: seq<string>, ghost before: seq<Line>) returns (r: string)
    requires |templates| == TEMPLATES && Known(before) && b == Printed(before)
    ensures Known(before + TemplateLines(templates)) && r == Printed(before + TemplateLines(templates))
  {
    r := b;
    assert before + TemplateLines(templates[..0]) == before;
    for i := 0 to TEMPLATES
      invariant Known(before + TemplateLines(templates[..i])) && r == Printed(before + TemplateLines(templates[..i]))
    {
      assert templates[..i + 1][..i] == templates[..i];
      r := PrintOptional(r, |templates[i]| > 0, FIRST_TEMPLATE + i, templates[i], before + TemplateLines(templates[..i]));
      assert before + TemplateLines(templates[..i + 1])
             == before + TemplateLines(templates[..i]) + Optional(|templates[i]| > 0, Line(FIRST_TEMPLATE + i, templates[i]));
    }
    assert templates[..TEMPLATES] == templates;
  }

  method PrintAllowed(b: string, ips: seq<string>, ghost before: seq<Line>) returns (r: string)
    requires Known(before) && b == Printed(before)
    ensures Known(before + AllowedLines(ips)) && r == Printed(before + AllowedLines(ips))
  {
    r := b;
    assert before + AllowedLines(ips[..0]) == before;
    for i := 0 to |ips|
      invariant Known(before + AllowedLines(ips[..i])) && r == Printed(before + AllowedLines(ips[..i]))
    {
      assert ips[..i + 1][..i] == ips[..i];
      r := Emit(r, before + AllowedLines(ips[..i]), ALLOWED, ips[i]);
      assert before + AllowedLines(ips[..i + 1]) == before + AllowedLines(ips[..i]) + [Line(ALLOWED, ips[i])];
    }
    assert ips[..|ips|] == ips;
  }

  method PrintOptional(b: string, present: bool, key: nat, value: string, ghost before: seq<Line>) returns (r: string)
    requires Known(before) && b == Printed(before) && key < |KEYS|
    ensures Known(before + Optional(present, Line(key, value))) && r == Printed(before + Optional(present, Line(key, value)))
  {
    r := b;
    if present {
      r := Emit(r, before, key, value);
    } else {
      assert before + [] == before;
    }
  }

  /** uapi: the text of exactly these lines, or the first key that does not convert. */
  method PrintConfig(cfg: Config) returns (r: Result<string, UapiError>)
    requires WellTyped(cfg)
    ensures match HexKeys(cfg)
            case Err(e) => r == Err(e)
            case Ok(hex) => r == Ok(ConfigText(cfg, hex.private, hex.public, hex.preshared))
                            && Known(Lines(cfg, hex)) && r == Ok(Printed(Lines(cfg, hex)))
  {
    var priv := KeyHex(cfg.privateKey);
    if priv.Err? { return Err(BadPrivateKey(priv.error)); }
    var pub := KeyHex(cfg.serverPublicKey);
    if pub.Err? { return Err(BadPublicKey(pub.error)); }

    assert RenderAll([]) == [];
    var b := Emit("", [], PRIVATE, priv.value);
    ghost var lines := [Line(PRIVATE, priv.value)];
    assert [] + lines == lines;
    b := PrintNumbers(b, cfg.obfuscation.numbers, lines);
    b := PrintTemplates(b, cfg.obfuscation.templates, lines + NumberLines(cfg.obfuscation.numbers));
    lines := lines + NumberLines(cfg.obfuscation.numbers) + TemplateLines(cfg.obfuscation.templates);

    b := Emit(b, lines, PUBLIC, pub.value);
    lines := lines + [Line(PUBLIC, pub.value)];
    var psk := "";
    if cfg.presharedKey != "" {
      var converted := KeyHex(cfg.presharedKey);
      if converted.Err? { return Err(BadPresharedKey(converted.error)); }
      psk := converted.value;
    }
    ghost var hex := Hex(priv.value, pub.value, psk);
    assert HexKeys(cfg) == Ok(hex);
    assert lines == InterfaceLines(cfg, hex) + [Line(PUBLIC, hex.public)];
    b := PrintPeer(b, cfg, psk, hex, lines);
    assert lines + PeerLines(cfg, hex) == Lines(cfg, hex);
    PrintedIs(cfg, hex);
    return Ok(b);
  }

  method PrintOptions(b: string, cfg: Config, psk: string, ghost hex: Hex, ghost before: seq<Line>) returns (r: string)
    requires Known(before) && b == Printed(before) && psk == hex.preshared
    ensures Known(before + OptionLines(cfg, hex)) && r == Printed(before + OptionLines(cfg, hex))
  {
    ghost var x := Optional(cfg.presharedKey != "", Line(PRESHARED, psk));
    ghost var y := Optional(cfg.endpoint != "", Line(ENDPOINT, cfg.endpoint));
    ghost var z := Optional(cfg.keepalive > 0, Line(KEEPALIVE, Dec(Interval(cfg))));
    r := PrintOptional(b, cfg.presharedKey != "", PRESHARED, psk, before);
    r := PrintOptional(r, cfg.endpoint != "", ENDPOINT, cfg.endpoint, before + x);
    r := PrintOptional(r, cfg.keepalive > 0, KEEPALIVE, Dec(Interval(cfg)), before + x + y);
    ThreeJoined(before, x, y, z);
  }

  lemma ThreeJoined(before: seq<Line>, x: seq<Line>, y: seq<Line>, z: seq<Line>)
    ensures before + x + y + z == before + (x + y + z)
  {
  }

  lemma TwoJoined(before: seq<Line>, x: seq<Line>, y: seq<Line>)
    ensures before + x + y == before + (x + y)
  {
  }

  method PrintPeer(b: string, cfg: Config, psk: string, ghost hex: Hex, ghost before: seq<Line>) returns (r: string)
    requires Known(before) && b == Printed(before) && psk == hex.preshared
    ensures Known(before + PeerLines(cfg, hex)) && r == Printed(before + PeerLines(cfg, hex))
  {
    r := PrintOptions(b, cfg, psk, hex, before);
    r := PrintAllowed(r, AllowedOrDefault(cfg.allowedIps), before + OptionLines(cfg, hex));
    TwoJoined(before, OptionLines(cfg, hex), AllowedLines(AllowedOrDefault(cfg.allowedIps)));
  }

  // ----- the text, written out

  function Entry(key: string, value: string): string {
    key + "=" + value + "\n"
  }

  function EntryIf(present: bool, key: string, value: string): string {
    if present then Entry(key, value) else ""
  }

  const NUMBER_NAMES: seq<string> := ["jc", "jmin", "jmax", "s1", "s2", "s3", "s4", "h1", "h2", "h3", "h4"]
  const TEMPLATE_NAMES: seq<string> := ["i1", "i2", "i3", "i4", "i5"]

  function NumberText(names: seq<string>, n: seq<uint32>): string
    requires |names| == |n|
  {
    if n == [] then ""
    else
      var k := |n| - 1;
      NumberText(names[..k], n[..k]) + Entry(names[k], Dec(n[k]))
  }

  function TemplateText(names: seq<string>, t: seq<string>): string
    requires |names| == |t|
  {
    if t == [] then ""
    else
      var k := |t| - 1;
      TemplateText(names[..k], t[..k]) + EntryIf(t[k] != "", names[k], t[k])
  }

  function InterfaceText(cfg: Config, private: string): string
    requires |cfg.obfuscation.numbers| == 11 && |cfg.obfuscation.templates| == 5
  {
    Entry("private_key", private)
    + NumberText(NUMBER_NAMES, cfg.obfuscation.numbers)
    + TemplateText(TEMPLATE_NAMES, cfg.obfuscation.templates)
  }

  function OptionText(cfg: Config, preshared: string): string {
    EntryIf(cfg.presharedKey != "", "preshared_key", preshared)
    + EntryIf(cfg.endpoint != "", "endpoint", cfg.endpoint)
    + (if cfg.keepalive > 0 then Entry("persistent_keepalive_interval", Dec(cfg.keepalive)) else "")
  }

  function AllowedText(ips: seq<string>): string {
    if ips == [] then "" else AllowedText(ips[..|ips| - 1]) + Entry("allowed_ip", ips[|ips| - 1])
  }

  function AllowedPart(ips: seq<string>): string {
    if ips == [] then Entry("allowed_ip", "0.0.0.0/0") + Entry("allowed_ip", "::/0") else AllowedText(ips)
  }

  /** The whole configuration text, key by key. */
  function ConfigText(cfg: Config, private: string, public: string, preshared: string): string
    requires |cfg.obfuscation.numbers| == 11 && |cfg.obfuscation.templates| == 5
  {
    InterfaceText(cfg, private) + Entry("public_key", public) + (OptionText(cfg, preshared) + AllowedPart(cfg.allowedIps))
  }

  lemma PrintedEntry(key: nat, name: string, value: string)
    requires key < |KEYS| && KEYS[key] == name
    ensures Known([Line(key, value)]) && Printed([Line(key, value)]) == Entry(name, value)
  {
    PrintedOne(Line(key, value));
  }

  lemma PrintedIf(present: bool, key: nat, name: string, value: string)
    requires key < |KEYS| && KEYS[key] == name
    ensures var l := Optional(present, Line(key, value)); Known(l) && Printed(l) == EntryIf(present, name, value)
  {
    if present { PrintedEntry(key, name, value); }
  }

  /** The text of a run of lines and one more. */
  lemma PrintedSnoc(lines: seq<Line>, text: string, key: nat, name: string, value: string)
    requires Known(lines) && Printed(lines) == text && key < |KEYS| && KEYS[key] == name
    ensures Known(lines + [Line(key, value)]) && Printed(lines + [Line(key, value)]) == text + Entry(name, value)
  {
    PrintedEntry(key, name, value);
    PrintedAppend(lines, [Line(key, value)]);
  }

  lemma {:induction false} PrintedNumbers(names: seq<string>, n: seq<uint32>)
    requires |names| == |n| <= NUMBERS
    requires forall k :: 0 <= k < |n| ==> KEYS[FIRST_NUMBER + k] == names[k]
    ensures Known(NumberLines(n)) && Printed(NumberLines(n)) == NumberText(names, n)
  {
    if n == [] {
      assert RenderAll([]) == [];
    } else {
      var k := |n| - 1;
      PrintedNumbers(names[..k], n[..k]);
      PrintedSnoc(NumberLines(n[..k]), NumberText(names[..k], n[..k]), FIRST_NUMBER + k, names[k], Dec(n[k]));
    }
  }

  lemma {:induction false} PrintedTemplates(names: seq<string>, t: seq<string>)
    requires |names| == |t| <= TEMPLATES
    requires forall k :: 0 <= k < |t| ==> KEYS[FIRST_TEMPLATE + k] == names[k]
    ensures Known(TemplateLines(t)) && Printed(TemplateLines(t)) == TemplateText(names, t)
  {
    if t == [] {
      assert RenderAll([]) == [];
    } else {
      var k := |t| - 1;
      PrintedTemplates(names[..k], t[..k]);
      PrintedIf(|t[k]| > 0, FIRST_TEMPLATE + k, names[k], t[k]);
      PrintedAppend(TemplateLines(t[..k]), Optional(|t[k]| > 0, Line(FIRST_TEMPLATE + k, t[k])));
    }
  }

  lemma {:induction false} PrintedAllowed(ips: seq<string>)
    ensures Known(AllowedLines(ips)) && Printed(AllowedLines(ips)) == AllowedText(ips)
  {
    if ips == [] {
      assert RenderAll([]) == [];
    } else {
      var n := |ips| - 1;
      PrintedAllowed(ips[..n]);
      PrintedSnoc(AllowedLines(ips[..n]), AllowedText(ips[..n]), ALLOWED, "allowed_ip", ips[n]);
    }
  }

  lemma TwoAllowed(a: string, b: string)
    ensures AllowedText([a, b]) == Entry("allowed_ip", a) + Entry("allowed_ip", b)
  {
    assert [a, b][..1] == [a] && [a][..0] == [];
    assert AllowedText([a]) == "" + Entry("allowed_ip", a);
  }

  lemma DefaultText(ips: seq<string>)
    ensures AllowedText(AllowedOrDefault(ips)) == AllowedPart(ips)
  {
    if ips == [] {
      TwoAllowed("0.0.0.0/0", "::/0");
    }
  }

  lemma PrintedOptions(cfg: Config, hex: Hex)
    ensures Known(OptionLines(cfg, hex)) && Printed(OptionLines(cfg, hex)) == OptionText(cfg, hex.preshared)
  {
    var x := Optional(cfg.presharedKey != "", Line(PRESHARED, hex.preshared));
    var y := Optional(cfg.endpoint != "", Line(ENDPOINT, cfg.endpoint));
    var z := Optional(cfg.keepalive > 0, Line(KEEPALIVE, Dec(Interval(cfg))));
    PrintedIf(cfg.presharedKey != "", PRESHARED, "preshared_key", hex.preshared);
    PrintedIf(cfg.endpoint != "", ENDPOINT, "endpoint", cfg.endpoint);
    PrintedIf(cfg.keepalive > 0, KEEPALIVE, "persistent_keepalive_interval", Dec(Interval(cfg)));
    PrintedAppend(x, y);
    PrintedAppend(x + y, z);
  }

  lemma PrintedPeer(cfg: Config, hex: Hex)
    ensures Known(PeerLines(cfg, hex))
    ensures Printed(PeerLines(cfg, hex)) == OptionText(cfg, hex.preshared) + AllowedPart(cfg.allowedIps)
  {
    PrintedOptions(cfg, hex);
    PrintedAllowed(AllowedOrDefault(cfg.allowedIps));
    DefaultText(cfg.allowedIps);
    PrintedAppend(OptionLines(cfg, hex), AllowedLines(AllowedOrDefault(cfg.allowedIps)));
  }

  lemma PrintedInterface(cfg: Config, hex: Hex)
    requires WellTyped(cfg)
    ensures Known(InterfaceLines(cfg, hex)) && Printed(InterfaceLines(cfg, hex)) == InterfaceText(cfg, hex.private)
  {
    var numbers, templates := NumberLines(cfg.obfuscation.numbers), TemplateLines(cfg.obfuscation.templates);
    PrintedEntry(PRIVATE, "private_key", hex.private);
    PrintedNumbers(NUMBER_NAMES, cfg.obfuscation.numbers);
    PrintedTemplates(TEMPLATE_NAMES, cfg.obfuscation.templates);
    PrintedAppend([Line(PRIVATE, hex.private)], numbers);
    PrintedAppend([Line(PRIVATE, hex.private)] + numbers, templates);
  }

  /** The printed lines are the configuration text. */
  lemma PrintedIs(cfg: Config, hex: Hex)
    requires WellTyped(cfg)
    ensures Known(Lines(cfg, hex)) && Printed(Lines(cfg, hex)) == ConfigText(cfg, hex.private, hex.public, hex.preshared)
  {
    var iface, middle := InterfaceLines(cfg, hex), [Line(PUBLIC, hex.public)];
    PrintedInterface(cfg, hex);
    PrintedEntry(PUBLIC, "public_key", hex.public);
    PrintedPeer(cfg, hex);
    PrintedAppend(iface, middle);
    PrintedAppend(iface + middle, PeerLines(cfg, hex));
  }

  /** The first key that does not convert is reported; otherwise all three are in hex. */
  lemma HexKeysReport(cfg: Config)
    ensures var r := HexKeys(cfg);
            var priv, pub, psk := KeyHex(cfg.privateKey), KeyHex(cfg.serverPublicKey), KeyHex(cfg.presharedKey);
            && (r.Err? && r.error.BadPrivateKey? <==> priv.Err?)
            && (r.Err? && r.error.BadPublicKey? <==> priv.Ok? && pub.Err?)
            && (r.Err? && r.error.BadPresharedKey? <==> priv.Ok? && pub.Ok? && cfg.presharedKey != "" && psk.Err?)
            && (r.Ok? ==> Ok(r.value.private) == priv && Ok(r.value.public) == pub
                          && (cfg.presharedKey != "" ==> Ok(r.value.preshared) == psk))
  {
  }

  // ----- reading

  function FindKey(keys: seq<string>, key: string): (i: nat)
    ensures i <= |keys|
  {
    if keys == [] || keys[0] == key then 0 else 1 + FindKey(keys[1..], key)
  }

  /** A line is cut at its first '='; an unknown key is an error. */
  function ReadLine(text: string): Option<Line> {
    var i := First(text, '=');
    if i == |text| then None
    else
      var k := FindKey(KEYS, text[..i]);
      if k == |KEYS| then None else Some(Line(k, text[i + 1..]))
  }

  function ReadAll(texts: seq<string>): Option<seq<Line>> {
    if texts == [] then Some([])
    else
      var l :- ReadLine(texts[0]);
      var rest :- ReadAll(texts[1..]);
      Some([l] + rest)
  }

  /** The lines of a text that ends in a newline. */
  function ReadText(text: string): Option<seq<Line>> {
    var parts := Split(text, NEWLINE);
    if parts[|parts| - 1] != "" then None else ReadAll(parts[..|parts| - 1])
  }

  lemma {:induction false} FindKeyAt(keys: seq<string>, i: nat)
    requires i < |keys| && Distinct(keys)
    ensures FindKey(keys, keys[i]) == i
  {
    if i > 0 {
      assert Distinct(keys[1..]);
      FindKeyAt(keys[1..], i - 1);
    }
  }

  /** Length, first and last two characters tell the keys apart. */
  function Tag(key: string): int {
    if |key| < 2 then 0
    else |key| * 0x100_0000 + key[0] as int * 0x1_0000 + key[|key| - 2] as int * 0x100 + key[|key| - 1] as int
  }

  const TAGS: seq<int> := [
    0xb706579, 0x26a6a63, 0x46a696e, 0x46a6178, 0x2737331, 0x2737332, 0x2737333, 0x2737334,
    0x2686831, 0x2686832, 0x2686833, 0x2686834, 0x2696931, 0x2696932, 0x2696933, 0x2696934, 0x2696935,
    0xa706579, 0xd706579, 0x8656e74, 0x1d70616c, 0xa616970]

  lemma TagsOfKeys(i: nat)
    requires i < |KEYS|
    ensures |TAGS| == |KEYS| && Tag(KEYS[i]) == TAGS[i]
  {
  }

  lemma KeysDistinct()
    ensures Distinct(KEYS)
  {
    forall i, j | 0 <= i < j < |KEYS| ensures KEYS[i] != KEYS[j] {
      TagsOfKeys(i);
      TagsOfKeys(j);
      TagsDiffer(i, j);
    }
  }

  lemma TagsDiffer(i: nat, j: nat)
    requires i < j < |TAGS|
    ensures TAGS[i] != TAGS[j]
  {
  }

  lemma KeysPlain(i: nat)
    requires i < |KEYS|
    ensures '=' !in KEYS[i] && NEWLINE !in KEYS[i]
  {
  }

  lemma ReadRendered(l: Line)
    requires l.key < |KEYS|
    ensures ReadLine(Render(l)) == Some(l)
  {
    KeysPlain(l.key);
    KeysDistinct();
    FirstAfter(KEYS[l.key], '=', l.value);
    assert Render(l) == KEYS[l.key] + ['='] + l.value;
    assert Render(l)[..|KEYS[l.key]|] == KEYS[l.key];
    FindKeyAt(KEYS, l.key);
  }

  lemma {:induction false} ReadAllRendered(lines: seq<Line>)
    requires Known(lines)
    ensures ReadAll(RenderAll(lines)) == Some(lines)
  {
    if lines != [] {
      ReadAllRendered(lines[1..]);
      ReadAllStep(lines[0], lines[1..]);
      assert [lines[0]] + lines[1..] == lines;
    }
  }

  lemma ReadAllStep(l: Line, rest: seq<Line>)
    requires l.key < |KEYS| && Known(rest) && ReadAll(RenderAll(rest)) == Some(rest)
    ensures Known([l] + rest) && ReadAll(RenderAll([l] + rest)) == Some([l] + rest)
  {
    ReadRendered(l);
    RenderAllCons(l, rest);
    ReadAllCons(Render(l), l, RenderAll(rest), rest);
  }

  lemma RenderAllCons(l: Line, lines: seq<Line>)
    requires l.key < |KEYS| && Known(lines)
    ensures Known([l] + lines) && RenderAll([l] + lines) == [Render(l)] + RenderAll(lines)
  {
  }

  lemma ReadAllCons(text: string, l: Line, texts: seq<string>, lines: seq<Line>)
    requires ReadLine(text) == Some(l) && ReadAll(texts) == Some(lines)
    ensures ReadAll([text] + texts) == Some([l] + lines)
  {
    assert ([text] + texts)[1..] == texts;
  }

  ghost predicate NewlineFree(lines: seq<Line>) {
    forall i :: 0 <= i < |lines| ==> NEWLINE !in lines[i].value
  }

  /** Splitting the printed text on newlines gives back exactly the printed lines, if and only if
      no value holds a newline; the reader then recovers every key and value in order. */
  lemma PrintedReadsBack(lines: seq<Line>)
    requires Known(lines)
    ensures Split(Printed(lines), NEWLINE) == RenderAll(lines) + [""] <==> NewlineFree(lines)
    ensures NewlineFree(lines) ==> ReadText(Printed(lines)) == Some(lines)
  {
    SplitUnlines(RenderAll(lines));
    ReadAllRendered(lines);
    forall i | 0 <= i < |lines| ensures NEWLINE in RenderAll(lines)[i] <==> NEWLINE in lines[i].value {
      KeysPlain(lines[i].key);
    }
    if NewlineFree(lines) {
      assert SingleLines(RenderAll(lines));
      var parts := RenderAll(lines) + [""];
      assert parts[..|parts| - 1] == RenderAll(lines);
    } else {
      var i :| 0 <= i < |lines| && NEWLINE in lines[i].value;
      assert NEWLINE in RenderAll(lines)[i];
    }
  }

  // ----- the settings a reader recovers

  function ValuesOf(lines: seq<Line>, key: nat): seq<string> {
    if lines == [] then []
    else ValuesOf(lines[..|lines| - 1], key)
         + (if lines[|lines| - 1].key == key then [lines[|lines| - 1].value] else [])
  }

  datatype Settings = Settings(
    private: Bytes,
    public: Bytes,
    preshared: Option<Bytes>,
    numbers: seq<nat>,
    templates: seq<string>,
    endpoint: string,
    keepalive: nat,
    allowed: seq<string>)

  function Single(values: seq<string>): Option<string> {
    if |values| == 1 then Some(values[0]) else None
  }

  /** An optional key's value, or the given default when the key is absent. */
  function AtMostOne(values: seq<string>, absent: string): Option<string> {
    if values == [] then Some(absent) else Single(values)
  }

  function ReadNumbers(lines: seq<Line>, count: nat): Option<seq<nat>> {
    if count == 0 then Some([])
    else
      var init :- ReadNumbers(lines, count - 1);
      var n :- NumberAt(lines, count - 1);
      Some(init + [n])
  }

  function NumberAt(lines: seq<Line>, i: nat): Option<nat> {
    var text :- Single(ValuesOf(lines, FIRST_NUMBER + i));
    DecValue(text)
  }

  function ReadTemplates(lines: seq<Line>, count: nat): Option<seq<string>> {
    if count == 0 then Some([])
    else
      var init :- ReadTemplates(lines, count - 1);
      var text :- TemplateAt(lines, count - 1);
      Some(init + [text])
  }

  function TemplateAt(lines: seq<Line>, i: nat): Option<string> {
    AtMostOne(ValuesOf(lines, FIRST_TEMPLATE + i), "")
  }

  function ReadPreshared(lines: seq<Line>): Option<Option<Bytes>> {
    var text :- AtMostOne(ValuesOf(lines, PRESHARED), "");
    if text == "" then Some(None)
    else
      var key :- HexDecode(text);
      Some(Some(key))
  }

  function ReadSettings(lines: seq<Line>): Option<Settings> {
    var priv :- Single(ValuesOf(lines, PRIVATE));
    var private :- HexDecode(priv);
    var pub :- Single(ValuesOf(lines, PUBLIC));
    var public :- HexDecode(pub);
    var preshared :- ReadPreshared(lines);
    var numbers :- ReadNumbers(lines, NUMBERS);
    var templates :- ReadTemplates(lines, TEMPLATES);
    var endpoint :- AtMostOne(ValuesOf(lines, ENDPOINT), "");
    var interval :- AtMostOne(ValuesOf(lines, KEEPALIVE), "0");
    var keepalive :- DecValue(interval);
    Some(Settings(private, public, preshared, numbers, templates, endpoint, keepalive, ValuesOf(lines, ALLOWED)))
  }

  /** The bytes of a key text that converts. */
  function KeyBytes(b64: string): Bytes {
    match Decode(TrimSpace(b64)) case Some(b) => b case None => []
  }

  /** What a configuration asks for: its keys' bytes, every number and template, the optional
      fields, and the allowed addresses in order or the default pair. */
  function SettingsOf(cfg: Config): Settings {
    Settings(KeyBytes(cfg.privateKey), KeyBytes(cfg.serverPublicKey),
             if cfg.presharedKey == "" then None else Some(KeyBytes(cfg.presharedKey)),
             cfg.obfuscation.numbers, cfg.obfuscation.templates, cfg.endpoint,
             if cfg.keepalive > 0 then cfg.keepalive else 0,
             if cfg.allowedIps == [] then ["0.0.0.0/0", "::/0"] else cfg.allowedIps)
  }

  lemma {:induction false} ValuesAppend(a: seq<Line>, b: seq<Line>, key: nat)
    ensures ValuesOf(a + b, key) == ValuesOf(a, key) + ValuesOf(b, key)
  {
    if b == [] {
      assert a + b == a;
    } else {
      assert (a + b)[..|a + b| - 1] == a + b[..|b| - 1];
      ValuesAppend(a, b[..|b| - 1], key);
    }
  }

  lemma {:induction false} ValuesOutside(lines: seq<Line>, low: nat, high: nat, key: nat)
    requires KeysWithin(lines, low, high) && !(low <= key <= high)
    ensures ValuesOf(lines, key) == []
  {
    if lines != [] {
      ValuesOutside(lines[..|lines| - 1], low, high, key);
    }
  }

  lemma ValuesOne(l: Line, key: nat)
    ensures ValuesOf([l], key) == if l.key == key then [l.value] else []
  {
  }

  lemma {:induction false} NumberValues(numbers: seq<uint32>, i: nat)
    requires i < |numbers| <= NUMBERS
    ensures ValuesOf(NumberLines(numbers), FIRST_NUMBER + i) == [Dec(numbers[i])]
  {
    var n := |numbers| - 1;
    var init, last := NumberLines(numbers[..n]), Line(FIRST_NUMBER + n, Dec(numbers[n]));
    ValuesAppend(init, [last], FIRST_NUMBER + i);
    ValuesOne(last, FIRST_NUMBER + i);
    NumberKeys(numbers[..n]);
    if i < n {
      NumberValues(numbers[..n], i);
    } else if n > 0 {
      ValuesOutside(init, FIRST_NUMBER, FIRST_NUMBER + n - 1, FIRST_NUMBER + i);
    }
  }

  lemma {:induction false} TemplateValues(templates: seq<string>, i: nat)
    requires i < |templates| <= TEMPLATES
    ensures ValuesOf(TemplateLines(templates), FIRST_TEMPLATE + i) == Given(templates[i])
  {
    var n := |templates| - 1;
    var init := templates[..n];
    if i < n {
      TemplateValues(init, i);
      assert init[i] == templates[i];
    } else {
      TemplateKeys(init);
      TemplateValuesFresh(TemplateLines(init), n);
    }
    TemplateValuesStep(TemplateLines(init), templates[n], n, i);
    assert TemplateLines(templates) == TemplateLines(init) + Optional(|templates[n]| > 0, Line(FIRST_TEMPLATE + n, templates[n]));
  }

  lemma TemplateValuesStep(init: seq<Line>, t: string, n: nat, i: nat)
    requires i <= n
    requires i == n ==> ValuesOf(init, FIRST_TEMPLATE + i) == []
    ensures ValuesOf(init + Optional(|t| > 0, Line(FIRST_TEMPLATE + n, t)), FIRST_TEMPLATE + i)
            == if i == n then Given(t) else ValuesOf(init, FIRST_TEMPLATE + i)
  {
    var last := Line(FIRST_TEMPLATE + n, t);
    ValuesAppend(init, Optional(|t| > 0, last), FIRST_TEMPLATE + i);
    OptionalValues(|t| > 0, last, FIRST_TEMPLATE + i);
  }

  lemma TemplateValuesFresh(init: seq<Line>, n: nat)
    requires KeysWithin(init, FIRST_TEMPLATE, FIRST_TEMPLATE + n - 1)
    ensures ValuesOf(init, FIRST_TEMPLATE + n) == []
  {
    ValuesOutside(init, FIRST_TEMPLATE, FIRST_TEMPLATE + n - 1, FIRST_TEMPLATE + n);
  }

  lemma {:induction false} AllowedValues(ips: seq<string>)
    ensures ValuesOf(AllowedLines(ips), ALLOWED) == ips
  {
    if ips != [] {
      var n := |ips| - 1;
      ValuesAppend(AllowedLines(ips[..n]), [Line(ALLOWED, ips[n])], ALLOWED);
      ValuesOne(Line(ALLOWED, ips[n]), ALLOWED);
      AllowedValues(ips[..n]);
      assert ips == ips[..n] + [ips[n]];
    }
  }

  /** An interface key's values come from the interface part alone, a peer key's from the peer's. */
  lemma ValuesByPart(cfg: Config, hex: Hex, key: nat)
    requires WellTyped(cfg)
    ensures ValuesOf(Lines(cfg, hex), key) ==
            if key < PUBLIC then ValuesOf(InterfaceLines(cfg, hex), key)
            else if key == PUBLIC then [hex.public]
            else ValuesOf(PeerLines(cfg, hex), key)
  {
    var iface, peer := InterfaceLines(cfg, hex), PeerLines(cfg, hex);
    var middle := Line(PUBLIC, hex.public);
    InterfaceKeys(cfg, hex);
    PeerKeys(cfg, hex);
    ValuesAppend(iface + [middle], peer, key);
    ValuesAppend(iface, [middle], key);
    ValuesOne(middle, key);
    if key >= PUBLIC { ValuesOutside(iface, 0, PUBLIC - 1, key); }
    if key <= PUBLIC { ValuesOutside(peer, PUBLIC + 1, ALLOWED, key); }
  }

  lemma ValuesOfThree(a: seq<Line>, b: seq<Line>, c: seq<Line>, key: nat)
    ensures ValuesOf(a + b + c, key) == ValuesOf(a, key) + ValuesOf(b, key) + ValuesOf(c, key)
  {
    ValuesAppend(a + b, c, key);
    ValuesAppend(a, b, key);
  }

  lemma PrivateValues(cfg: Config, hex: Hex)
    requires WellTyped(cfg)
    ensures ValuesOf(InterfaceLines(cfg, hex), PRIVATE) == [hex.private]
  {
    var numbers, templates := NumberLines(cfg.obfuscation.numbers), TemplateLines(cfg.obfuscation.templates);
    ValuesOfThree([Line(PRIVATE, hex.private)], numbers, templates, PRIVATE);
    ValuesOne(Line(PRIVATE, hex.private), PRIVATE);
    NumberKeys(cfg.obfuscation.numbers);
    TemplateKeys(cfg.obfuscation.templates);
    ValuesOutside(numbers, FIRST_NUMBER, FIRST_TEMPLATE - 1, PRIVATE);
    ValuesOutside(templates, FIRST_TEMPLATE, PUBLIC - 1, PRIVATE);
  }

  lemma NumberKeyValues(cfg: Config, hex: Hex, i: nat)
    requires WellTyped(cfg) && i < NUMBERS
    ensures ValuesOf(InterfaceLines(cfg, hex), FIRST_NUMBER + i) == [Dec(cfg.obfuscation.numbers[i])]
  {
    var numbers, templates := NumberLines(cfg.obfuscation.numbers), TemplateLines(cfg.obfuscation.templates);
    var key := FIRST_NUMBER + i;
    ValuesOfThree([Line(PRIVATE, hex.private)], numbers, templates, key);
    ValuesOne(Line(PRIVATE, hex.private), key);
    assert [] + [Dec(cfg.obfuscation.numbers[i])] + [] == [Dec(cfg.obfuscation.numbers[i])];
    NumberValues(cfg.obfuscation.numbers, i);
    TemplateKeys(cfg.obfuscation.templates);
    ValuesOutside(templates, FIRST_TEMPLATE, PUBLIC - 1, key);
  }

  lemma TemplateKeyValues(cfg: Config, hex: Hex, i: nat)
    requires WellTyped(cfg) && i < TEMPLATES
    ensures ValuesOf(InterfaceLines(cfg, hex), FIRST_TEMPLATE + i) == Given(cfg.obfuscation.templates[i])
  {
    var numbers, templates := NumberLines(cfg.obfuscation.numbers), TemplateLines(cfg.obfuscation.templates);
    var key := FIRST_TEMPLATE + i;
    ValuesOfThree([Line(PRIVATE, hex.private)], numbers, templates, key);
    ValuesOne(Line(PRIVATE, hex.private), key);
    NumberKeys(cfg.obfuscation.numbers);
    ValuesOutside(numbers, FIRST_NUMBER, FIRST_TEMPLATE - 1, key);
    TemplateValues(cfg.obfuscation.templates, i);
  }

  lemma OptionalValues(present: bool, l: Line, key: nat)
    ensures ValuesOf(Optional(present, l), key) == if present && l.key == key then [l.value] else []
  {
  }

  lemma OptionLineValues(cfg: Config, hex: Hex, key: nat)
    ensures ValuesOf(OptionLines(cfg, hex), key) ==
            if key == PRESHARED then (if cfg.presharedKey != "" then [hex.preshared] else [])
            else if key == ENDPOINT then (if cfg.endpoint != "" then [cfg.endpoint] else [])
            else if key == KEEPALIVE then (if cfg.keepalive > 0 then [Dec(Interval(cfg))] else [])
            else []
  {
    ThreeOptions(cfg.presharedKey != "", Line(PRESHARED, hex.preshared), cfg.endpoint != "", Line(ENDPOINT, cfg.endpoint),
                 cfg.keepalive > 0, Line(KEEPALIVE, Dec(Interval(cfg))), key);
  }

  lemma ThreeOptions(a: bool, x: Line, b: bool, y: Line, c: bool, z: Line, key: nat)
    requires x.key != y.key && y.key != z.key && x.key != z.key
    ensures ValuesOf(Optional(a, x) + Optional(b, y) + Optional(c, z), key) ==
            if key == x.key then (if a then [x.value] else [])
            else if key == y.key then (if b then [y.value] else [])
            else if key == z.key then (if c then [z.value] else [])
            else []
  {
    ValuesOfThree(Optional(a, x), Optional(b, y), Optional(c, z), key);
    OptionalValues(a, x, key);
    OptionalValues(b, y, key);
    OptionalValues(c, z, key);
  }

  lemma OptionKeyValues(cfg: Config, hex: Hex, key: nat)
    requires PUBLIC < key < ALLOWED
    ensures ValuesOf(PeerLines(cfg, hex), key) == ValuesOf(OptionLines(cfg, hex), key)
  {
    var allowed := AllowedLines(AllowedOrDefault(cfg.allowedIps));
    ValuesAppend(OptionLines(cfg, hex), allowed, key);
    AllowedKeys(AllowedOrDefault(cfg.allowedIps));
    ValuesOutside(allowed, ALLOWED, ALLOWED, key);
  }

  lemma AllowedKeyValues(cfg: Config, hex: Hex)
    ensures ValuesOf(PeerLines(cfg, hex), ALLOWED) == AllowedOrDefault(cfg.allowedIps)
  {
    var ips := AllowedOrDefault(cfg.allowedIps);
    ValuesAppend(OptionLines(cfg, hex), AllowedLines(ips), ALLOWED);
    OptionLineValues(cfg, hex, ALLOWED);
    AllowedValues(ips);
  }

  lemma ReadNumbersStep(lines: seq<Line>, i: nat, init: seq<nat>, n: nat)
    requires ReadNumbers(lines, i) == Some(init) && NumberAt(lines, i) == Some(n)
    ensures ReadNumbers(lines, i + 1) == Some(init + [n])
  {
  }

  lemma {:induction false} NumbersRead(lines: seq<Line>, numbers: seq<uint32>, count: nat)
    requires count <= |numbers|
    requires forall i :: 0 <= i < |numbers| ==> NumberAt(lines, i) == Some(numbers[i])
    ensures ReadNumbers(lines, count) == Some(numbers[..count])
  {
    if count > 0 {
      var i := count - 1;
      NumbersRead(lines, numbers, i);
      ReadNumbersStep(lines, i, numbers[..i], numbers[i]);
      assert numbers[..count] == numbers[..i] + [numbers[i]];
    }
  }

  lemma GivenReads(s: string)
    ensures AtMostOne(Given(s), "") == Some(s)
  {
  }

  lemma ReadTemplatesStep(lines: seq<Line>, i: nat, init: seq<string>, t: string)
    requires ReadTemplates(lines, i) == Some(init) && TemplateAt(lines, i) == Some(t)
    ensures ReadTemplates(lines, i + 1) == Some(init + [t])
  {
  }

  lemma {:induction false} TemplatesRead(lines: seq<Line>, templates: seq<string>, count: nat)
    requires count <= |templates|
    requires forall i :: 0 <= i < |templates| ==> TemplateAt(lines, i) == Some(templates[i])
    ensures ReadTemplates(lines, count) == Some(templates[..count])
  {
    if count > 0 {
      var i := count - 1;
      TemplatesRead(lines, templates, i);
      ReadTemplatesStep(lines, i, templates[..i], templates[i]);
      assert templates[..count] == templates[..i] + [templates[i]];
    }
  }

  lemma NumberReadAt(cfg: Config, hex: Hex, i: nat)
    requires WellTyped(cfg) && i < NUMBERS
    ensures NumberAt(Lines(cfg, hex), i) == Some(cfg.obfuscation.numbers[i])
  {
    DecValueDec(cfg.obfuscation.numbers[i]);
    ValuesByPart(cfg, hex, FIRST_NUMBER + i);
    NumberKeyValues(cfg, hex, i);
  }

  lemma TemplateReadAt(cfg: Config, hex: Hex, i: nat)
    requires WellTyped(cfg) && i < TEMPLATES
    ensures TemplateAt(Lines(cfg, hex), i) == Some(cfg.obfuscation.templates[i])
  {
    GivenReads(cfg.obfuscation.templates[i]);
    ValuesByPart(cfg, hex, FIRST_TEMPLATE + i);
    TemplateKeyValues(cfg, hex, i);
  }

  lemma ObfuscationRead(cfg: Config, hex: Hex)
    requires WellTyped(cfg)
    ensures ReadNumbers(Lines(cfg, hex), NUMBERS) == Some(cfg.obfuscation.numbers)
    ensures ReadTemplates(Lines(cfg, hex), TEMPLATES) == Some(cfg.obfuscation.templates)
  {
    var lines, numbers, templates := Lines(cfg, hex), cfg.obfuscation.numbers, cfg.obfuscation.templates;
    forall i | 0 <= i < |numbers| ensures NumberAt(lines, i) == Some(numbers[i]) {
      NumberReadAt(cfg, hex, i);
    }
    forall i | 0 <= i < |templates| ensures TemplateAt(lines, i) == Some(templates[i]) {
      TemplateReadAt(cfg, hex, i);
    }
    NumbersRead(lines, numbers, NUMBERS);
    TemplatesRead(lines, templates, TEMPLATES);
    assert numbers[..NUMBERS] == numbers && templates[..TEMPLATES] == templates;
  }

  lemma HexKeysParts(cfg: Config, hex: Hex)
    requires HexKeys(cfg) == Ok(hex)
    ensures KeyHex(cfg.privateKey) == Ok(hex.private) && KeyHex(cfg.serverPublicKey) == Ok(hex.public)
    ensures cfg.presharedKey != "" ==> KeyHex(cfg.presharedKey) == Ok(hex.preshared)
  {
    HexOfParts(KeyHex(cfg.privateKey), KeyHex(cfg.serverPublicKey), PresharedHex(cfg.presharedKey), hex);
  }

  lemma HexOfParts(priv: Result<string, KeyError>, pub: Result<string, KeyError>, psk: Result<string, KeyError>, hex: Hex)
    requires HexOf(priv, pub, psk) == Ok(hex)
    ensures priv == Ok(hex.private) && pub == Ok(hex.public) && psk == Ok(hex.preshared)
  {
  }

  lemma HexReads(b64: string, hex: string)
    requires KeyHex(b64) == Ok(hex)
    ensures HexDecode(hex) == Some(KeyBytes(b64)) && |hex| == 64
  {
    KeyHexDenotes(b64, hex);
  }

  lemma KeysRead(cfg: Config, hex: Hex)
    requires WellTyped(cfg)
    ensures Single(ValuesOf(Lines(cfg, hex), PRIVATE)) == Some(hex.private)
    ensures Single(ValuesOf(Lines(cfg, hex), PUBLIC)) == Some(hex.public)
  {
    ValuesByPart(cfg, hex, PRIVATE);
    PrivateValues(cfg, hex);
    ValuesByPart(cfg, hex, PUBLIC);
  }

  lemma PresharedRead(cfg: Config, hex: Hex)
    requires WellTyped(cfg) && (cfg.presharedKey != "" ==> KeyHex(cfg.presharedKey) == Ok(hex.preshared))
    ensures ReadPreshared(Lines(cfg, hex)) == Some(SettingsOf(cfg).preshared)
  {
    var text := if cfg.presharedKey != "" then hex.preshared else "";
    PresharedText(cfg, hex, text);
    if cfg.presharedKey != "" {
      HexReads(cfg.presharedKey, hex.preshared);
    }
    PresharedOf(Lines(cfg, hex), text);
  }

  lemma PresharedText(cfg: Config, hex: Hex, text: string)
    requires WellTyped(cfg) && text == if cfg.presharedKey != "" then hex.preshared else ""
    ensures AtMostOne(ValuesOf(Lines(cfg, hex), PRESHARED), "") == Some(text)
  {
    ValuesByPart(cfg, hex, PRESHARED);
    OptionKeyValues(cfg, hex, PRESHARED);
    OptionLineValues(cfg, hex, PRESHARED);
  }

  lemma PresharedOf(lines: seq<Line>, text: string)
    requires AtMostOne(ValuesOf(lines, PRESHARED), "") == Some(text)
    ensures text == "" ==> ReadPreshared(lines) == Some(None)
    ensures text != "" && HexDecode(text).Some? ==> ReadPreshared(lines) == Some(HexDecode(text))
  {
  }

  lemma OptionsRead(cfg: Config, hex: Hex)
    requires WellTyped(cfg)
    ensures var lines := Lines(cfg, hex);
            && AtMostOne(ValuesOf(lines, ENDPOINT), "") == Some(cfg.endpoint)
            && ValuesOf(lines, ALLOWED) == AllowedOrDefault(cfg.allowedIps)
            && AtMostOne(ValuesOf(lines, KEEPALIVE), "0").Some?
            && DecValue(AtMostOne(ValuesOf(lines, KEEPALIVE), "0").value) == Some(SettingsOf(cfg).keepalive)
  {
    ValuesByPart(cfg, hex, ENDPOINT);
    OptionKeyValues(cfg, hex, ENDPOINT);
    OptionLineValues(cfg, hex, ENDPOINT);
    ValuesByPart(cfg, hex, ALLOWED);
    AllowedKeyValues(cfg, hex);
    ValuesByPart(cfg, hex, KEEPALIVE);
    OptionKeyValues(cfg, hex, KEEPALIVE);
    OptionLineValues(cfg, hex, KEEPALIVE);
    DecValueDec(Interval(cfg));
  }

  /** The strings a configuration passes through to the text hold no newline. */
  ghost predicate OneLineEach(cfg: Config) {
    && NEWLINE !in cfg.endpoint
    && AllOneLine(cfg.obfuscation.templates)
    && AllOneLine(cfg.allowedIps)
  }

  /** The reader undoes the printer: from the text of a configuration with valid keys it recovers
      exactly what the configuration asks for, provided its strings hold no newline; when one does,
      the text does not even split into the lines that were written. */
  lemma ConfigReadsBack(cfg: Config, hex: Hex)
    requires WellTyped(cfg) && HexKeys(cfg) == Ok(hex)
    ensures var lines := Lines(cfg, hex);
            && Known(lines)
            && (Split(Printed(lines), NEWLINE) == RenderAll(lines) + [""] <==> OneLineEach(cfg))
            && (OneLineEach(cfg) ==> ReadText(Printed(lines)) == Some(lines))
    ensures ReadSettings(Lines(cfg, hex)) == Some(SettingsOf(cfg))
  {
    KeyOrder(cfg, hex);
    LinesNewlineFree(cfg, hex);
    PrintedReadsBack(Lines(cfg, hex));
    SettingsRead(cfg, hex);
  }

  lemma SettingsRead(cfg: Config, hex: Hex)
    requires WellTyped(cfg) && HexKeys(cfg) == Ok(hex)
    ensures ReadSettings(Lines(cfg, hex)) == Some(SettingsOf(cfg))
  {
    HexKeysParts(cfg, hex);
    HexReads(cfg.privateKey, hex.private);
    HexReads(cfg.serverPublicKey, hex.public);
    KeysRead(cfg, hex);
    PresharedRead(cfg, hex);
    OptionsRead(cfg, hex);
    ObfuscationRead(cfg, hex);
  }

  lemma DigitsOneLine(s: string)
    requires AllDigits(s)
    ensures NEWLINE !in s
  {
  }

  lemma {:induction false} NumbersOneLine(numbers: seq<uint32>)
    ensures NewlineFree(NumberLines(numbers))
  {
    if numbers != [] {
      NumbersOneLine(numbers[..|numbers| - 1]);
      DigitsOneLine(Dec(numbers[|numbers| - 1]));
    }
  }

  ghost predicate AllOneLine(texts: seq<string>) {
    forall i :: 0 <= i < |texts| ==> NEWLINE !in texts[i]
  }

  lemma OneLineSnoc(texts: seq<string>)
    requires texts != []
    ensures AllOneLine(texts) <==> AllOneLine(texts[..|texts| - 1]) && NEWLINE !in texts[|texts| - 1]
  {
  }

  lemma OptionalOneLine(present: bool, l: Line)
    ensures NewlineFree(Optional(present, l)) <==> (present ==> NEWLINE !in l.value)
  {
    if present { assert [l][0] == l; }
  }

  lemma {:induction false} TemplatesOneLine(templates: seq<string>)
    ensures NewlineFree(TemplateLines(templates)) <==> AllOneLine(templates)
  {
    if templates != [] {
      var n := |templates| - 1;
      TemplatesOneLine(templates[..n]);
      OneLineSnoc(templates);
      OptionalOneLine(|templates[n]| > 0, Line(FIRST_TEMPLATE + n, templates[n]));
      NewlineFreeAppend(TemplateLines(templates[..n]), Optional(|templates[n]| > 0, Line(FIRST_TEMPLATE + n, templates[n])));
    }
  }

  lemma {:induction false} AllowedOneLine(ips: seq<string>)
    ensures NewlineFree(AllowedLines(ips)) <==> AllOneLine(ips)
  {
    if ips != [] {
      var n := |ips| - 1;
      AllowedOneLine(ips[..n]);
      OneLineSnoc(ips);
      OptionalOneLine(true, Line(ALLOWED, ips[n]));
      NewlineFreeAppend(AllowedLines(ips[..n]), Optional(true, Line(ALLOWED, ips[n])));
    }
  }

  lemma HexOneLine(b64: string)
    requires KeyHex(b64).Ok?
    ensures NEWLINE !in KeyHex(b64).value
  {
    KeyHexDenotes(b64, KeyHex(b64).value);
  }

  lemma InterfaceOneLine(cfg: Config, hex: Hex)
    requires NEWLINE !in hex.private
    ensures NewlineFree(InterfaceLines(cfg, hex)) <==> AllOneLine(cfg.obfuscation.templates)
  {
    var numbers, templates := NumberLines(cfg.obfuscation.numbers), TemplateLines(cfg.obfuscation.templates);
    NumbersOneLine(cfg.obfuscation.numbers);
    TemplatesOneLine(cfg.obfuscation.templates);
    NewlineFreeAppend([Line(PRIVATE, hex.private)], numbers);
    NewlineFreeAppend([Line(PRIVATE, hex.private)] + numbers, templates);
  }

  lemma PeerOneLine(cfg: Config, hex: Hex)
    requires cfg.presharedKey != "" ==> NEWLINE !in hex.preshared
    ensures NewlineFree(PeerLines(cfg, hex)) <==> NEWLINE !in cfg.endpoint && AllOneLine(cfg.allowedIps)
  {
    OptionsOneLine(cfg, hex);
    AllowedOneLine(AllowedOrDefault(cfg.allowedIps));
    NewlineFreeAppend(OptionLines(cfg, hex), AllowedLines(AllowedOrDefault(cfg.allowedIps)));
    DefaultsOneLine();
  }

  lemma DefaultsOneLine()
    ensures AllOneLine(AllowedOrDefault([]))
  {
  }

  lemma HexKeysOneLine(cfg: Config, hex: Hex)
    requires HexKeys(cfg) == Ok(hex)
    ensures NEWLINE !in hex.private && NEWLINE !in hex.public && (cfg.presharedKey != "" ==> NEWLINE !in hex.preshared)
  {
    HexKeysParts(cfg, hex);
    HexOneLine(cfg.privateKey);
    HexOneLine(cfg.serverPublicKey);
    if cfg.presharedKey != "" { HexOneLine(cfg.presharedKey); }
  }

  lemma LinesNewlineFree(cfg: Config, hex: Hex)
    requires WellTyped(cfg) && HexKeys(cfg) == Ok(hex)
    ensures NewlineFree(Lines(cfg, hex)) <==> OneLineEach(cfg)
  {
    HexKeysOneLine(cfg, hex);
    InterfaceOneLine(cfg, hex);
    PeerOneLine(cfg, hex);
    var iface, middle := InterfaceLines(cfg, hex), [Line(PUBLIC, hex.public)];
    NewlineFreeAppend(iface, middle);
    NewlineFreeAppend(iface + middle, PeerLines(cfg, hex));
  }

  lemma OptionsOneLine(cfg: Config, hex: Hex)
    requires cfg.presharedKey != "" ==> NEWLINE !in hex.preshared
    ensures NewlineFree(OptionLines(cfg, hex)) <==> NEWLINE !in cfg.endpoint
  {
    var x, y, z := Line(PRESHARED, hex.preshared), Line(ENDPOINT, cfg.endpoint), Line(KEEPALIVE, Dec(Interval(cfg)));
    var a, b, c := Optional(cfg.presharedKey != "", x), Optional(cfg.endpoint != "", y), Optional(cfg.keepalive > 0, z);
    DigitsOneLine(Dec(Interval(cfg)));
    OptionalOneLine(cfg.presharedKey != "", x);
    OptionalOneLine(cfg.endpoint != "", y);
    OptionalOneLine(cfg.keepalive > 0, z);
    NewlineFreeAppend(a, b);
    NewlineFreeAppend(a + b, c);
  }

  lemma NewlineFreeAppend(a: seq<Line>, b: seq<Line>)
    ensures NewlineFree(a + b) <==> NewlineFree(a) && NewlineFree(b)
  {
    assert (a + b)[..|a|] == a && (a + b)[|a|..] == b;
    if NewlineFree(a + b) {
      forall i | 0 <= i < |a| ensures NEWLINE !in a[i].value { assert (a + b)[i] == a[i]; }
      forall i | 0 <= i < |b| ensures NEWLINE !in b[i].value { assert (a + b)[|a| + i] == b[i]; }
    }
  }

  /** A configuration one of whose templates ends in a newline, all else being valid: its text does
      not split into the lines that were written. */
  lemma NewlineMisreads(key: Bytes)
    requires |key| == KEY_SIZE
    ensures var zeros: seq<uint32> := seq(NUMBERS, _ => 0);
            var cfg := Config(Encode(key), Encode(key), "", "h:1", [], 0, Obfuscation(zeros, ["<r 8>\n", "", "", "", ""]));
            WellTyped(cfg) && HexKeys(cfg).Ok? &&
            var lines := Lines(cfg, HexKeys(cfg).value);
            Known(lines) && Split(Printed(lines), NEWLINE) != RenderAll(lines) + [""]
  {
    var zeros: seq<uint32> := seq(NUMBERS, _ => 0);
    var cfg := Config(Encode(key), Encode(key), "", "h:1", [], 0, Obfuscation(zeros, ["<r 8>\n", "", "", "", ""]));
    KeyConverts(key);
    assert cfg.obfuscation.templates[0][5] == NEWLINE;
    ConfigReadsBack(cfg, HexKeys(cfg).value);
  }

  lemma KeyConverts(key: Bytes)
    requires |key| == KEY_SIZE
    ensures KeyHex(Encode(key)).Ok?
  {
    KeyHexRoundTrip(key, "", "");
    assert "" + Encode(key) + "" == Encode(key);
  }
}
