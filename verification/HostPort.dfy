/** Joining and splitting "host:port" as Go's net package does, IPv6 brackets included. */
module HostPort {
  import opened Wrappers

  datatype AddrError = MissingPort | TooManyColons | MissingBracket | UnexpectedBracket | BadPort

  /** The first index of c in s, or |s| when it does not occur. */
  function First(s: string, c: char): (i: nat)
    ensures i <= |s| && (i < |s| ==> s[i] == c) && c !in s[..i]
    ensures i == |s| <==> c !in s
  {
    if s == "" || s[0] == c then 0
    else
      var i := 1 + First(s[1..], c);
      assert s[..i] == [s[0]] + s[1..][..i - 1];
      assert s == [s[0]] + s[1..];
      i
  }

  /** The last index of c in s, or |s| when it does not occur. */
  function Last(s: string, c: char): (i: nat)
    ensures i <= |s| && (i < |s| ==> s[i] == c && c !in s[i + 1..])
    ensures i == |s| <==> c !in s
  {
    if s == "" then 0
    else
      var i := Last(s[1..], c);
      assert s == [s[0]] + s[1..];
      if i < |s| - 1 then assert s[i + 2..] == s[1..][i + 1..]; i + 1
      else if s[0] == c then assert s[1..] == s[0 + 1..]; 0
      else |s|
  }

  function JoinHostPort(host: string, port: string): string {
    if ':' in host then "[" + host + "]:" + port else host + ":" + port
  }

  function SplitHostPort(s: string): Result<(string, string), AddrError> {
    var i := Last(s, ':');
    if i == |s| then Err(MissingPort)
    else if s[0] == '[' then
      var end := First(s, ']');
      if end == |s| then Err(MissingBracket)
      else if end + 1 == |s| then Err(MissingPort)
      else if end + 1 != i then Err(if s[end + 1] == ':' then TooManyColons else MissingPort)
      else if '[' in s[1..] || ']' in s[end + 1..] then Err(UnexpectedBracket)
      else Ok((s[1..end], s[i + 1..]))
    else if ':' in s[..i] then Err(TooManyColons)
    else if '[' in s || ']' in s then Err(UnexpectedBracket)
    else Ok((s[..i], s[i + 1..]))
  }

  predicate Bracketless(s: string) { '[' !in s && ']' !in s }

  lemma {:induction false} LastAfter(a: string, c: char, b: string)
    requires c !in b
    ensures Last(a + [c] + b, c) == |a|
  {
    var s := a + [c] + b;
    if a == "" {
      assert s[1..] == b;
    } else {
      assert s[1..] == a[1..] + [c] + b;
      LastAfter(a[1..], c, b);
    }
  }

  lemma {:induction false} FirstAfter(a: string, c: char, b: string)
    requires c !in a
    ensures First(a + [c] + b, c) == |a|
  {
    var s := a + [c] + b;
    if a != "" {
      assert s[1..] == a[1..] + [c] + b;
      FirstAfter(a[1..], c, b);
    }
  }

  lemma {:induction false} FirstInPart(a: string, c: char, b: string)
    requires c in a
    ensures First(a + b, c) < |a|
  {
    assert (a + b)[0] == a[0];
    if a[0] != c {
      assert (a + b)[1..] == a[1..] + b;
      assert a == [a[0]] + a[1..];
      FirstInPart(a[1..], c, b);
    }
  }

  /** A port text is digits only, as strconv.Itoa writes a non-negative number. */
  ghost predicate PlainPort(port: string) { ':' !in port && Bracketless(port) }

  lemma SplitPlain(host: string, port: string)
    requires ':' !in host && PlainPort(port)
    ensures var r := SplitHostPort(host + ":" + port);
            if Bracketless(host) then r == Ok((host, port)) else r != Ok((host, port))
  {
    var s := host + ":" + port;
    LastAfter(host, ':', port);
    assert s[..|host|] == host && s[|host| + 1..] == port;
    assert s == host + [':'] + port;
    if s[0] == '[' {
      assert host != "" && host[0] == '[' by { assert s[0] == if host == "" then ':' else host[0]; }
      var end := First(s, ']');
      if end + 1 == |host| {
        assert |s[1..end]| < |host|;
      }
    } else if !Bracketless(host) {
      var c := if '[' in host then '[' else ']';
      assert c in s;
    }
  }

  lemma BracketedColon(host: string, port: string, s: string)
    requires ':' !in port && s == "[" + host + "]:" + port
    ensures Last(s, ':') == |host| + 2 && |s| == |host| + 3 + |port| && s[0] == '['
    ensures s[|host| + 3..] == port && s[|host| + 2..] == ":" + port
  {
    assert s == ("[" + host + "]") + [':'] + port;
    LastAfter("[" + host + "]", ':', port);
  }

  lemma BracketedEnd(host: string, port: string, s: string)
    requires s == "[" + host + "]:" + port
    ensures if ']' in host then First(s, ']') < |host| + 1 else First(s, ']') == |host| + 1
  {
    if ']' in host {
      assert s == ("[" + host) + ("]:" + port);
      FirstInPart("[" + host, ']', "]:" + port);
    } else {
      assert s == ("[" + host) + [']'] + (":" + port);
      FirstAfter("[" + host, ']', ":" + port);
    }
  }

  lemma BracketedParts(host: string, port: string, s: string)
    requires PlainPort(port) && ']' !in host && s == "[" + host + "]:" + port
    ensures s[1..|host| + 1] == host && ('[' in s[1..] <==> '[' in host)
  {
  }

  lemma SplitBracketedPlain(host: string, port: string)
    requires PlainPort(port) && ']' !in host
    ensures var r := SplitHostPort("[" + host + "]:" + port);
            if '[' !in host then r == Ok((host, port)) else r.Err?
  {
    var s := "[" + host + "]:" + port;
    BracketedColon(host, port, s);
    BracketedEnd(host, port, s);
    BracketedParts(host, port, s);
  }

  lemma SplitBracketedInner(host: string, port: string)
    requires PlainPort(port) && ']' in host
    ensures SplitHostPort("[" + host + "]:" + port).Err?
  {
    var s := "[" + host + "]:" + port;
    BracketedColon(host, port, s);
    BracketedEnd(host, port, s);
  }

  /** Splitting undoes joining exactly on the hosts that hold no bracket, IPv6 literals included. */
  lemma SplitJoin(host: string, port: string)
    requires PlainPort(port)
    ensures SplitHostPort(JoinHostPort(host, port)) == Ok((host, port)) <==> Bracketless(host)
  {
    if ':' in host {
      if ']' in host {
        SplitBracketedInner(host, port);
      } else {
        SplitBracketedPlain(host, port);
      }
    } else {
      SplitPlain(host, port);
    }
  }

  /** A host without a colon is joined plainly, one with a colon in brackets. */
  lemma JoinIs(host: string, port: string)
    ensures ':' !in host ==> JoinHostPort(host, port) == host + ":" + port
    ensures ':' in host ==> JoinHostPort(host, port) == "[" + host + "]:" + port
  {
  }

  lemma SplitShape(s: string)
    requires SplitHostPort(s).Ok?
    ensures var (host, port) := SplitHostPort(s).value;
            && PlainPort(port) && Bracketless(host)
            && (s == "[" + host + "]:" + port || (':' !in host && s == host + ":" + port))
  {
    var i := Last(s, ':');
    var (host, port) := SplitHostPort(s).value;
    assert s == s[..i] + [s[i]] + s[i + 1..];
    if s[0] == '[' {
      var end := First(s, ']');
      assert s == [s[0]] + s[1..end] + [s[end]] + [s[i]] + s[i + 1..];
      assert s[1..end] == s[1..][..end - 1] && s[1..end] == s[..end][1..];
      assert s[i + 1..] == s[1..][i..] && s[i + 1..] == s[end + 1..][1..];
    }
  }

  /** Splitting succeeds on exactly the texts "host:port" with no further colon in the host and
      "[host]:port", neither part holding a bracket and the port no colon; everything else is an
      error. */
  lemma SplitExactly(s: string, host: string, port: string)
    ensures SplitHostPort(s) == Ok((host, port)) <==>
            && ':' !in port && Bracketless(port) && Bracketless(host)
            && (s == "[" + host + "]:" + port || (':' !in host && s == host + ":" + port))
  {
    if SplitHostPort(s) == Ok((host, port)) {
      SplitShape(s);
    } else if PlainPort(port) && Bracketless(host) {
      SplitBracketedPlain(host, port);
      if ':' !in host { SplitPlain(host, port); }
    }
  }
}
