/** File names in the profile store: sanitized bundle names and the sidecar files beside each
    bundle. */
module StoreNames {
  import opened Text

  const PROFILE: string := ".pharos"
  const SYNCED: string := ".synced"
  const DISABLED: string := ".disabled"
  const IDENTITY: string := ".pharosid"

  /** The files a bundle may have beside each other. */
  const SIDECARS: set<string> := {PROFILE, SYNCED, DISABLED, IDENTITY}

  // ----- sanitizing

  function SafeChar(c: char): char {
    if c == '/' || c == '\\' || c == ':' || c == ' ' then '-' else c
  }

  function SafeChars(s: string): (r: string)
    ensures |r| == |s| && forall i :: 0 <= i < |s| ==> r[i] == SafeChar(s[i])
  {
    if s == "" then "" else [SafeChar(s[0])] + SafeChars(s[1..])
  }

  function SanitizeName(s: string): string {
    var t := SafeChars(TrimSpace(s));
    if t == "" then "profile" else t
  }

  /** A sanitized name is never empty, holds no path separator, colon or blank, and is left alone by
      sanitizing again. */
  lemma SanitizedName(s: string)
    ensures var r := SanitizeName(s);
            && r != "" && '/' !in r && '\\' !in r && ':' !in r && ' ' !in r
            && SanitizeName(r) == r
  {
    TrimSpaceTrimmed(s);
    var t := TrimSpace(s);
    if t == "" {
      SafeProfile();
      SafeFixed("profile");
    } else {
      SafeTrimmed(t);
      SafeFixed(SafeChars(t));
    }
  }

  /** Sanitizing trims, then replaces exactly the separators, the colon and the blank by a dash, one for
      one; a name of which nothing is left becomes "profile". */
  lemma SanitizedExactly(s: string)
    ensures var t, r := TrimSpace(s), SanitizeName(s);
            if t == "" then r == "profile"
            else |r| == |t| && forall i :: 0 <= i < |t| ==>
                   r[i] == if t[i] == '/' || t[i] == '\\' || t[i] == ':' || t[i] == ' ' then '-' else t[i]
  {
  }

  lemma SafeFixed(r: string)
    requires r != "" && Trimmed(r) && forall i :: 0 <= i < |r| ==> SafeChar(r[i]) == r[i]
    ensures SanitizeName(r) == r
  {
  }

  lemma SafeTrimmed(t: string)
    requires t != "" && Trimmed(t)
    ensures var r := SafeChars(t);
            && r != "" && Trimmed(r)
            && '/' !in r && '\\' !in r && ':' !in r && ' ' !in r
            && forall i :: 0 <= i < |r| ==> SafeChar(r[i]) == r[i]
  {
  }

  lemma SafeProfile()
    ensures var r := "profile";
            && Trimmed(r) && '/' !in r && '\\' !in r && ':' !in r && ' ' !in r
            && forall i :: 0 <= i < |r| ==> SafeChar(r[i]) == r[i]
  {
  }

  // ----- paths

  /** filepath.Base. */
  function BaseName(path: string): string {
    if path == "" then "."
    else
      var t := StripSlashes(path);
      if t == "" then "/" else LastElement(t)
  }

  function StripSlashes(s: string): string {
    if s != "" && s[|s| - 1] == '/' then StripSlashes(s[..|s| - 1]) else s
  }

  function LastElement(s: string): string {
    if s == "" || s[|s| - 1] == '/' then "" else LastElement(s[..|s| - 1]) + [s[|s| - 1]]
  }

  lemma {:induction false} LastElementPlain(s: string)
    requires '/' !in s
    ensures LastElement(s) == s
  {
    if s != "" {
      LastElementPlain(s[..|s| - 1]);
      assert s == s[..|s| - 1] + [s[|s| - 1]];
    }
  }

  lemma BaseNamePlain(name: string)
    requires name != "" && '/' !in name
    ensures BaseName(name) == name
  {
    assert name[|name| - 1] in name;
    LastElementPlain(name);
  }

  lemma {:induction false} StripTrailing(s: string, slashes: string)
    requires s != "" && s[|s| - 1] != '/' && forall i :: 0 <= i < |slashes| ==> slashes[i] == '/'
    ensures StripSlashes(s + slashes) == s
  {
    if slashes == "" {
      assert s + slashes == s;
    } else {
      var n := |slashes| - 1;
      assert (s + slashes)[..|s + slashes| - 1] == s + slashes[..n];
      StripTrailing(s, slashes[..n]);
    }
  }

  lemma {:induction false} LastElementAfter(dir: string, name: string)
    requires '/' !in name
    ensures LastElement(dir + "/" + name) == name
  {
    var s := dir + "/" + name;
    if name != "" {
      var n := |name| - 1;
      assert s[..|s| - 1] == dir + "/" + name[..n];
      LastElementAfter(dir, name[..n]);
      assert name == name[..n] + [name[n]];
    }
  }

  /** The base name of a path is its last element, trailing separators apart; that of an empty path is
      a dot. */
  lemma BaseNameIs(dir: string, name: string, slashes: string)
    requires name != "" && '/' !in name && forall i :: 0 <= i < |slashes| ==> slashes[i] == '/'
    ensures BaseName(dir + "/" + name + slashes) == name && BaseName(name + slashes) == name
    ensures BaseName("") == "."
  {
    assert name[|name| - 1] in name;
    StripTrailing(dir + "/" + name, slashes);
    StripTrailing(name, slashes);
    LastElementAfter(dir, name);
    LastElementPlain(name);
  }

  /** A profile file, wherever it lies, is imported under its sanitized name without the extension. */
  lemma ImportNameIs(dir: string, b: string)
    requires '/' !in b
    ensures ImportName(dir + "/" + b + ".pharos") == SanitizeName(b)
  {
    var name := b + ".pharos";
    BaseNameIs(dir, name, "");
    assert dir + "/" + name + "" == dir + "/" + b + ".pharos";
    SuffixCut(b, PROFILE);
  }

  /** The alias names a synced bundle; without one the email does, and without either "account". */
  lemma SyncNameIs(alias: string, email: string)
    ensures alias != "" ==> SyncName(alias, email) == SanitizeName(alias)
    ensures alias == "" && email != "" ==> SyncName(alias, email) == SanitizeName(email)
    ensures SyncName("", "") == SanitizeName("account")
  {
  }

  /** The profile file of a plain name. */
  lemma ProfilePathIs(b: string)
    requires b != "" && '/' !in b
    ensures ProfilePath(b + ".pharos") == b + ".pharos"
    ensures !HasSuffix(b, ".pharos") ==> ProfilePath(b) == b + ".pharos"
  {
    BaseNamePlain(b);
    BaseNamePlain(b + ".pharos");
    SuffixCut(b, PROFILE);
  }

  /** Store.path: the profile file of a name, whose own ".pharos" is not doubled. */
  function ProfilePath(name: string): string {
    TrimSuffix(BaseName(name), PROFILE) + PROFILE
  }

  function FirstNonEmpty(a: string, b: string, c: string): string {
    if a != "" then a else if b != "" then b else c
  }

  /** The name ImportBundle stores a file under. */
  function ImportName(path: string): string {
    SanitizeName(TrimSuffix(BaseName(path), PROFILE))
  }

  /** The name a synced bundle is stored under. */
  function SyncName(alias: string, email: string): string {
    SanitizeName(FirstNonEmpty(alias, email, "account"))
  }

  // ----- recovering base and suffix

  /** A sidecar file name belongs to one bundle in one role. */
  lemma SidecarUnique(b1: string, s1: string, b2: string, s2: string)
    requires s1 in SIDECARS && s2 in SIDECARS && b1 + s1 == b2 + s2
    ensures b1 == b2 && s1 == s2
  {
    var f, g := b1 + s1, b2 + s2;
    assert s1[|s1| - 1] == f[|f| - 1] && s2[|s2| - 1] == g[|g| - 1];
    assert s1[|s1| - 2] == f[|f| - 2] && s2[|s2| - 2] == g[|g| - 2];
    assert s1[|s1| - 3] == f[|f| - 3] && s2[|s2| - 3] == g[|g| - 3];
    assert s1 == s2;
    assert f[..|f| - |s1|] == b1 && g[..|g| - |s2|] == b2;
  }

  lemma SuffixIs(base: string, s: string, suffix: string)
    requires s in SIDECARS && suffix in SIDECARS
    ensures HasSuffix(base + s, suffix) <==> s == suffix
  {
    SuffixCut(base, s);
    if HasSuffix(base + s, suffix) {
      var f := base + s;
      var b := f[..|f| - |suffix|];
      assert f == b + suffix;
      SidecarUnique(base, s, b, suffix);
    }
  }
}
