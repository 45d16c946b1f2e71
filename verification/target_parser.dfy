/**
 * The consul resolver's target parser: `host[:port]/name`, as accepted by the
 * regular expression `^([A-z0-9.]+)(:[0-9]{1,5})?/([A-z_]+)$`.
 *
 * The character class `A-z` is the ASCII range 65..122, which also holds the six
 * characters between 'Z' and 'a' (`[ \ ] ^ _` and the backtick). Service names
 * admit no digits. The port group keeps its leading ':', while the default port
 * carries none.
 */
module TargetParser {
  import opened Wrappers

  /** The port used when the target names none (a bare number, without ':'). */
  const DefaultPort: string := "8500"

  datatype ParseError =
    | MissingAddress   // the target is the empty string
    | AddressMismatch  // the target does not match the pattern

  /** The three capture groups, with the default port substituted for an absent group. */
  datatype Target = Target(host: string, port: string, name: string)

  /** The regex class `[A-z]`: every character from 'A' (65) to 'z' (122). */
  predicate IsAtoz(c: char) { 'A' <= c <= 'z' }

  predicate IsDigit(c: char) { '0' <= c <= '9' }

  /** The regex class `[A-z0-9.]`. */
  predicate IsHostChar(c: char) { IsAtoz(c) || IsDigit(c) || c == '.' }

  /** The regex class `[A-z_]` (the '_' is already inside `A-z`). */
  predicate IsNameChar(c: char) { IsAtoz(c) || c == '_' }

  /** Group 1: `[A-z0-9.]+`. */
  predicate ValidHost(h: string) {
    |h| >= 1 && forall i :: 0 <= i < |h| ==> IsHostChar(h[i])
  }

  /** Group 2: `(:[0-9]{1,5})?` — either absent or ':' followed by one to five digits. */
  predicate ValidPortGroup(p: string) {
    p == [] || (2 <= |p| <= 6 && p[0] == ':' && forall i :: 1 <= i < |p| ==> IsDigit(p[i]))
  }

  /** Group 3: `[A-z_]+`. */
  predicate ValidName(n: string) {
    |n| >= 1 && forall i :: 0 <= i < |n| ==> IsNameChar(n[i])
  }

  /** The whole of `t` matches the pattern with group 1 = t[..i], group 2 = t[i..j],
      the literal '/' at j and group 3 = t[j+1..]. */
  ghost predicate SplitsAt(t: string, i: int, j: int) {
    && 0 < i <= j < |t|
    && ValidHost(t[..i])
    && ValidPortGroup(t[i..j])
    && t[j] == '/'
    && ValidName(t[j+1..])
  }

  /** The declarative meaning of the regular expression: some split exists. */
  ghost predicate Matches(t: string) {
    exists i, j :: SplitsAt(t, i, j)
  }

  /** Length of the longest prefix of `s` made of host characters. */
  function HostPrefix(s: string): (n: nat)
    ensures n <= |s|
    ensures forall k :: 0 <= k < n ==> IsHostChar(s[k])
    ensures n < |s| ==> !IsHostChar(s[n])
  {
    if |s| == 0 || !IsHostChar(s[0]) then 0 else 1 + HostPrefix(s[1..])
  }

  /** Length of the longest prefix of `s` made of decimal digits. */
  function DigitPrefix(s: string): (n: nat)
    ensures n <= |s|
    ensures forall k :: 0 <= k < n ==> IsDigit(s[k])
    ensures n < |s| ==> !IsDigit(s[n])
  {
    if |s| == 0 || !IsDigit(s[0]) then 0 else 1 + DigitPrefix(s[1..])
  }

  /**
   * The recogniser: the empty target is reported before the pattern is tried,
   * then the host is the longest run of host characters, an optional ':' and
   * digits follow, then '/' and the name. An absent port group becomes
   * DefaultPort; a present one is returned with its ':'.
   */
  function ParseTarget(t: string): (r: Result<Target, ParseError>)
    ensures t == "" ==> r == Failure(MissingAddress)
    ensures r.Failure? ==> r.error == MissingAddress || r.error == AddressMismatch
    ensures r.Success? ==> ValidHost(r.value.host) && ValidName(r.value.name)
    ensures r.Success? ==> r.value.port == DefaultPort || (ValidPortGroup(r.value.port) && r.value.port != [])
  {
    if t == "" then Failure(MissingAddress)
    else
      var i := HostPrefix(t);
      if i == 0 || i == |t| then Failure(AddressMismatch)
      else if t[i] == ':' then
        var d := DigitPrefix(t[i+1..]);
        var j := i + 1 + d;
        if 1 <= d <= 5 && j < |t| && t[j] == '/' && ValidName(t[j+1..])
        then Success(Target(t[..i], t[i..j], t[j+1..]))
        else Failure(AddressMismatch)
      else if t[i] == '/' && ValidName(t[i+1..]) then Success(Target(t[..i], DefaultPort, t[i+1..]))
      else Failure(AddressMismatch)
  }

  /** The port group is the one the target carried, recovered from a parsed port. */
  function PortGroupOf(port: string): (r: string) {
    if port == DefaultPort then [] else port
  }

  // ---------------------------------------------------------------------------
  // Correctness of the recogniser against the declarative split
  // ---------------------------------------------------------------------------

  /** No split can put ':' or '/' inside the host, so every split uses the
      longest host prefix and the port group is determined by it. */
  lemma SplitIsUnique(t: string, i: int, j: int, i': int, j': int)
    requires SplitsAt(t, i, j) && SplitsAt(t, i', j')
    ensures i == i' && j == j'
  {
    SplitUsesHostPrefix(t, i, j);
    SplitUsesHostPrefix(t, i', j');
  }

  /** A split's host ends where the longest host prefix ends; its port group
      ends at the first '/' after it. */
  lemma SplitUsesHostPrefix(t: string, i: int, j: int)
    requires SplitsAt(t, i, j)
    ensures i == HostPrefix(t)
    ensures j == (if t[i] == ':' then i + 1 + DigitPrefix(t[i+1..]) else i)
  {
    assert i < j ==> t[i] == ':' by {
      if i < j { assert t[i..j][0] == t[i]; }
    }
    HostPrefixIsMaximalRun(t, i);
    if t[i] == ':' {
      DigitRunEndsAtSlash(t, i, j);
    }
  }

  /** Soundness: a successful parse is a split of the target, with the port group
      being the parsed port, or empty when the default was substituted. */
  lemma ParseTargetSound(t: string)
    requires ParseTarget(t).Success?
    ensures var p := ParseTarget(t).value;
      && SplitsAt(t, |p.host|, |p.host| + |PortGroupOf(p.port)|)
      && t == p.host + PortGroupOf(p.port) + "/" + p.name
  {
    var p := ParseTarget(t).value;
    var i := HostPrefix(t);
    assert t[..i] == p.host;
    if t[i] == ':' {
      var d := DigitPrefix(t[i+1..]);
      var j := i + 1 + d;
      assert PortGroupOf(p.port) == t[i..j];
      forall k | 1 <= k < j - i ensures IsDigit(t[i..j][k]) {
        assert t[i..j][k] == t[i+1..][k-1];
      }
      assert ValidPortGroup(t[i..j]);
      assert SplitsAt(t, i, j);
      assert t == t[..i] + t[i..j] + "/" + t[j+1..];
    } else {
      assert PortGroupOf(p.port) == [];
      assert t[i..i] == [];
      assert SplitsAt(t, i, i);
      assert t == t[..i] + [] + "/" + t[i+1..];
    }
  }

  /** Completeness: every non-empty target that splits is parsed, and the parse
      returns exactly the groups of the split. */
  lemma ParseTargetComplete(t: string, i: int, j: int)
    requires SplitsAt(t, i, j)
    ensures ParseTarget(t) == Success(Target(t[..i], if i == j then DefaultPort else t[i..j], t[j+1..]))
  {
    SplitUsesHostPrefix(t, i, j);
    assert t != "" && i != 0 && i != |t|;
    if t[i] == ':' {
      var d := DigitPrefix(t[i+1..]);
      assert d == j - i - 1 && 1 <= d <= 5;
      assert j < |t| && t[j] == '/' && ValidName(t[j+1..]);
      assert t[i..j] != [];
      assert ParseTarget(t) == Success(Target(t[..i], t[i..j], t[j+1..]));
    } else {
      assert i == j && t[i] == '/' && ValidName(t[i+1..]);
      assert ParseTarget(t) == Success(Target(t[..i], DefaultPort, t[i+1..]));
    }
  }

  /** The parser accepts a target exactly when it is non-empty and matches the
      pattern; every other target is refused with one of the two errors, the
      empty one always with MissingAddress. */
  lemma ParseTargetCharacterised(t: string)
    ensures ParseTarget(t).Success? <==> t != "" && Matches(t)
    ensures t != "" && !Matches(t) ==> ParseTarget(t) == Failure(AddressMismatch)
  {
    if ParseTarget(t).Success? {
      ParseTargetSound(t);
      var p := ParseTarget(t).value;
      assert SplitsAt(t, |p.host|, |p.host| + |PortGroupOf(p.port)|);
    }
    if t != "" && Matches(t) {
      var i, j :| SplitsAt(t, i, j);
      ParseTargetComplete(t, i, j);
    }
  }

  /** With an explicit port the three returned strings concatenate back to the
      target; with no port the default is reported instead. */
  lemma ParseTargetRoundTrip(t: string)
    requires ParseTarget(t).Success?
    ensures var p := ParseTarget(t).value;
      && (p.port == DefaultPort ==> t == p.host + "/" + p.name)
      && (p.port != DefaultPort ==> t == p.host + p.port + "/" + p.name && p.port[0] == ':')
  {
    ParseTargetSound(t);
  }

  /** Composing a target from valid groups and parsing it gives the groups back. */
  lemma ParseComposed(host: string, portGroup: string, name: string)
    requires ValidHost(host) && ValidPortGroup(portGroup) && ValidName(name)
    ensures ParseTarget(host + portGroup + "/" + name)
         == Success(Target(host, if portGroup == [] then DefaultPort else portGroup, name))
  {
    var t := host + portGroup + "/" + name;
    var i := |host|;
    var j := |host| + |portGroup|;
    assert t[..i] == host;
    assert t[i..j] == portGroup;
    assert t[j] == '/';
    assert t[j+1..] == name;
    assert SplitsAt(t, i, j);
    ParseTargetComplete(t, i, j);
  }

  /** A service name holding a character outside `[A-z_]` (any digit, say) is refused. */
  lemma NameWithForeignCharRejected(host: string, portGroup: string, name: string, k: int)
    requires ValidHost(host) && ValidPortGroup(portGroup)
    requires 0 <= k < |name| && !IsNameChar(name[k])
    ensures ParseTarget(host + portGroup + "/" + name) == Failure(AddressMismatch)
  {
    var t := host + portGroup + "/" + name;
    var i := |host|;
    var j := |host| + |portGroup|;
    assert t[..i] == host && t[i..j] == portGroup && t[j] == '/' && t[j+1..] == name;
    assert t[i] == '/' || t[i] == ':' by {
      if i < j { assert t[i] == portGroup[0]; }
    }
    HostPrefixIsMaximalRun(t, i);
    if portGroup != [] {
      DigitRunEndsAtSlash(t, i, j);
    }
    assert !ValidName(t[j+1..]);
  }

  /** A run of host characters ended by a non-host character is the longest host prefix. */
  lemma HostPrefixIsMaximalRun(t: string, i: int)
    requires 0 < i < |t| && ValidHost(t[..i]) && !IsHostChar(t[i])
    ensures HostPrefix(t) == i
  {
    forall k | 0 <= k < i ensures IsHostChar(t[k]) { assert t[..i][k] == t[k]; }
  }

  /** After a ':' at i, the digits of a valid port group stop at the '/' at j. */
  lemma DigitRunEndsAtSlash(t: string, i: int, j: int)
    requires 0 <= i < j < |t| && ValidPortGroup(t[i..j]) && t[i..j] != [] && t[j] == '/'
    ensures i + 1 + DigitPrefix(t[i+1..]) == j
  {
    var s := t[i+1..];
    forall k | 0 <= k < j - i - 1 ensures IsDigit(s[k]) { assert s[k] == t[i..j][k+1]; }
    assert s[j - i - 1] == '/';
  }
}
