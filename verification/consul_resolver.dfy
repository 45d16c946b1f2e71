/**
 * The consul resolver: building a resolver from a gRPC target, and one
 * iteration of the watcher loop that turns a blocking health query's answer
 * into the next long-poll index and the list of instance addresses.
 *
 * The HTTP client, the goroutine and the infinite loop are not modelled: the
 * query's answer and the outcome of `serviceconfig.Parse` are inputs.
 */
module ConsulResolver {
  import opened Wrappers
  import opened TargetParser

  /** Go's `uint64`, the type of the long-poll index. */
  type u64 = x: int | 0 <= x < 0x1_0000_0000_0000_0000

  /** The pure state of a `consulResolver` (the client connection and wait group are left out). */
  datatype Resolver = Resolver(address: string, name: string, disableServiceConfig: bool, lastIndex: u64)

  // ---------------------------------------------------------------------------
  // Build
  // ---------------------------------------------------------------------------

  /**
   * `consulBuilder.Build`: parse `Authority + "/" + Endpoint`; on failure return
   * that error and no resolver; on success the registry address is host and
   * port pasted together with no separator, and the long-poll index starts at 0.
   */
  function Build(authority: string, endpoint: string, disableServiceConfig: bool): (r: Result<Resolver, ParseError>)
    ensures var p := ParseTarget(authority + "/" + endpoint);
      && (p.Failure? <==> r.Failure?)
      && (p.Failure? ==> r.error == p.error)
      && (p.Success? ==> r.value == Resolver(p.value.host + p.value.port, p.value.name, disableServiceConfig, 0))
  {
    match ParseTarget(authority + "/" + endpoint)
    case Failure(e) => Failure(e)
    case Success(t) => Success(Resolver(t.host + t.port, t.name, disableServiceConfig, 0))
  }

  /** The authority part `host[:port]` of a target, as the pattern accepts it. */
  ghost predicate ValidAuthority(a: string) {
    exists i :: 0 < i <= |a| && ValidHost(a[..i]) && ValidPortGroup(a[i..])
  }

  /** The composed target always holds a '/', so Build never reports a missing
      address: an empty authority and endpoint give the mismatch error. */
  lemma BuildNeverMissingAddress(authority: string, endpoint: string, disableServiceConfig: bool)
    ensures Build(authority, endpoint, disableServiceConfig) != Failure(MissingAddress)
  {
    assert authority + "/" + endpoint != "";
  }

  /** Build succeeds exactly when the authority is `host[:port]` and the endpoint
      is a valid service name. */
  lemma BuildSucceedsIff(authority: string, endpoint: string, disableServiceConfig: bool)
    ensures Build(authority, endpoint, disableServiceConfig).Success?
        <==> ValidAuthority(authority) && ValidName(endpoint)
  {
    if ParseTarget(authority + "/" + endpoint).Success? {
      AuthorityOfMatch(authority, endpoint);
    }
    if ValidAuthority(authority) && ValidName(endpoint) {
      var i :| 0 < i <= |authority| && ValidHost(authority[..i]) && ValidPortGroup(authority[i..]);
      assert authority == authority[..i] + authority[i..];
      ParseComposed(authority[..i], authority[i..], endpoint);
    }
  }

  /** A composed target that parses splits at the '/' Build inserted. */
  lemma AuthorityOfMatch(authority: string, endpoint: string)
    requires ParseTarget(authority + "/" + endpoint).Success?
    ensures ValidAuthority(authority) && ValidName(endpoint)
  {
    var t := authority + "/" + endpoint;
    var m := |authority|;
    ComposedPieces(authority, endpoint);
    ParseTargetSound(t);
    var p := ParseTarget(t).value;
    var i := |p.host|;
    var j := |p.host| + |PortGroupOf(p.port)|;
    assert SplitsAt(t, i, j);
    SlashOfSplit(t, i, j, m);
    assert authority[..i] == t[..i] && authority[i..] == t[i..m];
  }

  /** The pieces of `authority + "/" + endpoint`. */
  lemma ComposedPieces(authority: string, endpoint: string)
    ensures var t := authority + "/" + endpoint;
      && |t| == |authority| + 1 + |endpoint|
      && t[..|authority|] == authority && t[|authority|] == '/' && t[|authority|+1..] == endpoint
  {
  }

  /** The only '/' of a matching target is the one between port group and name. */
  lemma SlashOfSplit(t: string, i: int, j: int, m: int)
    requires SplitsAt(t, i, j) && 0 <= m < |t| && t[m] == '/'
    ensures m == j
  {
    forall k | 0 <= k < j ensures t[k] != '/' {
      if k < i { assert t[..i][k] == t[k]; } else { assert t[i..j][k - i] == t[k]; }
    }
    forall k | j < k < |t| ensures t[k] != '/' { assert t[j+1..][k - j - 1] == t[k]; }
  }

  /** With an explicit port the registry address is the authority itself, `host:port`. */
  lemma BuildExplicitPort(host: string, portGroup: string, endpoint: string, disableServiceConfig: bool)
    requires ValidHost(host) && ValidPortGroup(portGroup) && portGroup != [] && ValidName(endpoint)
    ensures Build(host + portGroup, endpoint, disableServiceConfig)
         == Success(Resolver(host + portGroup, endpoint, disableServiceConfig, 0))
  {
    ParseComposed(host, portGroup, endpoint);
  }

  /** Without a port the default is pasted on with no ':' — host `h` yields the
      registry address `h8500`. */
  lemma BuildDefaultPort(host: string, endpoint: string, disableServiceConfig: bool)
    requires ValidHost(host) && ValidName(endpoint)
    ensures Build(host, endpoint, disableServiceConfig)
         == Success(Resolver(host + "8500", endpoint, disableServiceConfig, 0))
  {
    assert host + [] == host;
    ParseComposed(host, [], endpoint);
  }

  // ---------------------------------------------------------------------------
  // Address formatting: fmt.Sprintf("%v:%v", address, port)
  // ---------------------------------------------------------------------------

  function DigitChar(d: nat): (c: char)
    requires d < 10
    ensures IsDigit(c) && c as int - '0' as int == d
  {
    ('0' as int + d) as char
  }

  /** Go's `%v` of a non-negative `int`: decimal digits, no leading zeros. */
  function FormatNat(n: nat): (s: string)
    ensures |s| >= 1 && (s[0] == '0' ==> s == "0")
    ensures forall k :: 0 <= k < |s| ==> IsDigit(s[k])
  {
    if n < 10 then [DigitChar(n)] else FormatNat(n / 10) + [DigitChar(n % 10)]
  }

  /** Go's `%v` of an `int`: a '-' in front of a negative number. */
  function FormatInt(n: int): (s: string)
    ensures forall k :: 0 <= k < |s| ==> s[k] != ':'
  {
    if n < 0 then "-" + FormatNat(-n) else FormatNat(n)
  }

  predicate AllDigits(s: string) {
    forall k :: 0 <= k < |s| ==> IsDigit(s[k])
  }

  /** Reading a string of decimal digits back as a number. */
  function ParseNat(s: string): (r: nat)
    requires AllDigits(s)
  {
    if s == [] then 0 else ParseNat(s[..|s|-1]) * 10 + (s[|s|-1] as int - '0' as int)
  }

  /** Reading an optionally negative decimal back as an `int`. */
  function ParseInt(s: string): (r: Option<int>) {
    if |s| >= 2 && s[0] == '-' && AllDigits(s[1..]) then Some(0 - ParseNat(s[1..]) as int)
    else if |s| >= 1 && AllDigits(s) then Some(ParseNat(s))
    else None
  }

  lemma {:induction false} ParseFormatNat(n: nat)
    ensures ParseNat(FormatNat(n)) == n
  {
    if n >= 10 {
      var s := FormatNat(n);
      assert s[..|s|-1] == FormatNat(n / 10);
      ParseFormatNat(n / 10);
    }
  }

  /** The decimal printing of a port reads back as the same port. */
  lemma ParseFormatInt(n: int)
    ensures ParseInt(FormatInt(n)) == Some(n)
  {
    if n < 0 {
      assert FormatInt(n)[1..] == FormatNat(-n);
      ParseFormatNat(-n);
    } else {
      ParseFormatNat(n);
    }
  }

  /** One instance as reported by the registry's health query. */
  datatype ServiceEntry = ServiceEntry(address: string, port: int)

  /** `address:port` for one instance. */
  function FormatAddress(e: ServiceEntry): (r: string) {
    e.address + ":" + FormatInt(e.port)
  }

  /** Index of the last ':' in `s`, if any. */
  function LastColon(s: string): (r: Option<nat>)
    ensures r.Some? ==> r.value < |s| && s[r.value] == ':'
    ensures r.Some? ==> forall k :: r.value < k < |s| ==> s[k] != ':'
    ensures r.None? ==> forall k :: 0 <= k < |s| ==> s[k] != ':'
  {
    if s == [] then None
    else if s[|s|-1] == ':' then Some(|s| - 1)
    else LastColon(s[..|s|-1])
  }

  /** Splits `address:port` at its last ':' (the address itself may hold colons). */
  function SplitAddress(a: string): (r: Option<(string, int)>) {
    match LastColon(a)
    case None => None
    case Some(k) =>
      match ParseInt(a[k+1..])
      case None => None
      case Some(p) => Some((a[..k], p))
  }

  /** Every formatted address splits back into the instance's address and port. */
  lemma AddressRoundTrip(e: ServiceEntry)
    ensures SplitAddress(FormatAddress(e)) == Some((e.address, e.port))
  {
    var s := FormatAddress(e);
    var k := |e.address|;
    assert s[k] == ':';
    assert forall m :: k < m < |s| ==> s[m] != ':' by {
      forall m | k < m < |s| ensures s[m] != ':' { assert s[m] == FormatInt(e.port)[m - k - 1]; }
    }
    assert LastColon(s) == Some(k);
    assert s[k+1..] == FormatInt(e.port);
    assert s[..k] == e.address;
    ParseFormatInt(e.port);
  }

  /** The address list of one watcher iteration: one entry per instance, in the
      registry's order, each splitting back into that instance. */
  function Addresses(entries: seq<ServiceEntry>): (r: seq<string>) {
    seq(|entries|, k requires 0 <= k < |entries| => FormatAddress(entries[k]))
  }

  /** Exactly one address per instance, in the registry's order, each splitting
      back into that instance's address and port. */
  lemma AddressesDecode(entries: seq<ServiceEntry>)
    ensures |Addresses(entries)| == |entries|
    ensures forall k :: 0 <= k < |entries| ==>
      SplitAddress(Addresses(entries)[k]) == Some((entries[k].address, entries[k].port))
  {
    forall k | 0 <= k < |entries|
      ensures SplitAddress(Addresses(entries)[k]) == Some((entries[k].address, entries[k].port))
    {
      AddressRoundTrip(entries[k]);
    }
  }

  /** No sorting and no de-duplication: the list of a concatenation is the
      concatenation of the lists. */
  lemma AddressesAppend(a: seq<ServiceEntry>, b: seq<ServiceEntry>)
    ensures Addresses(a + b) == Addresses(a) + Addresses(b)
  {
    forall k | 0 <= k < |a| + |b| ensures Addresses(a + b)[k] == (Addresses(a) + Addresses(b))[k] {
      if k < |a| { assert (a + b)[k] == a[k]; } else { assert (a + b)[k] == b[k - |a|]; }
    }
  }

  // ---------------------------------------------------------------------------
  // One watcher iteration
  // ---------------------------------------------------------------------------

  /** The query metadata; consul's client returns none alongside an error. */
  datatype QueryMeta = QueryMeta(lastIndex: u64)

  /** The three results of `client.Health().Service(...)`. */
  datatype QueryResponse = QueryResponse(services: seq<ServiceEntry>, meta: Option<QueryMeta>, err: Option<string>)

  /** Why the watcher goroutine would crash. */
  datatype Panic =
    | NilQueryMeta      // reading LastIndex through a nil *QueryMeta
    | NilErrorMessage   // calling Error() on a nil error

  /** The outcome of one iteration: a crash, or the next state together with the
      address list pushed to the client connection, if any. */
  datatype Step = Panicked(cause: Panic) | Continued(resolver: Resolver, update: Option<seq<string>>)

  /**
   * One iteration exactly as written: the query error is only logged, the index
   * is read from the metadata unconditionally, and the state is pushed only
   * when `serviceconfig.Parse` FAILED; when it succeeded the else branch logs
   * the message of a nil error. `configParsed` is the outcome of
   * `serviceconfig.Parse(cr.name)`; the name never changes, so it is the same
   * on every iteration of one watcher.
   */
  function WatchStepAsWritten(r: Resolver, q: QueryResponse, configParsed: bool): (s: Step)
    ensures q.meta.None? ==> s == Panicked(NilQueryMeta)
    ensures q.meta.Some? && configParsed ==> s == Panicked(NilErrorMessage)
    ensures s.Continued? ==>
      && s.resolver == r.(lastIndex := q.meta.value.lastIndex)
      && s.update == Some(Addresses(q.services))
  {
    if q.meta.None? then Panicked(NilQueryMeta)
    else
      var r' := r.(lastIndex := q.meta.value.lastIndex);
      var addrs := Addresses(q.services);
      if !configParsed then Continued(r', Some(addrs))
      else Panicked(NilErrorMessage)
  }

  /** As written, the index is taken even from an answer that carries an error,
      and it may move backwards: nothing checks it against the previous one. */
  lemma AsWrittenIndexUnchecked(r: Resolver, services: seq<ServiceEntry>, idx: u64, e: string)
    requires idx < r.lastIndex
    ensures WatchStepAsWritten(r, QueryResponse(services, Some(QueryMeta(idx)), Some(e)), false)
         == Continued(r.(lastIndex := idx), Some(Addresses(services)))
  {
  }

  /** As written, a failed query (consul returns nil metadata with the error)
      crashes the watcher instead of being retried. */
  lemma AsWrittenQueryErrorPanics(r: Resolver, e: string, configParsed: bool)
    ensures WatchStepAsWritten(r, QueryResponse([], None, Some(e)), configParsed) == Panicked(NilQueryMeta)
  {
  }

  /** As written, a service configuration that parses crashes the watcher. */
  lemma AsWrittenParsedConfigPanics(r: Resolver, services: seq<ServiceEntry>, idx: u64)
    ensures WatchStepAsWritten(r, QueryResponse(services, Some(QueryMeta(idx)), None), true) == Panicked(NilErrorMessage)
  {
  }

  /** A query answer the watcher may use: no error and metadata present. */
  predicate Answered(q: QueryResponse) {
    q.err.None? && q.meta.Some?
  }

  /**
   * One iteration as intended: a failed query is logged and retried with the
   * same index; an answered one replaces the index and pushes the address list.
   * Whether the service configuration parses only decides which configuration
   * accompanies the push and whether an error is logged.
   */
  function WatchStep(r: Resolver, q: QueryResponse): (s: Step)
    ensures s.Continued?
    ensures s.resolver.address == r.address && s.resolver.name == r.name
    ensures s.resolver.disableServiceConfig == r.disableServiceConfig
    ensures !Answered(q) ==> s.resolver == r && s.update.None?
    ensures Answered(q) ==> s.resolver.lastIndex == q.meta.value.lastIndex
    ensures s.update.Some? <==> Answered(q)
    ensures s.update.Some? ==> s.update.value == Addresses(q.services)
  {
    if !Answered(q) then Continued(r, None)
    else Continued(r.(lastIndex := q.meta.value.lastIndex), Some(Addresses(q.services)))
  }

  /** On an answered query the iteration as written survives exactly when the
      configuration does not parse, and then it does what the intended one does. */
  lemma WatchStepAgrees(r: Resolver, q: QueryResponse, configParsed: bool)
    requires Answered(q)
    ensures WatchStepAsWritten(r, q, configParsed).Continued? <==> !configParsed
    ensures !configParsed ==> WatchStepAsWritten(r, q, configParsed) == WatchStep(r, q)
  {
  }

  /** A finite prefix of the watcher loop: the final state and the address
      lists pushed, in order. */
  function Run(r: Resolver, responses: seq<QueryResponse>): (out: (Resolver, seq<seq<string>>))
    ensures out.0.address == r.address && out.0.name == r.name
    ensures |out.1| <= |responses|
    decreases |responses|
  {
    if responses == [] then (r, [])
    else
      var s := WatchStep(r, responses[0]);
      var rest := Run(s.resolver, responses[1..]);
      (rest.0, (if s.update.Some? then [s.update.value] else []) + rest.1)
  }

  /** Failed queries neither move the index nor push anything: a run that starts
      with failures ends as the run without them. */
  lemma {:induction false} RunSkipsFailures(r: Resolver, failures: seq<QueryResponse>, rest: seq<QueryResponse>)
    requires forall k :: 0 <= k < |failures| ==> !Answered(failures[k])
    ensures Run(r, failures + rest) == Run(r, rest)
    decreases |failures|
  {
    if failures != [] {
      assert !Answered(failures[0]);
      var all := failures + rest;
      assert all[0] == failures[0];
      assert all[1..] == failures[1..] + rest;
      assert WatchStep(r, all[0]) == Continued(r, None);
      var tail := Run(r, all[1..]);
      assert Run(r, all) == (tail.0, [] + tail.1);
      assert [] + tail.1 == tail.1;
      RunSkipsFailures(r, failures[1..], rest);
    } else {
      assert failures + rest == rest;
    }
  }

  /** Answered queries push one address list each, in the order received, and
      the index ends at the last answer's index. */
  lemma {:induction false} RunPushesInOrder(r: Resolver, responses: seq<QueryResponse>)
    requires forall k :: 0 <= k < |responses| ==> Answered(responses[k])
    ensures |Run(r, responses).1| == |responses|
    ensures forall k :: 0 <= k < |responses| ==> Run(r, responses).1[k] == Addresses(responses[k].services)
    ensures |responses| > 0 ==> var last := responses[|responses|-1];
      last.meta.Some? && Run(r, responses).0.lastIndex == last.meta.value.lastIndex
    ensures |responses| == 0 ==> Run(r, responses).0 == r
    decreases |responses|
  {
    if responses != [] {
      var s := WatchStep(r, responses[0]);
      RunPushesInOrder(s.resolver, responses[1..]);
      var out := Run(r, responses);
      assert out.1 == [Addresses(responses[0].services)] + Run(s.resolver, responses[1..]).1;
      forall k | 0 <= k < |responses| ensures out.1[k] == Addresses(responses[k].services) {
        if k > 0 { assert responses[1..][k-1] == responses[k]; }
      }
    }
  }
}
