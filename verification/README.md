# Consul resolver and tracing interceptors, modelled in Dafny

This project models the two pieces of pure logic in a gRPC example repository:

* the **consul name resolver** (`grpc-opentracing/client/internel/consul/consul_resolver.go`):
  the target parser `parseTarget` with its regular expression
  `^([A-z0-9.]+)(:[0-9]{1,5})?/([A-z_]+)$`, the pure part of
  `consulBuilder.Build`, and one iteration of the `watcher` loop (query answer
  and long-poll index in, next index and address list out);
* the **metadata text-map carrier and the tracing interceptors**
  (`grpc-tracing-intercepter/intercepter.go`): `MDCarrier.Set` and
  `MDCarrier.ForeachKey` over a key → list-of-values map, and the control flow
  of `ClientInterceptor` and `ServerInterceptor` around an abstract tracer.

Files and modules:

| file | module | contents |
|---|---|---|
| `wrappers.dfy` | `Wrappers` | `Option`, `Result` |
| `target_parser.dfy` | `TargetParser` | character classes, the declarative split (`SplitsAt`, `Matches`), the recogniser `ParseTarget` and its correctness lemmas |
| `consul_resolver.dfy` | `ConsulResolver` | `Build`, decimal address formatting and its inverse, the watcher step as written and as intended, finite runs of the intended step |
| `metadata_carrier.dfy` | `MetadataCarrier` | `Set`, repeated `Set`, the enumeration order `Pairs`, `ForeachKey` as a method with loops |
| `interceptors.dfy` | `Interceptors` | abstract `Tracer`, the client and server interceptors as event traces, client-to-server propagation |

Modelling choices:

* The parser is a hand-written recogniser over `seq<char>`. It is proved equal to
  the declarative meaning of the regular expression: a target matches iff it
  splits as `host + portGroup + "/" + name`. `A-z` is the range 65..122, so
  ``[ \ ] ^ _ ` `` are legal host and name characters, and names admit no digits.
  The split is unique. Go's `$` (without the `m` flag) anchors at the end of the text.
* The parser keeps the port group's leading `':'`. The default port is `"8500"`
  with no colon, and `Build` pastes host and port together, so a target without
  a port yields the registry address `host8500`. The model reproduces this.
* The consul query's three results (services, metadata, error) are inputs of
  the watcher step. The push to `clientConn.UpdateState` is the step's `update`
  output. A nil dereference is a `Panicked` outcome. The outcome of
  `serviceconfig.Parse(cr.name)` is one boolean input of the step as written.
  It depends only on the name, so it is the same on every iteration.
  The intended step pushes the addresses whatever that outcome is, so it does
  not take it as an input.
* Go map iteration order is unspecified. `ForeachKey` takes the order as a
  parameter, constrained to list each key exactly once. Its handler is a pure
  function returning an optional error. The method returns the sequence of
  handler calls it made.
* The tracer is a datatype of three function values: start span, inject and
  extract. The invoker and the handler are function values too. An
  interceptor's behaviour is the list of events it causes (span started,
  invoker or handler called, span finished) and the result it returns.
* Go maps are references. The client side therefore keeps its metadata maps in
  a `Store` indexed by `Ref`. The caller's context holds a reference. `md.Copy()`
  allocates a fresh reference, and the tracer's `Set` calls write through the
  carrier into that copy. That no existing map changes, the caller's included,
  is proved from the freshness of the copy's reference.

Facts about the code that a reader might not expect:

* `A-z` covers the characters 65 to 122, so host and service names also admit ``[ \ ] ^ _ ` ``.
* `lastIndex` takes whatever index the registry returns, even a smaller one.
* `Set` stores the key exactly as given, with no case folding.
* When `Extract` reports that no context was found, the server interceptor still starts a span, with whatever context `Extract` returned as parent. It skips the span only for other extraction errors.

## Model

| member | source | states |
|---|---|---|
| TargetParser.ParseTarget | grpc-opentracing/client/internel/consul/consul_resolver.go:126-145 | the empty target fails with the missing-address error; the only errors are missing-address and mismatch; on success host and name are non-empty strings of their classes and the port is either `"8500"` or `':'` followed by one to five digits |
| TargetParser.ParseTargetCharacterised | grpc-opentracing/client/internel/consul/consul_resolver.go:129-135 | a target parses iff it is non-empty and matches the pattern; a non-empty target that does not match fails with the mismatch error, never the missing-address one |
| TargetParser.ParseTargetSound | grpc-opentracing/client/internel/consul/consul_resolver.go:137-143 | a successful parse is a split of the target that matches the pattern, with the returned port as group 2, or an empty group 2 when the default was used |
| TargetParser.ParseTargetComplete | grpc-opentracing/client/internel/consul/consul_resolver.go:27 | every split that matches the pattern is parsed, and the result is exactly its three groups, with `"8500"` for an absent port group |
| TargetParser.SplitIsUnique | grpc-opentracing/client/internel/consul/consul_resolver.go:27 | two matching splits of one target coincide, because the host admits neither ':' nor '/' |
| TargetParser.ParseTargetRoundTrip | grpc-opentracing/client/internel/consul/consul_resolver.go:137-143 | with an explicit port, `host + port + "/" + name` is the target and the port starts with ':'; with the default port, `host + "/" + name` is the target |
| TargetParser.ParseComposed | grpc-opentracing/client/internel/consul/consul_resolver.go:137-143 | composing a target from valid groups and parsing it returns those groups |
| TargetParser.NameWithForeignCharRejected | grpc-opentracing/client/internel/consul/consul_resolver.go:27 | a service name holding any character outside `[A-z_]`, a digit for one, makes the target fail with the mismatch error |
| ConsulResolver.Build | grpc-opentracing/client/internel/consul/consul_resolver.go:53-68 | Build fails exactly when parsing `authority + "/" + endpoint` fails, with the same error; on success the address is host and port pasted together, the name is the parsed name, and the index starts at 0 |
| ConsulResolver.BuildNeverMissingAddress | grpc-opentracing/client/internel/consul/consul_resolver.go:57-60 | the composed target always holds '/', so Build never reports the missing-address error |
| ConsulResolver.BuildSucceedsIff | grpc-opentracing/client/internel/consul/consul_resolver.go:57-60 | Build succeeds iff the authority is `host[:port]` and the endpoint is a valid service name |
| ConsulResolver.BuildExplicitPort | grpc-opentracing/client/internel/consul/consul_resolver.go:62-68 | with an explicit port the registry address is the authority itself, `host:port`, and the index starts at 0 |
| ConsulResolver.BuildDefaultPort | grpc-opentracing/client/internel/consul/consul_resolver.go:62-68 | without a port the registry address is `host + "8500"`, with no ':' between them |
| ConsulResolver.ParseFormatInt | grpc-opentracing/client/internel/consul/consul_resolver.go:95 | the decimal printing of a port, negative or not, reads back as the same number |
| ConsulResolver.AddressRoundTrip | grpc-opentracing/client/internel/consul/consul_resolver.go:95 | `address:port` splits at its last ':' back into the instance's address and port, even when the address holds colons |
| ConsulResolver.AddressesDecode | grpc-opentracing/client/internel/consul/consul_resolver.go:93-97 | the address list has exactly one entry per service entry, in the registry's order, each decoding to that entry |
| ConsulResolver.AddressesAppend | grpc-opentracing/client/internel/consul/consul_resolver.go:93-97 | the list of a concatenation is the concatenation of the lists: no sorting, no de-duplication |
| ConsulResolver.WatchStepAsWritten | grpc-opentracing/client/internel/consul/consul_resolver.go:86-110 | one iteration as written: missing metadata panics; otherwise the index becomes the answer's index whatever the error, and the address list is pushed only when the service configuration does not parse (a parsed one panics) |
| ConsulResolver.AsWrittenIndexUnchecked | grpc-opentracing/client/internel/consul/consul_resolver.go:87-92 | an answer that carries an error still sets the index, and a smaller index than the current one is taken as is |
| ConsulResolver.AsWrittenQueryErrorPanics | grpc-opentracing/client/internel/consul/consul_resolver.go:87-92 | a failed query, which comes with no metadata, crashes the iteration |
| ConsulResolver.AsWrittenParsedConfigPanics | grpc-opentracing/client/internel/consul/consul_resolver.go:101-110 | an answered query whose service configuration parses crashes the iteration |
| ConsulResolver.WatchStep | grpc-opentracing/client/internel/consul/consul_resolver.go:86-107 | the intended iteration never panics and keeps address and name; a failed query leaves the state untouched; an answered one takes the answer's index; the address list of the registry's entries is pushed iff the query was answered |
| ConsulResolver.WatchStepAgrees | grpc-opentracing/client/internel/consul/consul_resolver.go:86-110 | on an answered query the iteration as written survives iff the configuration does not parse, and then it is exactly the intended iteration |
| ConsulResolver.RunSkipsFailures | grpc-opentracing/client/internel/consul/consul_resolver.go:86-92 | failed queries at the start of a run change neither the index nor the pushed lists |
| ConsulResolver.RunPushesInOrder | grpc-opentracing/client/internel/consul/consul_resolver.go:86-107 | a run of answered queries pushes one address list per answer, in order, and ends with the last answer's index |
| MetadataCarrier.Set | grpc-tracing-intercepter/intercepter.go:75-77 | the list under the key becomes the old list (empty if absent) plus the value; every other key's list is unchanged; the key is added exactly as given |
| MetadataCarrier.SetManyAccumulates | grpc-tracing-intercepter/intercepter.go:75-77 | after a sequence of Set calls each key's list is its old list followed by the values set under it, in call order, and no other key appears |
| MetadataCarrier.SetSameKeyAccumulates | grpc-tracing-intercepter/intercepter.go:76 | repeated Set calls on one key accumulate all values in call order and never overwrite |
| MetadataCarrier.ForeachKey | grpc-tracing-intercepter/intercepter.go:49-58 | the calls made are a prefix of the enumeration; with no error they are the whole enumeration and the result is none; with an error the last call raised exactly that error and all earlier calls passed; the result is none iff every pair passes |
| MetadataCarrier.VisitValues | grpc-tracing-intercepter/intercepter.go:51-55 | the inner loop visits one key's values in list order up to and including the first the handler rejects |
| MetadataCarrier.ValuesOfPairs | grpc-tracing-intercepter/intercepter.go:50-51 | within one key the enumeration carries exactly that key's list, in list order |
| MetadataCarrier.PairsIndependentOfOrder | grpc-tracing-intercepter/intercepter.go:50 | any two iteration orders enumerate the same pairs the same number of times, so the handler count never depends on the order |
| MetadataCarrier.SetThenEnumerate | grpc-tracing-intercepter/intercepter.go:49-77 | enumerating after Set calls gives, under each key, the values it held before followed by those set under it |
| Interceptors.InjectIntoCopy | grpc-tracing-intercepter/intercepter.go:130-141 | the injected pairs land in a map under a reference no existing map used; every existing map, the caller's included, keeps its contents; each key of the new map holds the caller's list (empty without outgoing metadata) followed by the values injected under it |
| Interceptors.ClientIntercept | grpc-tracing-intercepter/intercepter.go:113-155 | the returned error is the invoker's; the span is a child of the caller's span, or a root span when there is none; the invoker is given a fresh map holding the caller's metadata plus the injected values; no map that existed before the call changes; the span is started first, finished once at the end, and the invoker is called once |
| Interceptors.ClientKeepsCallerMetadata | grpc-tracing-intercepter/intercepter.go:130-135 | every key's list in the sent metadata starts with the caller's list; the sent map is not the caller's map, and the caller's map is unchanged |
| Interceptors.ClientIgnoresInjectError | grpc-tracing-intercepter/intercepter.go:137-153 | whether injection reports an error changes neither the metadata sent nor the returned error |
| Interceptors.ServerIntercept | grpc-tracing-intercepter/intercepter.go:158-187 | a span is started iff extraction succeeded or found no context, as a child of the extracted context; the handler is called exactly once and its response and error are returned; every started span is finished once, after the handler |
| Interceptors.ServerWithoutContext | grpc-tracing-intercepter/intercepter.go:169-183 | with no context in the metadata a span is still started, with the context Extract returned as parent, and the handler's result comes back unchanged |
| Interceptors.ServerExtractErrorSkipsSpan | grpc-tracing-intercepter/intercepter.go:169-170 | any other extraction error starts no span and calls the handler with the context untouched |
| Interceptors.ClientServerPropagation | grpc-tracing-intercepter/intercepter.go:137-177 | if the server's tracer reads back what the client's tracer injects, then the server span started on the client's sent metadata is a child of the client span |

## Findings

| source | as written | input that shows it | evidently intended | confidence | as-written member | corrected member |
|---|---|---|---|---|---|---|
| grpc-opentracing/client/internel/consul/consul_resolver.go:87-92 | the query error is only logged, then `metainfo.LastIndex` is read; consul's client returns nil metadata alongside an error | any failed health query, such as the registry being unreachable | log the error and retry with the same index | medium, not executed | ConsulResolver.AsWrittenQueryErrorPanics | ConsulResolver.RunSkipsFailures |
| grpc-opentracing/client/internel/consul/consul_resolver.go:101-110 | `UpdateState` runs only when `serviceconfig.Parse` returns an error; the other branch calls `Error()` on a nil error | the service name `null`: the pattern accepts it, and as JSON it likely unmarshals into the configuration without error | push the addresses on every answered query, with the configuration when it parses, and log the parse error otherwise | medium, not executed | ConsulResolver.AsWrittenParsedConfigPanics | ConsulResolver.WatchStep, ConsulResolver.WatchStepAgrees |

The name is fixed for the life of a watcher. For a name that does not parse as
a service configuration, the as-written branch pushes the addresses on every
answered query, as intended. For a name that does parse, such as `null`, the
first answered query crashes the watcher.

## Left out

* The consul HTTP client. `api.NewClient` and its failure path (lines 78-84) and the blocking `Health().Service` query are network I/O. The query's results are an input of the step.
* The goroutine, the `sync.WaitGroup` and the unbounded loop of `watcher`. `Run` covers a finite prefix of the loop.
* `ResolveNow`, `Close` and `Scheme`: two no-ops and a constant.
* `resolver.Register`, `Init` and `NewBuilder`: they register into global process state.
* The parsed service configuration value and `clientConn.UpdateState`. These are foreign gRPC calls. Parsing is an opaque boolean; the push is the step's `update` output.
* `errEndsWithColon`: declared but never returned.
* Logging everywhere, and `NewJaegerTracer` in both `intercepter.go` and `wrapper.go`, which is tracer configuration only.
* Tracer internals: `StartSpan`, `Inject`, `Extract`, `Finish`, `ChildOf`, `RPCServerOption` and the encoding of span contexts. The tracer is a datatype of function values.
* Request and reply payloads, call options and the `grpc.ClientConn` argument of the client interceptor. Only the outgoing metadata and the returned error are modelled.
* Panics raised by the invoker or the handler, and the deferred `Finish` that would still run then.
* Go strings are UTF-8 bytes; the model uses `seq<char>`. Non-ASCII characters never match the pattern, so nothing depends on the difference.
* MetadataCarrier.ForeachKey: the handler is a pure function of the pair. A Go handler that accumulates state across calls is covered only through the returned sequence of calls.
