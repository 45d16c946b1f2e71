/**
 * The unary client and server tracing interceptors, as control flow around an
 * abstract tracer. The tracer's span start, inject and extract, the invoker and
 * the handler are function values; the interceptors' observable behaviour is
 * the sequence of events they cause and the result they hand back.
 */
module Interceptors {
  import opened Wrappers
  import opened MetadataCarrier

  /** The tag value both interceptors put under the `component` key. */
  const Component: string := "gRPC"

  /** A span context as the tracer encodes it; the model never looks inside. */
  datatype SpanContext = SpanContext(traceId: nat, spanId: nat)

  datatype SpanKind = RpcClient | RpcServer

  /** A started span: its operation name, the context it is a child of (none
      for a root span), its kind and component tags, and its own context. */
  datatype Span = Span(operation: string, parent: Option<SpanContext>, kind: SpanKind,
                       component: string, context: SpanContext)

  /** `opentracing.ErrSpanContextNotFound`, or any other extraction or injection error. */
  datatype TraceError = SpanContextNotFound | OtherTraceError(message: string)

  /** An error returned by the invoker or the handler. */
  datatype RpcError = RpcError(message: string)

  /**
   * The tracer, reduced to its three operations: start a span (returning the
   * context the tracer assigns it), inject a context (the `Set` calls it makes
   * on the carrier, and its error), and extract a context from metadata.
   */
  datatype Tracer = Tracer(
    startSpan: (string, Option<SpanContext>, SpanKind) -> SpanContext,
    inject: SpanContext -> (seq<Pair>, Option<TraceError>),
    extract: MD -> (Option<SpanContext>, Option<TraceError>))

  /** What an intercepted call does, in order. */
  datatype Event =
    | SpanStarted(span: Span)
    | Invoked(outgoing: MD)              // the client invoker, with the metadata it sends
    | HandlerCalled(active: Option<Span>) // the server handler, with the span put in its context
    | SpanFinished(span: Span)

  datatype EventKind = Start | Invoke | Handle | Finish

  function KindOf(e: Event): (r: EventKind) {
    match e
    case SpanStarted(_) => Start
    case Invoked(_) => Invoke
    case HandlerCalled(_) => Handle
    case SpanFinished(_) => Finish
  }

  /** The number of events of kind `k`. */
  function Count(es: seq<Event>, k: EventKind): (r: nat)
    decreases |es|
  {
    if es == [] then 0 else Count(es[..|es|-1], k) + (if KindOf(es[|es|-1]) == k then 1 else 0)
  }

  /** Counting over a concatenation adds the counts. */
  lemma {:induction false} CountAppend(a: seq<Event>, b: seq<Event>, k: EventKind)
    ensures Count(a + b, k) == Count(a, k) + Count(b, k)
    decreases |b|
  {
    if b == [] {
      assert a + b == a;
    } else {
      assert (a + b)[..|a + b| - 1] == a + b[..|b|-1];
      CountAppend(a, b[..|b|-1], k);
    }
  }

  function Indicator(e: Event, k: EventKind): (r: nat) {
    if KindOf(e) == k then 1 else 0
  }

  lemma CountOne(e: Event, k: EventKind)
    ensures Count([e], k) == Indicator(e, k)
  {
    assert [e][..0] == [];
  }

  /** Counting over the three events of a traced call. */
  lemma CountThree(a: Event, b: Event, c: Event)
    ensures forall k :: Count([a, b, c], k) == Indicator(a, k) + Indicator(b, k) + Indicator(c, k)
  {
    forall k ensures Count([a, b, c], k) == Indicator(a, k) + Indicator(b, k) + Indicator(c, k) {
      assert [a, b, c] == [a] + [b] + [c];
      CountAppend([a] + [b], [c], k);
      CountAppend([a], [b], k);
      CountOne(a, k);
      CountOne(b, k);
      CountOne(c, k);
    }
  }

  // ---------------------------------------------------------------------------
  // Metadata maps by reference
  // ---------------------------------------------------------------------------

  /** A reference to a metadata map. A Go map is a reference: assigning it or
      wrapping it in a carrier shares it, and `Copy` is what makes a new one. */
  type Ref = nat

  /** The metadata maps alive in the program, by reference, and the next unused
      reference. */
  datatype Store = Store(maps: map<Ref, MD>, next: Ref)

  /** Every reference in use lies below `next`, so `next` is fresh. */
  predicate ValidStore(st: Store) {
    forall r :: r in st.maps ==> r < st.next
  }

  /** The caller's outgoing metadata, if its context holds any, is a live map. */
  predicate Live(st: Store, outgoing: Option<Ref>) {
    outgoing.Some? ==> outgoing.value in st.maps
  }

  /** The map the caller's context holds, or an empty one when it holds none. */
  function CallerMetadata(st: Store, outgoing: Option<Ref>): (md: MD)
    requires Live(st, outgoing)
    ensures outgoing.Some? ==> md == st.maps[outgoing.value]
    ensures outgoing.None? ==> md == map[]
  {
    if outgoing.Some? then st.maps[outgoing.value] else map[]
  }

  /** A new map holding `md`, under a reference no existing map uses. */
  function Alloc(st: Store, md: MD): (out: (Store, Ref))
    requires ValidStore(st)
    ensures ValidStore(out.0)
    ensures out.1 !in st.maps
    ensures out.0.maps == st.maps[out.1 := md]
  {
    (Store(st.maps[st.next := md], st.next + 1), st.next)
  }

  /**
   * `md.Copy()` of the caller's metadata, or `metadata.New(nil)` when there is
   * none, followed by the tracer's `Set` calls through a carrier wrapping the
   * copy. The pairs land in a fresh map; every map that existed before keeps
   * its contents, the caller's among them.
   */
  function InjectIntoCopy(st: Store, outgoing: Option<Ref>, pairs: seq<Pair>): (out: (Store, Ref))
    requires ValidStore(st) && Live(st, outgoing)
    ensures ValidStore(out.0)
    ensures out.1 !in st.maps && out.0.maps.Keys == st.maps.Keys + {out.1}
    ensures forall r :: r in st.maps ==> out.0.maps[r] == st.maps[r]
    ensures forall k :: Get(out.0.maps[out.1], k) == Get(CallerMetadata(st, outgoing), k) + ValuesOf(pairs, k)
  {
    var base := CallerMetadata(st, outgoing);
    var (st1, copy) := Alloc(st, base);
    SetManyAccumulates(base, pairs);
    (st1.(maps := st1.maps[copy := SetMany(base, pairs)]), copy)
  }

  // ---------------------------------------------------------------------------
  // Client interceptor
  // ---------------------------------------------------------------------------

  /** The outcome of one intercepted outgoing call. */
  datatype ClientCall = ClientCall(
    err: Option<RpcError>,   // what the interceptor returns
    span: Span,              // the client span it started
    sentRef: Ref,            // the map put in the invoker's context
    sent: MD,                // its contents when the invoker was called
    store: Store,            // the metadata maps after the call
    events: seq<Event>)

  /**
   * `ClientInterceptor`: start a client span, child of the span in the caller's
   * context if there is one; inject it into a copy of the outgoing metadata (a
   * fresh map when there is none); call the invoker with the copy; finish the
   * span; return the invoker's error. An injection error is only logged.
   */
  function ClientIntercept(tracer: Tracer, parentSpan: Option<Span>, st: Store, outgoing: Option<Ref>,
                           rpcMethod: string, invoker: MD -> Option<RpcError>): (c: ClientCall)
    requires ValidStore(st) && Live(st, outgoing)
    ensures c.err == invoker(c.sent)
    ensures c.span.parent == (if parentSpan.Some? then Some(parentSpan.value.context) else None)
    ensures c.span.operation == rpcMethod && c.span.kind == RpcClient && c.span.component == Component
    ensures ValidStore(c.store) && c.sentRef !in st.maps && c.sentRef in c.store.maps
    ensures c.store.maps[c.sentRef] == c.sent
    ensures forall r :: r in st.maps ==> r in c.store.maps && c.store.maps[r] == st.maps[r]
    ensures forall k :: Get(c.sent, k) == Get(CallerMetadata(st, outgoing), k) + ValuesOf(tracer.inject(c.span.context).0, k)
    ensures Count(c.events, Start) == 1 && c.events[0] == SpanStarted(c.span)
    ensures Count(c.events, Invoke) == 1
    ensures Count(c.events, Finish) == 1 && c.events[|c.events|-1] == SpanFinished(c.span)
  {
    var parentCtx := if parentSpan.Some? then Some(parentSpan.value.context) else None;
    var span := Span(rpcMethod, parentCtx, RpcClient, Component, tracer.startSpan(rpcMethod, parentCtx, RpcClient));
    var (st', copy) := InjectIntoCopy(st, outgoing, tracer.inject(span.context).0);
    var sent := st'.maps[copy];
    var events := [SpanStarted(span), Invoked(sent), SpanFinished(span)];
    CountThree(SpanStarted(span), Invoked(sent), SpanFinished(span));
    ClientCall(invoker(sent), span, copy, sent, st', events)
  }

  /** The metadata sent keeps every value the caller had, each key's list only
      growing at its end, while the caller's own map is left as it was. */
  lemma ClientKeepsCallerMetadata(tracer: Tracer, parentSpan: Option<Span>, st: Store, ref: Ref,
                                  rpcMethod: string, invoker: MD -> Option<RpcError>, k: string)
    requires ValidStore(st) && ref in st.maps
    ensures var c := ClientIntercept(tracer, parentSpan, st, Some(ref), rpcMethod, invoker);
      Get(st.maps[ref], k) <= Get(c.sent, k) && c.sentRef != ref && c.store.maps[ref] == st.maps[ref]
  {
  }

  /** Whether injection fails has no bearing on the call: two tracers that write
      the same pairs, one reporting an error and one not, yield the same metadata
      and the same returned error. */
  lemma ClientIgnoresInjectError(t1: Tracer, t2: Tracer, parentSpan: Option<Span>, st: Store, outgoing: Option<Ref>,
                                 rpcMethod: string, invoker: MD -> Option<RpcError>)
    requires ValidStore(st) && Live(st, outgoing)
    requires t1.startSpan == t2.startSpan
    requires forall sc :: t1.inject(sc).0 == t2.inject(sc).0
    ensures var c1 := ClientIntercept(t1, parentSpan, st, outgoing, rpcMethod, invoker);
      var c2 := ClientIntercept(t2, parentSpan, st, outgoing, rpcMethod, invoker);
      c1.err == c2.err && c1.sent == c2.sent && c1.store == c2.store
  {
  }

  // ---------------------------------------------------------------------------
  // Server interceptor
  // ---------------------------------------------------------------------------

  /** The outcome of one intercepted incoming call. */
  datatype ServerCall<R> = ServerCall(resp: R, err: Option<RpcError>, span: Option<Span>, events: seq<Event>)

  /** Extraction succeeded or found no context: the two cases that start a span. */
  predicate StartsSpan(extractErr: Option<TraceError>) {
    extractErr.None? || extractErr == Some(SpanContextNotFound)
  }

  /**
   * `ServerInterceptor`: extract a context from the incoming metadata (an empty
   * map when there is none). Unless extraction failed with an error other than
   * "not found", start a server span as counterpart of the extracted context,
   * put it in the handler's context and finish it after the handler. Call the
   * handler once and return its response and error.
   */
  function ServerIntercept<R>(tracer: Tracer, incoming: Option<MD>, fullMethod: string,
                              handler: Option<Span> -> (R, Option<RpcError>)): (s: ServerCall<R>)
    ensures var x := tracer.extract(incoming.GetOr(map[]));
      && (s.span.Some? <==> StartsSpan(x.1))
      && (s.span.Some? ==> s.span.value.parent == x.0 && s.span.value.operation == fullMethod
                           && s.span.value.kind == RpcServer && s.span.value.component == Component)
    ensures (s.resp, s.err) == handler(s.span)
    ensures Count(s.events, Handle) == 1
    ensures Count(s.events, Start) == Count(s.events, Finish)
    ensures Count(s.events, Start) == (if s.span.Some? then 1 else 0)
    ensures s.span.Some? ==>
      s.events[0] == SpanStarted(s.span.value) && s.events[|s.events|-1] == SpanFinished(s.span.value)
  {
    var md := if incoming.Some? then incoming.value else map[];
    var x := tracer.extract(md);
    if x.1.Some? && x.1.value != SpanContextNotFound then
      var out := handler(None);
      CountOne(HandlerCalled(None), Start);
      CountOne(HandlerCalled(None), Handle);
      CountOne(HandlerCalled(None), Finish);
      ServerCall(out.0, out.1, None, [HandlerCalled(None)])
    else
      var span := Span(fullMethod, x.0, RpcServer, Component, tracer.startSpan(fullMethod, x.0, RpcServer));
      var out := handler(Some(span));
      var a, b, c := SpanStarted(span), HandlerCalled(Some(span)), SpanFinished(span);
      CountThree(a, b, c);
      ServerCall(out.0, out.1, Some(span), [a, b, c])
  }

  /** A call carrying no trace context still reaches the handler, once, and its
      result comes back unchanged. */
  lemma ServerWithoutContext<R>(tracer: Tracer, incoming: Option<MD>, fullMethod: string,
                                handler: Option<Span> -> (R, Option<RpcError>))
    requires tracer.extract(incoming.GetOr(map[])).1 == Some(SpanContextNotFound)
    ensures var s := ServerIntercept(tracer, incoming, fullMethod, handler);
      && s.span.Some? && s.span.value.parent == tracer.extract(incoming.GetOr(map[])).0
      && (s.resp, s.err) == handler(s.span)
  {
  }

  /** Any other extraction error skips the span and passes the handler's
      context through untouched. */
  lemma ServerExtractErrorSkipsSpan<R>(tracer: Tracer, incoming: Option<MD>, fullMethod: string,
                                       handler: Option<Span> -> (R, Option<RpcError>), msg: string)
    requires tracer.extract(incoming.GetOr(map[])).1 == Some(OtherTraceError(msg))
    ensures var s := ServerIntercept(tracer, incoming, fullMethod, handler);
      && s.span.None? && Count(s.events, Start) == 0
      && (s.resp, s.err) == handler(None)
  {
  }

  // ---------------------------------------------------------------------------
  // Client to server
  // ---------------------------------------------------------------------------

  /** The server tracer reads back any context the client tracer injected, on
      top of whatever metadata was already there. */
  ghost predicate Compatible(client: Tracer, server: Tracer) {
    forall sc: SpanContext, md: MD :: server.extract(SetMany(md, client.inject(sc).0)) == (Some(sc), None)
  }

  /** When the server receives the metadata the client interceptor sent, its
      span is a child of the client's span. */
  lemma ClientServerPropagation<R>(client: Tracer, server: Tracer, parentSpan: Option<Span>, st: Store,
                                   outgoing: Option<Ref>, rpcMethod: string, invoker: MD -> Option<RpcError>,
                                   handler: Option<Span> -> (R, Option<RpcError>))
    requires ValidStore(st) && Live(st, outgoing)
    requires Compatible(client, server)
    ensures var c := ClientIntercept(client, parentSpan, st, outgoing, rpcMethod, invoker);
      var s := ServerIntercept(server, Some(c.sent), rpcMethod, handler);
      s.span.Some? && s.span.value.parent == Some(c.span.context)
  {
    var c := ClientIntercept(client, parentSpan, st, outgoing, rpcMethod, invoker);
    assert c.sent == SetMany(CallerMetadata(st, outgoing), client.inject(c.span.context).0);
  }
}
