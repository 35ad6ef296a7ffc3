/**
 * trace_db.rs: spans arrive in nested batches and are folded one by one into a row per trace. The
 * rows are proved to depend only on which deliveries were made, not on their order or batching,
 * except for the three columns that the first delivery decides.
 */
module TraceDb {
  import opened Basics

  type U64 = x: nat | x < 0x1_0000_0000_0000_0000

  datatype Span = Span(traceId: string, spanId: string, parentId: string, name: string, kind: int,
                       start: U64, end: U64, status: int, message: string, attributes: string, events: string)
  datatype ScopeSpans = ScopeSpans(spans: seq<Span>)
  datatype ResourceSpans = ResourceSpans(service: string, resource: string, scopes: seq<ScopeSpans>)

  /** A span with the service and resource it arrived under. */
  datatype Delivery = Delivery(span: Span, service: string, resource: string)

  datatype TraceRow = TraceRow(service: string, root: string, start: int, end: int, duration: int,
                               status: int, count: nat, resource: string)
  datatype SpanRow = SpanRow(parentId: string, name: string, kind: int, service: string, start: int, end: int,
                             duration: int, status: int, message: string, attributes: string, events: string)

  function Min(a: int, b: int): int { if a < b then a else b }

  function Max(a: int, b: int): int { if a < b then b else a }

  /** `x as i64` */
  function AsI64(x: U64): int {
    if x < 0x8000_0000_0000_0000 then x else x - 0x1_0000_0000_0000_0000
  }

  /** i64::saturating_sub */
  function SaturatingSub(a: int, b: int): int {
    Max(-0x8000_0000_0000_0000, Min(0x7FFF_FFFF_FFFF_FFFF, a - b))
  }

  function Start(d: Delivery): int { AsI64(d.span.start) }

  function End(d: Delivery): int { AsI64(d.span.end) }

  function FirstRow(d: Delivery): TraceRow {
    TraceRow(d.service, d.span.name, Start(d), End(d), SaturatingSub(End(d), Start(d)), d.span.status, 1, d.resource)
  }

  /** ON CONFLICT(trace_id) DO UPDATE. The difference is exact here; SQLite turns one that leaves 64 bits into
      a floating-point number. */
  function Merge(t: TraceRow, d: Delivery): TraceRow {
    t.(start := Min(t.start, Start(d)),
       end := Max(t.end, End(d)),
       duration := Max(t.end, End(d)) - Min(t.start, Start(d)),
       count := t.count + 1,
       status := if d.span.status > t.status then d.span.status else t.status)
  }

  function StoredSpan(d: Delivery): SpanRow {
    SpanRow(d.span.parentId, d.span.name, d.span.kind, d.service, Start(d), End(d), SaturatingSub(End(d), Start(d)),
            d.span.status, d.span.message, d.span.attributes, d.span.events)
  }

  /** The row of a trace after its deliveries. */
  function Envelope(ds: seq<Delivery>): TraceRow
    requires ds != []
  {
    if |ds| == 1 then FirstRow(ds[0]) else Merge(Envelope(Front(ds)), Last(ds))
  }

  /** The deliveries of one trace, in order. */
  function OfTrace(ds: seq<Delivery>, id: string): seq<Delivery> {
    if ds == [] then []
    else if Last(ds).span.traceId == id then OfTrace(Front(ds), id) + [Last(ds)]
    else OfTrace(Front(ds), id)
  }

  // ── The deliveries of a request ────────────────────────────────────────────────────────────

  function OfSpans(r: ResourceSpans, spans: seq<Span>): seq<Delivery> {
    if spans == [] then [] else OfSpans(r, Front(spans)) + [Delivery(Last(spans), r.service, r.resource)]
  }

  function OfScopes(r: ResourceSpans, scopes: seq<ScopeSpans>): seq<Delivery> {
    if scopes == [] then [] else OfScopes(r, Front(scopes)) + OfSpans(r, Last(scopes).spans)
  }

  function Deliveries(request: seq<ResourceSpans>): seq<Delivery> {
    if request == [] then [] else Deliveries(Front(request)) + OfScopes(Last(request), Last(request).scopes)
  }

  class TraceStore {
    var traces: map<string, TraceRow>
    var spans: map<(string, string), SpanRow>
    /** Everything delivered so far. */
    ghost var history: seq<Delivery>

    /** The tables are what the history folds to. */
    ghost predicate Valid()
      reads this
    {
      TracesMatch(traces, history) && spans == Spans(history)
    }

    constructor ()
      ensures Valid() && history == []
    {
      traces, spans, history := map[], map[], [];
    }

    /** The two statements run for one span. */
    method StoreSpan(d: Delivery)
      requires Valid()
      modifies this
      ensures Valid() && history == old(history) + [d]
    {
      var id := d.span.traceId;
      UpsertMatches(traces, history, d);
      assert Front(history + [d]) == history;
      hide TracesMatch;
      if id in traces {
        traces := traces[id := Merge(traces[id], d)];
      } else {
        traces := traces[id := FirstRow(d)];
      }
      spans := spans[(id, d.span.spanId) := StoredSpan(d)];
      history := history + [d];
    }

    /** store_trace_data */
    method StoreTraceData(request: seq<ResourceSpans>)
      requires Valid()
      modifies this
      ensures Valid() && history == old(history) + Deliveries(request)
      ensures SpansTaken(old(spans), spans, request)
    {
      SpansOfRequest(history, request);
      TablesAre();
      StoreEach(request);
      hide Valid, SpansTaken, Spans, Deliveries;
      TablesAre();
    }

    lemma TablesAre()
      requires Valid()
      ensures spans == Spans(history)
    {
    }

    method StoreEach(request: seq<ResourceSpans>)
      requires Valid()
      modifies this
      ensures Valid() && history == old(history) + Deliveries(request)
    {
      hide Valid;
      for i := 0 to |request|
        invariant Valid() && history == old(history) + Deliveries(request[..i])
      {
        var r := request[i];
        assert Front(request[..i + 1]) == request[..i];
        StoreResource(r);
      }
      assert request[..|request|] == request;
    }

    method StoreResource(r: ResourceSpans)
      requires Valid()
      modifies this
      ensures Valid() && history == old(history) + OfScopes(r, r.scopes)
    {
      hide Valid;
      for j := 0 to |r.scopes|
        invariant Valid() && history == old(history) + OfScopes(r, r.scopes[..j])
      {
        var spans := r.scopes[j].spans;
        ghost var before := history;
        assert Front(r.scopes[..j + 1]) == r.scopes[..j];
        for k := 0 to |spans|
          invariant Valid() && history == before + OfSpans(r, spans[..k])
        {
          assert Front(spans[..k + 1]) == spans[..k];
          StoreSpan(Delivery(spans[k], r.service, r.resource));
        }
        assert spans[..|spans|] == spans;
      }
      assert r.scopes[..|r.scopes|] == r.scopes;
    }
  }

  /** The spans table: the last delivery of a span id within a trace stays. */
  function Spans(ds: seq<Delivery>): map<(string, string), SpanRow> {
    if ds == [] then map[]
    else Spans(Front(ds))[(Last(ds).span.traceId, Last(ds).span.spanId) := StoredSpan(Last(ds))]
  }

  lemma OfTraceAppend(ds: seq<Delivery>, d: Delivery, id: string)
    ensures OfTrace(ds + [d], id) == if d.span.traceId == id then OfTrace(ds, id) + [d] else OfTrace(ds, id)
  {
    assert Front(ds + [d]) == ds;
  }

  lemma EnvelopeAppend(ds: seq<Delivery>, d: Delivery)
    ensures Envelope(ds + [d]) == if ds == [] then FirstRow(d) else Merge(Envelope(ds), d)
  {
    assert Front(ds + [d]) == ds;
  }

  /** One row per trace delivered, each the fold of its deliveries. */
  ghost predicate TracesMatch(traces: map<string, TraceRow>, history: seq<Delivery>) {
    && (forall id :: id in traces <==> OfTrace(history, id) != [])
    && (forall id :: id in traces ==> traces[id] == Envelope(OfTrace(history, id)))
  }

  function Upserted(traces: map<string, TraceRow>, d: Delivery): map<string, TraceRow> {
    traces[d.span.traceId := if d.span.traceId in traces then Merge(traces[d.span.traceId], d) else FirstRow(d)]
  }

  lemma UpsertMatches(traces: map<string, TraceRow>, history: seq<Delivery>, d: Delivery)
    requires TracesMatch(traces, history)
    ensures TracesMatch(Upserted(traces, d), history + [d])
  {
    forall id: string { OfTraceAppend(history, d, id); }
    EnvelopeAppend(OfTrace(history, d.span.traceId), d);
    hide OfTrace, Envelope;
  }

  // ── What the envelope is ───────────────────────────────────────────────────────────────────

  /** No time of the delivery reaches 2^63. */
  predicate Small(d: Delivery) {
    d.span.start < 0x8000_0000_0000_0000 && d.span.end < 0x8000_0000_0000_0000
  }

  ghost predicate Bounds(t: TraceRow, ds: seq<Delivery>) {
    && (forall i :: 0 <= i < |ds| ==> t.start <= Start(ds[i]) && End(ds[i]) <= t.end && ds[i].span.status <= t.status)
    && (exists i :: 0 <= i < |ds| && t.start == Start(ds[i]))
    && (exists i :: 0 <= i < |ds| && t.end == End(ds[i]))
    && (exists i :: 0 <= i < |ds| && t.status == ds[i].span.status)
  }

  /** Start is the least start, end the greatest end, status the greatest status, the count counts
      deliveries, and service, root and resource are those of the first. */
  lemma {:induction false} EnvelopeBounds(ds: seq<Delivery>)
    requires ds != []
    ensures var t := Envelope(ds);
            && Bounds(t, ds) && t.count == |ds|
            && t.service == ds[0].service && t.root == ds[0].span.name && t.resource == ds[0].resource
  {
    if |ds| > 1 {
      EnvelopeBounds(Front(ds));
      MergeBounds(Envelope(Front(ds)), Front(ds), Last(ds));
      assert ds == Front(ds) + [Last(ds)];
      hide Bounds;
    }
  }

  lemma MergeBounds(t: TraceRow, ds: seq<Delivery>, d: Delivery)
    requires Bounds(t, ds)
    ensures Bounds(Merge(t, d), ds + [d])
  {
    hide Start, End;
    var es, u := ds + [d], Merge(t, d);
    var i :| 0 <= i < |ds| && t.start == Start(ds[i]);
    var j :| 0 <= j < |ds| && t.end == End(ds[j]);
    var k :| 0 <= k < |ds| && t.status == ds[k].span.status;
    assert es[i] == ds[i] && es[j] == ds[j] && es[k] == ds[k] && es[|ds|] == d;
    assert forall l :: 0 <= l < |es| ==>
        u.start <= Start(es[l]) && End(es[l]) <= u.end && es[l].span.status <= u.status;
  }

  /** The duration is end minus start, except for a single delivery whose difference saturates; below
      2^63 it always is. */
  lemma DurationIff(ds: seq<Delivery>)
    requires ds != []
    ensures var t := Envelope(ds);
            t.duration == t.end - t.start <==>
            |ds| > 1 || -0x8000_0000_0000_0000 <= End(ds[0]) - Start(ds[0]) < 0x8000_0000_0000_0000
    ensures Small(ds[0]) ==> Envelope(ds).duration == Envelope(ds).end - Envelope(ds).start
  {
  }

  /** Order does not matter to the aggregates: two sequences of the same deliveries agree on them, a lone
      delivery whose difference saturates included. The other three columns agree exactly when the first
      deliveries do. */
  lemma PermutationInvariant(ds: seq<Delivery>, es: seq<Delivery>)
    requires ds != [] && multiset(ds) == multiset(es)
    ensures es != []
    ensures var t, u := Envelope(ds), Envelope(es);
            && t.start == u.start && t.end == u.end && t.duration == u.duration
            && t.status == u.status && t.count == u.count
            && (t == u <==>
                && ds[0].service == es[0].service && ds[0].span.name == es[0].span.name
                && ds[0].resource == es[0].resource)
  {
    assert ds[0] in multiset(ds) && ds[0] in multiset(es);
    assert |ds| == |multiset(ds)| == |multiset(es)| == |es|;
    EnvelopeBounds(ds);
    EnvelopeBounds(es);
    DurationIff(ds);
    DurationIff(es);
    assert es[0] in multiset(es) && es[0] in ds;
    if |ds| == 1 { assert ds == es; }
    SameBounds(Envelope(ds), Envelope(es), ds, es);
  }

  lemma SameBounds(t: TraceRow, u: TraceRow, ds: seq<Delivery>, es: seq<Delivery>)
    requires multiset(ds) == multiset(es) && Bounds(t, ds) && Bounds(u, es)
    ensures t.start == u.start && t.end == u.end && t.status == u.status
  {
    BoundsBelow(t, u, ds, es);
    BoundsBelow(u, t, es, ds);
  }

  lemma BoundsBelow(t: TraceRow, u: TraceRow, ds: seq<Delivery>, es: seq<Delivery>)
    requires multiset(ds) == multiset(es) && Bounds(t, ds) && Bounds(u, es)
    ensures t.start <= u.start && u.end <= t.end && u.status <= t.status
  {
    forall i | 0 <= i < |es| ensures t.start <= Start(es[i]) && End(es[i]) <= t.end && es[i].span.status <= t.status {
      assert es[i] in multiset(es) && es[i] in multiset(ds);
    }
  }

  // ── Batching ───────────────────────────────────────────────────────────────────────────────

  lemma {:induction false} OfTraceCounts(ds: seq<Delivery>, id: string, x: Delivery)
    ensures multiset(OfTrace(ds, id))[x] == if x.span.traceId == id then multiset(ds)[x] else 0
  {
    if ds != [] {
      OfTraceCounts(Front(ds), id, x);
      assert ds == Front(ds) + [Last(ds)];
    }
  }

  /** Two stores that have seen the same deliveries, in any order and split into any requests, hold the
      same traces with the same start, end, duration, status and span count. */
  lemma SameDeliveriesSameTraces(s: TraceStore, r: TraceStore, id: string)
    requires s.Valid() && r.Valid() && multiset(s.history) == multiset(r.history)
    ensures id in s.traces <==> id in r.traces
    ensures id in s.traces ==>
      var t, u := s.traces[id], r.traces[id];
      t.start == u.start && t.end == u.end && t.duration == u.duration && t.status == u.status && t.count == u.count
  {
    var ds, es := OfTrace(s.history, id), OfTrace(r.history, id);
    forall x ensures multiset(ds)[x] == multiset(es)[x] {
      OfTraceCounts(s.history, id, x);
      OfTraceCounts(r.history, id, x);
    }
    assert multiset(ds) == multiset(es);
    assert |ds| == |multiset(ds)| && |es| == |multiset(es)|;
    if ds != [] { PermutationInvariant(ds, es); }
  }

  // ── Stored spans ───────────────────────────────────────────────────────────────────────────

  function SpanIds(ds: seq<Delivery>): set<string> {
    if ds == [] then {} else SpanIds(Front(ds)) + {Last(ds).span.spanId}
  }

  lemma {:induction false} SpanIdsExact(ds: seq<Delivery>, sid: string)
    ensures sid in SpanIds(ds) <==> exists i :: 0 <= i < |ds| && ds[i].span.spanId == sid
  {
    if ds != [] {
      SpanIdsExact(Front(ds), sid);
      assert forall i :: 0 <= i < |Front(ds)| ==> Front(ds)[i] == ds[i];
    }
  }

  /** The last delivery of a span id. */
  function Latest(ds: seq<Delivery>, sid: string): (d: Option<Delivery>)
    ensures d.Some? ==> d.value in ds && d.value.span.spanId == sid
    ensures d.Some? <==> sid in SpanIds(ds)
  {
    if ds == [] then None
    else if Last(ds).span.spanId == sid then Some(Last(ds))
    else Latest(Front(ds), sid)
  }

  /** The stored spans of a trace are those delivered for it, each as last delivered. */
  lemma {:induction false} StoredSpansExactly(ds: seq<Delivery>, id: string, sid: string)
    ensures (id, sid) in Spans(ds) <==> Latest(OfTrace(ds, id), sid).Some?
    ensures (id, sid) in Spans(ds) ==> Spans(ds)[(id, sid)] == StoredSpan(Latest(OfTrace(ds, id), sid).value)
  {
    if ds != [] {
      var front, d := Front(ds), Last(ds);
      StoredSpansExactly(front, id, sid);
      assert Front(OfTrace(front, id) + [d]) == OfTrace(front, id);
      hide SpanIds;
    }
  }

  /** A trace row covers every stored span of its trace. */
  lemma EnvelopeCovers(s: TraceStore, id: string, sid: string)
    requires s.Valid() && (id, sid) in s.spans
    ensures id in s.traces
    ensures s.traces[id].start <= s.spans[(id, sid)].start && s.spans[(id, sid)].end <= s.traces[id].end
    ensures s.spans[(id, sid)].status <= s.traces[id].status
  {
    var ds := OfTrace(s.history, id);
    StoredSpansExactly(s.history, id, sid);
    var i :| 0 <= i < |ds| && ds[i] == Latest(ds, sid).value;
    EnvelopeBounds(ds);
  }

  /** No span id of the trace was delivered twice. */
  ghost predicate NoRedelivery(ds: seq<Delivery>) {
    forall i, j :: 0 <= i < j < |ds| ==> ds[i].span.spanId != ds[j].span.spanId
  }

  lemma {:induction false} DistinctIds(ds: seq<Delivery>)
    ensures |SpanIds(ds)| <= |ds|
    ensures |SpanIds(ds)| == |ds| <==> NoRedelivery(ds)
  {
    if ds != [] {
      DistinctIds(Front(ds));
      NoRedeliveryFront(ds);
    }
  }

  lemma NoRedeliveryFront(ds: seq<Delivery>)
    requires ds != []
    ensures NoRedelivery(ds) <==> NoRedelivery(Front(ds)) && Last(ds).span.spanId !in SpanIds(Front(ds))
  {
    SpanIdsExact(Front(ds), Last(ds).span.spanId);
    hide SpanIds;
    assert forall i :: 0 <= i < |Front(ds)| ==> Front(ds)[i] == ds[i];
  }

  /** The span count of a trace is the number of its stored spans exactly when no span id was
      delivered twice. */
  lemma SpanCountIff(s: TraceStore, id: string, stored: set<string>)
    requires s.Valid() && id in s.traces && forall sid :: sid in stored <==> (id, sid) in s.spans
    ensures |stored| <= s.traces[id].count
    ensures s.traces[id].count == |stored| <==> NoRedelivery(OfTrace(s.history, id))
  {
    var ds := OfTrace(s.history, id);
    forall sid ensures sid in stored <==> sid in SpanIds(ds) { StoredSpansExactly(s.history, id, sid); }
    assert stored == SpanIds(ds);
    DistinctIds(ds);
    EnvelopeBounds(ds);
  }

  // ── What is stored of a request ────────────────────────────────────────────────────────────

  const TWO63: int := 0x8000_0000_0000_0000

  /** The columns of a span, as it was sent and under the service of its resource. Times are read as signed
      numbers of 64 bits, and the duration is their difference, kept within 64 bits. */
  ghost predicate Columns(row: SpanRow, span: Span, service: string) {
    && row.parentId == span.parentId && row.name == span.name && row.kind == span.kind && row.service == service
    && row.status == span.status && row.message == span.message
    && row.attributes == span.attributes && row.events == span.events
    && row.start == (if span.start < TWO63 then span.start else span.start - 2 * TWO63)
    && row.end == (if span.end < TWO63 then span.end else span.end - 2 * TWO63)
    && (-TWO63 <= row.end - row.start < TWO63 ==> row.duration == row.end - row.start)
    && (row.end - row.start >= TWO63 ==> row.duration == TWO63 - 1)
    && (row.end - row.start < -TWO63 ==> row.duration == -TWO63)
  }

  /** A span of this trace and id stands at place `from` or later. */
  ghost predicate HasSpan(spans: seq<Span>, from: nat, id: string, sid: string) {
    exists k :: from <= k < |spans| && spans[k].traceId == id && spans[k].spanId == sid
  }

  ghost predicate HasScope(scopes: seq<ScopeSpans>, from: nat, id: string, sid: string) {
    exists j :: from <= j < |scopes| && HasSpan(scopes[j].spans, 0, id, sid)
  }

  ghost predicate Has(request: seq<ResourceSpans>, from: nat, id: string, sid: string) {
    exists i :: from <= i < |request| && HasScope(request[i].scopes, 0, id, sid)
  }

  ghost predicate Same(a: map<(string, string), SpanRow>, b: map<(string, string), SpanRow>, id: string, sid: string) {
    ((id, sid) in a <==> (id, sid) in b) && ((id, sid) in a ==> a[(id, sid)] == b[(id, sid)])
  }

  lemma {:induction false} SpansElsewhere(past: seq<Delivery>, r: ResourceSpans, spans: seq<Span>,
                                          id: string, sid: string)
    requires !HasSpan(spans, 0, id, sid)
    ensures Same(Spans(past), Spans(past + OfSpans(r, spans)), id, sid)
  {
    if spans == [] {
      assert past + [] == past;
    } else {
      var front, d := Front(spans), Delivery(Last(spans), r.service, r.resource);
      assert forall k :: 0 <= k < |front| ==> front[k] == spans[k];
      SpansElsewhere(past, r, front, id, sid);
      assert Front(past + OfSpans(r, spans)) == past + OfSpans(r, front);
    }
  }

  /** A row is stored as the columns say, whatever was stored before. */
  lemma SpanColumns(span: Span, service: string, resource: string)
    ensures Columns(StoredSpan(Delivery(span, service, resource)), span, service)
  {
  }

  lemma {:induction false} SpanStored(past: seq<Delivery>, r: ResourceSpans, spans: seq<Span>, k: nat)
    requires k < |spans| && !HasSpan(spans, k + 1, spans[k].traceId, spans[k].spanId)
    ensures var now, key := Spans(past + OfSpans(r, spans)), (spans[k].traceId, spans[k].spanId);
            key in now && Columns(now[key], spans[k], r.service)
  {
    var front, d := Front(spans), Delivery(Last(spans), r.service, r.resource);
    assert Front(past + OfSpans(r, spans)) == past + OfSpans(r, front);
    if k < |spans| - 1 {
      assert forall l :: 0 <= l < |front| ==> front[l] == spans[l];
      SpanStored(past, r, front, k);
    } else {
      SpanColumns(Last(spans), r.service, r.resource);
    }
    hide Columns, StoredSpan;
  }

  lemma {:induction false} ScopesElsewhere(past: seq<Delivery>, r: ResourceSpans, scopes: seq<ScopeSpans>,
                                           id: string, sid: string)
    requires !HasScope(scopes, 0, id, sid)
    ensures Same(Spans(past), Spans(past + OfScopes(r, scopes)), id, sid)
  {
    if scopes == [] {
      assert past + [] == past;
    } else {
      var front := Front(scopes);
      hide HasSpan;
      assert forall j :: 0 <= j < |front| ==> front[j] == scopes[j];
      ScopesElsewhere(past, r, front, id, sid);
      assert past + OfScopes(r, scopes) == past + OfScopes(r, front) + OfSpans(r, Last(scopes).spans);
      SpansElsewhere(past + OfScopes(r, front), r, Last(scopes).spans, id, sid);
      hide Spans;
    }
  }

  lemma {:induction false} ScopeStored(past: seq<Delivery>, r: ResourceSpans, scopes: seq<ScopeSpans>, j: nat, k: nat)
    requires j < |scopes| && k < |scopes[j].spans|
    requires !HasSpan(scopes[j].spans, k + 1, scopes[j].spans[k].traceId, scopes[j].spans[k].spanId)
    requires !HasScope(scopes, j + 1, scopes[j].spans[k].traceId, scopes[j].spans[k].spanId)
    ensures var now, span := Spans(past + OfScopes(r, scopes)), scopes[j].spans[k];
            (span.traceId, span.spanId) in now && Columns(now[(span.traceId, span.spanId)], span, r.service)
  {
    var front, span := Front(scopes), scopes[j].spans[k];
    hide HasSpan;
    assert forall l :: 0 <= l < |front| ==> front[l] == scopes[l];
    assert past + OfScopes(r, scopes) == past + OfScopes(r, front) + OfSpans(r, Last(scopes).spans);
    if j < |scopes| - 1 {
      ScopeStored(past, r, front, j, k);
      SpansElsewhere(past + OfScopes(r, front), r, Last(scopes).spans, span.traceId, span.spanId);
    } else {
      SpanStored(past + OfScopes(r, front), r, Last(scopes).spans, k);
    }
    hide Spans, Columns;
  }

  lemma NotInEither(request: seq<ResourceSpans>, id: string, sid: string)
    requires request != [] && !Has(request, 0, id, sid)
    ensures !Has(Front(request), 0, id, sid) && !HasScope(Last(request).scopes, 0, id, sid)
  {
    hide HasScope;
    assert forall i :: 0 <= i < |Front(request)| ==> Front(request)[i] == request[i];
    assert Last(request) == request[|request| - 1];
  }

  lemma {:induction false} Elsewhere(past: seq<Delivery>, request: seq<ResourceSpans>, id: string, sid: string)
    requires !Has(request, 0, id, sid)
    ensures Same(Spans(past), Spans(past + Deliveries(request)), id, sid)
  {
    if request == [] {
      assert past + [] == past;
    } else {
      var front, r := Front(request), Last(request);
      NotInEither(request, id, sid);
      assert past + Deliveries(request) == past + Deliveries(front) + OfScopes(r, r.scopes);
      hide Has, HasScope, Spans, Deliveries;
      Elsewhere(past, front, id, sid);
      ScopesElsewhere(past + Deliveries(front), r, r.scopes, id, sid);
    }
  }

  /** The span at this place is the last of its trace and id in the request. */
  ghost predicate LastPlace(request: seq<ResourceSpans>, i: nat, j: nat, k: nat) {
    && i < |request| && j < |request[i].scopes| && k < |request[i].scopes[j].spans|
    && var spans := request[i].scopes[j].spans;
       var id, sid := spans[k].traceId, spans[k].spanId;
       && !HasSpan(spans, k + 1, id, sid) && !HasScope(request[i].scopes, j + 1, id, sid)
       && !Has(request, i + 1, id, sid)
  }

  /** A last place of all is one before the last resource, if that has no such span, or lies in it. */
  lemma PlaceFront(request: seq<ResourceSpans>, i: nat, j: nat, k: nat)
    requires LastPlace(request, i, j, k)
    ensures var span := request[i].scopes[j].spans[k];
            i < |request| - 1 ==>
              LastPlace(Front(request), i, j, k) && !HasScope(Last(request).scopes, 0, span.traceId, span.spanId)
  {
    hide HasScope, HasSpan;
    assert forall l :: 0 <= l < |Front(request)| ==> Front(request)[l] == request[l];
    assert Last(request) == request[|request| - 1];
  }

  lemma {:induction false} RequestStored(past: seq<Delivery>, request: seq<ResourceSpans>, i: nat, j: nat, k: nat)
    requires LastPlace(request, i, j, k)
    ensures var now, span := Spans(past + Deliveries(request)), request[i].scopes[j].spans[k];
            (span.traceId, span.spanId) in now && Columns(now[(span.traceId, span.spanId)], span, request[i].service)
  {
    var front, r, span := Front(request), Last(request), request[i].scopes[j].spans[k];
    hide Has, HasScope, HasSpan, Spans, Columns;
    PlaceFront(request, i, j, k);
    assert past + Deliveries(request) == past + Deliveries(front) + OfScopes(r, r.scopes);
    hide Deliveries, OfScopes;
    if i < |request| - 1 {
      RequestStored(past, front, i, j, k);
      ScopesElsewhere(past + Deliveries(front), r, r.scopes, span.traceId, span.spanId);
    } else {
      ScopeStored(past + Deliveries(front), r, r.scopes, j, k);
    }
  }

  ghost predicate StoredLast(now: map<(string, string), SpanRow>, request: seq<ResourceSpans>, i: nat, j: nat, k: nat) {
    LastPlace(request, i, j, k) ==>
      var span := request[i].scopes[j].spans[k];
      (span.traceId, span.spanId) in now && Columns(now[(span.traceId, span.spanId)], span, request[i].service)
  }

  /** What a request leaves in the spans table: the last span of each trace and id in it, column by column,
      and everything else as it was. */
  ghost predicate SpansTaken(before: map<(string, string), SpanRow>, now: map<(string, string), SpanRow>,
                             request: seq<ResourceSpans>) {
    && (forall i: nat, j: nat, k: nat :: StoredLast(now, request, i, j, k))
    && (forall id, sid :: !Has(request, 0, id, sid) ==> Same(before, now, id, sid))
  }

  lemma SpansOfRequest(past: seq<Delivery>, request: seq<ResourceSpans>)
    ensures SpansTaken(Spans(past), Spans(past + Deliveries(request)), request)
  {
    var now := Spans(past + Deliveries(request));
    hide Columns, Has, Spans;
    forall i: nat, j: nat, k: nat ensures StoredLast(now, request, i, j, k) {
      if LastPlace(request, i, j, k) { RequestStored(past, request, i, j, k); }
    }
    forall id, sid | !Has(request, 0, id, sid) ensures Same(Spans(past), now, id, sid) {
      Elsewhere(past, request, id, sid);
    }
  }

  // ── The deliveries are the spans of the request, in order ──

  function ScopeTotal(scopes: seq<ScopeSpans>): nat {
    if scopes == [] then 0 else ScopeTotal(Front(scopes)) + |Last(scopes).spans|
  }

  function Total(request: seq<ResourceSpans>): nat {
    if request == [] then 0 else Total(Front(request)) + ScopeTotal(Last(request).scopes)
  }

  lemma {:induction false} SpansInOrder(r: ResourceSpans, spans: seq<Span>)
    ensures |OfSpans(r, spans)| == |spans|
    ensures forall k :: 0 <= k < |spans| ==> OfSpans(r, spans)[k] == Delivery(spans[k], r.service, r.resource)
  {
    if spans != [] { SpansInOrder(r, Front(spans)); }
  }

  lemma {:induction false} ScopesInOrder(r: ResourceSpans, scopes: seq<ScopeSpans>, j: nat, k: nat)
    ensures |OfScopes(r, scopes)| == ScopeTotal(scopes)
    ensures j < |scopes| && k < |scopes[j].spans| ==>
              var n := ScopeTotal(scopes[..j]) + k;
              n < ScopeTotal(scopes) && OfScopes(r, scopes)[n] == Delivery(scopes[j].spans[k], r.service, r.resource)
  {
    if scopes != [] {
      ScopesInOrder(r, Front(scopes), j, k);
      SpansInOrder(r, Last(scopes).spans);
      if j < |scopes| - 1 { assert Front(scopes)[..j] == scopes[..j]; }
      else if j == |scopes| - 1 { assert Front(scopes) == scopes[..j]; }
    }
  }

  /** The span at this place is the n-th delivery, where n spans come before it, under the service and the
      resource it came in. */
  ghost predicate Delivered(request: seq<ResourceSpans>, i: nat, j: nat, k: nat) {
    i < |request| && j < |request[i].scopes| && k < |request[i].scopes[j].spans| ==>
      var r := request[i];
      var n := Total(request[..i]) + ScopeTotal(r.scopes[..j]) + k;
      n < |Deliveries(request)| && Deliveries(request)[n] == Delivery(r.scopes[j].spans[k], r.service, r.resource)
  }

  lemma DeliveredLater(request: seq<ResourceSpans>, i: nat, j: nat, k: nat)
    requires request != [] && i < |request| - 1 && Delivered(Front(request), i, j, k)
    ensures Delivered(request, i, j, k)
  {
    assert Front(request)[..i] == request[..i] && Front(request)[i] == request[i];
    assert Deliveries(request) == Deliveries(Front(request)) + OfScopes(Last(request), Last(request).scopes);
    hide Deliveries, Total, ScopeTotal, OfScopes;
  }

  lemma DeliveredLast(request: seq<ResourceSpans>, j: nat, k: nat)
    requires request != [] && |Deliveries(Front(request))| == Total(Front(request))
    ensures Delivered(request, |request| - 1, j, k)
  {
    var r := Last(request);
    ScopesInOrder(r, r.scopes, j, k);
    assert request[..|request| - 1] == Front(request);
    assert Deliveries(request) == Deliveries(Front(request)) + OfScopes(r, r.scopes);
    hide Deliveries, Total, ScopeTotal, OfScopes;
  }

  /** There are as many deliveries as spans in the request, and they come in its order. */
  lemma {:induction false} DeliveriesInOrder(request: seq<ResourceSpans>, i: nat, j: nat, k: nat)
    ensures |Deliveries(request)| == Total(request) && Delivered(request, i, j, k)
  {
    if request != [] {
      DeliveriesInOrder(Front(request), i, j, k);
      ScopesInOrder(Last(request), Last(request).scopes, 0, 0);
      if i < |request| - 1 { DeliveredLater(request, i, j, k); }
      else if i == |request| - 1 { DeliveredLast(request, j, k); }
      hide Delivered;
    }
  }

  /** Times are read as signed numbers of 64 bits. */
  lemma TimesAreSigned(d: Delivery)
    ensures -TWO63 <= Start(d) < TWO63 && -TWO63 <= End(d) < TWO63
    ensures Start(d) - d.span.start in {0, -2 * TWO63} && End(d) - d.span.end in {0, -2 * TWO63}
  {
  }

  /** The only span of its trace has the duration of the trace. */
  lemma LoneSpan(s: TraceStore, id: string, sid: string)
    requires s.Valid() && (id, sid) in s.spans && id in s.traces && s.traces[id].count == 1
    ensures s.spans[(id, sid)].duration == s.traces[id].duration
  {
    var ds := OfTrace(s.history, id);
    StoredSpansExactly(s.history, id, sid);
    EnvelopeBounds(ds);
    assert Latest(ds, sid).value == ds[0];
    hide Bounds, Spans, OfTrace, Latest, SpanIds;
  }
}
