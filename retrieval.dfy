/**
 * `retrieve_logs`: for each log type, read the events of a time window from
 * the top streams of that type, tag them with the type, and skip every
 * stream whose read fails.
 *
 * The CloudWatch Logs calls are oracle parameters: `describe` answers
 * `describe_log_streams` and `fetch` answers `filter_log_events`. The clock is
 * left out: the window's end points are parameters. The calls the loops make
 * are listed by `Plan`, and `Collect` gives the events those calls
 * contribute; `RetrieveLogs` is proved to return exactly `Retrieved`.
 */
module Retrieval {
  import opened Wrappers
  import opened Sequences
  import opened Sorting
  import opened Streams
  import opened LoggingConfig
  import opened LogEvents

  /** The time range read, in milliseconds since the epoch. */
  datatype Window = Window(startMs: int, endMs: int)

  /** The arguments of a `filter_log_events` call on one stream. */
  datatype FetchRequest = FetchRequest(logGroup: string, stream: string, startMs: int, endMs: int, limit: int)

  /** What a `filter_log_events` call gave back: its events, or a failure. */
  datatype FetchResult = Fetched(events: seq<LogEvent>) | FetchFailed

  /** A `filter_log_events` call, with the log type whose loop iteration made it. */
  datatype Call = Call(logType: string, request: FetchRequest)

  /** At most this many of the selected streams are read per log type. */
  const StreamsPerType: nat := 3

  /** Python's `max_entries // type_count`: the floor of the quotient, also for a negative budget. */
  function PerCallLimit(maxLogEntries: int, typeCount: nat): (limit: int)
    requires typeCount > 0
    ensures limit * typeCount <= maxLogEntries < (limit + 1) * typeCount
  {
    maxLogEntries / typeCount
  }

  /** The calls for one log type: one per stream, in order. */
  function CallsFor(logType: string, logGroup: string, streams: seq<string>, window: Window, limit: int): (calls: seq<Call>)
    ensures |calls| == |streams|
    ensures forall i :: 0 <= i < |streams| ==>
      calls[i] == Call(logType, FetchRequest(logGroup, streams[i], window.startMs, window.endMs, limit))
  {
    seq(|streams|, i requires 0 <= i < |streams| =>
      Call(logType, FetchRequest(logGroup, streams[i], window.startMs, window.endMs, limit)))
  }

  /** The streams read for one log type: the first `StreamsPerType` of `get_log_streams`. */
  function StreamsRead(cluster: string, logType: string, describe: DescribeRequest -> DescribeResult): seq<string> {
    Take(GetLogStreams(cluster, logType, describe), StreamsPerType)
  }

  function TypeCalls(cluster: string, logType: string, window: Window, limit: int, describe: DescribeRequest -> DescribeResult): seq<Call> {
    CallsFor(logType, LogGroupName(cluster), StreamsRead(cluster, logType, describe), window, limit)
  }

  /** Every `filter_log_events` call of the retrieval, in the order the loops make them. */
  function Plan(cluster: string, types: seq<string>, window: Window, limit: int, describe: DescribeRequest -> DescribeResult): seq<Call> {
    if types == [] then []
    else Plan(cluster, types[..|types| - 1], window, limit, describe) + TypeCalls(cluster, types[|types| - 1], window, limit, describe)
  }

  /** The events of one successful fetch, each with `logType` set; nothing else about an event changes. */
  function Tagged(events: seq<LogEvent>, logType: string): (r: seq<LogEvent>)
    ensures |r| == |events|
    ensures forall i :: 0 <= i < |events| ==>
      r[i].logType == Some(logType) && r[i].timestamp == events[i].timestamp && r[i].message == events[i].message
  {
    seq(|events|, i requires 0 <= i < |events| => events[i].(logType := Some(logType)))
  }

  /** What one call adds: its tagged events, or nothing when the fetch failed. */
  function Contribution(call: Call, fetch: FetchRequest -> FetchResult): seq<LogEvent> {
    match fetch(call.request)
    case Fetched(events) => Tagged(events, call.logType)
    case FetchFailed => []
  }

  /** The events the calls contribute, concatenated in call order. */
  function Collect(calls: seq<Call>, fetch: FetchRequest -> FetchResult): seq<LogEvent> {
    if calls == [] then []
    else Collect(calls[..|calls| - 1], fetch) + Contribution(calls[|calls| - 1], fetch)
  }

  /** What `retrieve_logs` returns. */
  function Retrieved(cluster: string, window: Window, requested: seq<string>, config: ClusterLogging, maxLogEntries: int,
                     describe: DescribeRequest -> DescribeResult, fetch: FetchRequest -> FetchResult): seq<LogEvent>
  {
    var types := ResolveLogTypes(requested, config);
    Collect(Plan(cluster, types, window, PerCallLimit(maxLogEntries, |types|), describe), fetch)
  }

  /**
   * `retrieve_logs`: resolves the log types, then for every type and each of
   * its first three streams fetches the window and appends the events, tagged
   * with the type, to `events`; a failed fetch is skipped.
   */
  method RetrieveLogs(cluster: string, window: Window, requested: seq<string>, config: ClusterLogging, maxLogEntries: int,
                      describe: DescribeRequest -> DescribeResult, fetch: FetchRequest -> FetchResult)
    returns (events: seq<LogEvent>)
    ensures events == Retrieved(cluster, window, requested, config, maxLogEntries, describe, fetch)
  {
    var logGroup := LogGroupName(cluster);
    var types := requested;
    if types == [] {
      var _, enabledTypes := CheckClusterLogging(config);
      types := if enabledTypes != [] then enabledTypes else DefaultLogTypes;
    }
    var limit := maxLogEntries / |types|;
    events := [];
    for i := 0 to |types|
      invariant events == Collect(Plan(cluster, types[..i], window, limit, describe), fetch)
    {
      var logType := types[i];
      var streams := GetLogStreams(cluster, logType, describe);
      RetrieveStep(cluster, types, i, window, limit, describe, fetch);
      if streams != [] {
        events := ReadStreams(events, logType, logGroup, Take(streams, StreamsPerType), window, limit, fetch);
      }
    }
    assert types[..|types|] == types;
  }

  /**
   * The loop over one type's streams (`for stream in streams[:3]`): fetch each
   * stream's window and append its events, tagged with the type; a failed
   * fetch adds nothing and the loop goes on.
   */
  method ReadStreams(events: seq<LogEvent>, logType: string, logGroup: string, streams: seq<string>,
                     window: Window, limit: int, fetch: FetchRequest -> FetchResult)
    returns (r: seq<LogEvent>)
    ensures r == events + Collect(CallsFor(logType, logGroup, streams, window, limit), fetch)
  {
    r := events;
    for j := 0 to |streams|
      invariant r == events + Collect(CallsFor(logType, logGroup, streams[..j], window, limit), fetch)
    {
      var request := FetchRequest(logGroup, streams[j], window.startMs, window.endMs, limit);
      CollectNextStream(logType, logGroup, streams, j, window, limit, fetch);
      var result := fetch(request);
      if result.Fetched? {
        r := AppendTagged(r, result.events, logType);
      }
    }
    assert streams[..|streams|] == streams;
  }

  /** The stream loop's step: the call on `streams[j]` adds its contribution. */
  lemma CollectNextStream(logType: string, logGroup: string, streams: seq<string>, j: nat,
                          window: Window, limit: int, fetch: FetchRequest -> FetchResult)
    requires j < |streams|
    ensures var request := FetchRequest(logGroup, streams[j], window.startMs, window.endMs, limit);
      Collect(CallsFor(logType, logGroup, streams[..j + 1], window, limit), fetch)
      == Collect(CallsFor(logType, logGroup, streams[..j], window, limit), fetch)
         + (match fetch(request) case Fetched(batch) => Tagged(batch, logType) case FetchFailed => [])
  {
    var request := FetchRequest(logGroup, streams[j], window.startMs, window.endMs, limit);
    CallsForStep(logType, logGroup, streams, j, window, limit);
    CollectOne(CallsFor(logType, logGroup, streams[..j], window, limit), Call(logType, request), fetch);
  }

  /** The loop `for event in events: event['logType'] = log_type; all_log_events.append(event)`. */
  method AppendTagged(events: seq<LogEvent>, batch: seq<LogEvent>, logType: string) returns (r: seq<LogEvent>)
    ensures r == events + Tagged(batch, logType)
  {
    r := events;
    for k := 0 to |batch|
      invariant r == events + Tagged(batch[..k], logType)
    {
      TaggedStep(batch, k, logType);
      r := r + [batch[k].(logType := Some(logType))];
    }
    assert batch[..|batch|] == batch;
  }

  lemma PlanStep(cluster: string, types: seq<string>, i: nat, window: Window, limit: int, describe: DescribeRequest -> DescribeResult)
    requires i < |types|
    ensures Plan(cluster, types[..i + 1], window, limit, describe)
      == Plan(cluster, types[..i], window, limit, describe) + TypeCalls(cluster, types[i], window, limit, describe)
    ensures TypeCalls(cluster, types[i], window, limit, describe)
      == CallsFor(types[i], LogGroupName(cluster), Take(GetLogStreams(cluster, types[i], describe), StreamsPerType), window, limit)
  {
    assert types[..i + 1][..i] == types[..i];
  }

  /**
   * One pass of the loop over the types: the events of the first `i + 1`
   * types are those of the first `i` followed by those read from the
   * streams of type `i`; a type without streams adds nothing.
   */
  lemma RetrieveStep(cluster: string, types: seq<string>, i: nat, window: Window, limit: int,
                     describe: DescribeRequest -> DescribeResult, fetch: FetchRequest -> FetchResult)
    requires i < |types|
    ensures Collect(Plan(cluster, types[..i + 1], window, limit, describe), fetch)
      == Collect(Plan(cluster, types[..i], window, limit, describe), fetch)
         + Collect(CallsFor(types[i], LogGroupName(cluster), Take(GetLogStreams(cluster, types[i], describe), StreamsPerType), window, limit), fetch)
    ensures GetLogStreams(cluster, types[i], describe) == [] ==>
      Collect(Plan(cluster, types[..i + 1], window, limit, describe), fetch) == Collect(Plan(cluster, types[..i], window, limit, describe), fetch)
  {
    var calls := TypeCalls(cluster, types[i], window, limit, describe);
    PlanStep(cluster, types, i, window, limit, describe);
    CollectAppend(Plan(cluster, types[..i], window, limit, describe), calls, fetch);
    if GetLogStreams(cluster, types[i], describe) == [] {
      assert calls == [];
    }
  }

  lemma CallsForStep(logType: string, logGroup: string, streams: seq<string>, j: nat, window: Window, limit: int)
    requires j < |streams|
    ensures CallsFor(logType, logGroup, streams[..j + 1], window, limit)
      == CallsFor(logType, logGroup, streams[..j], window, limit)
         + [Call(logType, FetchRequest(logGroup, streams[j], window.startMs, window.endMs, limit))]
  {
  }

  lemma TaggedStep(events: seq<LogEvent>, k: nat, logType: string)
    requires k < |events|
    ensures Tagged(events[..k + 1], logType) == Tagged(events[..k], logType) + [events[k].(logType := Some(logType))]
  {
  }

  /** Collecting over two runs of calls is collecting over each, one after the other. */
  lemma {:induction false} CollectAppend(a: seq<Call>, b: seq<Call>, fetch: FetchRequest -> FetchResult)
    ensures Collect(a + b, fetch) == Collect(a, fetch) + Collect(b, fetch)
    decreases |b|
  {
    if b == [] {
      assert a + b == a;
    } else {
      var b', c := b[..|b| - 1], b[|b| - 1];
      assert a + b == (a + b') + [c] && b == b' + [c];
      CollectOne(a + b', c, fetch);
      CollectOne(b', c, fetch);
      CollectAppend(a, b', fetch);
      Associative(Collect(a, fetch), Collect(b', fetch), Contribution(c, fetch));
    }
  }

  /**
   * A failed fetch is skipped: the events of every other call are still
   * there, in order, and the failed call adds nothing.
   */
  lemma FailedFetchIsIsolated(a: seq<Call>, c: Call, b: seq<Call>, fetch: FetchRequest -> FetchResult)
    requires fetch(c.request).FetchFailed?
    ensures Collect(a + [c] + b, fetch) == Collect(a, fetch) + Collect(b, fetch)
  {
    CollectOne(a, c, fetch);
    CollectAppend(a + [c], b, fetch);
  }

  /** A successful fetch adds exactly its own events, tagged, between those of the calls around it. */
  lemma SuccessfulFetchContributes(a: seq<Call>, c: Call, b: seq<Call>, fetch: FetchRequest -> FetchResult)
    requires fetch(c.request).Fetched?
    ensures Collect(a + [c] + b, fetch) == Collect(a, fetch) + Tagged(fetch(c.request).events, c.logType) + Collect(b, fetch)
  {
    CollectOne(a, c, fetch);
    CollectAppend(a + [c], b, fetch);
  }

  lemma CollectOne(a: seq<Call>, c: Call, fetch: FetchRequest -> FetchResult)
    ensures Collect(a + [c], fetch) == Collect(a, fetch) + Contribution(c, fetch)
  {
    var ac := a + [c];
    assert ac[..|ac| - 1] == a && ac[|ac| - 1] == c;
  }

  /** Planning two runs of log types is planning each, one after the other. */
  lemma {:induction false} PlanAppend(cluster: string, a: seq<string>, b: seq<string>, window: Window, limit: int,
                                      describe: DescribeRequest -> DescribeResult)
    ensures Plan(cluster, a + b, window, limit, describe) == Plan(cluster, a, window, limit, describe) + Plan(cluster, b, window, limit, describe)
    decreases |b|
  {
    if b == [] {
      assert a + b == a;
    } else {
      var b', t := b[..|b| - 1], b[|b| - 1];
      assert a + b == (a + b') + [t] && b == b' + [t];
      PlanSnoc(cluster, a + b', t, window, limit, describe);
      PlanSnoc(cluster, b', t, window, limit, describe);
      PlanAppend(cluster, a, b', window, limit, describe);
      Associative(Plan(cluster, a, window, limit, describe), Plan(cluster, b', window, limit, describe),
                  TypeCalls(cluster, t, window, limit, describe));
    }
  }

  lemma PlanSnoc(cluster: string, types: seq<string>, t: string, window: Window, limit: int,
                 describe: DescribeRequest -> DescribeResult)
    ensures Plan(cluster, types + [t], window, limit, describe)
      == Plan(cluster, types, window, limit, describe) + TypeCalls(cluster, t, window, limit, describe)
  {
    var s := types + [t];
    assert s[..|s| - 1] == types && s[|s| - 1] == t;
  }

  /**
   * A log type without streams (a missing log group, a failed listing, or no
   * stream of that type) makes no call; the other types' calls, for the
   * same limit, are unchanged. It still counts in `len(log_types)`, so it
   * does lower the limit every other call carries.
   */
  lemma StreamlessTypeIsSkipped(cluster: string, a: seq<string>, t: string, b: seq<string>, window: Window, limit: int,
                                describe: DescribeRequest -> DescribeResult)
    requires GetLogStreams(cluster, t, describe) == []
    ensures Plan(cluster, a + [t] + b, window, limit, describe) == Plan(cluster, a, window, limit, describe) + Plan(cluster, b, window, limit, describe)
  {
    assert StreamsRead(cluster, t, describe) == [];
    var none := TypeCalls(cluster, t, window, limit, describe);
    assert |none| == 0;
    PlanSnoc(cluster, a, t, window, limit, describe);
    var pa := Plan(cluster, a, window, limit, describe);
    assert pa + none == pa;
    PlanAppend(cluster, a + [t], b, window, limit, describe);
  }

  /** Every collected event carries the log type of a call that produced it. */
  lemma {:induction false} CollectTypes(calls: seq<Call>, fetch: FetchRequest -> FetchResult)
    ensures forall e :: e in Collect(calls, fetch) ==> exists c :: c in calls && e.logType == Some(c.logType)
  {
    if calls != [] {
      var init := calls[..|calls| - 1];
      var last := calls[|calls| - 1];
      CollectTypes(init, fetch);
      forall e | e in Collect(calls, fetch) ensures exists c :: c in calls && e.logType == Some(c.logType) {
        if e in Collect(init, fetch) {
          var c :| c in init && e.logType == Some(c.logType);
          assert c in calls;
        } else {
          assert e in Contribution(last, fetch);
          assert e.logType == Some(last.logType);
        }
      }
    }
  }

  /**
   * The calls: each reads the cluster's log group over the whole window with
   * the same per-call limit, on one of the first three streams selected for
   * one of the resolved types; there are at most three per type.
   */
  lemma {:induction false} PlanCalls(cluster: string, types: seq<string>, window: Window, limit: int, describe: DescribeRequest -> DescribeResult)
    ensures |Plan(cluster, types, window, limit, describe)| <= StreamsPerType * |types|
    ensures forall c :: c in Plan(cluster, types, window, limit, describe) ==>
      c.logType in types
      && c.request.logGroup == LogGroupName(cluster)
      && c.request.startMs == window.startMs && c.request.endMs == window.endMs
      && c.request.limit == limit
      && c.request.stream in StreamsRead(cluster, c.logType, describe)
  {
    if types != [] {
      var init := types[..|types| - 1];
      var t := types[|types| - 1];
      PlanCalls(cluster, init, window, limit, describe);
      var here := TypeCalls(cluster, t, window, limit, describe);
      forall c | c in here
        ensures c.logType == t && c.request.stream in StreamsRead(cluster, t, describe)
      {
        var i :| 0 <= i < |here| && here[i] == c;
      }
      forall c | c in init ensures c in types {
      }
    }
  }

  /**
   * Every retrieved event is tagged with one of the resolved log types, and
   * every `filter_log_events` call of the retrieval uses the limit
   * `max_log_entries // len(log_types)`.
   */
  lemma RetrievedTypes(cluster: string, window: Window, requested: seq<string>, config: ClusterLogging, maxLogEntries: int,
                       describe: DescribeRequest -> DescribeResult, fetch: FetchRequest -> FetchResult)
    ensures var types := ResolveLogTypes(requested, config);
      forall e :: e in Retrieved(cluster, window, requested, config, maxLogEntries, describe, fetch) ==>
        e.logType.Some? && e.logType.value in types
    ensures var types := ResolveLogTypes(requested, config);
      forall c :: c in Plan(cluster, types, window, PerCallLimit(maxLogEntries, |types|), describe) ==>
        c.request.limit == maxLogEntries / |types|
  {
    var types := ResolveLogTypes(requested, config);
    var plan := Plan(cluster, types, window, PerCallLimit(maxLogEntries, |types|), describe);
    PlanCalls(cluster, types, window, PerCallLimit(maxLogEntries, |types|), describe);
    CollectTypes(plan, fetch);
  }

  /** CloudWatch's promise: a successful `filter_log_events` call returns at most `limit` events. */
  ghost predicate HonoursLimits(fetch: FetchRequest -> FetchResult) {
    forall r :: fetch(r).Fetched? ==> |fetch(r).events| <= if r.limit < 0 then 0 else r.limit
  }

  lemma {:induction false} CollectBound(calls: seq<Call>, limit: nat, fetch: FetchRequest -> FetchResult)
    requires HonoursLimits(fetch)
    requires forall c :: c in calls ==> c.request.limit == limit
    ensures |Collect(calls, fetch)| <= |calls| * limit
  {
    if calls != [] {
      var init := calls[..|calls| - 1];
      var last := calls[|calls| - 1];
      assert forall c :: c in init ==> c in calls;
      CollectBound(init, limit, fetch);
      assert last in calls;
      assert |Contribution(last, fetch)| <= limit;
      MulStep(|init|, limit);
    }
  }

  /**
   * No global cap is applied: when CloudWatch honours each limit, the
   * retrieval returns at most three times `max_log_entries` events (three
   * streams per type, each read with a `1/len(log_types)` share).
   */
  lemma RetrievedBound(cluster: string, window: Window, requested: seq<string>, config: ClusterLogging, maxLogEntries: nat,
                       describe: DescribeRequest -> DescribeResult, fetch: FetchRequest -> FetchResult)
    requires HonoursLimits(fetch)
    ensures |Retrieved(cluster, window, requested, config, maxLogEntries, describe, fetch)| <= StreamsPerType * maxLogEntries
  {
    var types := ResolveLogTypes(requested, config);
    var limit := PerCallLimit(maxLogEntries, |types|);
    var plan := Plan(cluster, types, window, limit, describe);
    PlanLimits(cluster, types, window, limit, describe);
    BudgetBound(|plan|, |types|, maxLogEntries);
    CollectBound(plan, limit, fetch);
  }

  /** The per-call limit is a share of a non-negative budget, and `p <= 3n` calls of it stay within three budgets. */
  lemma BudgetBound(p: nat, n: nat, m: nat)
    requires n > 0 && p <= StreamsPerType * n
    ensures PerCallLimit(m, n) >= 0
    ensures p * PerCallLimit(m, n) <= StreamsPerType * m
  {
    var l := PerCallLimit(m, n);
    NonPositiveProduct(l + 1, n);
    assert l >= 0;
    ShareBound(p, n, l, m);
  }

  /** A factor that is not positive, times a natural number, is not positive. */
  lemma {:induction false} NonPositiveProduct(a: int, n: nat)
    ensures a <= 0 ==> a * n <= 0
    decreases n
  {
    if n > 0 {
      NonPositiveProduct(a, n - 1);
      assert a * n == a * (n - 1) + a;
    }
  }

  /** The part of `PlanCalls` the bound needs: how many calls, and their common limit. */
  lemma PlanLimits(cluster: string, types: seq<string>, window: Window, limit: int, describe: DescribeRequest -> DescribeResult)
    ensures |Plan(cluster, types, window, limit, describe)| <= StreamsPerType * |types|
    ensures forall c :: c in Plan(cluster, types, window, limit, describe) ==> c.request.limit == limit
  {
    PlanCalls(cluster, types, window, limit, describe);
  }

  /** `p <= 3n` calls, each bringing at most `l` events, with `l * n <= m`, bring at most `3m`. */
  lemma ShareBound(p: nat, n: nat, l: nat, m: nat)
    requires p <= StreamsPerType * n
    requires l * n <= m
    ensures p * l <= StreamsPerType * m
  {
    MulMono(p, StreamsPerType * n, l);
    assert StreamsPerType * n * l == StreamsPerType * (l * n);
  }

  lemma MulStep(n: nat, l: nat)
    ensures (n + 1) * l == n * l + l
  {
  }

  lemma MulMono(a: nat, b: nat, c: nat)
    requires a <= b
    ensures a * c <= b * c
  {
  }
}
