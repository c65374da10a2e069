/**
 * Choosing the log streams to read for one log type (`get_log_group_name`
 * and `get_log_streams`). The CloudWatch Logs call `describe_log_streams` is
 * an oracle parameter: the model sees only what it answered.
 */
module Streams {
  import opened Wrappers
  import opened Sorting

  /** One entry of a `describe_log_streams` answer; `lastEventTimestamp` (milliseconds) may be absent. */
  datatype StreamInfo = StreamInfo(name: string, lastEventTimestamp: Option<int>)

  /** The arguments of a `describe_log_streams` call. */
  datatype DescribeRequest = DescribeRequest(logGroup: string, prefix: string, limit: nat)

  /** What the call gave back: the listed streams, a missing log group, or any other failure. */
  datatype DescribeResult = Listed(streams: seq<StreamInfo>) | GroupNotFound | DescribeFailed

  /** At most this many streams are listed per call. */
  const DescribeLimit: nat := 50

  /** At most this many stream names are returned, most recently active first. */
  const MaxSelected: nat := 5

  const GroupPrefix: string := "/aws/eks/"
  const GroupSuffix: string := "/cluster"

  /** The CloudWatch log group of a cluster. */
  function LogGroupName(cluster: string): (g: string)
    ensures |g| == |GroupPrefix| + |cluster| + |GroupSuffix|
    ensures g[|GroupPrefix|..|g| - |GroupSuffix|] == cluster
  {
    var g := GroupPrefix + cluster + GroupSuffix;
    assert g[|GroupPrefix|..|g| - |GroupSuffix|] == cluster;
    g
  }

  /** Distinct clusters never share a log group. */
  lemma LogGroupNameInjective(a: string, b: string)
    requires LogGroupName(a) == LogGroupName(b)
    ensures a == b
  {
  }

  /** The sort key: the last event time, with a missing timestamp counting as 0. */
  function Activity(s: StreamInfo): int {
    s.lastEventTimestamp.GetOr(0)
  }

  /**
   * `sorted(streams, key=..., reverse=True)[:5]`: the `MaxSelected` most
   * recently active streams of the listing, newest first, ties in listing order.
   */
  function SelectStreams(streams: seq<StreamInfo>): seq<StreamInfo> {
    TopByKey(streams, MaxSelected, Activity)
  }

  function Names(streams: seq<StreamInfo>): (names: seq<string>)
    ensures |names| == |streams|
    ensures forall i :: 0 <= i < |streams| ==> names[i] == streams[i].name
  {
    seq(|streams|, i requires 0 <= i < |streams| => streams[i].name)
  }

  /** The names to read, from a `describe_log_streams` answer; a missing group or a failure gives none. */
  function StreamNames(result: DescribeResult): (names: seq<string>)
    ensures |names| <= MaxSelected
  {
    match result
    case Listed(streams) => Names(SelectStreams(streams))
    case GroupNotFound => []
    case DescribeFailed => []
  }

  /** The `describe_log_streams` call made for one log type of a cluster. */
  function StreamsRequest(cluster: string, logType: string): DescribeRequest {
    DescribeRequest(LogGroupName(cluster), logType, DescribeLimit)
  }

  /** `get_log_streams`: list the streams named after the log type and keep the most recently active. */
  function GetLogStreams(cluster: string, logType: string, describe: DescribeRequest -> DescribeResult): (names: seq<string>)
    ensures |names| <= MaxSelected
    ensures !describe(StreamsRequest(cluster, logType)).Listed? ==> names == []
  {
    StreamNames(describe(StreamsRequest(cluster, logType)))
  }
}
