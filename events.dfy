/** The log events the analyzer passes around. */
module LogEvents {
  import opened Wrappers

  /**
   * A CloudWatch log event as a dictionary: `timestamp` (milliseconds since the
   * epoch) and `message` as `filter_log_events` returns them, and `logType`,
   * which retrieval adds. Any of them may be absent; readers fall back to
   * 0, "" and "unknown".
   */
  datatype LogEvent = LogEvent(timestamp: Option<int>, message: Option<string>, logType: Option<string>)

  /** `event.get('timestamp', 0)`. */
  function TimestampOf(e: LogEvent): int {
    e.timestamp.GetOr(0)
  }

  /** `event.get('message', '')`. */
  function MessageOf(e: LogEvent): string {
    e.message.GetOr("")
  }

  /** `event.get('logType', 'unknown')`. */
  function TypeOf(e: LogEvent): string {
    e.logType.GetOr("unknown")
  }
}
