/**
 * `format_logs_for_bedrock`: the text that carries the retrieved log events to
 * the language model. It holds a header (hours covered, total events, a count
 * per log type in first-appearance order) and then at most `MaxShown` events,
 * most recent first, numbered from 1, each with its time, its upper-cased log
 * type and its stripped message cut at `MaxMessage` characters.
 *
 * Rendering a millisecond timestamp as local time is the parameter `showTime`.
 */
module Compaction {
  import opened Sequences
  import opened Text
  import opened Sorting
  import opened LogEvents

  /** The whole text when there are no events. */
  const NoEventsText: string := "No log events found in the specified time range."

  /** At most this many events are written out in full. */
  const MaxShown: nat := 150

  /** A longer message is cut to this many characters and followed by "...". */
  const MaxMessage: nat := 500

  /** The message as written into an entry: its first `MaxMessage` characters, marked with "..." when it was longer. */
  function Clip(m: string): (r: string)
    ensures |m| <= MaxMessage ==> r == m
    ensures |m| > MaxMessage ==> |r| == MaxMessage + 3 && r[..MaxMessage] == m[..MaxMessage] && r[MaxMessage..] == "..."
  {
    if |m| > MaxMessage then m[..MaxMessage] + "..." else m
  }

  ghost predicate Distinct(ks: seq<string>) {
    forall i, j :: 0 <= i < j < |ks| ==> ks[i] != ks[j]
  }

  /** The dictionary `log_types`: the count per type, and the keys in insertion order. */
  datatype Tally = Tally(keys: seq<string>, counts: map<string, nat>)

  /** `log_types[t] = log_types.get(t, 0) + 1`: a new key goes after the existing ones. */
  function Count(tally: Tally, t: string): Tally {
    var n := if t in tally.counts then tally.counts[t] else 0;
    Tally(if t in tally.counts then tally.keys else tally.keys + [t], tally.counts[t := n + 1])
  }

  /** The dictionary after counting the log type of every event, in order. */
  function TallyOf(events: seq<LogEvent>): (tally: Tally)
    ensures forall k :: k in tally.keys ==> k in tally.counts
  {
    if events == [] then Tally([], map[])
    else Count(TallyOf(events[..|events| - 1]), TypeOf(events[|events| - 1]))
  }

  /** How many of the events have log type `t`. */
  function Occurrences(events: seq<LogEvent>, t: string): (n: nat)
    ensures n <= |events|
    ensures n > 0 <==> exists i :: 0 <= i < |events| && TypeOf(events[i]) == t
  {
    if events == [] then 0
    else
      var init := events[..|events| - 1];
      var n := Occurrences(init, t) + (if TypeOf(events[|events| - 1]) == t then 1 else 0);
      assert forall i :: 0 <= i < |init| ==> init[i] == events[i];
      n
  }

  /** The distinct log types of the events, each where it first appears. */
  function FirstAppearances(events: seq<LogEvent>): (ks: seq<string>)
    ensures Distinct(ks)
    ensures forall t :: t in ks <==> exists i :: 0 <= i < |events| && TypeOf(events[i]) == t
  {
    if events == [] then []
    else
      var init := events[..|events| - 1];
      var t := TypeOf(events[|events| - 1]);
      var ks := FirstAppearances(init);
      assert forall i :: 0 <= i < |init| ==> init[i] == events[i];
      if t in ks then ks else ks + [t]
  }

  /** `p` is the first position of an event of type `t`. */
  ghost predicate FirstAt(events: seq<LogEvent>, t: string, p: int) {
    0 <= p < |events| && TypeOf(events[p]) == t && forall i :: 0 <= i < p ==> TypeOf(events[i]) != t
  }

  /** `FirstAppearances` lists the types in the order of their first events. */
  lemma {:induction false} FirstAppearancesOrdered(events: seq<LogEvent>)
    ensures forall i, j, p, q ::
      (0 <= i < j < |FirstAppearances(events)| &&
       FirstAt(events, FirstAppearances(events)[i], p) && FirstAt(events, FirstAppearances(events)[j], q))
      ==> p < q
  {
    if events != [] {
      var n := |events| - 1;
      var init := events[..n];
      var ks := FirstAppearances(init);
      FirstAppearancesOrdered(init);
      forall t, p | FirstAt(events, t, p) && t in ks ensures p < n && FirstAt(init, t, p) {
        var m :| 0 <= m < |init| && TypeOf(init[m]) == t;
        assert TypeOf(events[m]) == t;
      }
    }
  }

  /** The sum of the counts of the given keys. */
  function Sum(keys: seq<string>, counts: map<string, nat>): nat
    requires forall k :: k in keys ==> k in counts
  {
    if keys == [] then 0 else counts[keys[0]] + Sum(keys[1..], counts)
  }

  lemma {:induction false} SumBump(keys: seq<string>, counts: map<string, nat>, t: string, n: nat)
    requires forall k :: k in keys ==> k in counts
    requires Distinct(keys) && t in keys && t in counts
    ensures Sum(keys, counts[t := n]) + counts[t] == Sum(keys, counts) + n
  {
    if keys[0] == t {
      SumFrame(keys[1..], counts, t, n);
    } else {
      assert Distinct(keys[1..]) by {
        forall i, j | 0 <= i < j < |keys[1..]| ensures keys[1..][i] != keys[1..][j] {
          assert keys[1..][i] == keys[i + 1] && keys[1..][j] == keys[j + 1];
        }
      }
      SumBump(keys[1..], counts, t, n);
    }
  }

  /** Changing the count of a key not listed leaves the sum alone. */
  lemma {:induction false} SumFrame(keys: seq<string>, counts: map<string, nat>, t: string, n: nat)
    requires forall k :: k in keys ==> k in counts
    requires t !in keys
    ensures Sum(keys, counts[t := n]) == Sum(keys, counts)
  {
    if keys != [] {
      SumFrame(keys[1..], counts, t, n);
    }
  }

  lemma {:induction false} SumAppend(keys: seq<string>, counts: map<string, nat>, t: string)
    requires forall k :: k in keys + [t] ==> k in counts
    ensures Sum(keys + [t], counts) == Sum(keys, counts) + counts[t]
  {
    if keys == [] {
      assert keys + [t] == [t];
    } else {
      assert (keys + [t])[1..] == keys[1..] + [t];
      SumAppend(keys[1..], counts, t);
    }
  }

  /**
   * The dictionary counts every log type that occurs, and only those: its keys
   * are the types in order of first appearance, each key's count is the number
   * of events of that type, and the counts add up to the number of events.
   */
  lemma TallyCounts(events: seq<LogEvent>)
    ensures TallyOf(events).keys == FirstAppearances(events)
    ensures forall t :: t in TallyOf(events).counts <==> t in TallyOf(events).keys
    ensures forall t :: t in TallyOf(events).counts ==> TallyOf(events).counts[t] == Occurrences(events, t)
    ensures Sum(TallyOf(events).keys, TallyOf(events).counts) == |events|
  {
    TallyKeys(events);
    TallyOccurrences(events);
    TallySum(events);
  }

  lemma {:induction false} TallyKeys(events: seq<LogEvent>)
    ensures TallyOf(events).keys == FirstAppearances(events)
    ensures forall t :: t in TallyOf(events).counts <==> t in TallyOf(events).keys
  {
    if events != [] {
      TallyKeys(events[..|events| - 1]);
    }
  }

  lemma {:induction false} TallyOccurrences(events: seq<LogEvent>)
    ensures forall t :: t in TallyOf(events).counts ==> TallyOf(events).counts[t] == Occurrences(events, t)
  {
    if events != [] {
      var init := events[..|events| - 1];
      TallyOccurrences(init);
      TallyKeys(init);
      forall t | t !in TallyOf(init).counts ensures Occurrences(init, t) == 0 {
        assert t !in FirstAppearances(init);
      }
    }
  }

  lemma {:induction false} TallySum(events: seq<LogEvent>)
    ensures Sum(TallyOf(events).keys, TallyOf(events).counts) == |events|
  {
    if events != [] {
      var n := |events| - 1;
      var init := events[..n];
      var t := TypeOf(events[n]);
      TallySum(init);
      TallyKeys(init);
      var before := TallyOf(init);
      if t in before.counts {
        SumBump(before.keys, before.counts, t, before.counts[t] + 1);
      } else {
        SumFrame(before.keys, before.counts, t, 1);
        SumAppend(before.keys, before.counts[t := 1], t);
      }
    }
  }

  /**
   * One numbered entry: number, time, upper-cased type, then the stripped and
   * clipped message, indented. However long the message, the entry is
   * bounded: its message part is at most `MaxMessage` characters and `...`.
   */
  function EntryText(index: nat, e: LogEvent, showTime: int -> string): (text: string)
    ensures |text| <= |NatToString(index)| + |showTime(TimestampOf(e))| + |TypeOf(e)| + MaxMessage + 16
  {
    NatToString(index) + ". [" + showTime(TimestampOf(e)) + "] [" + Upper(TypeOf(e)) + "]\n"
      + "   " + Clip(Strip(MessageOf(e))) + "\n\n"
  }

  /** The entries of the shown events, numbered from 1 in their order. */
  function EntriesText(shown: seq<LogEvent>, showTime: int -> string): string {
    if shown == [] then ""
    else EntriesText(shown[..|shown| - 1], showTime) + EntryText(|shown|, shown[|shown| - 1], showTime)
  }

  /** The first line of a formatted text that has events. */
  const Banner: string := "=== EKS CLUSTER LOGS ANALYSIS ===\n"

  function RangeLine(hoursBack: int): string {
    "Time Range: Last " + IntToString(hoursBack) + " hours\n"
  }

  function TotalLine(total: nat): string {
    "Total Events: " + NatToString(total) + "\n"
  }

  /** `type(count)` for a key of the dictionary. */
  function TypeEntry(k: string, n: nat): string {
    k + "(" + NatToString(n) + ")"
  }

  /** The `type(count)` texts of the dictionary, in insertion order. */
  function TypeEntries(tally: Tally): (entries: seq<string>)
    requires forall k :: k in tally.keys ==> k in tally.counts
    ensures |entries| == |tally.keys|
    ensures forall i :: 0 <= i < |tally.keys| ==> entries[i] == TypeEntry(tally.keys[i], tally.counts[tally.keys[i]])
  {
    seq(|tally.keys|, i requires 0 <= i < |tally.keys| => TypeEntry(tally.keys[i], tally.counts[tally.keys[i]]))
  }

  /** The `type(count)` texts separated by ", ". */
  function TypesLine(tally: Tally): string
    requires forall k :: k in tally.keys ==> k in tally.counts
  {
    "Log Types: " + Join(TypeEntries(tally), ", ") + "\n"
  }

  /** The types line names every key of the dictionary with its count. */
  lemma TypesLineNamesCounts(tally: Tally, k: string)
    requires forall k :: k in tally.keys ==> k in tally.counts
    requires k in tally.keys
    ensures exists p :: OccursAt(TypesLine(tally), TypeEntry(k, tally.counts[k]), p)
  {
    var entries := TypeEntries(tally);
    var i :| 0 <= i < |tally.keys| && tally.keys[i] == k;
    JoinContains(entries, ", ", i);
    var p :| OccursAt(Join(entries, ", "), entries[i], p);
    OccursWithin("Log Types: ", Join(entries, ", "), "\n", entries[i], p);
    assert entries[i] == TypeEntry(k, tally.counts[k]);
    assert OccursAt(TypesLine(tally), entries[i], |"Log Types: "| + p);
  }

  function ShownLine(shown: nat): string {
    "\n=== DETAILED LOG EVENTS (Most Recent " + NatToString(shown) + ") ===\n\n"
  }

  function Header(hoursBack: int, total: nat, tally: Tally, shown: nat): string
    requires forall k :: k in tally.keys ==> k in tally.counts
  {
    Banner + RangeLine(hoursBack) + TotalLine(total) + TypesLine(tally) + ShownLine(shown)
  }

  /** A text that starts with the header is longer than, so never equal to, the no-events sentinel. */
  lemma HeaderIsNotSentinel(hoursBack: int, total: nat, tally: Tally, shown: nat, rest: string)
    requires forall k :: k in tally.keys ==> k in tally.counts
    ensures Header(hoursBack, total, tally, shown) + rest != NoEventsText
  {
    assert |NoEventsText| == 48;
    assert |Banner + RangeLine(hoursBack)| > 48;
  }

  /** The events written out in full: the `MaxShown` most recent, newest first. */
  function Shown(events: seq<LogEvent>): seq<LogEvent> {
    TopByKey(events, MaxShown, TimestampOf)
  }

  /**
   * The formatted text. It is the fixed sentinel exactly when there are no
   * events, so a caller can tell the two apart.
   */
  function Formatted(events: seq<LogEvent>, hoursBack: int, showTime: int -> string): (text: string)
    ensures events == [] <==> text == NoEventsText
  {
    if events == [] then NoEventsText
    else
      var text := Header(hoursBack, |events|, TallyOf(events), |Shown(events)|) + EntriesText(Shown(events), showTime);
      HeaderIsNotSentinel(hoursBack, |events|, TallyOf(events), |Shown(events)|, EntriesText(Shown(events), showTime));
      text
  }

  /**
   * The header states the true totals: the number of events, a count per type
   * that is that type's number of events, and as many entries as are shown,
   * which is the number of events capped at `MaxShown`.
   */
  lemma FormattedHeader(events: seq<LogEvent>, hoursBack: int, showTime: int -> string)
    requires events != []
    ensures Formatted(events, hoursBack, showTime) ==
      Header(hoursBack, |events|, TallyOf(events), |Shown(events)|) + EntriesText(Shown(events), showTime)
    ensures |Shown(events)| == if |events| <= MaxShown then |events| else MaxShown
    ensures forall t :: t in TallyOf(events).counts ==> TallyOf(events).counts[t] == Occurrences(events, t)
    ensures Sum(TallyOf(events).keys, TallyOf(events).counts) == |events|
  {
    TallyCounts(events);
  }

  /**
   * The formatted text names every type that occurs among the events, with
   * its true number of events, as `type(count)`.
   */
  lemma FormattedNamesEveryType(events: seq<LogEvent>, hoursBack: int, showTime: int -> string, t: string)
    requires exists i :: 0 <= i < |events| && TypeOf(events[i]) == t
    ensures exists p :: OccursAt(Formatted(events, hoursBack, showTime), TypeEntry(t, Occurrences(events, t)), p)
  {
    TallyCounts(events);
    var tally := TallyOf(events);
    assert t in tally.keys;
    TypesLineNamesCounts(tally, t);
    var needle := TypeEntry(t, tally.counts[t]);
    var p :| OccursAt(TypesLine(tally), needle, p);
    var a := Banner + RangeLine(hoursBack) + TotalLine(|events|);
    var b := ShownLine(|Shown(events)|) + EntriesText(Shown(events), showTime);
    OccursWithin(a, TypesLine(tally), b, needle, p);
    FormattedHeader(events, hoursBack, showTime);
    Associative(a + TypesLine(tally), ShownLine(|Shown(events)|), EntriesText(Shown(events), showTime));
  }

  /**
   * `format_logs_for_bedrock`: counts the types in a loop over a dictionary,
   * then appends the header lines and one entry per shown event.
   */
  method FormatLogs(events: seq<LogEvent>, hoursBack: int, showTime: int -> string) returns (text: string)
    ensures text == Formatted(events, hoursBack, showTime)
  {
    if events == [] {
      return NoEventsText;
    }
    var shown := TopByKey(events, MaxShown, TimestampOf);
    var tally := CountTypes(events);
    text := Banner;
    text := text + RangeLine(hoursBack);
    text := text + TotalLine(|events|);
    text := text + TypesLine(tally);
    text := text + ShownLine(|shown|);
    text := AppendEntries(text, shown, showTime);
  }

  /** The counting loop of `format_logs_for_bedrock`: one dictionary update per event. */
  method CountTypes(events: seq<LogEvent>) returns (tally: Tally)
    ensures tally == TallyOf(events)
  {
    var keys: seq<string> := [];
    var counts: map<string, nat> := map[];
    for i := 0 to |events|
      invariant Tally(keys, counts) == TallyOf(events[..i])
    {
      assert events[..i + 1][..i] == events[..i];
      var t := TypeOf(events[i]);
      var n := if t in counts then counts[t] else 0;
      if t !in counts {
        keys := keys + [t];
      }
      counts := counts[t := n + 1];
    }
    assert events[..|events|] == events;
    tally := Tally(keys, counts);
  }

  /** The entry loop of `format_logs_for_bedrock`: one numbered entry per shown event. */
  method AppendEntries(header: string, shown: seq<LogEvent>, showTime: int -> string) returns (text: string)
    ensures text == header + EntriesText(shown, showTime)
  {
    text := header;
    for i := 0 to |shown|
      invariant text == header + EntriesText(shown[..i], showTime)
    {
      EntriesStep(shown, i, showTime);
      Associative(header, EntriesText(shown[..i], showTime), EntryText(i + 1, shown[i], showTime));
      text := text + EntryText(i + 1, shown[i], showTime);
    }
    assert shown[..|shown|] == shown;
  }

  lemma EntriesStep(shown: seq<LogEvent>, i: nat, showTime: int -> string)
    requires i < |shown|
    ensures EntriesText(shown[..i + 1], showTime) == EntriesText(shown[..i], showTime) + EntryText(i + 1, shown[i], showTime)
  {
    assert shown[..i + 1][..i] == shown[..i];
  }

}
