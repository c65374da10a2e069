# EKS log analyzer: retrieval, compaction and question loop

A Dafny model of the core of `eks_log_analyzer.py`. The model covers the
path from an EKS cluster to the text handed to the language model:

- **Streams** (`streams.dfy`): the log group of a cluster and the choice of
  log streams per log type (`get_log_group_name`, `get_log_streams`). The
  five most recently active streams are kept, newest first, with ties in
  listing order.
- **LoggingConfig** (`logging_config.dfy`): which log types a cluster has
  enabled (`check_cluster_logging`), and which types a retrieval reads when
  none are requested.
- **Retrieval** (`retrieval.dfy`): `retrieve_logs`. For each type it reads
  the first three selected streams over a time window, with a per-call
  limit of `max_log_entries // len(log_types)`. It tags each event with its
  type and skips a stream whose read fails.
- **Compaction** (`compaction.dfy`): `format_logs_for_bedrock`. The header
  counts every event and every type. The 150 most recent events are written
  out, newest first, with each message stripped and clipped to 500
  characters.
- **Interaction** (`interaction.dfy`):
  - the keyword test that decides whether a general question is about the
    user's own clusters;
  - how the two interactive loops read a line (exit word, blank, question);
  - the numbered cluster pick of `main`.
- **Sorting** and **Text** hold the supporting library:
  - `Sorting` models Python's stable `sorted(..., reverse=True)[:n]`;
  - `Text` models `str.strip`, `lower`, `upper`, `isdigit`, `int`, `in`
    on strings, `", ".join` and integer formatting.
- **Wrappers**, **Sequences** and **LogEvents** hold small shared
  definitions.

The AWS calls become function parameters whose answers the model takes as
given:
- `describe` answers `describe_log_streams`;
- `fetch` answers `filter_log_events`;
- the `describe_cluster` answer is passed in as a `ClusterLogging` value.

The language model's answers are a parameter `answer`. The clock is a
`Window` of two timestamps, and `strftime` is a parameter `showTime`.

Each loop of the source is a method proved equal to a specification
function. The properties are proved about those functions:
- `RetrieveLogs` returns `Retrieved`;
- `FormatLogs` returns `Formatted`;
- `CountTypes` returns `TallyOf`;
- `CheckClusterLogging` returns `EnabledTypes`;
- `Session` returns `Questions`. `Session` is the question loop corrected to
  stop at the end of the input; the loop as written, which does not, is
  `LoopAsWritten` (see "## Findings").

Behaviours of the code worth knowing:
- The per-call limit `max_log_entries // len(log_types)` is applied to each
  stream read, not to each type. A type can therefore contribute up to
  three times its share, and the whole retrieval up to three times
  `max_log_entries` (`Retrieval.RetrievedBound`).
- The type list is never empty by the time the limit is computed: the
  requested types, else the enabled ones, else `api` and `audit`. So there
  is no case in which retrieval is skipped for want of types
  (`LoggingConfig.ResolveLogTypes`).
- Every message is stripped before it is clipped, including one longer than
  500 characters.
- A requested type that has no streams makes no call, but it still counts
  in `len(log_types)`. So it lowers the per-call limit of every other type
  (`Retrieval.RetrievedTypes`, `Retrieval.StreamlessTypeIsSkipped`).

## Model

| member | source | states |
|---|---|---|
| Streams.LogGroupName | eks_log_analyzer.py:111-113 | the group name is `/aws/eks/` + cluster + `/cluster`, and the cluster can be read back from it |
| Streams.LogGroupNameInjective | eks_log_analyzer.py:111-113 | two clusters with the same log group are the same cluster |
| Streams.GetLogStreams | eks_log_analyzer.py:115-136 | at most five names; a missing log group or a failed call gives no names |
| Sorting.TopByKey | eks_log_analyzer.py:127-129 | the result has min(n, len) elements and is a sub-multiset of the input. It is sorted by key, newest first. Every element left out has a key no larger than any element kept. The elements kept for each key are a prefix of that key's elements in input order (stability) |
| Sorting.SortDesc | eks_log_analyzer.py:128 | the stable descending sort is a permutation, is sorted by key, and keeps the input order within each key |
| Sorting.SortedUnique | eks_log_analyzer.py:128 | two key-sorted sequences with the same elements in the same order for every key are equal, so the stable sort has exactly one result |
| Sorting.StableSortIsSortDesc | eks_log_analyzer.py:128 | any key-sorted rearrangement that keeps each key's input order is `SortDesc` |
| Sorting.Take | eks_log_analyzer.py:129 | the slice `[:n]`: a prefix of length min(n, len) |
| LoggingConfig.EnabledTypesMembers | eks_log_analyzer.py:71-76 | a type is reported exactly when some setup with `enabled` true lists it |
| LoggingConfig.CheckClusterLogging | eks_log_analyzer.py:67-85 | the loop collects the types of the enabled setups in order; logging counts as enabled exactly when that list is non-empty, and otherwise the list returned is empty |
| LoggingConfig.ResolveLogTypes | eks_log_analyzer.py:153-156 | the types read are never empty. They are the requested types when there are any. Otherwise they are the enabled types when there are any, and exactly `api` and `audit` when there are none |
| LoggingConfig.ResolveDefaults | eks_log_analyzer.py:154-156 | with nothing requested and no setup both enabled and listing a type (setups disabled, or enabled with `types` empty or absent), the types read are `api` and `audit` |
| LoggingConfig.EnabledTypesNone | eks_log_analyzer.py:74-76 | without a setup that is enabled and lists a type, no type is reported |
| Retrieval.PerCallLimit | eks_log_analyzer.py:177 | `//` is floor division: limit × count ≤ budget < (limit + 1) × count, negative budgets included |
| Retrieval.RetrieveLogs | eks_log_analyzer.py:138-196 | the events returned are exactly those contributed by the planned calls, in order |
| Retrieval.ReadStreams | eks_log_analyzer.py:170-189 | the stream loop appends each successful call's tagged events to what was there before |
| Retrieval.AppendTagged | eks_log_analyzer.py:180-183 | the event loop appends the fetched events, tagged, in order |
| Retrieval.RetrieveStep | eks_log_analyzer.py:158-189 | one pass over a type appends the events read from its first three streams; a type without streams adds nothing |
| Retrieval.CollectAppend | eks_log_analyzer.py:158-189 | the events of two runs of calls are the events of each run, concatenated |
| Retrieval.PlanAppend | eks_log_analyzer.py:158-178 | the calls for two lists of types are the calls for each list, concatenated |
| Retrieval.FailedFetchIsIsolated | eks_log_analyzer.py:187-189 | a failed fetch adds nothing and changes nothing the other calls contribute |
| Retrieval.SuccessfulFetchContributes | eks_log_analyzer.py:180-183 | a successful fetch adds exactly its events, tagged, between the events of the calls before and after it |
| Retrieval.StreamlessTypeIsSkipped | eks_log_analyzer.py:163-167 | a type with no streams makes no call; the other types' calls, for the same limit, are unchanged |
| Retrieval.CollectTypes | eks_log_analyzer.py:181-183 | every collected event carries the type of a call that produced it |
| Retrieval.PlanCalls | eks_log_analyzer.py:158-178 | at most three calls per listed entry (a type listed twice is read twice); each call is made for a listed type, on one of its first three selected streams |
| Retrieval.RetrievedTypes | eks_log_analyzer.py:152-183 | every retrieved event is tagged with one of the resolved types, and every call uses the limit `max_log_entries // len(types)` |
| Retrieval.CollectBound | eks_log_analyzer.py:170-183 | if each fetch honours its limit, calls sharing a limit return at most calls × limit events |
| Retrieval.RetrievedBound | eks_log_analyzer.py:170-183 | if each fetch honours its limit, the retrieval returns at most three times `max_log_entries` events |
| Compaction.EntryText | eks_log_analyzer.py:224-230 | the entry is the number, time and upper-cased type line, then the stripped and clipped message indented, as the f-strings of lines 229-230 write it. Whatever the message's length, the entry has at most 516 characters beyond the number, time and type |
| Compaction.TypesLineNamesCounts | eks_log_analyzer.py:221 | the `Log Types:` line contains `type(count)` for every key of the dictionary |
| Compaction.FormattedNamesEveryType | eks_log_analyzer.py:210-222 | the formatted text contains `type(count)` for every type that occurs among the events, with its true number of events |
| Compaction.Clip | eks_log_analyzer.py:230 | a message of at most 500 characters is kept; a longer one becomes its first 500 characters followed by `...` |
| Compaction.Occurrences | eks_log_analyzer.py:213-215 | a type's count is at most the number of events, and positive exactly when some event has that type |
| Compaction.FirstAppearances | eks_log_analyzer.py:211-215 | the dictionary's keys are distinct, and they are exactly the types that occur (`unknown` for an untyped event) |
| Compaction.FirstAppearancesOrdered | eks_log_analyzer.py:211-215 | the keys are in the order in which the types first occur, as a dictionary keeps insertion order |
| Compaction.TallyCounts | eks_log_analyzer.py:210-215 | the tally's keys are the first appearances. Each count is that type's number of events, and the counts sum to the number of events |
| Compaction.CountTypes | eks_log_analyzer.py:211-215 | the dictionary loop computes the tally |
| Compaction.HeaderIsNotSentinel | eks_log_analyzer.py:200-201 | no text that starts with the header is the no-events sentinel |
| Compaction.Formatted | eks_log_analyzer.py:198-232 | the text is the sentinel exactly when there are no events |
| Compaction.FormattedHeader | eks_log_analyzer.py:203-222 | for events, the text is the header followed by the entries of the shown events. Min(150, total) events are shown, and the header's counts are the true per-type counts, summing to the total |
| Compaction.FormatLogs | eks_log_analyzer.py:198-232 | the method builds exactly the formatted text |
| Compaction.AppendEntries | eks_log_analyzer.py:224-230 | the entry loop appends the numbered entries, from 1, in the order shown |
| Interaction.AnyOccurs | eks_log_analyzer.py:274 | `any(k in s for k in ks)` holds exactly when some keyword occurs at some position |
| Interaction.AsksAboutOwnClusters | eks_log_analyzer.py:272-274 | a question asks about the user's clusters exactly when one of the five phrases occurs in its lower-cased form |
| Interaction.KeywordTestIgnoresCase | eks_log_analyzer.py:273-274 | lower-casing the question first does not change the test |
| Interaction.Classify | eks_log_analyzer.py:353-360 | a line ends the loop exactly when its stripped, lower-cased form is `exit`, `quit` or `q`. It is skipped exactly when it strips to nothing. Otherwise the question is the stripped line, which is no exit word |
| Interaction.Session | eks_log_analyzer.py:351-370 | the questions asked are exactly those before the first exit word, blanks left out, and each gets the answer to it |
| Interaction.QuestionsAreClean | eks_log_analyzer.py:353-360 | every question dispatched is non-empty, stripped and not an exit word |
| Interaction.QuestionsBound | eks_log_analyzer.py:351-360 | at most one question per line read |
| Interaction.QuitEndsSession | eks_log_analyzer.py:355-357 | nothing after an exit word is asked |
| Interaction.ExhaustedInputFails | eks_log_analyzer.py:369-370 | once the input is exhausted, every pass of the loop as written fails to read |
| Interaction.NoQuitNeverEnds | eks_log_analyzer.py:351-370 | without an exit command, every pass of the loop as written runs and none ends it |
| Interaction.NoExitWordNeverEnds | eks_log_analyzer.py:351-370 | the loop as written, on input without an exit word, runs any number of passes and never ends |
| Interaction.PassesEndAtQuit | eks_log_analyzer.py:351-370 | over commands, the loop as written ends at the first `Quit` and asks exactly the questions before it |
| Interaction.LoopAsWrittenAgreesOnExit | eks_log_analyzer.py:351-370 | on input with an exit word, the loop as written ends at the first one, having asked exactly what `Session` asks |
| Interaction.PickCluster | eks_log_analyzer.py:508-524 | empty input is refused. A number picks the cluster listed under it and is refused outside 1..count, reporting the count. Any other input is the cluster name |
| Interaction.PickByListedNumber | eks_log_analyzer.py:501-518 | typing the number printed beside a cluster selects that cluster |
| Interaction.PickedIsListedOrTyped | eks_log_analyzer.py:508-524 | a selected cluster is a listed one or the stripped text typed |
| Text.Upper | eks_log_analyzer.py:229 | `upper()` keeps the length and maps each character through the ASCII upper-case mapping |
| Text.JoinContains | eks_log_analyzer.py:221 | every part appears in `sep.join(parts)` |
| Text.StripIsSlice | eks_log_analyzer.py:353 | `strip()` removes only whitespace, from both ends |
| Text.StripIdempotent | eks_log_analyzer.py:353 | stripping twice is stripping once |
| Text.LowerIdempotent | eks_log_analyzer.py:273 | lower-casing is idempotent and leaves no upper-case letter |
| Text.ContainsIffOccurs | eks_log_analyzer.py:274 | `needle in hay` holds exactly when the needle occurs at some position |
| Text.ParseRendered | eks_log_analyzer.py:501-516 | `int()` of a number rendered in decimal gives the number back |

## Findings

| source | as written | input that shows it | evidently intended | confidence | as-written member | corrected member |
|---|---|---|---|---|---|---|
| eks_log_analyzer.py:351-370 (also 389-408) | `input()` at the end of input raises `EOFError`; the generic `except Exception` prints it and `while True` reads again | standard input that closes without an exit word, e.g. the lines `how do pods start?` then end of file | the session ends when the input ends, as it does on an exit word or an interrupt | high for the loop shape; not executed | Interaction.NoExitWordNeverEnds | Interaction.Session |

## Left out

- AWS calls (`describe_cluster`, `describe_log_streams`, `filter_log_events`, `list_clusters`): they are parameters or input values. Their answers are taken as given, including stream-name prefix matching and the `limit=50` of the listing, which is only passed on in the request.
- Bedrock (`invoke_model` in `ask_bedrock` and `ask_general_eks_question`, lines 234-333): the answer is the `answer` parameter. Only the keyword test of line 274 is modelled; the cluster summary it triggers is text for the language model.
- The clock and time formatting (lines 143-149, 225): the window is a `Window` parameter and the rendered time comes from `showTime`.
- Console output: all `print` calls, the logging-enable instructions (87-109), `show_cluster_info`, the help texts and the mode menu of `main`.
- `KeyboardInterrupt`, which ends either loop: interrupts are not input lines.
- Environment and configuration (`dotenv`, `AWS_REGION`, `BEDROCK_MODEL_ID`, `MAX_LOG_ENTRIES` with default 1000 at line 25): `maxLogEntries` is a parameter.
- `check_cluster_exists`, the prompt for the number of hours and the wiring in `main` between the pick and the retrieval.
- The outer `except` per log type in `retrieve_logs` (lines 191-193): in the model nothing inside it can fail, because `get_log_streams` and each fetch handle their own failures.
- Event dictionaries are values. The in-place `event['logType'] = log_type` is modelled as a new event, so aliasing between the fetched list and the result is not captured.
- Text.Lower: case mapping covers ASCII letters only. Python's `lower` and `upper` also map other Unicode letters.
- Text.Upper: case mapping covers ASCII letters only, as for `Text.Lower`.
- Text.IsDigits: only the ASCII digits count. Python's `isdigit` also accepts other Unicode digits, some of which `int()` then rejects.
- The two loops (lines 351-370 and 389-408) differ only in the answer function. `Session` models both, with `answer` standing for `ask_general_eks_question` or `ask_bedrock` over the formatted logs.
