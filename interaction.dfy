/**
 * The decisions the interactive front end takes on what the user types: the
 * keyword test that decides whether a general question is about the user's
 * own clusters, the reading of one line of a question session, the question
 * loop itself, and the choice of a cluster by name or by its listed number.
 *
 * `input()` becomes a sequence of lines, and answering a question (by the
 * language model, with or without log context) becomes the parameter `answer`.
 */
module Interaction {
  import opened Sequences
  import opened Text

  /** Phrases that make a general question fetch the user's cluster inventory. */
  const InventoryKeywords: seq<string> := ["my cluster", "my eks", "how many cluster", "list cluster", "number of cluster"]

  /** Some keyword of `keywords` occurs in `hay`, scanning the keywords in order. */
  function AnyOccurs(hay: string, keywords: seq<string>): (b: bool)
    ensures b <==> exists j, i :: 0 <= j < |keywords| && OccursAt(hay, keywords[j], i)
  {
    if keywords == [] then false
    else
      ContainsIffOccurs(hay, keywords[0]);
      var rest := AnyOccurs(hay, keywords[1..]);
      assert forall j :: 0 < j < |keywords| ==> keywords[1..][j - 1] == keywords[j];
      Contains(hay, keywords[0]) || rest
  }

  /**
   * The test of `ask_general_eks_question`: the lower-cased question contains
   * one of the inventory keywords.
   */
  function AsksAboutOwnClusters(question: string): (b: bool)
    ensures b <==> exists j, i :: 0 <= j < |InventoryKeywords| && OccursAt(Lower(question), InventoryKeywords[j], i)
  {
    AnyOccurs(Lower(question), InventoryKeywords)
  }

  /** The test ignores case: a question and its lower-cased form get the same answer. */
  lemma KeywordTestIgnoresCase(question: string)
    ensures AsksAboutOwnClusters(Lower(question)) == AsksAboutOwnClusters(question)
  {
    LowerIdempotent(question);
  }

  /** What one line typed in a question session asks for. */
  datatype Command = Quit | Skip | Ask(question: string)

  /** The words that end a session, compared after stripping and lower-casing. */
  const ExitWords: seq<string> := ["exit", "quit", "q"]

  lemma EmptyIsNoExitWord()
    ensures forall w :: w in ExitWords ==> |w| > 0
  {
  }

  /**
   * One line of a question session: strip it; an exit word (in any case) ends
   * the session, which is tested first; an empty line is ignored; anything
   * else is a question, passed on stripped.
   */
  function Classify(line: string): (c: Command)
    ensures c.Quit? <==> Lower(Strip(line)) in ExitWords
    ensures c.Skip? <==> Strip(line) == []
    ensures c.Ask? ==> c.question == Strip(line) && Lower(c.question) !in ExitWords
  {
    var question := Strip(line);
    EmptyIsNoExitWord();
    if Lower(question) in ExitWords then Quit
    else if question == [] then Skip
    else Ask(question)
  }

  /** The questions a session passes on, in order, until the first exit word or the end of the input. */
  function Questions(lines: seq<string>): seq<string> {
    if lines == [] then []
    else
      match Classify(lines[0])
      case Quit => []
      case Skip => Questions(lines[1..])
      case Ask(q) => [q] + Questions(lines[1..])
  }

  /**
   * The loop of `interactive_analysis` and `interactive_general_mode`: read a
   * line, stop on an exit word, skip an empty line, otherwise ask and record
   * the answer.
   */
  method Session(lines: seq<string>, answer: string -> string) returns (asked: seq<string>, replies: seq<string>)
    ensures asked == Questions(lines)
    ensures |replies| == |asked|
    ensures forall i :: 0 <= i < |asked| ==> replies[i] == answer(asked[i])
  {
    asked, replies := [], [];
    var i := 0;
    while i < |lines|
      invariant 0 <= i <= |lines|
      invariant asked + Questions(lines[i..]) == Questions(lines)
      invariant replies == Answers(asked, answer)
    {
      var command := Classify(lines[i]);
      SessionStep(asked, lines, i);
      if command.Quit? {
        break;
      }
      if command.Skip? {
        i := i + 1;
        continue;
      }
      var question := command.question;
      AnswersSnoc(asked, question, answer);
      asked, replies := asked + [question], replies + [answer(question)];
      i := i + 1;
    }
  }

  /** The answer to each question, in order. */
  function Answers(questions: seq<string>, answer: string -> string): (replies: seq<string>)
    ensures |replies| == |questions|
    ensures forall i :: 0 <= i < |questions| ==> replies[i] == answer(questions[i])
  {
    seq(|questions|, i requires 0 <= i < |questions| => answer(questions[i]))
  }

  lemma AnswersSnoc(questions: seq<string>, q: string, answer: string -> string)
    ensures Answers(questions + [q], answer) == Answers(questions, answer) + [answer(q)]
  {
  }

  /** The loop invariant of `Session` carried over one line. */
  lemma SessionStep(asked: seq<string>, lines: seq<string>, i: nat)
    requires i < |lines| && asked + Questions(lines[i..]) == Questions(lines)
    ensures Classify(lines[i]).Quit? ==> asked == Questions(lines)
    ensures Classify(lines[i]).Skip? ==> asked + Questions(lines[i + 1..]) == Questions(lines)
    ensures Classify(lines[i]).Ask? ==> asked + [Classify(lines[i]).question] + Questions(lines[i + 1..]) == Questions(lines)
  {
    QuestionsStep(lines, i);
    var c := Classify(lines[i]);
    if c.Quit? {
      assert asked + [] == asked;
    } else if c.Ask? {
      Associative(asked, [c.question], Questions(lines[i + 1..]));
    }
  }

  /** One line read: what the rest of the input contributes after the line at `i`. */
  lemma QuestionsStep(lines: seq<string>, i: nat)
    requires i < |lines|
    ensures Questions(lines[i..]) ==
      match Classify(lines[i])
      case Quit => []
      case Skip => Questions(lines[i + 1..])
      case Ask(q) => [q] + Questions(lines[i + 1..])
  {
    assert lines[i..][1..] == lines[i + 1..];
  }


  /** A question as the model is asked it: non-empty, no surrounding whitespace, not an exit word. */
  predicate IsQuestion(q: string) {
    q != [] && !IsSpace(q[0]) && !IsSpace(q[|q| - 1]) && Lower(q) !in ExitWords
  }

  /** A line read as a question is a proper question. */
  lemma AskedIsQuestion(line: string)
    ensures Classify(line).Ask? ==> IsQuestion(Classify(line).question)
  {
  }

  /** Every question passed on is a proper question. */
  lemma {:induction false} QuestionsAreClean(lines: seq<string>)
    ensures forall q :: q in Questions(lines) ==> IsQuestion(q)
  {
    if lines != [] {
      QuestionsAreClean(lines[1..]);
      AskedIsQuestion(lines[0]);
      QuestionsHead(lines);
    }
  }

  /** No line yields more than one question. */
  lemma {:induction false} QuestionsBound(lines: seq<string>)
    ensures |Questions(lines)| <= |lines|
  {
    if lines != [] {
      QuestionsBound(lines[1..]);
      QuestionsHead(lines);
    }
  }

  /** What the first line contributes. */
  lemma QuestionsHead(lines: seq<string>)
    requires lines != []
    ensures Classify(lines[0]).Ask? ==> Questions(lines) == [Classify(lines[0]).question] + Questions(lines[1..])
    ensures Classify(lines[0]).Skip? ==> Questions(lines) == Questions(lines[1..])
    ensures Classify(lines[0]).Quit? ==> Questions(lines) == []
  {
  }

  /** Lines after the first exit word are never read: the session ends there. */
  lemma {:induction false} QuitEndsSession(lines: seq<string>, k: nat)
    requires k < |lines| && Classify(lines[k]).Quit?
    ensures Questions(lines) == Questions(lines[..k])
  {
    if k > 0 {
      var prefix := lines[..k];
      assert prefix[0] == lines[0];
      assert lines[1..][..k - 1] == prefix[1..];
      QuitEndsSession(lines[1..], k - 1);
      QuestionsHead(lines);
      QuestionsHead(prefix);
    } else {
      QuestionsHead(lines);
    }
  }

  /** One pass of the question loop as written: a line handled, the session ended, or `input()` failing. */
  datatype Pass = Asked(question: string) | Skipped | Ended | InputFailed

  /**
   * The first `fuel` passes of the loop as written. Once the input is
   * exhausted, `input()` raises `EOFError`; the generic `except Exception`
   * reports it and the `while True` loop reads again, so every further pass
   * fails the same way and only an exit word ever ends the loop.
   */
  function LoopAsWritten(lines: seq<string>, fuel: nat): seq<Pass> {
    PassesAsWritten(Commands(lines), fuel)
  }

  /** Each line as the loop reads it. */
  function Commands(lines: seq<string>): (commands: seq<Command>)
    ensures |commands| == |lines|
    ensures forall i :: 0 <= i < |lines| ==> commands[i] == Classify(lines[i])
  {
    seq(|lines|, i requires 0 <= i < |lines| => Classify(lines[i]))
  }

  /** The passes of the loop as written over lines already read as commands. */
  function PassesAsWritten(commands: seq<Command>, fuel: nat): seq<Pass>
    decreases fuel
  {
    if fuel == 0 then []
    else if commands == [] then [InputFailed] + PassesAsWritten([], fuel - 1)
    else
      match commands[0]
      case Quit => [Ended]
      case Skip => [Skipped] + PassesAsWritten(commands[1..], fuel - 1)
      case Ask(q) => [Asked(q)] + PassesAsWritten(commands[1..], fuel - 1)
  }

  /** Once the input is exhausted, every pass is a failed read. */
  lemma {:induction false} ExhaustedInputFails(fuel: nat)
    ensures |PassesAsWritten([], fuel)| == fuel
    ensures forall k :: 0 <= k < fuel ==> PassesAsWritten([], fuel)[k] == InputFailed
    decreases fuel
  {
    if fuel > 0 {
      ExhaustedInputFails(fuel - 1);
      var passes := PassesAsWritten([], fuel);
      assert passes == [InputFailed] + PassesAsWritten([], fuel - 1);
      forall k | 0 < k < fuel ensures passes[k] == InputFailed {
        assert passes[k] == PassesAsWritten([], fuel - 1)[k - 1];
      }
    }
  }

  /** Without a `Quit` among the commands, no pass of the loop as written ends it. */
  lemma {:induction false} NoQuitNeverEnds(commands: seq<Command>, fuel: nat)
    requires forall i :: 0 <= i < |commands| ==> !commands[i].Quit?
    ensures |PassesAsWritten(commands, fuel)| == fuel
    ensures forall k :: 0 <= k < fuel ==> PassesAsWritten(commands, fuel)[k] != Ended
    decreases fuel
  {
    if fuel > 0 {
      if commands == [] {
        ExhaustedInputFails(fuel);
      } else {
        var rest := commands[1..];
        NoQuitNeverEnds(rest, fuel - 1);
        var passes, later := PassesAsWritten(commands, fuel), PassesAsWritten(rest, fuel - 1);
        assert passes == [if commands[0].Skip? then Skipped else Asked(commands[0].question)] + later;
        forall k | 0 < k < fuel ensures passes[k] != Ended {
          assert passes[k] == later[k - 1];
        }
      }
    }
  }

  /**
   * With no exit word in the input, the loop as written never ends: however
   * many passes are run, each one runs and none ends the session.
   */
  lemma NoExitWordNeverEnds(lines: seq<string>, fuel: nat)
    requires forall i :: 0 <= i < |lines| ==> !Classify(lines[i]).Quit?
    ensures |LoopAsWritten(lines, fuel)| == fuel
    ensures forall k :: 0 <= k < fuel ==> LoopAsWritten(lines, fuel)[k] != Ended
  {
    NoQuitNeverEnds(Commands(lines), fuel);
  }

  /** The questions asked in a run of passes, in order. */
  function AskedIn(passes: seq<Pass>): seq<string> {
    if passes == [] then []
    else (if passes[0].Asked? then [passes[0].question] else []) + AskedIn(passes[1..])
  }

  /** `Questions`, over lines already read as commands. */
  function CommandQuestions(commands: seq<Command>): seq<string> {
    if commands == [] then []
    else
      match commands[0]
      case Quit => []
      case Skip => CommandQuestions(commands[1..])
      case Ask(q) => [q] + CommandQuestions(commands[1..])
  }

  lemma {:induction false} QuestionsOfCommands(lines: seq<string>)
    ensures Questions(lines) == CommandQuestions(Commands(lines))
    decreases |lines|
  {
    if lines != [] {
      QuestionsOfCommands(lines[1..]);
      assert Commands(lines)[1..] == Commands(lines[1..]);
    }
  }

  /**
   * When the first `Quit` is command `k` and the loop runs more than `k`
   * passes, the loop as written ends at pass `k` and asks exactly the
   * questions before it.
   */
  lemma {:induction false} PassesEndAtQuit(commands: seq<Command>, fuel: nat, k: nat)
    requires k < |commands| && commands[k].Quit? && k < fuel
    requires forall j :: 0 <= j < k ==> !commands[j].Quit?
    ensures |PassesAsWritten(commands, fuel)| == k + 1
    ensures PassesAsWritten(commands, fuel)[k] == Ended
    ensures AskedIn(PassesAsWritten(commands, fuel)) == CommandQuestions(commands)
    decreases k
  {
    var passes := PassesAsWritten(commands, fuel);
    if k == 0 {
      assert passes == [Ended];
    } else {
      var rest := commands[1..];
      assert forall j :: 0 <= j < k - 1 ==> rest[j] == commands[j + 1];
      PassesEndAtQuit(rest, fuel - 1, k - 1);
      var later := PassesAsWritten(rest, fuel - 1);
      assert passes == [if commands[0].Skip? then Skipped else Asked(commands[0].question)] + later;
      assert passes[1..] == later;
    }
  }

  /**
   * On input with an exit word, the loop as written and `Session` agree: the
   * loop ends at the first exit word, having asked exactly `Questions(lines)`.
   * The two differ only on input that ends without one.
   */
  lemma LoopAsWrittenAgreesOnExit(lines: seq<string>, fuel: nat, k: nat)
    requires k < |lines| && Classify(lines[k]).Quit? && k < fuel
    requires forall j :: 0 <= j < k ==> !Classify(lines[j]).Quit?
    ensures |LoopAsWritten(lines, fuel)| == k + 1 && LoopAsWritten(lines, fuel)[k] == Ended
    ensures AskedIn(LoopAsWritten(lines, fuel)) == Questions(lines)
  {
    QuestionsOfCommands(lines);
    PassesEndAtQuit(Commands(lines), fuel, k);
  }

  /** How a cluster was chosen from what the user typed. */
  datatype Pick = NameRequired | Selected(name: string) | InvalidNumber(choices: nat)

  /**
   * The cluster choice of `main`, given the listed clusters: the stripped
   * input is required; a number picks the cluster listed under it (counting
   * from 1) and is refused outside 1..|clusters|; anything else is taken as
   * a cluster name.
   */
  function PickCluster(input: string, clusters: seq<string>): (p: Pick)
    ensures p.NameRequired? <==> Strip(input) == []
    ensures p.InvalidNumber? <==> IsDigits(Strip(input)) && !(1 <= ParseDigits(Strip(input)) <= |clusters|)
    ensures p.InvalidNumber? ==> p.choices == |clusters|
    ensures p.Selected? && IsDigits(Strip(input)) ==> p.name == clusters[ParseDigits(Strip(input)) - 1]
    ensures p.Selected? && !IsDigits(Strip(input)) ==> p.name == Strip(input)
  {
    var s := Strip(input);
    if s == [] then NameRequired
    else if IsDigits(s) then
      var number := ParseDigits(s);
      if 1 <= number <= |clusters| then Selected(clusters[number - 1]) else InvalidNumber(|clusters|)
    else Selected(s)
  }

  /** Typing the number a cluster is listed under, as it is printed, selects that cluster. */
  lemma PickByListedNumber(clusters: seq<string>, i: nat)
    requires i < |clusters|
    ensures PickCluster(NatToString(i + 1), clusters) == Selected(clusters[i])
  {
    var s := NatToString(i + 1);
    StripOfStripped(s);
    ParseRendered(i + 1);
  }

  /** A selected cluster is one of the listed clusters or exactly the name typed. */
  lemma PickedIsListedOrTyped(input: string, clusters: seq<string>)
    requires PickCluster(input, clusters).Selected?
    ensures PickCluster(input, clusters).name in clusters || PickCluster(input, clusters).name == Strip(input)
  {
  }
}
