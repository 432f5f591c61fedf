/**
  The three roles the service plays (question_answerer, supervisor_evaluate,
  supervisor_improve_prompt), each going through make_api_call.

  The service is an oracle from a request to the outcomes of its attempts. A
  request names its call site (round, trial or answer index) and carries the
  data the source puts into the message, so that repeating the same message
  may give a different reply, as a sampled model does.
 */
module Agents {
  import opened Text
  import opened Exceptions
  import opened Client
  import opened Judgment
  import opened Extraction

  /** The fixed probe: the question asked every trial and the reference answer the judge compares with. */
  const StaticQuestion: string :=
    "A juggler throws a solid blue ball a meter in the air and then a solid purple ball (of the same size) two meters in the air. She then climbs to the top of a tall ladder carefully, balancing a yellow balloon on her head. Where is the purple ball most likely now, in relation to the blue ball?"
  const CorrectAnswer: string := "same height as the blue ball (they're both on the ground)"

  /** One entry of prompt_history: a prompt and the accuracy it scored. */
  datatype Entry = Entry(prompt: string, accuracy: real)

  datatype Request =
    | AnswerRequest(round: nat, trial: nat, message: string)
    | JudgeRequest(round: nat, index: nat, answer: string, reference: string)
    | ImproveRequest(round: nat, prompt: string, accuracy: real, history: seq<Entry>)

  type Service = Request -> Attempts

  const QuestionLabel: string := "\n\nQuestion: "

  /** The answerer's single user message: the prompt, a blank line, `Question: ` and the question. */
  function AnswerMessage(prompt: string, question: string): string {
    prompt + QuestionLabel + question
  }

  /** The message is the prompt, then the label, then the question, each at its own place. */
  lemma AnswerMessageLayout(prompt: string, question: string)
    ensures var m := AnswerMessage(prompt, question);
      && |m| == |prompt| + |QuestionLabel| + |question|
      && m[..|prompt|] == prompt
      && m[|prompt|..|prompt| + |QuestionLabel|] == QuestionLabel
      && m[|prompt| + |QuestionLabel|..] == question
  {
    var m := AnswerMessage(prompt, question);
    assert m[..|prompt|] == prompt;
    assert m[|prompt|..|prompt| + |QuestionLabel|] == QuestionLabel;
    assert m[|prompt| + |QuestionLabel|..] == question;
  }

  // ---------------------------------------------------------------- answerer

  /** question_answerer: the stripped reply to the message, or the error make_api_call raised. */
  function Answered(service: Service, round: nat, trial: nat, prompt: string, question: string): (r: Result<string>)
    ensures r.Ok? ==> IsTrimmed(r.value)
  {
    match Retry(service(AnswerRequest(round, trial, AnswerMessage(prompt, question))), DefaultMaxRetries).result
    case Ok(content) => Ok(Strip(content))
    case Err(e) => Err(e)
  }

  method QuestionAnswerer(service: Service, round: nat, trial: nat, prompt: string, question: string)
    returns (r: Result<string>)
    ensures r == Answered(service, round, trial, prompt, question)
    ensures r.Ok? ==> IsTrimmed(r.value)
  {
    var call := MakeApiCall(service(AnswerRequest(round, trial, AnswerMessage(prompt, question))), DefaultMaxRetries);
    match call.result {
      case Ok(content) => r := Ok(Strip(content));
      case Err(e) => r := Err(e);
    }
  }

  // ---------------------------------------------------------------- judge

  /** The judge's verdict on one non-empty answer, or the error its call raised. */
  function Judged(service: Service, round: nat, index: nat, answer: string, reference: string): Result<Verdict> {
    match Retry(service(JudgeRequest(round, index, answer, reference)), DefaultMaxRetries).result
    case Ok(content) => Ok(ParseVerdict(Strip(content)))
    case Err(e) => Err(e)
  }

  /** One judge call of supervisor_evaluate's loop and the parsing of its reply. */
  method JudgeAnswer(service: Service, round: nat, index: nat, answer: string, reference: string)
    returns (r: Result<Verdict>)
    ensures r == Judged(service, round, index, answer, reference)
    ensures r.Err? ==> Retry(service(JudgeRequest(round, index, answer, reference)), DefaultMaxRetries).result == Err(r.error)
  {
    var call := MakeApiCall(service(JudgeRequest(round, index, answer, reference)), DefaultMaxRetries);
    match call.result {
      case Err(e) =>
        r := Err(e);
      case Ok(content) =>
        var fullJudgment := Strip(content);
        r := Ok(ParseVerdict(fullJudgment));
    }
  }

  /** The judge as supervisor_evaluate's loop sees it: a verdict or an error per (index, answer). */
  type Judge = (nat, string) -> Result<Verdict>

  function JudgeOf(service: Service, round: nat, reference: string): Judge {
    (i: nat, answer: string) => Judged(service, round, i, answer, reference)
  }

  /** Answer `i` is non-empty and the judge's verdict on it is Correct. */
  predicate JudgedCorrect(judge: Judge, answers: seq<string>, i: nat)
    requires i < |answers|
  {
    answers[i] != "" && judge(i, answers[i]) == Ok(Correct)
  }

  /** Indices below `n` of the answers counted correct. */
  ghost function CorrectIndices(judge: Judge, answers: seq<string>, n: nat): set<nat>
    requires n <= |answers|
  {
    set i: nat | i < n && JudgedCorrect(judge, answers, i)
  }

  /**
    The state of supervisor_evaluate's loop after the first `n` answers:
    correct_count, the indices sent to the judge so far, and the error that
    ended the loop, if any.
   */
  datatype Tally = Tally(correct: nat, judged: seq<nat>, failure: Option<Exception>)

  function TallyOf(judge: Judge, answers: seq<string>, n: nat): Tally
    requires n <= |answers|
  {
    if n == 0 then Tally(0, [], None)
    else
      var t := TallyOf(judge, answers, n - 1);
      if t.failure.Some? || answers[n - 1] == "" then t
      else match judge(n - 1, answers[n - 1])
        case Ok(v) => Tally(if v == Correct then t.correct + 1 else t.correct, t.judged + [n - 1], None)
        case Err(e) => Tally(t.correct, t.judged + [n - 1], Some(e))
  }

  /** correct_count / len(answers), or the error that escaped the loop or the division. */
  function Score(judge: Judge, answers: seq<string>): Result<real> {
    var t := TallyOf(judge, answers, |answers|);
    if t.failure.Some? then Err(t.failure.value)
    else if |answers| == 0 then Err(ZeroDivision)
    else Ok(t.correct as real / |answers| as real)
  }

  /** supervisor_evaluate's result for a service. */
  function Evaluation(service: Service, round: nat, answers: seq<string>, reference: string): Result<real> {
    Score(JudgeOf(service, round, reference), answers)
  }

  /**
    Only non-empty answers are sent to the judge, each once and in order, and
    correct_count never exceeds the number of answers judged.
   */
  lemma {:induction false} TallyJudgesNonEmpty(judge: Judge, answers: seq<string>, n: nat)
    requires n <= |answers|
    ensures var t := TallyOf(judge, answers, n);
      && t.correct <= |t.judged| <= n
      && (forall k :: 0 <= k < |t.judged| ==> t.judged[k] < n && answers[t.judged[k]] != "")
      && (forall k, l :: 0 <= k < l < |t.judged| ==> t.judged[k] < t.judged[l])
    decreases n
  {
    if n > 0 {
      TallyJudgesNonEmpty(judge, answers, n - 1);
    }
  }

  /**
    Without an error, every non-empty answer was judged successfully and
    correct_count is the number of answers judged Correct.
   */
  lemma {:induction false} TallyCountsCorrect(judge: Judge, answers: seq<string>, n: nat)
    requires n <= |answers|
    requires TallyOf(judge, answers, n).failure.None?
    ensures forall i :: 0 <= i < n && answers[i] != "" ==> judge(i, answers[i]).Ok?
    ensures TallyOf(judge, answers, n).correct == |CorrectIndices(judge, answers, n)|
    decreases n
  {
    if n > 0 {
      var t := TallyOf(judge, answers, n - 1);
      assert t.failure.None?;
      TallyCountsCorrect(judge, answers, n - 1);
      var before := CorrectIndices(judge, answers, n - 1);
      var after := CorrectIndices(judge, answers, n);
      if JudgedCorrect(judge, answers, n - 1) {
        assert after == before + {n - 1};
      } else {
        assert after == before;
      }
    }
  }

  /** An error comes from the last answer judged; every earlier non-empty answer was judged successfully. */
  lemma {:induction false} TallyFailureIsLastJudged(judge: Judge, answers: seq<string>, n: nat)
    requires n <= |answers|
    requires TallyOf(judge, answers, n).failure.Some?
    ensures var t := TallyOf(judge, answers, n);
      && t.judged != []
      && var j := t.judged[|t.judged| - 1];
         && j < n && answers[j] != "" && judge(j, answers[j]) == Err(t.failure.value)
         && forall i :: 0 <= i < j && answers[i] != "" ==> judge(i, answers[i]).Ok?
    decreases n
  {
    var t := TallyOf(judge, answers, n - 1);
    if t.failure.Some? {
      TallyFailureIsLastJudged(judge, answers, n - 1);
    } else {
      TallyCountsCorrect(judge, answers, n - 1);
    }
  }

  /** Once a judge call has failed, the rest of the answers change nothing. */
  lemma {:induction false} TallyAfterFailure(judge: Judge, answers: seq<string>, n: nat, m: nat)
    requires n <= m <= |answers|
    requires TallyOf(judge, answers, n).failure.Some?
    ensures TallyOf(judge, answers, m) == TallyOf(judge, answers, n)
    decreases m
  {
    if m > n {
      TallyAfterFailure(judge, answers, n, m - 1);
    }
  }

  lemma RatioInUnitInterval(c: nat, n: nat)
    requires 0 < n && c <= n
    ensures 0.0 <= c as real / n as real <= 1.0
  {
    assert c as real / n as real * n as real == c as real;
  }

  /**
    Batch scoring: the accuracy is exactly the number of answers judged
    Correct over the number of answers, so it lies in [0, 1]; it exists
    exactly when there is at least one answer and no judge call on a
    non-empty answer failed.
   */
  lemma ScoreAccuracy(judge: Judge, answers: seq<string>)
    ensures var r := Score(judge, answers);
      && (r.Ok? <==> |answers| > 0 && forall i :: 0 <= i < |answers| && answers[i] != "" ==> judge(i, answers[i]).Ok?)
      && (r.Ok? ==> && r.value == |CorrectIndices(judge, answers, |answers|)| as real / |answers| as real
                    && 0.0 <= r.value <= 1.0)
      && (answers == [] ==> r == Err(ZeroDivision))
  {
    var t := TallyOf(judge, answers, |answers|);
    TallyJudgesNonEmpty(judge, answers, |answers|);
    if t.failure.None? {
      TallyCountsCorrect(judge, answers, |answers|);
      if |answers| > 0 {
        RatioInUnitInterval(t.correct, |answers|);
      }
    } else {
      TallyFailureIsLastJudged(judge, answers, |answers|);
    }
  }

  /**
    The judge is never consulted about an empty answer: judges that agree on
    the non-empty answers give the same tally and score.
   */
  lemma {:induction false} EmptyAnswersNotJudged(j1: Judge, j2: Judge, answers: seq<string>, n: nat)
    requires n <= |answers|
    requires forall i :: 0 <= i < |answers| && answers[i] != "" ==> j1(i, answers[i]) == j2(i, answers[i])
    ensures TallyOf(j1, answers, n) == TallyOf(j2, answers, n)
    ensures n == |answers| ==> Score(j1, answers) == Score(j2, answers)
    decreases n
  {
    if n > 0 {
      EmptyAnswersNotJudged(j1, j2, answers, n - 1);
    }
  }

  /** A batch whose every trial failed scores 0 without any judge call. */
  lemma AllEmptyScoresZero(judge: Judge, answers: seq<string>)
    requires |answers| > 0
    requires forall i :: 0 <= i < |answers| ==> answers[i] == ""
    ensures Score(judge, answers) == Ok(0.0)
    ensures TallyOf(judge, answers, |answers|).judged == []
  {
    EmptyPrefixTally(judge, answers, |answers|);
  }

  lemma {:induction false} EmptyPrefixTally(judge: Judge, answers: seq<string>, n: nat)
    requires n <= |answers|
    requires forall i :: 0 <= i < n ==> answers[i] == ""
    ensures TallyOf(judge, answers, n) == Tally(0, [], None)
    decreases n
  {
    if n > 0 {
      EmptyPrefixTally(judge, answers, n - 1);
    }
  }

  /** Three answers, the first two judged correct and the third incorrect, score 2/3. */
  lemma TwoOfThreeCorrect(judge: Judge, answers: seq<string>)
    requires |answers| == 3 && answers[0] != "" && answers[1] != "" && answers[2] != ""
    requires judge(0, answers[0]) == Ok(Correct) && judge(1, answers[1]) == Ok(Correct)
    requires judge(2, answers[2]) == Ok(Incorrect)
    ensures Score(judge, answers) == Ok(2.0 / 3.0)
  {
    assert TallyOf(judge, answers, 0) == Tally(0, [], None);
    assert TallyOf(judge, answers, 1) == Tally(1, [0], None);
    assert TallyOf(judge, answers, 2) == Tally(2, [0, 1], None);
    assert TallyOf(judge, answers, 3) == Tally(2, [0, 1, 2], None);
  }

  /** supervisor_evaluate: the loop over the answers that counts correct verdicts, then the division. */
  method SupervisorEvaluate(service: Service, round: nat, answers: seq<string>, reference: string)
    returns (r: Result<real>, judged: seq<nat>)
    ensures r == Evaluation(service, round, answers, reference)
    ensures judged == TallyOf(JudgeOf(service, round, reference), answers, |answers|).judged
    ensures forall k :: 0 <= k < |judged| ==> judged[k] < |answers| && answers[judged[k]] != ""
    ensures r.Ok? ==> 0.0 <= r.value <= 1.0
  {
    var correctCount, failure;
    correctCount, judged, failure := CountCorrect(service, round, answers, reference);
    TallyJudgesNonEmpty(JudgeOf(service, round, reference), answers, |answers|);
    if failure.Some? {
      return Err(failure.value), judged;
    }
    if |answers| == 0 {
      return Err(ZeroDivision), judged;
    }
    RatioInUnitInterval(correctCount, |answers|);
    r := Ok(correctCount as real / |answers| as real);
  }

  /** The loop of supervisor_evaluate: it stops at the first judge call that raises. */
  method CountCorrect(service: Service, round: nat, answers: seq<string>, reference: string)
    returns (correctCount: nat, judged: seq<nat>, failure: Option<Exception>)
    ensures TallyOf(JudgeOf(service, round, reference), answers, |answers|) == Tally(correctCount, judged, failure)
  {
    correctCount, judged, failure := 0, [], None;
    var i := 0;
    while i < |answers| && failure.None?
      invariant i <= |answers|
      invariant TallyOf(JudgeOf(service, round, reference), answers, i) == Tally(correctCount, judged, failure)
    {
      correctCount, judged, failure := EvaluateAnswer(service, round, answers, reference, i, correctCount, judged);
      i := i + 1;
    }
    if failure.Some? {
      TallyAfterFailure(JudgeOf(service, round, reference), answers, i, |answers|);
    }
  }

  /** One pass of supervisor_evaluate's loop body, on the answer at index `i`. */
  method EvaluateAnswer(service: Service, round: nat, answers: seq<string>, reference: string, i: nat,
                        correctCount: nat, judged: seq<nat>)
    returns (correctCount': nat, judged': seq<nat>, failure: Option<Exception>)
    requires i < |answers|
    requires TallyOf(JudgeOf(service, round, reference), answers, i) == Tally(correctCount, judged, None)
    ensures TallyOf(JudgeOf(service, round, reference), answers, i + 1) == Tally(correctCount', judged', failure)
  {
    var answer := answers[i];
    JudgeOfApply(service, round, reference, i, answer);
    TallyNext(JudgeOf(service, round, reference), answers, i);
    if answer == "" {
      // a failed trial: counted incorrect, the judge is not asked
      return correctCount, judged, None;
    }
    judged' := judged + [i];
    var verdict := JudgeAnswer(service, round, i, answer, reference);
    match verdict {
      case Err(e) =>
        return correctCount, judged', Some(e);
      case Ok(judgment) =>
        correctCount' := if judgment == Correct then correctCount + 1 else correctCount;
        failure := None;
    }
  }

  lemma JudgeOfApply(service: Service, round: nat, reference: string, i: nat, answer: string)
    ensures JudgeOf(service, round, reference)(i, answer) == Judged(service, round, i, answer, reference)
  {
  }

  /** One step of the loop: skip an empty answer, else count the verdict or stop at the error. */
  lemma TallyNext(judge: Judge, answers: seq<string>, n: nat)
    requires n < |answers|
    ensures var t := TallyOf(judge, answers, n);
      TallyOf(judge, answers, n + 1) ==
        if t.failure.Some? || answers[n] == "" then t
        else match judge(n, answers[n])
          case Ok(v) => Tally(if v == Correct then t.correct + 1 else t.correct, t.judged + [n], None)
          case Err(e) => Tally(t.correct, t.judged + [n], Some(e))
  {
  }

  // ---------------------------------------------------------------- mutator

  /** supervisor_improve_prompt: the prompt extracted from the stripped reply, or the error raised. */
  function Improved(service: Service, round: nat, prompt: string, accuracy: real, history: seq<Entry>): (r: Result<string>)
    ensures r.Ok? ==> IsTrimmed(r.value)
  {
    match Retry(service(ImproveRequest(round, prompt, accuracy, history)), DefaultMaxRetries).result
    case Ok(content) => Ok(ExtractNewPrompt(Strip(content)))
    case Err(e) => Err(e)
  }

  method SupervisorImprovePrompt(service: Service, round: nat, currentPrompt: string, accuracy: real,
                                 promptHistory: seq<Entry>)
    returns (r: Result<string>)
    ensures r == Improved(service, round, currentPrompt, accuracy, promptHistory)
    ensures r.Ok? ==> IsTrimmed(r.value)
  {
    var call := MakeApiCall(service(ImproveRequest(round, currentPrompt, accuracy, promptHistory)), DefaultMaxRetries);
    match call.result {
      case Ok(content) =>
        var fullResponse := Strip(content);
        r := Ok(ExtractNewPrompt(fullResponse));
      case Err(e) =>
        r := Err(e);
    }
  }
}
