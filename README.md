# Self-prompting loop of `llm_system.py`, modelled in Dafny

`llm_system.py` runs prompt optimisation against a language model. Each of
its `NUM_ITERATIONS` (50) rounds works like this:

1. It asks `NUM_TRIALS` (10) times for an answer to a fixed question, using
   the current prompt (`question_answerer`).
2. A second call judges every non-empty answer against a reference answer.
   It parses a "correct"/"incorrect" verdict from the end of the judge's
   reply (`supervisor_evaluate`).
3. On every round but the last, it records `(prompt, accuracy)` in the
   history and asks a third call for a better prompt. It takes the text
   after `NEW PROMPT:` in the reply (`supervisor_improve_prompt`).

All calls go through `make_api_call`. It retries on transport errors, up to
three attempts.

Failures degrade rather than stop the loop:
- a failed trial becomes an empty answer;
- a failed evaluation scores 0.0;
- a failed improvement keeps the prompt.

The model has seven modules:

- `Text` (`text.dfy`) — Python's `str.strip()`, with the full `str.isspace`
  character set, and `str.lower()` on ASCII letters. It also has the
  literal substring search that `re.search` performs for a pattern without
  metacharacters, and `in`.
- `Exceptions` (`exceptions.dfy`) — the exceptions the script raises and
  catches, shared by all components: `make_api_call`'s re-raised error and
  its "Failed after" error, and `supervisor_evaluate`'s division by zero.
- `Client` (`client.dfy`) — `make_api_call`. The service is an oracle
  `Attempts = nat -> Outcome`: the reply or the exception text of the k-th
  attempt. The method `MakeApiCall` is proved against the function `Retry`.
  The retry policy is proved about `Retry`.
- `Judgment` (`judgment.dfy`) — the verdict parser. It lower-cases and
  strips the reply, drops the trailing `[.!?]+`, and tests the suffix.
  The parser is proved against a reference semantics of
  `re.search(r'(correct|incorrect)$', …)`: a leftmost scan that tries
  `correct` before `incorrect`, with Python's `$` also matching before a
  final newline. The reply format the judge is told to use is shown to
  round-trip.
- `Extraction` (`extraction.dfy`) — `re.search(r'NEW PROMPT:\s*(.*)',
  …, re.DOTALL)` followed by `strip()`. The mutator's requested format
  round-trips.
- `Agents` (`agents.dfy`) — the three roles over a `Service = Request ->
  Attempts`. A request names its call site (round, trial or answer index)
  and carries the data the source puts into the message. So repeated
  identical messages may still get different replies.
  - `SupervisorEvaluate` is a loop proved against the tally function
    `TallyOf`.
  - The accuracy is exactly `|answers judged Correct| / |answers|`.
  - It fails exactly when a judge call on a non-empty answer fails, or when
    there are no answers.
- `Loop` (`loop.dfy`) — `main`, as the class `Optimizer`:
  - its fields are the current prompt and the history;
  - its methods are the trial loop, the evaluation, the improvement step
    and the outer loop;
  - each method is proved against the functions `Sample`, `RoundAccuracy`,
    `Step` and `StateAfter`, whose properties are lemmas.

The lemmas are stated over abstract judges, scorers and mutators, and hold
for any service.

A consequence of `Client.RetryContract` is that the final `raise` of
`make_api_call` ("Failed after … retries", line 46) is reached exactly when
`max_retries <= 0`. With the default of 3, the last transport error is
re-raised itself (`Client.TransportErrorOnLastAttempt`).

## Model

| member | source | states |
|---|---|---|
| `Text.StripSpec` | llm_system.py:56 | `strip()` returns the slice of its argument between a run of leading whitespace and a run of trailing whitespace |
| `Text.Strip` | llm_system.py:122 | the stripped text neither starts nor ends with whitespace |
| `Text.StripLeftSpec` | llm_system.py:126 | the leading-whitespace removal (`\s*`) drops exactly a whitespace prefix and leaves a suffix not starting with whitespace |
| `Text.StripRightSpec` | llm_system.py:127 | trailing-whitespace removal drops exactly a whitespace suffix and leaves a prefix not ending with whitespace |
| `Text.StripAfterStripLeft` | llm_system.py:126-127 | consuming `\s*` before `strip()` changes nothing |
| `Text.Lower` | llm_system.py:87 | `lower()` keeps the length and maps each character on its own |
| `Text.LowerIdempotent` | llm_system.py:87 | lower-cased text has no upper-case ASCII letter, and lower-casing again changes nothing |
| `Text.IndexFromSpec` | llm_system.py:126 | the scan from `from` finds the leftmost occurrence at or after `from`, or reports that there is none |
| `Text.IndexOfSpec` | llm_system.py:40 | the search finds the first occurrence and fails only when there is none, so `w in s` holds exactly when `w` occurs in `s` |
| `Client.MakeApiCall` | llm_system.py:28-46 | the retry loop computes exactly `Retry`: the same result, attempt count and sleep count |
| `Client.IsTransportError` | llm_system.py:40 | defines a transport error: the exception text contains `Connection` or `ReadError`; `Text.IndexOfSpec` makes `in` exact |
| `Client.RetryFrom` | llm_system.py:32-45 | defines the retry loop from a given attempt on; properties in `Client.RetryFromContract` |
| `Client.Retry` | llm_system.py:28-46 | defines one `make_api_call`: result, attempts made and sleeps taken; properties in `Client.RetryContract` |
| `Client.RetryContract` | llm_system.py:32-46 | at most `max_retries` attempts, with one sleep between consecutive attempts; every attempt but the last was a transport error; the last attempt's reply is returned or its exception re-raised (a transport error only once the budget is spent); "Failed after" is raised exactly when `max_retries <= 0` |
| `Client.RetryFromContract` | llm_system.py:32-45 | the same, for the loop from any attempt whose predecessors were all retried |
| `Client.FailFastOnOtherErrors` | llm_system.py:39-45 | an exception that is not a transport error is re-raised on the attempt where it occurs, after one sleep per earlier attempt |
| `Client.TransportErrorOnLastAttempt` | llm_system.py:40-45 | when every attempt is a transport error, the last one is re-raised after `max_retries` attempts and `max_retries - 1` sleeps |
| `Client.TransportTwiceThenSuccess` | llm_system.py:40-44 | two transport errors and then a reply return that reply after three attempts and two sleeps |
| `Judgment.DropTrailingPunct` | llm_system.py:87 | `re.sub(r'[.!?]+$', '')` keeps a prefix, removes only punctuation, and leaves no trailing punctuation |
| `Judgment.Clean` | llm_system.py:87 | defines `cleaned_judgment`: lower-cased, stripped, trailing punctuation dropped; properties in `Judgment.VerdictIgnoresCase`, `Judgment.CleanKeepsPhrase` |
| `Judgment.Classify` | llm_system.py:88-89 | defines the verdict by suffix tests; `Judgment.ClassifyIsSearch` proves it equal to the regex search |
| `Judgment.MatchAtEnd` | llm_system.py:88 | a word matches under `$` at `p` exactly when it ends the text, or ends it just before a final newline |
| `Judgment.SearchFromEnd` | llm_system.py:88 | the leftmost-match scan from any position yields `incorrect` when the text ends with it, otherwise `correct` when it ends with that, otherwise nothing |
| `Judgment.ClassifyIsSearch` | llm_system.py:88-89 | the suffix test gives Correct exactly when the regex search finds the group `correct`, and Incorrect when it finds nothing |
| `Judgment.ParseVerdict` | llm_system.py:86-89 | the verdict is Correct exactly when the regex finds `correct` in the cleaned reply, and Incorrect when there is no match |
| `Judgment.VerdictSuffixRules` | llm_system.py:88-89 | a cleaned reply ending in `incorrect` is Incorrect; it is Correct exactly when it ends in `correct` and not in `incorrect` |
| `Judgment.VerdictIgnoresCase` | llm_system.py:87 | replies equal up to ASCII case get the same verdict |
| `Judgment.DropTrailingPunctAppend` | llm_system.py:87 | appending punctuation does not change what removing the trailing punctuation leaves |
| `Judgment.StripLeftAppend` | llm_system.py:87 | text appended after a non-space is kept whole by leading-whitespace removal |
| `Judgment.StripAppendPunct` | llm_system.py:87 | stripping a text that ends in a non-space, followed by punctuation, keeps the punctuation |
| `Judgment.LowerCharKeepsSpace` | llm_system.py:87 | lower-casing neither creates nor removes whitespace |
| `Judgment.LowerAppendPunct` | llm_system.py:87 | lower-casing leaves punctuation unchanged |
| `Judgment.VerdictIgnoresExtraPunctuation` | llm_system.py:83-89 | appending `.`, `!` or `?` to a stripped reply does not change its verdict |
| `Judgment.CleanKeepsPhrase` | llm_system.py:87 | a reply ending in a phrase and then punctuation cleans to a text that ends in the lower-cased phrase |
| `Judgment.LowerPhrases` | llm_system.py:77 | the two closing phrases the judge is told to use, lower-cased |
| `Judgment.JudgeFormatCorrect` | llm_system.py:77-89 | any reasoning ending in "The answer is correct", with any trailing punctuation, is judged Correct |
| `Judgment.JudgeFormatIncorrect` | llm_system.py:77-89 | any reasoning ending in "The answer is incorrect", with any trailing punctuation, is judged Incorrect |
| `Extraction.ExtractNewPrompt` | llm_system.py:126-127 | the extracted prompt has no whitespace at either end |
| `Extraction.ExtractNewPromptSpec` | llm_system.py:126-127 | the result is the stripped text after the FIRST `NEW PROMPT:`; with no marker it is the stripped whole response |
| `Extraction.MarkerNotInsideItself` | llm_system.py:126 | the marker's `:` occurs only at its end, so no occurrence can start inside another |
| `Extraction.ExtractAfterMarker` | llm_system.py:115-127 | reasoning without the marker, then `NEW PROMPT:`, then a prompt yields that prompt, stripped |
| `Extraction.ExtractWithoutMarker` | llm_system.py:127 | a stripped response without the case-sensitive marker is used whole |
| `Agents.AnswerMessageLayout` | llm_system.py:52 | the answerer's message is the prompt, then `\n\nQuestion: `, then the question, each at its own place |
| `Agents.AnswerMessage` | llm_system.py:52 | defines `full_prompt`; its layout is `Agents.AnswerMessageLayout` |
| `Agents.Answered` | llm_system.py:48-56 | a successful answer has no whitespace at either end |
| `Agents.QuestionAnswerer` | llm_system.py:48-56 | the answerer returns the stripped reply of one retried call, or that call's error |
| `Agents.JudgeAnswer` | llm_system.py:72-89 | one judge call: the parsed verdict of the stripped reply, or exactly the error the retried call raised |
| `Agents.Judged` | llm_system.py:80-89 | defines one judge call: the parsed verdict of the stripped reply, or the call's error; `Agents.JudgeAnswer` computes it |
| `Agents.TallyOf` | llm_system.py:63-93 | defines the state of the counting loop after n answers; properties in `Agents.TallyJudgesNonEmpty`, `Agents.TallyCountsCorrect`, `Agents.TallyFailureIsLastJudged` |
| `Agents.Score` | llm_system.py:94 | defines `correct_count / len(answers)` or the escaping exception; properties in `Agents.ScoreAccuracy` |
| `Agents.Evaluation` | llm_system.py:58-94 | defines `supervisor_evaluate`'s result for a service; `Agents.SupervisorEvaluate` computes it |
| `Agents.TallyJudgesNonEmpty` | llm_system.py:64-68 | only non-empty answers reach the judge, each once and in order; the correct count is at most the number judged |
| `Agents.TallyCountsCorrect` | llm_system.py:64-93 | without an error, every non-empty answer was judged and the correct count is the number of answers judged Correct |
| `Agents.TallyFailureIsLastJudged` | llm_system.py:80-82 | an escaping error comes from the last answer judged, and every earlier non-empty answer was judged without error |
| `Agents.TallyAfterFailure` | llm_system.py:80-82 | once a judge call raised, the remaining answers are not looked at |
| `Agents.RatioInUnitInterval` | llm_system.py:94 | a count out of a positive total is a fraction in [0, 1] |
| `Agents.ScoreAccuracy` | llm_system.py:63-94 | the accuracy is (answers judged Correct) / len(answers), in [0, 1]; it exists exactly when there is an answer and no judge call on a non-empty answer raised; no answers means `ZeroDivisionError` |
| `Agents.EmptyAnswersNotJudged` | llm_system.py:65-68 | the judge's replies about empty answers cannot matter: judges agreeing on the non-empty answers give the same tally and score |
| `Agents.AllEmptyScoresZero` | llm_system.py:65-94 | a non-empty batch of empty answers scores 0.0 with no judge call |
| `Agents.EmptyPrefixTally` | llm_system.py:65-68 | a prefix of empty answers leaves the count at zero, with nothing judged |
| `Agents.TwoOfThreeCorrect` | llm_system.py:92-94 | two Correct verdicts out of three answers score 2/3 |
| `Agents.SupervisorEvaluate` | llm_system.py:58-94 | the method returns the score of `Evaluation`, judges only non-empty answers, and any accuracy it returns lies in [0, 1] |
| `Agents.CountCorrect` | llm_system.py:63-93 | the counting loop ends in the state `TallyOf` gives for all the answers, stopping at the first judge error |
| `Agents.EvaluateAnswer` | llm_system.py:65-93 | one pass of the loop body advances the tally by exactly one answer |
| `Agents.Improved` | llm_system.py:96-129 | an improved prompt has no whitespace at either end |
| `Agents.SupervisorImprovePrompt` | llm_system.py:119-129 | the mutator returns the prompt extracted from the stripped reply of one retried call, or that call's error |
| `Loop.Sample` | llm_system.py:144-151 | a round's batch has one answer per trial, at the trial's own index |
| `Loop.TrialAnswer` | llm_system.py:146-151 | defines one trial's answer, `""` when the answerer raised; properties in `Loop.SampleShape` |
| `Loop.SampleShape` | llm_system.py:145-151 | a trial that raised contributes `""`; one that succeeded contributes the stripped answer |
| `Loop.RoundAccuracyBounds` | llm_system.py:154-159 | the accuracy kept for a round lies in [0, 1], and is 0.0 when the evaluation raised |
| `Loop.RoundAccuracy` | llm_system.py:154-159 | defines the accuracy kept for a round, 0.0 when the evaluation raised; properties in `Loop.RoundAccuracyBounds` |
| `Loop.Step` | llm_system.py:162-169 | defines one round's change of state; properties in `Loop.MutationOutcome`, `Loop.LastRoundKeepsState` |
| `Loop.StateAfter` | llm_system.py:139-171 | defines the state after k rounds; properties in `Loop.HistoryLength`, `Loop.HistoryAppendOnly`, `Loop.HistoryRecordsRound` |
| `Loop.AllTrialsFailedScoresZero` | llm_system.py:146-159 | a round whose every trial raised scores 0.0 |
| `Loop.HistoryLength` | llm_system.py:139-171 | after k rounds the history holds one entry per non-final round, even where mutation failed; a whole run of n rounds leaves n - 1 |
| `Loop.HistoryAppendOnly` | llm_system.py:164 | the history is append-only: earlier entries stay in place |
| `Loop.HistoryRecordsRound` | llm_system.py:164 | entry i is the prompt used in round i, with the accuracy that prompt scored in round i |
| `Loop.HistoryAccuracyBounds` | llm_system.py:154-164 | every accuracy in the history lies in [0, 1] |
| `Loop.MutationOutcome` | llm_system.py:162-169 | the entry is appended before the mutator is called, and the mutator sees it; a failed mutation keeps the prompt and a successful one installs the mutator's prompt |
| `Loop.LastRoundKeepsState` | llm_system.py:170-171 | the last round samples and scores but changes neither the prompt nor the history |
| `Loop.ServiceMutatorTrims` | llm_system.py:127 | the service's mutator only ever returns stripped prompts |
| `Loop.PromptAlwaysTrimmed` | llm_system.py:135-165 | with such a mutator, every prompt in use, including the initial one, is stripped |
| `Loop.RunOutcome` | llm_system.py:139-171 | a whole run of n > 0 rounds leaves n - 1 history entries, each accuracy in [0, 1], and a stripped prompt |
| `Loop.Optimizer.constructor` | llm_system.py:135-136 | a fresh optimiser holds the initial prompt and an empty history |
| `Loop.Optimizer.SampleTrials` | llm_system.py:144-151 | the trial loop builds exactly `Sample` of the current prompt's trials |
| `Loop.Optimizer.Trial` | llm_system.py:146-151 | one trial yields the answer, or `""` in place of the answerer's exception |
| `Loop.Optimizer.Evaluate` | llm_system.py:154-159 | the round's accuracy is `RoundAccuracy` and lies in [0, 1] |
| `Loop.Optimizer.ImprovePrompt` | llm_system.py:163-169 | the new state is `Step`: the entry is appended, then the prompt is replaced only when the mutator succeeded |
| `Loop.Optimizer.ScoreRound` | llm_system.py:143-159 | the round's accuracy is the scorer's value for the current prompt |
| `Loop.Optimizer.RunRound` | llm_system.py:140-171 | one iteration moves the state by exactly one `Step`, with the accuracy the current prompt scored |
| `Loop.Optimizer.Run` | llm_system.py:131-173 | from a fresh state, exactly NUM_ITERATIONS rounds run; the state is `StateAfter` all of them, and the history has NUM_ITERATIONS - 1 entries |

## Left out

- Console output is not modelled: every `print`, the ANSI colour codes,
  and the formatting of accuracies (`:.1f`, `int(accuracy * NUM_TRIALS)`).
- The OpenAI client, the network and the model name are replaced by the
  `Service` oracle. A reply's `content` being `None` is not modelled:
  `strip()` on it would raise, which the callers would treat as a failure.
- `time.sleep(2)` is modelled as a count of sleeps, not as time.
- The judge prompt and the meta-prompt are not modelled as strings.
  This covers their wording, `textwrap.dedent` and `history_str` with its
  `:.1f` formatting. Instead the `Request` carries the data they are built
  from: the answer and reference, or the prompt, accuracy and history.
  Only the answerer's message is modelled character by character.
- Accuracy is an exact rational `real`, not a binary float: the rounding
  of `correct_count / len(answers)` is not modelled.
- `Text.Lower`: `str.lower()` is modelled on ASCII letters only; every other
  character is kept. Python's full Unicode case mapping, where some
  characters change length or map to ASCII letters, is not modelled.
- The regular-expression engine itself is not modelled. The three patterns
  are modelled by what they match:
  - `[.!?]+$` on stripped text, which never ends in a newline;
  - `(correct|incorrect)$`, against a reference leftmost-match semantics;
  - `NEW PROMPT:\s*(.*)` with DOTALL.
- `Judgment.DropTrailingPunct`: modelled for the stripped text the parser
  gives it. On text ending in a newline, Python's `$` would also let
  `re.sub` remove punctuation just before that newline.
- Exceptions are modelled as an `Exceptions.Exception` value carrying their text. Python
  exception types and tracebacks are not modelled.
- The `if __name__ == "__main__"` entry point is not modelled.
