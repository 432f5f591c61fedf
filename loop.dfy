/**
  The optimisation loop of main: every round samples NUM_TRIALS answers with
  the current prompt, scores them with the judge, and, on every round but the
  last, records (prompt, accuracy) in the history and asks the mutator for a
  new prompt. Every failure degrades instead of stopping the loop: a failed
  trial is an empty answer, a failed evaluation scores 0.0, a failed mutation
  keeps the prompt.
 */
module Loop {
  import opened Text
  import opened Exceptions
  import opened Client
  import opened Agents

  const NumIterations: nat := 50
  const NumTrials: nat := 10
  const InitialPrompt: string := "Answer the following question."

  // ---------------------------------------------------------------- trials

  /** One trial: the answerer's reply, or "" when the answerer raised. */
  function TrialAnswer(service: Service, round: nat, trial: nat, prompt: string): string {
    match Answered(service, round, trial, prompt, StaticQuestion)
    case Ok(answer) => answer
    case Err(_) => ""
  }

  /** The trials of one round, by trial number. */
  function TrialsOf(service: Service, round: nat, prompt: string): nat -> string {
    (trial: nat) => TrialAnswer(service, round, trial, prompt)
  }

  /** The answers of the first `n` trials, in trial order. */
  function Sample(trials: nat -> string, n: nat): (answers: seq<string>)
    ensures |answers| == n
    ensures forall t :: 0 <= t < n ==> answers[t] == trials(t)
  {
    if n == 0 then [] else Sample(trials, n - 1) + [trials(n - 1)]
  }

  /**
    A round's batch has one entry per trial, at the trial's own index: the
    trimmed answer of a trial that succeeded, "" for a trial that raised.
   */
  lemma SampleShape(service: Service, round: nat, prompt: string, n: nat, t: nat)
    requires t < n
    ensures var answers := Sample(TrialsOf(service, round, prompt), n);
      && |answers| == n
      && (Answered(service, round, t, prompt, StaticQuestion).Err? ==> answers[t] == "")
      && (Answered(service, round, t, prompt, StaticQuestion).Ok? ==>
            answers[t] == Answered(service, round, t, prompt, StaticQuestion).value && IsTrimmed(answers[t]))
  {
  }

  // ---------------------------------------------------------------- scoring

  /** The accuracy main keeps for a round: the evaluation, or 0.0 when it raised. */
  function RoundAccuracy(service: Service, round: nat, answers: seq<string>): real {
    match Evaluation(service, round, answers, CorrectAnswer)
    case Ok(accuracy) => accuracy
    case Err(_) => 0.0
  }

  /** A round's accuracy lies in [0, 1]; it is 0.0 when the evaluation raised. */
  lemma RoundAccuracyBounds(service: Service, round: nat, answers: seq<string>)
    ensures 0.0 <= RoundAccuracy(service, round, answers) <= 1.0
    ensures Evaluation(service, round, answers, CorrectAnswer).Err? ==> RoundAccuracy(service, round, answers) == 0.0
  {
    ScoreAccuracy(JudgeOf(service, round, CorrectAnswer), answers);
  }

  /** A batch of trials that all raised scores 0.0: no judge call is made. */
  lemma AllTrialsFailedScoresZero(service: Service, round: nat, prompt: string, n: nat)
    requires n > 0
    requires forall t :: 0 <= t < n ==> Answered(service, round, t, prompt, StaticQuestion).Err?
    ensures RoundAccuracy(service, round, Sample(TrialsOf(service, round, prompt), n)) == 0.0
  {
    AllEmptyScoresZero(JudgeOf(service, round, CorrectAnswer), Sample(TrialsOf(service, round, prompt), n));
  }

  // ---------------------------------------------------------------- the loop as a function

  /** What a round's prompt scores: round number and prompt to accuracy. */
  type Scorer = (nat, string) -> real

  /** What the mutator returns for (round, prompt, accuracy, history). */
  type Mutator = (nat, string, real, seq<Entry>) -> Result<string>

  function ScorerOf(service: Service, numTrials: nat): Scorer {
    (round: nat, prompt: string) => RoundAccuracy(service, round, Sample(TrialsOf(service, round, prompt), numTrials))
  }

  function MutatorOf(service: Service): Mutator {
    (round: nat, prompt: string, accuracy: real, history: seq<Entry>) => Improved(service, round, prompt, accuracy, history)
  }

  /** The state main carries from one round to the next. */
  datatype RunState = RunState(prompt: string, history: seq<Entry>)

  /**
    Round `round` of `n`, whose prompt scored `accuracy`: on every round but
    the last, the entry is appended first and the mutator then sees the
    history that already holds it; the prompt changes only when the mutator
    returned one.
   */
  function Step(mutate: Mutator, n: nat, s: RunState, round: nat, accuracy: real): RunState {
    if round + 1 < n then
      var history := s.history + [Entry(s.prompt, accuracy)];
      match mutate(round, s.prompt, accuracy, history)
      case Ok(prompt) => RunState(prompt, history)
      case Err(_) => RunState(s.prompt, history)
    else s
  }

  /** The state after the first `k` rounds of a run of `n`. */
  function StateAfter(score: Scorer, mutate: Mutator, n: nat, k: nat): RunState {
    if k == 0 then RunState(InitialPrompt, [])
    else
      var s := StateAfter(score, mutate, n, k - 1);
      Step(mutate, n, s, k - 1, score(k - 1, s.prompt))
  }

  /**
    After round k the history holds one entry per round so far, even where
    the mutation failed; the last round adds none, so a whole run of n
    rounds leaves n - 1 entries.
   */
  lemma {:induction false} HistoryLength(score: Scorer, mutate: Mutator, n: nat, k: nat)
    requires k <= n
    ensures |StateAfter(score, mutate, n, k).history| == if k == n && n > 0 then k - 1 else k
    decreases k
  {
    if k > 0 {
      HistoryLength(score, mutate, n, k - 1);
    }
  }

  /** The history is append-only: what an earlier round recorded stays, in place. */
  lemma {:induction false} HistoryAppendOnly(score: Scorer, mutate: Mutator, n: nat, j: nat, k: nat)
    requires j <= k
    ensures var h := StateAfter(score, mutate, n, j).history;
      |h| <= |StateAfter(score, mutate, n, k).history| && h == StateAfter(score, mutate, n, k).history[..|h|]
    decreases k
  {
    if j < k {
      HistoryAppendOnly(score, mutate, n, j, k - 1);
      var before := StateAfter(score, mutate, n, k - 1).history;
      var after := StateAfter(score, mutate, n, k).history;
      assert before == after[..|before|];
    }
  }

  /** Entry i of the history is the prompt round i used and the accuracy that prompt scored in round i. */
  lemma {:induction false} HistoryRecordsRound(score: Scorer, mutate: Mutator, n: nat, k: nat, i: nat)
    requires k <= n
    requires i < |StateAfter(score, mutate, n, k).history|
    ensures var p := StateAfter(score, mutate, n, i).prompt;
      StateAfter(score, mutate, n, k).history[i] == Entry(p, score(i, p))
    decreases k
  {
    HistoryLength(score, mutate, n, k);
    HistoryLength(score, mutate, n, i + 1);
    HistoryAppendOnly(score, mutate, n, i + 1, k);
    HistoryLength(score, mutate, n, i);
  }

  /** Every accuracy in the history lies in [0, 1] when every round's score does. */
  lemma HistoryAccuracyBounds(service: Service, numTrials: nat, mutate: Mutator, n: nat, k: nat, i: nat)
    requires k <= n
    requires i < |StateAfter(ScorerOf(service, numTrials), mutate, n, k).history|
    ensures 0.0 <= StateAfter(ScorerOf(service, numTrials), mutate, n, k).history[i].accuracy <= 1.0
  {
    var score := ScorerOf(service, numTrials);
    HistoryRecordsRound(score, mutate, n, k, i);
    var p := StateAfter(score, mutate, n, i).prompt;
    RoundAccuracyBounds(service, i, Sample(TrialsOf(service, i, p), numTrials));
  }

  /**
    A failed mutation keeps the prompt, and the round's entry is recorded all
    the same; a successful one installs the mutator's prompt.
   */
  lemma MutationOutcome(score: Scorer, mutate: Mutator, n: nat, k: nat)
    requires k + 1 < n
    ensures var s := StateAfter(score, mutate, n, k);
      var history := s.history + [Entry(s.prompt, score(k, s.prompt))];
      var next := StateAfter(score, mutate, n, k + 1);
      && next.history == history
      && (mutate(k, s.prompt, score(k, s.prompt), history).Err? ==> next.prompt == s.prompt)
      && (mutate(k, s.prompt, score(k, s.prompt), history).Ok? ==>
            next.prompt == mutate(k, s.prompt, score(k, s.prompt), history).value)
  {
  }

  /** The last round samples and scores but changes nothing. */
  lemma LastRoundKeepsState(score: Scorer, mutate: Mutator, n: nat)
    requires n > 0
    ensures StateAfter(score, mutate, n, n) == StateAfter(score, mutate, n, n - 1)
  {
  }

  /** A mutator that only ever returns trimmed prompts. */
  ghost predicate Trims(mutate: Mutator) {
    forall round: nat, prompt, accuracy, history ::
      mutate(round, prompt, accuracy, history).Ok? ==> IsTrimmed(mutate(round, prompt, accuracy, history).value)
  }

  /** The service's mutator returns the extracted prompt, which is trimmed. */
  lemma ServiceMutatorTrims(service: Service)
    ensures Trims(MutatorOf(service))
  {
    forall round: nat, prompt, accuracy, history
      ensures MutatorOf(service)(round, prompt, accuracy, history)
              == Improved(service, round, prompt, accuracy, history)
    {
    }
  }

  /** With a mutator that trims, every prompt in use is trimmed: the initial one and every one installed. */
  lemma {:induction false} PromptAlwaysTrimmed(score: Scorer, mutate: Mutator, n: nat, k: nat)
    requires Trims(mutate)
    ensures IsTrimmed(StateAfter(score, mutate, n, k).prompt)
    decreases k
  {
    if k > 0 {
      PromptAlwaysTrimmed(score, mutate, n, k - 1);
    }
  }

  /**
    A whole run of n > 0 rounds against the service: n - 1 history entries,
    each accuracy in [0, 1], and a trimmed final prompt.
   */
  lemma RunOutcome(service: Service, numTrials: nat, n: nat)
    requires n > 0
    ensures var s := StateAfter(ScorerOf(service, numTrials), MutatorOf(service), n, n);
      && |s.history| == n - 1
      && (forall i :: 0 <= i < |s.history| ==> 0.0 <= s.history[i].accuracy <= 1.0)
      && IsTrimmed(s.prompt)
  {
    var score := ScorerOf(service, numTrials);
    var s := StateAfter(score, MutatorOf(service), n, n);
    HistoryLength(score, MutatorOf(service), n, n);
    forall i | 0 <= i < |s.history|
      ensures 0.0 <= s.history[i].accuracy <= 1.0
    {
      HistoryAccuracyBounds(service, numTrials, MutatorOf(service), n, n, i);
    }
    ServiceMutatorTrims(service);
    PromptAlwaysTrimmed(score, MutatorOf(service), n, n);
  }

  // ---------------------------------------------------------------- the loop as a class

  /** main's state: the prompt in use and the history of (prompt, accuracy) pairs. */
  class Optimizer {
    const service: Service
    var currentPrompt: string
    var promptHistory: seq<Entry>
    /** Rounds sampled and scored so far. */
    ghost var rounds: nat

    function Current(): RunState
      reads this
    {
      RunState(currentPrompt, promptHistory)
    }

    constructor (service: Service)
      ensures this.service == service
      ensures Current() == RunState(InitialPrompt, []) && rounds == 0
    {
      this.service := service;
      currentPrompt := InitialPrompt;
      promptHistory := [];
      rounds := 0;
    }

    /** The trial loop: one answer per trial, "" for a trial whose answerer raised. */
    method SampleTrials(round: nat) returns (answers: seq<string>)
      ensures answers == Sample(TrialsOf(service, round, currentPrompt), NumTrials)
    {
      answers := [];
      var trial := 0;
      while trial < NumTrials
        invariant trial <= NumTrials
        invariant answers == Sample(TrialsOf(service, round, currentPrompt), trial)
      {
        var answer := Trial(round, trial);
        answers := answers + [answer];
        trial := trial + 1;
      }
    }

    /** One trial of the loop: the answer, or "" in place of the answerer's exception. */
    method Trial(round: nat, trial: nat) returns (answer: string)
      ensures answer == TrialsOf(service, round, currentPrompt)(trial)
    {
      var r := QuestionAnswerer(service, round, trial, currentPrompt, StaticQuestion);
      match r {
        case Ok(a) => answer := a;
        case Err(_) => answer := "";
      }
    }

    /** The evaluation step: the judge's accuracy, or 0.0 when supervisor_evaluate raised. */
    method Evaluate(round: nat, answers: seq<string>) returns (accuracy: real)
      ensures accuracy == RoundAccuracy(service, round, answers)
      ensures 0.0 <= accuracy <= 1.0
    {
      var r, _ := SupervisorEvaluate(service, round, answers, CorrectAnswer);
      match r {
        case Ok(a) => accuracy := a;
        case Err(_) => accuracy := 0.0;
      }
      RoundAccuracyBounds(service, round, answers);
    }

    /** The improvement step: append the entry, then mutate; a failed mutation keeps the prompt. */
    method ImprovePrompt(round: nat, accuracy: real, ghost n: nat)
      modifies this
      requires round + 1 < n
      ensures Current() == Step(MutatorOf(service), n, old(Current()), round, accuracy)
      ensures rounds == old(rounds)
    {
      promptHistory := promptHistory + [Entry(currentPrompt, accuracy)];
      var r := SupervisorImprovePrompt(service, round, currentPrompt, accuracy, promptHistory);
      match r {
        case Ok(prompt) => currentPrompt := prompt;
        case Err(_) =>
      }
    }

    /** The trials of a round and their evaluation, with the current prompt. */
    method ScoreRound(round: nat) returns (accuracy: real)
      ensures accuracy == ScorerOf(service, NumTrials)(round, currentPrompt)
    {
      var answers := SampleTrials(round);
      accuracy := Evaluate(round, answers);
    }

    /** One iteration of main's loop. */
    method RunRound(round: nat, n: nat)
      modifies this
      ensures Current() ==
        Step(MutatorOf(service), n, old(Current()), round, ScorerOf(service, NumTrials)(round, old(currentPrompt)))
      ensures rounds == old(rounds) + 1
    {
      var accuracy := ScoreRound(round);
      if round + 1 < n {
        ImprovePrompt(round, accuracy, n);
      } else {
        // the last round only samples and scores
        assert Step(MutatorOf(service), n, old(Current()), round, accuracy) == old(Current());
      }
      rounds := rounds + 1;
    }

    /**
      main's loop from a fresh state: exactly NUM_ITERATIONS rounds, the
      state is the run's (RunOutcome says what it holds), and the history
      has NUM_ITERATIONS - 1 entries.
     */
    method Run()
      modifies this
      requires Current() == RunState(InitialPrompt, []) && rounds == 0
      ensures Current() == StateAfter(ScorerOf(service, NumTrials), MutatorOf(service), NumIterations, NumIterations)
      ensures rounds == NumIterations
      ensures |promptHistory| == NumIterations - 1
    {
      var iteration := 0;
      while iteration < NumIterations
        invariant iteration <= NumIterations
        invariant Current() == StateAfter(ScorerOf(service, NumTrials), MutatorOf(service), NumIterations, iteration)
        invariant rounds == iteration
      {
        RunRound(iteration, NumIterations);
        iteration := iteration + 1;
      }
      HistoryLength(ScorerOf(service, NumTrials), MutatorOf(service), NumIterations, NumIterations);
    }
  }
}
