/**
  The judge's verdict parser (supervisor_evaluate, lines 86-89): the judge's
  reply is lower-cased and trimmed, its trailing run of `.`, `!`, `?` is
  dropped, and the verdict is the word `correct` or `incorrect` that
  re.search(r'(correct|incorrect)$', ...) finds, "incorrect" when none.
 */
module Judgment {
  import opened Text

  datatype Verdict = Correct | Incorrect

  predicate IsPunct(c: char) {
    c == '.' || c == '!' || c == '?'
  }

  predicate AllPunct(s: string) {
    forall i :: 0 <= i < |s| ==> IsPunct(s[i])
  }

  /**
    re.sub(r'[.!?]+$', '', s) for a text that does not end in a newline (the
    parser only applies it to stripped text): the prefix left once the
    trailing run of punctuation is removed.
   */
  function DropTrailingPunct(s: string): (r: string)
    ensures |r| <= |s| && r == s[..|r|]
    ensures AllPunct(s[|r|..])
    ensures r == [] || !IsPunct(r[|r| - 1])
  {
    if s != [] && IsPunct(s[|s| - 1]) then DropTrailingPunct(s[..|s| - 1]) else s
  }

  /** cleaned_judgment: lower-cased, stripped, trailing punctuation dropped. */
  function Clean(fullJudgment: string): string {
    DropTrailingPunct(Strip(Lower(fullJudgment)))
  }

  /**
    Python's `$` (without MULTILINE) matches at the end of the text and also
    just before a newline that ends it; this is the text a match may end on.
   */
  function MatchEnd(s: string): string {
    if s != [] && s[|s| - 1] == '\n' then s[..|s| - 1] else s
  }

  /** The verdict word found at the end of the cleaned text, "incorrect" when there is none. */
  function Classify(cleaned: string): Verdict {
    var tail := MatchEnd(cleaned);
    if EndsWith(tail, "incorrect") then Incorrect
    else if EndsWith(tail, "correct") then Correct
    else Incorrect
  }

  /**
    Reference semantics of re.search(r'(correct|incorrect)$', s): scan the
    start positions from the left and, at each, try `correct` before
    `incorrect`; the first alternative that matches and ends where `$`
    holds is the group returned.
   */
  ghost predicate EndAnchor(s: string, k: nat) {
    k == |s| || (k + 1 == |s| && s[k] == '\n')
  }

  ghost predicate MatchAt(s: string, p: nat, w: string) {
    OccursAt(s, p, w) && EndAnchor(s, p + |w|)
  }

  ghost function SearchFrom(s: string, p: nat): Option<string>
    decreases |s| + 1 - p
  {
    if p > |s| then None
    else if MatchAt(s, p, "correct") then Some("correct")
    else if MatchAt(s, p, "incorrect") then Some("incorrect")
    else SearchFrom(s, p + 1)
  }

  ghost function Search(s: string): Option<string> {
    SearchFrom(s, 0)
  }

  /** A word not ending in a newline matches at `p` exactly when it ends the text a match may end on. */
  lemma MatchAtEnd(s: string, p: nat, w: string)
    requires w != [] && w[|w| - 1] != '\n'
    ensures MatchAt(s, p, w) <==> p + |w| == |MatchEnd(s)| && EndsWith(MatchEnd(s), w)
  {
    var tail := MatchEnd(s);
    if p + |w| == |tail| && EndsWith(tail, w) {
      assert s[p..p + |w|] == tail[p..p + |w|];
    }
    if MatchAt(s, p, w) && p + |w| + 1 == |s| {
      assert s[p + |w|] == '\n';
      assert tail[p..] == s[p..p + |w|];
    }
  }

  /** Where the leftmost match starts, the search from any position finds the same group. */
  lemma {:induction false} SearchFromEnd(s: string, p: nat)
    ensures var tail := MatchEnd(s);
      SearchFrom(s, p) ==
        if EndsWith(tail, "incorrect") && p + 9 <= |tail| then Some("incorrect")
        else if EndsWith(tail, "correct") && p + 7 <= |tail| then Some("correct")
        else None
    decreases |s| + 1 - p
  {
    MatchAtEnd(s, p, "correct");
    MatchAtEnd(s, p, "incorrect");
    var tail := MatchEnd(s);
    if EndsWith(tail, "incorrect") {
      assert tail[|tail| - 7..] == tail[|tail| - 9..][2..];
    }
    if p <= |s| && !MatchAt(s, p, "correct") && !MatchAt(s, p, "incorrect") {
      SearchFromEnd(s, p + 1);
    }
  }

  /** The suffix test agrees with the leftmost-match search of the regex. */
  lemma ClassifyIsSearch(cleaned: string)
    ensures Classify(cleaned) == Correct <==> Search(cleaned) == Some("correct")
    ensures Search(cleaned) == None ==> Classify(cleaned) == Incorrect
  {
    SearchFromEnd(cleaned, 0);
  }

  /**
    The verdict of a judge reply: `Correct` exactly when the regex finds the
    group "correct" in the cleaned reply; every other reply, including one
    with no verdict word at all, is `Incorrect`.
   */
  function ParseVerdict(fullJudgment: string): (v: Verdict)
    ensures v == Correct <==> Search(Clean(fullJudgment)) == Some("correct")
    ensures Search(Clean(fullJudgment)) == None ==> v == Incorrect
  {
    ClassifyIsSearch(Clean(fullJudgment));
    Classify(Clean(fullJudgment))
  }

  /** The suffix rules: `incorrect` wins, `correct` alone gives Correct, anything else Incorrect. */
  lemma VerdictSuffixRules(fullJudgment: string)
    ensures var tail := MatchEnd(Clean(fullJudgment));
      && (EndsWith(tail, "incorrect") ==> ParseVerdict(fullJudgment) == Incorrect)
      && (ParseVerdict(fullJudgment) == Correct <==> EndsWith(tail, "correct") && !EndsWith(tail, "incorrect"))
  {
  }

  /** The parser is case-insensitive: texts equal up to ASCII case get the same verdict. */
  lemma VerdictIgnoresCase(a: string, b: string)
    requires Lower(a) == Lower(b)
    ensures ParseVerdict(a) == ParseVerdict(b)
    ensures ParseVerdict(Lower(a)) == ParseVerdict(a)
  {
    LowerIdempotent(a);
  }

  lemma {:induction false} DropTrailingPunctAppend(s: string, p: string)
    requires AllPunct(p)
    ensures DropTrailingPunct(s + p) == DropTrailingPunct(s)
    decreases |p|
  {
    if p != [] {
      var q := p[..|p| - 1];
      assert IsPunct((s + p)[|s + p| - 1]);
      assert (s + p)[..|s + p| - 1] == s + q;
      DropTrailingPunctAppend(s, q);
    } else {
      assert s + p == s;
    }
  }

  lemma {:induction false} StripLeftAppend(s: string, p: string)
    requires s != [] && !IsSpace(s[|s| - 1])
    ensures StripLeft(s + p) == StripLeft(s) + p
    decreases |s|
  {
    if IsSpace(s[0]) {
      assert (s + p)[1..] == s[1..] + p;
      StripLeftAppend(s[1..], p);
    }
  }

  /** Stripping a text that ends in a non-space, followed by punctuation, keeps the punctuation. */
  lemma StripAppendPunct(x: string, p: string)
    requires x == [] || !IsSpace(x[|x| - 1])
    requires p != [] && AllPunct(p)
    ensures Strip(x + p) == Strip(x) + p
  {
    assert !IsSpace(p[0]) && !IsSpace(p[|p| - 1]);
    if x == [] {
      assert x + p == p;
      assert StripLeft(p) == p;
      assert StripRight(p) == p;
    } else {
      StripLeftAppend(x, p);
      StripLeftSpec(x);
      var l := StripLeft(x);
      assert l[|l| - 1] == x[|x| - 1];
      assert StripRight(l) == l;
      assert (l + p)[|l + p| - 1] == p[|p| - 1];
      assert StripRight(l + p) == l + p;
    }
  }

  lemma LowerCharKeepsSpace(c: char)
    ensures IsSpace(LowerChar(c)) == IsSpace(c)
  {
  }

  lemma LowerAppendPunct(s: string, p: string)
    requires AllPunct(p)
    ensures Lower(s + p) == Lower(s) + p
  {
    LowerAppend(s, p);
    assert Lower(p) == p;
  }

  /**
    Appending more `.`, `!` or `?` to a reply (already stripped, as the
    judge's reply is) does not change its verdict.
   */
  lemma VerdictIgnoresExtraPunctuation(fullJudgment: string, p: string)
    requires fullJudgment == [] || !IsSpace(fullJudgment[|fullJudgment| - 1])
    requires AllPunct(p)
    ensures ParseVerdict(fullJudgment + p) == ParseVerdict(fullJudgment)
  {
    if p != [] {
      var x := Lower(fullJudgment);
      if x != [] {
        LowerCharKeepsSpace(fullJudgment[|fullJudgment| - 1]);
      }
      LowerAppendPunct(fullJudgment, p);
      StripAppendPunct(x, p);
      DropTrailingPunctAppend(Strip(x), p);
      assert Clean(fullJudgment + p) == Clean(fullJudgment);
    } else {
      assert fullJudgment + p == fullJudgment;
    }
  }

  /** The closing sentences the judge is told to end its reply with. */
  const CorrectPhrase: string := "The answer is correct"
  const IncorrectPhrase: string := "The answer is incorrect"

  /**
    Whatever precedes it, a reply that ends with a phrase (then punctuation)
    is cleaned to a text that ends with the lower-cased phrase.
   */
  lemma CleanKeepsPhrase(reasoning: string, phrase: string, p: string)
    requires AllPunct(p)
    requires phrase != [] && !IsSpace(Lower(phrase)[0])
    requires !IsSpace(Lower(phrase)[|phrase| - 1]) && !IsPunct(Lower(phrase)[|phrase| - 1])
    ensures EndsWith(Clean(reasoning + phrase + p), Lower(phrase))
  {
    var x := Lower(reasoning) + Lower(phrase);
    LowerAppend(reasoning, phrase);
    LowerAppendPunct(reasoning + phrase, p);
    assert Lower(reasoning + phrase + p) == x + p;
    StripKeepsEnd(Lower(reasoning), Lower(phrase));
    var t := Strip(x);
    assert t[|t| - 1] == Lower(phrase)[|phrase| - 1];
    if p != [] {
      StripAppendPunct(x, p);
      DropTrailingPunctAppend(t, p);
    } else {
      assert x + p == x;
    }
    assert DropTrailingPunct(t) == t;
  }

  lemma LowerPhrases()
    ensures Lower(CorrectPhrase) == "the answer is correct"
    ensures Lower(IncorrectPhrase) == "the answer is incorrect"
  {
  }

  /**
    The reply format the judge is asked for round-trips: any reasoning that
    ends with "The answer is correct", whatever `.`, `!` or `?` follow, is
    judged Correct.
   */
  lemma JudgeFormatCorrect(reasoning: string, p: string)
    requires AllPunct(p)
    ensures ParseVerdict(reasoning + CorrectPhrase + p) == Correct
  {
    LowerPhrases();
    var lc := Lower(CorrectPhrase);
    CleanKeepsPhrase(reasoning, CorrectPhrase, p);
    var c := Clean(reasoning + CorrectPhrase + p);
    assert MatchEnd(c) == c;
    assert c[|c| - 7..] == lc[14..] == "correct";
    assert c[|c| - 9..] == lc[12..] != "incorrect";
  }

  /** ... and one that ends with "The answer is incorrect" is judged Incorrect. */
  lemma JudgeFormatIncorrect(reasoning: string, p: string)
    requires AllPunct(p)
    ensures ParseVerdict(reasoning + IncorrectPhrase + p) == Incorrect
  {
    LowerPhrases();
    var li := Lower(IncorrectPhrase);
    CleanKeepsPhrase(reasoning, IncorrectPhrase, p);
    var d := Clean(reasoning + IncorrectPhrase + p);
    assert MatchEnd(d) == d;
    assert d[|d| - 9..] == li[14..] == "incorrect";
  }
}
