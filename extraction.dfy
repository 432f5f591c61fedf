/**
  The new-prompt extraction of supervisor_improve_prompt (lines 126-127):
  re.search(r'NEW PROMPT:\s*(.*)', response, re.DOTALL), then strip() of the
  group, or of the whole response when the marker is absent.
 */
module Extraction {
  import opened Text

  /** The case-sensitive marker that ends the mutator's reasoning. */
  const Marker: string := "NEW PROMPT:"

  /**
    The new prompt: the text after the FIRST occurrence of the marker,
    trimmed; the whole response, trimmed, when the marker does not occur.
    Either way the result has no whitespace at either end.
   */
  function ExtractNewPrompt(fullResponse: string): (r: string)
    ensures IsTrimmed(r)
  {
    match IndexOf(fullResponse, Marker)
    case Some(p) =>
      IndexOfSpec(fullResponse, Marker);
      // `\s*` consumes the leading whitespace, `(.*)` with DOTALL the rest
      Strip(StripLeft(fullResponse[p + |Marker|..]))
    case None =>
      Strip(fullResponse)
  }

  /**
    The extracted prompt is the trimmed text after the first occurrence of
    the marker, or the whole trimmed response when the marker is absent.
   */
  lemma ExtractNewPromptSpec(fullResponse: string)
    ensures forall p: nat :: FirstOccurrence(fullResponse, p, Marker) ==>
              ExtractNewPrompt(fullResponse) == Strip(fullResponse[p + |Marker|..])
    ensures (forall q: nat :: !OccursAt(fullResponse, q, Marker)) ==> ExtractNewPrompt(fullResponse) == Strip(fullResponse)
  {
    IndexOfSpec(fullResponse, Marker);
    match IndexOf(fullResponse, Marker)
    case Some(p) =>
      FirstOccurrenceUnique(fullResponse, p, Marker);
      StripAfterStripLeft(fullResponse[p + |Marker|..]);
    case None =>
  }

  /** The marker has no proper prefix that is also a suffix of it, so occurrences cannot overlap it. */
  lemma MarkerNotInsideItself(s: string, q: nat)
    requires OccursAt(s, q, Marker)
    ensures forall k :: q <= k < q + |Marker| - 1 ==> s[k] != ':'
  {
    assert s[q..q + |Marker|] == Marker;
  }

  /**
    The format the mutator is asked to follow round-trips: reasoning that does
    not contain the marker, then the marker, then a prompt, yields that
    prompt (trimmed).
   */
  lemma ExtractAfterMarker(reasoning: string, prompt: string)
    requires forall q: nat :: !OccursAt(reasoning, q, Marker)
    ensures ExtractNewPrompt(reasoning + Marker + prompt) == Strip(prompt)
  {
    var s := reasoning + Marker + prompt;
    var p := |reasoning|;
    assert s[p..p + |Marker|] == Marker;
    forall q: nat | q < p
      ensures !OccursAt(s, q, Marker)
    {
      if q + |Marker| <= p {
        // inside the reasoning, which has no occurrence
        assert !OccursAt(reasoning, q, Marker);
        assert reasoning[q..q + |Marker|] == s[q..q + |Marker|];
      } else if q + |Marker| <= |s| {
        // overlapping the marker: the ':' that would end it falls inside the marker
        MarkerNotInsideItself(s, p);
        assert s[q + |Marker| - 1] != ':' == Marker[|Marker| - 1];
        assert s[q..q + |Marker|][|Marker| - 1] == s[q + |Marker| - 1];
      }
    }
    assert FirstOccurrence(s, p, Marker);
    assert s[p + |Marker|..] == prompt;
    ExtractNewPromptSpec(s);
  }

  /** A response without the marker is used whole: lower-case "new prompt:" is not the marker. */
  lemma ExtractWithoutMarker(fullResponse: string)
    requires IsTrimmed(fullResponse)
    requires forall q: nat :: !OccursAt(fullResponse, q, Marker)
    ensures ExtractNewPrompt(fullResponse) == fullResponse
  {
    IndexOfSpec(fullResponse, Marker);
    StripTrimmed(fullResponse);
  }
}
