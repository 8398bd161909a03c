/** The transcript classifier's control flow. The remote model call is not
    modelled: its effect is a `RemoteOutcome` parameter, and the API key is
    the text of the `API_KEY` environment setting ("" when unset). */
module AnalysisService {
  import opened Optional
  import opened Records

  /** How the remote call ended: it threw, it replied with empty text, or its
      reply text parsed to a result. */
  datatype RemoteOutcome = CallFailed | EmptyReply | Reply(result: AnalysisResult)

  const MissingKeyReasoning: string := "API Key missing. Please check configuration."
  const FailureReasoning: string := "Failed to analyze transcript."

  /** The fixed result handed back when no classification is available. */
  function Fallback(reasoning: string): (r: AnalysisResult)
    ensures r.suggestedStatus == Pending
    ensures r.extractedDate == None && r.extractedAmount == None
    ensures r.reasoning == reasoning
  {
    AnalysisResult(Pending, None, None, reasoning)
  }

  predicate IsFallback(r: AnalysisResult) {
    r == Fallback(MissingKeyReasoning) || r == Fallback(FailureReasoning)
  }

  /** `analyzeTranscript(transcript)`. It always returns a result: without a
      key the missing-key fallback, whatever the transcript and the remote
      side would do; with a key, the parsed reply, or the failure fallback
      when the call threw or the reply text was empty. */
  function AnalyzeTranscript(apiKey: string, transcript: string, outcome: RemoteOutcome): (r: AnalysisResult)
    ensures apiKey == "" ==> r.reasoning == MissingKeyReasoning
    ensures apiKey != "" && !outcome.Reply? ==> r.reasoning == FailureReasoning
    ensures !(apiKey != "" && outcome.Reply?) ==>
              r.suggestedStatus == Pending && r.extractedDate == None && r.extractedAmount == None
    ensures apiKey != "" && outcome.Reply? ==> r == outcome.result
  {
    if apiKey == "" then Fallback(MissingKeyReasoning)
    else
      match outcome
      case CallFailed => Fallback(FailureReasoning)
      case EmptyReply => Fallback(FailureReasoning)
      case Reply(result) => result
  }

  /** The two fallbacks can be told apart by their reasoning, and only by it. */
  lemma FallbacksDiffer()
    ensures MissingKeyReasoning != FailureReasoning
    ensures Fallback(MissingKeyReasoning) != Fallback(FailureReasoning)
  {
    assert MissingKeyReasoning[0] != FailureReasoning[0];
  }

  /** Without a key, the outcome does not depend on the transcript or the remote side. */
  lemma UnconfiguredIgnoresInput(t1: string, o1: RemoteOutcome, t2: string, o2: RemoteOutcome)
    ensures AnalyzeTranscript("", t1, o1) == AnalyzeTranscript("", t2, o2) == Fallback(MissingKeyReasoning)
  {
  }

  /** An empty reply is handled exactly like a failed call. */
  lemma EmptyReplyIsFailure(apiKey: string, transcript: string)
    ensures AnalyzeTranscript(apiKey, transcript, EmptyReply) == AnalyzeTranscript(apiKey, transcript, CallFailed)
  {
  }

  /** Every result that is not the remote reply is one of the two fallbacks. */
  lemma NonReplyIsFallback(apiKey: string, transcript: string, outcome: RemoteOutcome)
    requires apiKey == "" || !outcome.Reply?
    ensures IsFallback(AnalyzeTranscript(apiKey, transcript, outcome))
  {
  }
}
