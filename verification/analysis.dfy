/** The best-option analysis the page calls (analyzeOptionsAndReturnBest). The
    answer comes from a language model outside this model, so the service is
    represented by what the page can observe of it: the requests it was sent
    and, for each request, a reply that the page cannot predict. */
module Analysis {

  /** AnalyzeOptionsAndReturnBestOutput: the option the model picked and why. */
  datatype Decision = Decision(bestOption: string, reasoning: string)

  /** How one call ends: the promise resolves with a decision, or it rejects
      (provider error, network failure, an output the schema refuses). */
  datatype Reply = Resolved(decision: Decision) | Rejected

  /** The analysis service. `respond` stands for the provider: it may give any
      reply, and a different one to the same options on a later call, since
      it also receives the number of requests sent before. */
  class AnalysisFlow {
    var requests: seq<seq<string>>
    const respond: (nat, seq<string>) -> Reply

    constructor (respond: (nat, seq<string>) -> Reply)
      ensures requests == [] && this.respond == respond
    {
      this.respond := respond;
      requests := [];
    }

    /** One call: the options are recorded as sent, and the provider's reply
        to this request is returned. */
    method Analyze(options: seq<string>) returns (reply: Reply)
      modifies this
      ensures requests == old(requests) + [options]
      ensures reply == respond(|old(requests)|, options)
    {
      reply := respond(|requests|, options);
      requests := requests + [options];
    }
  }
}
