/** The DecisionWise home page component: its three pieces of state and the
    handlers that change them. Rendering is not part of this model. */
module Page {
  import opened OptionList
  import opened FilledOptions
  import opened Analysis

  /** A value or JavaScript's null. */
  datatype Option<T> = None | Some(value: T)

  /** How a submit ended, standing for the toast it shows (or the result card
      when the analysis succeeded). */
  datatype SubmitOutcome = NotEnoughOptions | Decided | AnalysisFailed

  class Home {
    var options: seq<string>
    var isLoading: bool
    var result: Option<Decision>

    /** The page never shows fewer than two inputs. */
    ghost predicate Valid()
      reads this
    {
      |options| >= MinOptions
    }

    /** The state hooks' initial values. */
    constructor ()
      ensures Valid()
      ensures options == Initial && !isLoading && result == None
    {
      options := Initial;
      isLoading := false;
      result := None;
    }

    /** handleOptionChange: the input at `index` now holds `value`. */
    method HandleOptionChange(index: nat, value: string)
      requires Valid() && index < |options|
      modifies this
      ensures Valid()
      ensures options == ChangedAt(old(options), index, value)
      ensures isLoading == old(isLoading) && result == old(result)
    {
      options := ChangedAt(options, index, value);
    }

    /** addOption: one more, empty, input at the end. */
    method AddOption()
      requires Valid()
      modifies this
      ensures Valid()
      ensures options == Appended(old(options))
      ensures isLoading == old(isLoading) && result == old(result)
    {
      options := Appended(options);
    }

    /** removeOption: drops the input at `indexToRemove` while more than two
        remain, and does nothing otherwise. */
    method RemoveOption(indexToRemove: int)
      requires Valid()
      modifies this
      ensures Valid()
      ensures options == AfterRemove(old(options), indexToRemove)
      ensures isLoading == old(isLoading) && result == old(result)
    {
      if |options| > MinOptions {
        options := WithoutIndex(options, indexToRemove);
      }
    }

    /** handleSubmit up to the `await`: the filled options are computed and,
        when there are at least two, the page switches to loading and clears
        the old result. With fewer than two nothing changes. */
    method StartSubmit() returns (filledOptions: seq<string>, ready: bool)
      modifies this
      ensures options == old(options) && filledOptions == Filled(options)
      ensures ready <==> |filledOptions| >= 2
      ensures !ready ==> isLoading == old(isLoading) && result == old(result)
      ensures ready ==> isLoading && result == None
    {
      filledOptions := Filled(options);
      if |filledOptions| < 2 {
        return filledOptions, false;
      }
      isLoading := true;
      result := None;
      ready := true;
    }

    /** handleSubmit after the `await`: a decision is stored, a failure leaves
        the result as it was, and loading ends either way. */
    method FinishSubmit(reply: Reply) returns (outcome: SubmitOutcome)
      modifies this
      ensures options == old(options) && !isLoading
      ensures match reply
              case Resolved(d) => outcome == Decided && result == Some(d)
              case Rejected => outcome == AnalysisFailed && result == old(result)
    {
      match reply {
        case Resolved(d) =>
          result := Some(d);
          outcome := Decided;
        case Rejected =>
          outcome := AnalysisFailed;
      }
      isLoading := false;
    }

    /** handleSubmit. With fewer than two filled options nothing changes and
        no request is sent. Otherwise the filled options are sent once, the
        page shows the loading state with no result while the request is out
        (`shownDuringCall`, the state StartSubmit leaves), and afterwards it
        is no longer loading and shows the decision, or no result when the
        call failed. The options themselves are never touched. */
    method HandleSubmit(flow: AnalysisFlow) returns (outcome: SubmitOutcome, ghost shownDuringCall: Option<(bool, Option<Decision>)>)
      modifies this, flow
      ensures options == old(options)
      ensures |Filled(options)| < 2 ==>
                outcome == NotEnoughOptions && shownDuringCall == None
                && isLoading == old(isLoading) && result == old(result)
                && flow.requests == old(flow.requests)
      ensures |Filled(options)| >= 2 ==>
                flow.requests == old(flow.requests) + [Filled(options)]
                && shownDuringCall == Some((true, None))
                && !isLoading
                && match flow.respond(|old(flow.requests)|, Filled(options))
                   case Resolved(d) => outcome == Decided && result == Some(d)
                   case Rejected => outcome == AnalysisFailed && result == None
    {
      var filledOptions, ready := StartSubmit();
      if !ready {
        return NotEnoughOptions, None;
      }
      shownDuringCall := Some((isLoading, result));

      var aiResult := flow.Analyze(filledOptions);
      outcome := FinishSubmit(aiResult);
    }
  }

  /** handleSubmit on the initial state takes the "not enough options"
      branch and sends nothing: both inputs are empty. */
  method SubmitFreshPage(flow: AnalysisFlow) returns (outcome: SubmitOutcome)
    modifies flow
    ensures outcome == NotEnoughOptions && flow.requests == old(flow.requests)
  {
    var page := new Home();
    InitialFillsToNothing();
    ghost var shown;
    outcome, shown := page.HandleSubmit(flow);
  }

  /** The user fills in "Pizza", leaves a blank input, adds "Tacos" and
      submits: exactly ["Pizza", "Tacos"] is sent. */
  method SubmitWithBlankInput(flow: AnalysisFlow) returns (outcome: SubmitOutcome)
    modifies flow
    ensures flow.requests == old(flow.requests) + [["Pizza", "Tacos"]]
    ensures outcome != NotEnoughOptions
  {
    var page := new Home();
    page.HandleOptionChange(0, "Pizza");
    page.HandleOptionChange(1, "  ");
    page.AddOption();
    page.HandleOptionChange(2, "Tacos");
    assert page.options == ["Pizza", "  ", "Tacos"];
    BlankEntryDropped();
    ghost var shown;
    outcome, shown := page.HandleSubmit(flow);
  }
}
