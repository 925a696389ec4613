# DecisionWise home page, modelled in Dafny

DecisionWise asks the user for a list of free-text options and has a language
model pick the best one. This project models the logic of the page component
`Home` (src/app/page.tsx). The component has three pieces of state: the list
`options`, the flag `isLoading` and the `result` (a decision or null). The
model covers the handlers that change them:

- `handleOptionChange` replaces one input's text.
- `addOption` appends an empty input.
- `removeOption` deletes one input, but only while more than two remain.
- `handleSubmit` trims every option and drops the empty ones. If fewer than
  two remain, it returns and changes nothing. Otherwise it sets loading,
  clears the result, sends the filtered list to the analysis service, stores
  the decision on success, and clears loading whether the call succeeded or
  failed.

Files:

- `trim.dfy` (module `Trimming`): `String.prototype.trim` as ECMA-262 (2024
  edition, section 22.1.3.32) defines it, over the WhiteSpace and
  LineTerminator code points.
- `options.dfy` (module `OptionList`): the new list each list handler
  builds, as functions on `seq<string>`. Also any sequence of user edits and
  the invariant that the list never has fewer than two entries.
- `filled.dfy` (module `FilledOptions`): `filledOptions`, the trimmed,
  non-empty options in their order, with an exact characterisation by
  positions.
- `analysis.dfy` (module `Analysis`): the analysis call
  `analyzeOptionsAndReturnBest` as seen from the page. The class
  `AnalysisFlow` records every request it is sent. The provider's answer is
  an arbitrary function `respond` of the request number and the options, so
  the reply can be any decision or a failure.
- `page.dfy` (module `Page`): the component as the class `Home`, with fields
  `options`, `isLoading` and `result`, one method per handler, and the
  invariant `Valid()` (at least two inputs). Two client methods run a whole
  submit from a fresh page.

## Model

| member | source | states |
|---|---|---|
| Trimming.TrimStartCuts | src/app/page.tsx:36 | the leading-white-space cut returns a suffix of the string, everything cut off is white space, and the result is empty or starts with a non-white character |
| Trimming.TrimEndCuts | src/app/page.tsx:36 | the trailing-white-space cut returns a prefix of the string, everything cut off is white space, and the result is empty or ends with a non-white character |
| Trimming.Trim | src/app/page.tsx:36 | `o.trim()`: no longer than the input; empty exactly when the input is all white space; otherwise starts and ends with a non-white character |
| Trimming.TrimIsInfix | src/app/page.tsx:36 | trim keeps one contiguous piece of the string, and only white space is cut off before and after it |
| Trimming.TrimIdempotent | src/app/page.tsx:36 | trimming a trimmed string changes nothing |
| OptionList.ChangedAt | src/app/page.tsx:18-22 | the copied list has the same length, holds `value` at `index`, and every other entry is unchanged |
| OptionList.ChangeUndone | src/app/page.tsx:18-22 | writing the old text back at the same index restores the list (the change is local and reversible) |
| OptionList.Appended | src/app/page.tsx:24-26 | the list grows by exactly one, all earlier entries are unchanged and in order, and the new last entry is "" |
| OptionList.WithoutIndex | src/app/page.tsx:30 | the index filter deletes exactly the entry at `indexToRemove` and keeps the rest in order; an out-of-range index deletes nothing |
| OptionList.AfterRemove | src/app/page.tsx:28-32 | with more than two entries, the entry at the index is removed and the others shift left in order; with two or fewer, or an out-of-range index, the list is unchanged |
| OptionList.RemoveUndoesAdd | src/app/page.tsx:24-32 | removing the entry that addOption appended gives back the original list |
| OptionList.ApplyKeepsTwo | src/app/page.tsx:18-32 | no single change, add or remove takes a list of two or more entries below two |
| OptionList.ReplayKeepsTwo | src/app/page.tsx:18-32 | any sequence of applicable edits keeps a list of two or more entries at two or more |
| OptionList.NeverBelowTwo | src/app/page.tsx:13-32 | from the initial `["", ""]`, the list has at least two entries after any sequence of user edits |
| FilledOptions.Filled | src/app/page.tsx:36 | `filledOptions` is no longer than `options` and holds no empty string |
| FilledOptions.TrimAll | src/app/page.tsx:36 | the `map` step: same length, and entry i is the trimmed option i |
| FilledOptions.DropEmpty | src/app/page.tsx:36 | the `filter` step: no longer than its input, and holds no "" |
| FilledOptions.FilledEntriesTrimmed | src/app/page.tsx:36 | every entry of `filledOptions` is already trimmed |
| FilledOptions.FilledAppend | src/app/page.tsx:36 | filtering a concatenation gives the concatenation of the filtered parts (the filter works entry by entry) |
| FilledOptions.AddedInputNotSent | src/app/page.tsx:24-36 | the trim-and-filter step ignores an appended empty input: it gives the same list with or without it |
| FilledOptions.TrimAllAppend | src/app/page.tsx:36 | the `map` step works entry by entry: mapping a concatenation is concatenating the mapped parts |
| FilledOptions.DropEmptyAppend | src/app/page.tsx:36 | the `filter` step works entry by entry: filtering a concatenation is concatenating the filtered parts |
| FilledOptions.NonEmptyAtStep | src/app/page.tsx:36 | the kept positions of a list are position 0 when its first string is not empty, followed by the kept positions of the rest, each moved one place on |
| FilledOptions.NonEmptyAtValid | src/app/page.tsx:36 | every kept position is a position of the list and holds a non-empty string |
| FilledOptions.NonEmptyAtSorted | src/app/page.tsx:36 | the kept positions are strictly increasing |
| FilledOptions.NonEmptyAtComplete | src/app/page.tsx:36 | every position holding a non-empty string is kept |
| FilledOptions.DropEmptyLength | src/app/page.tsx:36 | the `filter` step keeps one entry per kept position |
| FilledOptions.DropEmptyStep | src/app/page.tsx:36 | the `filter` step keeps the first string when it is not empty, followed by what it keeps of the rest |
| FilledOptions.DropEmptyAt | src/app/page.tsx:36 | entry k of the filtered list is the string at the k-th kept position |
| FilledOptions.FilledSelectsNonBlank | src/app/page.tsx:36 | `filledOptions` is exactly the non-blank options, trimmed, in their original order, with nothing else |
| FilledOptions.EnoughOptionsIff | src/app/page.tsx:36-37 | the gate passes (two or more filled options) exactly when two different inputs hold something other than white space |
| FilledOptions.InitialFillsToNothing | src/app/page.tsx:13-37 | the initial two empty inputs give an empty `filledOptions` |
| FilledOptions.BlankEntryDropped | src/app/page.tsx:36 | `["Pizza", "  ", "Tacos"]` gives `["Pizza", "Tacos"]` |
| Analysis.AnalysisFlow.constructor | src/ai/flows/analyze-options-and-return-best.ts:33-37 | a fresh service has received no request |
| Analysis.AnalysisFlow.Analyze | src/ai/flows/analyze-options-and-return-best.ts:33-37 | a call records exactly the options it was given as one more request, and returns the provider's reply to that request |
| Page.Home.constructor | src/app/page.tsx:13-15 | initial state: options `["", ""]`, not loading, result null; the two-input invariant holds |
| Page.Home.HandleOptionChange | src/app/page.tsx:18-22 | options become `ChangedAt(old options, index, value)`; loading and result unchanged; invariant kept |
| Page.Home.AddOption | src/app/page.tsx:24-26 | options become the old list plus one "" at the end; loading and result unchanged; invariant kept |
| Page.Home.RemoveOption | src/app/page.tsx:28-32 | options become `AfterRemove(old options, indexToRemove)`; loading and result unchanged; invariant kept |
| Page.Home.StartSubmit | src/app/page.tsx:35-47 | options unchanged; returns exactly `filledOptions` and whether the gate passes (two or more); when it does not, loading and result are unchanged; when it does, the page is loading and shows no result, the state it keeps while the request is out |
| Page.Home.FinishSubmit | src/app/page.tsx:49-61 | options unchanged and loading off afterwards; a decision is stored as the result; a failure leaves the result as it was |
| Page.Home.HandleSubmit | src/app/page.tsx:34-62 | options never change; with fewer than two filled options, nothing changes and no request is sent; otherwise exactly `filledOptions` is sent once, the page shows loading with no result during the call (the state StartSubmit ensures), and afterwards loading is off and the result is the decision on success or null on failure |
| Page.SubmitFreshPage | src/app/page.tsx:13-44 | handleSubmit on the initial state takes the "not enough options" branch and sends no request |
| Page.SubmitWithBlankInput | src/app/page.tsx:18-50 | typing "Pizza", a blank, adding an input with "Tacos" and submitting sends exactly `["Pizza", "Tacos"]` |

## Left out

- Rendering: the JSX markup, styles and icons (src/app/page.tsx:64-153) are presentation only. This includes the disabled submit button while loading and the inputs' `required` attribute. Both are browser-side guards, not logic. Because of `required`, the browser refuses to submit while any input is "", so in the running page only inputs holding white space alone reach the "not enough options" branch of `handleSubmit`; the model's `HandleSubmit` has no such guard and takes that branch for empty inputs too.
- Toasts and `console.error` are user-visible I/O. They appear only as the `SubmitOutcome` tag that `HandleSubmit` returns.
- `e.preventDefault()` is a browser side effect with no state of its own.
- The `await` suspension is modelled as one step. React batches state updates and re-renders while the request is out. The model makes each setter an immediate assignment and splits the handler at the `await`: `StartSubmit` ends in the state shown during the call, `FinishSubmit` handles the reply, and `HandleSubmit` also reports that state as the ghost result `shownDuringCall`. Overlapping submits are not modelled, because the disabled button prevents them.
- The analysis service's internals: the prompt, the genkit flow and the zod schema check, including the 240-character ceiling on `reasoning`. Their code is not part of this model. A schema failure, like any other failure, appears as a `Rejected` reply.
- src/ai/flows/summarize-list-of-options.ts: the page never calls it.
- Page.Home.HandleOptionChange: requires an index inside the list, because the page only passes the index of a rendered input. A JavaScript write beyond the end would leave holes (`undefined` entries) in the array, which a `seq<string>` cannot hold.
- Trimming.Trim: characters are Unicode scalar values, not the UTF-16 code units of ECMAScript strings, so lone surrogates cannot occur. The Space_Separator set is the one of Unicode 15.
