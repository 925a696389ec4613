/** The list transformations behind the page's option handlers: the new
    `options` array each handler passes to its state setter. */
module OptionList {

  /** The list the page starts with: two empty inputs. */
  const Initial: seq<string> := ["", ""]

  /** The fewest entries the page ever shows. */
  const MinOptions: nat := 2

  /** handleOptionChange: a copy of the list with entry `index` replaced by
      `value` and every other entry as it was. */
  function ChangedAt(options: seq<string>, index: nat, value: string): (r: seq<string>)
    requires index < |options|
    ensures |r| == |options| && r[index] == value
    ensures forall i :: 0 <= i < |options| && i != index ==> r[i] == options[i]
  {
    options[index := value]
  }

  /** Changing an entry and then putting its old text back restores the list. */
  lemma ChangeUndone(options: seq<string>, index: nat, value: string)
    requires index < |options|
    ensures ChangedAt(ChangedAt(options, index, value), index, options[index]) == options
  {
    var back := ChangedAt(ChangedAt(options, index, value), index, options[index]);
    assert forall i :: 0 <= i < |options| ==> back[i] == options[i];
  }

  /** addOption: the list with one more, empty, entry at the end. */
  function Appended(options: seq<string>): (r: seq<string>)
    ensures |r| == |options| + 1 && r[..|options|] == options && r[|options|] == ""
  {
    options + [""]
  }

  /** The filter of removeOption: every entry whose position is not
      `indexToRemove`, in their order. */
  function WithoutIndex(options: seq<string>, indexToRemove: int): (r: seq<string>)
    ensures 0 <= indexToRemove < |options| ==>
              r == options[..indexToRemove] + options[indexToRemove + 1..]
    ensures !(0 <= indexToRemove < |options|) ==> r == options
    decreases |options|
  {
    if options == [] then []
    else (if indexToRemove == 0 then [] else [options[0]])
         + WithoutIndex(options[1..], indexToRemove - 1)
  }

  /** removeOption: the filtered list while more than two entries remain,
      and the list unchanged otherwise. */
  function AfterRemove(options: seq<string>, indexToRemove: int): (r: seq<string>)
    ensures |options| <= MinOptions ==> r == options
    ensures |options| > MinOptions && 0 <= indexToRemove < |options| ==>
              |r| == |options| - 1
              && (forall i :: 0 <= i < indexToRemove ==> r[i] == options[i])
              && (forall i :: indexToRemove <= i < |r| ==> r[i] == options[i + 1])
    ensures !(0 <= indexToRemove < |options|) ==> r == options
  {
    if |options| > MinOptions then WithoutIndex(options, indexToRemove) else options
  }

  /** Removing the entry that addOption just added gives back the list. */
  lemma RemoveUndoesAdd(options: seq<string>)
    requires |options| >= MinOptions
    ensures AfterRemove(Appended(options), |options|) == options
  {
    assert Appended(options)[..|options|] == options;
  }

  /** One user action on the list. */
  datatype Edit = Change(index: nat, value: string) | Add | Remove(indexToRemove: int)

  /** An edit the page can issue on this list: a change names an existing
      input (the index comes from rendering the list). */
  predicate Applicable(options: seq<string>, e: Edit) {
    e.Change? ==> e.index < |options|
  }

  function Apply(options: seq<string>, e: Edit): seq<string>
    requires Applicable(options, e)
  {
    match e
    case Change(index, value) => ChangedAt(options, index, value)
    case Add => Appended(options)
    case Remove(i) => AfterRemove(options, i)
  }

  /** Every edit of the sequence is applicable to the list it meets. */
  predicate Replayable(options: seq<string>, edits: seq<Edit>)
    decreases |edits|
  {
    edits == [] ||
    (Applicable(options, edits[0]) && Replayable(Apply(options, edits[0]), edits[1..]))
  }

  /** The list after the edits, applied in order. */
  function Replay(options: seq<string>, edits: seq<Edit>): seq<string>
    requires Replayable(options, edits)
    decreases |edits|
  {
    if edits == [] then options else Replay(Apply(options, edits[0]), edits[1..])
  }

  /** One edit never takes a list of at least two entries below two. */
  lemma ApplyKeepsTwo(options: seq<string>, e: Edit)
    requires |options| >= MinOptions && Applicable(options, e)
    ensures |Apply(options, e)| >= MinOptions
  {
  }

  /** The length invariant: whatever the user does, starting from the
      initial two inputs, the list never has fewer than two entries. */
  lemma {:induction false} ReplayKeepsTwo(options: seq<string>, edits: seq<Edit>)
    requires |options| >= MinOptions && Replayable(options, edits)
    ensures |Replay(options, edits)| >= MinOptions
    decreases |edits|
  {
    if edits != [] {
      ApplyKeepsTwo(options, edits[0]);
      ReplayKeepsTwo(Apply(options, edits[0]), edits[1..]);
    }
  }

  lemma NeverBelowTwo(edits: seq<Edit>)
    requires Replayable(Initial, edits)
    ensures |Replay(Initial, edits)| >= MinOptions
  {
    ReplayKeepsTwo(Initial, edits);
  }
}
