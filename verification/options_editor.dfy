/**
 * The option-list editor of the select and checkbox property panels: "Add"
 * appends a placeholder option, typing edits one entry, the cross button
 * removes one entry (`splice(index, 1)` on a copy).
 */
module OptionsEditor {

  const NewOption: string := "New option"

  /** "Add": one `NewOption` at the end, everything before it untouched. */
  function AddOption(options: seq<string>): (r: seq<string>)
    ensures |r| == |options| + 1
    ensures r[|options|] == NewOption
    ensures forall k :: 0 <= k < |options| ==> r[k] == options[k]
  {
    options + [NewOption]
  }

  /** Typing into entry `index` changes that entry only. */
  function EditOption(options: seq<string>, index: nat, text: string): (r: seq<string>)
    requires index < |options|
    ensures |r| == |options|
    ensures r[index] == text
    ensures forall k :: 0 <= k < |options| && k != index ==> r[k] == options[k]
  {
    options[index := text]
  }

  /** `splice(index, 1)`: drops entry `index` and closes the gap; past the end nothing changes. */
  function RemoveOption(options: seq<string>, index: nat): (r: seq<string>)
    ensures index < |options| ==> |r| == |options| - 1
    ensures index >= |options| ==> r == options
    ensures forall k :: 0 <= k < index && k < |r| ==> r[k] == options[k]
    ensures forall k :: index <= k < |r| ==> r[k] == options[k + 1]
  {
    if index < |options| then options[..index] + options[index + 1..] else options
  }

  /** Removing the option just added gives back the list before "Add". */
  lemma AddThenRemove(options: seq<string>)
    ensures RemoveOption(AddOption(options), |options|) == options
  {
    assert AddOption(options)[..|options|] == options;
  }

  /** Editing an entry and typing its old text back restores the list. */
  lemma EditThenRestore(options: seq<string>, index: nat, text: string)
    requires index < |options|
    ensures EditOption(EditOption(options, index, text), index, options[index]) == options
  {
  }
}
