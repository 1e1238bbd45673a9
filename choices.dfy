/** The selection control every settings callback emits: one `<option>` per choice of an
    ordered key => label list, marked with selected() when its key is the stored value. */
module Choices {
  import opened Php

  /** One entry of a choice list: the PHP array key (the option value) and its label (`label`
      is a Dafny keyword, hence `caption`). */
  datatype Choice = Choice(key: string, caption: string)

  /** One emitted `<option>`: its value attribute, its text and whether it is marked selected. */
  datatype OptionTag = OptionTag(value: string, caption: string, selected: bool)

  /** The keys of a PHP array are unique, so a choice list taken from one has distinct keys. */
  predicate DistinctKeys(choices: seq<Choice>) {
    forall i, j :: 0 <= i < j < |choices| ==> choices[i].key != choices[j].key
  }

  predicate HasKey(choices: seq<Choice>, key: string) {
    exists i :: 0 <= i < |choices| && choices[i].key == key
  }

  /** get_option(name, default): the stored value when there is one, else `fallback`. A read
      without a default passes, as `fallback`, what the comparison sees for an absent option. */
  function ReadOption(stored: Option<string>, fallback: Option<string>): (current: Option<string>)
    ensures current == stored || current == fallback
    ensures stored.Some? ==> current == stored
    ensures stored.None? ==> current == fallback
  {
    if stored.Some? then stored else fallback
  }

  /** The render loop: one option per choice, in list order, whose value is the choice key and
      which is marked selected exactly when that key equals the current value. */
  function Render(choices: seq<Choice>, current: Option<string>): (control: seq<OptionTag>)
    ensures |control| == |choices|
    ensures forall i :: 0 <= i < |choices| ==>
              control[i].value == choices[i].key && control[i].caption == choices[i].caption
    ensures forall i :: 0 <= i < |choices| ==>
              (control[i].selected <==> current == Some(choices[i].key))
  {
    if choices == [] then []
    else
      var tag := OptionTag(choices[0].key, choices[0].caption, current == Some(choices[0].key));
      [tag] + Render(choices[1..], current)
  }

  /** How many options of a control are marked selected. */
  function SelectedCount(control: seq<OptionTag>): nat {
    if control == [] then 0
    else (if control[0].selected then 1 else 0) + SelectedCount(control[1..])
  }

  /** Over distinct keys, exactly one option is selected when the current value is one of the
      keys, and none when it is absent or matches no key. */
  lemma {:induction false} SelectedCountOfRender(choices: seq<Choice>, current: Option<string>)
    requires DistinctKeys(choices)
    ensures SelectedCount(Render(choices, current))
            == if current.Some? && HasKey(choices, current.value) then 1 else 0
  {
    if choices != [] {
      var rest := choices[1..];
      assert DistinctKeys(rest);
      SelectedCountOfRender(rest, current);
      assert Render(choices, current)[1..] == Render(rest, current);
      if current.Some? && HasKey(rest, current.value) {
        var i :| 0 <= i < |rest| && rest[i].key == current.value;
        assert choices[i + 1].key == current.value;
        assert HasKey(choices, current.value);
      }
      if current.Some? && HasKey(choices, current.value) && choices[0].key != current.value {
        var i :| 0 <= i < |choices| && choices[i].key == current.value;
        assert rest[i - 1].key == current.value;
      }
    }
  }

  /** Two different options are never both selected when the keys are distinct. */
  lemma AtMostOneSelected(choices: seq<Choice>, current: Option<string>, i: nat, j: nat)
    requires DistinctKeys(choices)
    requires i < j < |choices|
    ensures !(Render(choices, current)[i].selected && Render(choices, current)[j].selected)
  {
  }

  /** A current value that is no key of the list selects nothing. */
  lemma UnmatchedSelectsNone(choices: seq<Choice>, current: Option<string>)
    requires current.None? || !HasKey(choices, current.value)
    ensures forall i :: 0 <= i < |choices| ==> !Render(choices, current)[i].selected
  {
  }
}
