/** The two dropdown settings: a string entry with registered enum values, whose
    options are rebuilt whenever the dropdown is enabled, and an entry of a true
    enum type, whose options are built once. The dropdown is its option list and
    its selected index; handlers are methods the host invokes in sequence. */
module ComboSettings {
  import opened Prefs
  import opened EnumOptions

  /** A string entry rendered as a dropdown over its registered enum values. */
  class StringComboSetting {
    const pref: Pref<string>
    const enumValues: seq<EnumOption<string>>
    var options: seq<string>
    var selected: int

    /** The selected index always names one of the options: the option list
        holds every registered display name, and the current value is appended
        whenever the index past them is selected. */
    ghost predicate Valid()
      reads this
    {
      |enumValues| <= |options| && 0 <= selected < |options|
    }

    /** Creating the setting refreshes the options once. */
    constructor (pref: Pref<string>, enumValues: seq<EnumOption<string>>)
      ensures Valid()
      ensures this.pref == pref && this.enumValues == enumValues
      ensures options == StringOptions(enumValues, pref.value)
      ensures selected == SelectedIndex(enumValues, pref.value)
    {
      this.pref := pref;
      this.enumValues := enumValues;
      new;
      RefreshOptions();
    }

    /** Rebuilds the options for the entry's current value (also run whenever
        the dropdown is enabled). The entry itself is not touched. */
    method RefreshOptions()
      modifies this
      ensures Valid()
      ensures options == StringOptions(enumValues, pref.value)
      ensures selected == SelectedIndex(enumValues, pref.value)
    {
      var built, index := BuildStringOptions(enumValues, pref.value);
      options, selected := built, index;
      SelectedIndexIsLastMatch(enumValues, pref.value);
    }

    /** The user picks option `index`: the dropdown shows it, and the entry takes
        the registered value at that index, or keeps its value for an index past
        the registered options. A write raises the value-changed event, which
        moves the dropdown to the first option carrying the new value. */
    method OnDropdownChanged(index: nat)
      requires Valid() && index < |options|
      modifies this, pref
      ensures Valid()
      ensures options == old(options)
      ensures pref.value == ValueForIndex(enumValues, index, old(pref.value))
      ensures pref.writes == if pref.value != old(pref.value) then old(pref.writes) + [pref.value]
                             else old(pref.writes)
      ensures selected == if pref.value != old(pref.value) then FirstMatch(enumValues, pref.value)
                          else index
    {
      selected := index;
      var newValue := if index >= |enumValues| then pref.value else enumValues[index].settingsValue;
      var wrote := pref.WriteIfChanged(Some(newValue));
      if wrote {
        FirstMatchIsLeast(enumValues, newValue);
        OnValueChanged(newValue);
      }
    }

    /** The entry's value changed to `newValue`: the dropdown moves to the first
        option carrying it, and stays where it is when none does. */
    method OnValueChanged(newValue: string)
      requires Valid()
      modifies this
      ensures Valid()
      ensures options == old(options)
      ensures var k := FirstMatch(enumValues, newValue);
        selected == if k != -1 then k else old(selected)
    {
      var newIndex := FindNewIndex(enumValues, newValue);
      if newIndex != -1 {
        selected := newIndex;
      }
    }
  }

  /** An entry of an enum type rendered as a dropdown over the enum's options;
      there is no extra option for an unregistered value. */
  class EnumComboSetting<E(==)> {
    const pref: Pref<E>
    const enumValues: seq<EnumOption<E>>
    const options: seq<string>
    var selected: int

    constructor (pref: Pref<E>, enumValues: seq<EnumOption<E>>)
      ensures this.pref == pref && this.enumValues == enumValues
      ensures options == DisplayNames(enumValues)
      ensures selected == SelectedIndex(enumValues, pref.value)
    {
      var names, index := ScanOptions(enumValues, pref.value);
      this.pref := pref;
      this.enumValues := enumValues;
      options := names;
      selected := index;
    }

    /** The user picks option `index`; the entry takes the value registered there
        (an index past the options keeps the current value) when it differs. */
    method OnDropdownChanged(index: nat)
      modifies this, pref
      ensures pref.value == ValueForIndex(enumValues, index, old(pref.value))
      ensures pref.writes == if pref.value != old(pref.value) then old(pref.writes) + [pref.value]
                             else old(pref.writes)
      ensures selected == if pref.value != old(pref.value) then FirstMatch(enumValues, pref.value)
                          else index
    {
      selected := index;
      var newValue := if index >= |enumValues| then pref.value else enumValues[index].settingsValue;
      var wrote := pref.WriteIfChanged(Some(newValue));
      if wrote {
        FirstMatchIsLeast(enumValues, newValue);
        OnValueChanged(newValue);
      }
    }

    /** The entry's value changed: the dropdown moves to the first option
        carrying the new value, if any. */
    method OnValueChanged(newValue: E)
      modifies this
      ensures var k := FirstMatch(enumValues, newValue);
        selected == if k != -1 then k else old(selected)
    {
      var newIndex := FindNewIndex(enumValues, newValue);
      if newIndex != -1 {
        selected := newIndex;
      }
    }
  }
}
