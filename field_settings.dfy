/** The free-text, toggle and numeric settings. Each binds one entry to one widget
    in both directions: a widget change writes the entry only when the new value
    differs (and, for numbers, only when the text parses), and an entry change
    refreshes the widget. */
module FieldSettings {
  import opened Prefs

  /** A string entry without registered enum values, rendered as a text field. */
  class TextSetting {
    const pref: Pref<string>
    var text: string

    constructor (pref: Pref<string>)
      ensures this.pref == pref && text == pref.value
    {
      this.pref := pref;
      text := pref.value;
    }

    /** The text field was edited to `value`: the entry takes the text when it
        differs, and the write's value-changed event shows it again. */
    method OnTextChanged(value: string)
      modifies this, pref
      ensures text == value && pref.value == value
      ensures pref.writes == if value != old(pref.value) then old(pref.writes) + [value]
                             else old(pref.writes)
    {
      text := value;
      var wrote := pref.WriteIfChanged(Some(value));
      if wrote {
        OnValueChanged(pref.value);
      }
    }

    /** The input popup returned `result`: the field shows it and the entry takes
        it when it differs. */
    method OnPopupResult(result: string)
      modifies this, pref
      ensures text == result && pref.value == result
      ensures pref.writes == if result != old(pref.value) then old(pref.writes) + [result]
                             else old(pref.writes)
    {
      text := result;
      var wrote := pref.WriteIfChanged(Some(result));
      if wrote {
        OnValueChanged(pref.value);
      }
    }

    /** The entry changed: the field shows the new value. */
    method OnValueChanged(newValue: string)
      modifies this
      ensures text == newValue
    {
      text := newValue;
    }
  }

  /** A boolean entry rendered as a toggle. */
  class ToggleSetting {
    const pref: Pref<bool>
    var isOn: bool

    constructor (pref: Pref<bool>)
      ensures this.pref == pref && isOn == pref.value
    {
      this.pref := pref;
      isOn := pref.value;
    }

    /** The toggle was flipped to `isSet`: the entry takes it when it differs. */
    method OnToggleChanged(isSet: bool)
      modifies this, pref
      ensures isOn == isSet && pref.value == isSet
      ensures pref.writes == if isSet != old(pref.value) then old(pref.writes) + [isSet]
                             else old(pref.writes)
    {
      isOn := isSet;
      var wrote := pref.WriteIfChanged(Some(isSet));
      if wrote {
        OnValueChanged(pref.value);
      }
    }

    /** The entry changed: the toggle shows the new value. */
    method OnValueChanged(newValue: bool)
      modifies this
      ensures isOn == newValue
    {
      isOn := newValue;
    }
  }

  /** The write caused by the field's own change event when a numeric field is
      set to the formatted `written` value: the formatted text is parsed back
      and written when it differs. Nothing is written exactly when the text does
      not parse or parses back to `written`. */
  function EchoWrite<T(==)>(written: T, format: T -> string, parse: string -> Option<T>): (w: Option<T>)
    ensures w.None? <==> parse(format(written)).None? || parse(format(written)).value == written
    ensures w.Some? ==> w.value == parse(format(written)).value && w.value != written
  {
    GuardedWrite(written, parse(format(written)))
  }

  /** A numeric entry rendered as a text field. Formatting and parsing belong to
      the host's number library and are parameters here: `parse` gives None for
      text that is not a number of the entry's type. */
  class NumericSetting<T(==)> {
    const pref: Pref<T>
    const format: T -> string
    const parse: string -> Option<T>
    /** The field accepts decimals for floating-point entries, integers otherwise. */
    const isDecimal: bool
    var text: string

    constructor (pref: Pref<T>, format: T -> string, parse: string -> Option<T>, isDecimal: bool)
      ensures this.pref == pref && this.format == format && this.parse == parse
      ensures this.isDecimal == isDecimal
      ensures text == format(pref.value)
    {
      this.pref := pref;
      this.format := format;
      this.parse := parse;
      this.isDecimal := isDecimal;
      text := format(pref.value);
    }

    /** The field was edited to `value`: the entry takes the parsed number when
        the text parses and the number differs, and the write's value-changed
        event replaces the text by the formatted number; otherwise nothing is
        written and the field keeps the typed text. */
    method OnTextChanged(value: string)
      modifies this, pref
      ensures text == if pref.writes != old(pref.writes) then format(pref.value) else value
      ensures pref.value == match parse(value)
                            case Some(n) => n
                            case None => old(pref.value)
      ensures pref.writes == if parse(value).Some? && parse(value).value != old(pref.value)
                             then old(pref.writes) + [parse(value).value]
                             else old(pref.writes)
    {
      text := value;
      var wrote := pref.WriteIfChanged(parse(value));
      if wrote {
        OnValueChanged(pref.value);
      }
    }

    /** The input popup returned `result`: text that does not parse is dropped
        (the field keeps its text); text that parses is shown and its number is
        written when it differs, the write's event showing it formatted. */
    method OnPopupResult(result: string)
      modifies this, pref
      ensures text == if pref.writes != old(pref.writes) then format(pref.value)
                      else if parse(result).Some? then result
                      else old(text)
      ensures pref.value == match parse(result)
                            case Some(n) => n
                            case None => old(pref.value)
      ensures pref.writes == if parse(result).Some? && parse(result).value != old(pref.value)
                             then old(pref.writes) + [parse(result).value]
                             else old(pref.writes)
    {
      var parsed := parse(result);
      if parsed.Some? {
        text := result;
        var wrote := pref.WriteIfChanged(parsed);
        if wrote {
          OnValueChanged(pref.value);
        }
      }
    }

    /** The entry changed: the field shows the formatted new value. */
    method OnValueChanged(newValue: T)
      modifies this
      ensures text == format(newValue)
    {
      text := format(newValue);
    }
  }
}
