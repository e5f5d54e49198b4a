/** Preference entries as the settings panel sees them: a typed value with a
    default, a hidden flag, and the record of every assignment the panel makes. */
module Prefs {

  datatype Option<T> = None | Some(value: T)

  /** The value a guarded widget-to-value path writes, if any: a candidate that
      is missing (a failed parse) or equal to the current value writes nothing. */
  function GuardedWrite<T(==)>(current: T, candidate: Option<T>): (w: Option<T>)
    ensures w.Some? <==> candidate.Some? && candidate.value != current
    ensures w.Some? ==> w.value == candidate.value && w.value != current
  {
    match candidate
    case Some(v) => if v != current then Some(v) else None
    case None => None
  }

  /** One registered entry of the host's preference registry. `writes` lists every
      assignment to the entry's value made from the panel, in order; each such
      assignment raises the entry's value-changed event in the host. */
  class Pref<T(==)> {
    const identifier: string
    const isHidden: bool
    const defaultValue: T
    var value: T
    var writes: seq<T>

    constructor (identifier: string, isHidden: bool, defaultValue: T, value: T)
      ensures this.identifier == identifier && this.isHidden == isHidden
      ensures this.defaultValue == defaultValue && this.value == value
      ensures writes == []
    {
      this.identifier := identifier;
      this.isHidden := isHidden;
      this.defaultValue := defaultValue;
      this.value := value;
      writes := [];
    }

    /** The guard shared by every widget-to-value path: assign only a value
        that differs from the current one. */
    method WriteIfChanged(candidate: Option<T>) returns (wrote: bool)
      modifies this
      ensures wrote <==> GuardedWrite(old(value), candidate).Some?
      ensures value == if wrote then candidate.value else old(value)
      ensures writes == if wrote then old(writes) + [value] else old(writes)
    {
      var w := GuardedWrite(value, candidate);
      wrote := w.Some?;
      if wrote {
        value := w.value;
        writes := writes + [value];
      }
    }

    /** Reset to default: an unconditional assignment, with no equality guard. */
    method ResetToDefault()
      modifies this
      ensures value == defaultValue
      ensures writes == old(writes) + [defaultValue]
    {
      value := defaultValue;
      writes := writes + [defaultValue];
    }
  }
}
