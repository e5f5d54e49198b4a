/** The option list and index mapping behind the dropdown of a combo setting:
    a registered list of (display name, settings value) pairs, the option list
    built from it, the index selected for a value, and the value chosen for an
    index. Shared by string settings with registered enum values and by true
    enum settings; only the string form appends an option for an unregistered
    current value. */
module EnumOptions {

  datatype EnumOption<V> = EnumOption(displayName: string, settingsValue: V)

  /** The display names of the registered options, in order. */
  function DisplayNames<V>(opts: seq<EnumOption<V>>): (names: seq<string>)
    ensures |names| == |opts|
    ensures forall i :: 0 <= i < |opts| ==> names[i] == opts[i].displayName
  {
    seq(|opts|, i requires 0 <= i < |opts| => opts[i].displayName)
  }

  /** Some registered option carries value `v`. */
  predicate Registered<V(==)>(opts: seq<EnumOption<V>>, v: V)
  {
    exists i :: 0 <= i < |opts| && opts[i].settingsValue == v
  }

  /** No two registered options carry the same value. */
  predicate DistinctValues<V(==)>(opts: seq<EnumOption<V>>)
  {
    forall i, j :: 0 <= i < j < |opts| ==> opts[i].settingsValue != opts[j].settingsValue
  }

  /** The selected index after the option loop has looked at the first `n`
      options: it starts at the option count and every match overwrites it. */
  function ScanSelected<V(==)>(opts: seq<EnumOption<V>>, current: V, n: nat): (k: nat)
    requires n <= |opts|
    ensures k < n || k == |opts|
  {
    if n == 0 then |opts|
    else if opts[n - 1].settingsValue == current then n - 1
    else ScanSelected(opts, current, n - 1)
  }

  /** The index the dropdown shows for `current` when the options are built. */
  function SelectedIndex<V(==)>(opts: seq<EnumOption<V>>, current: V): (k: nat)
    ensures k <= |opts|
  {
    ScanSelected(opts, current, |opts|)
  }

  /** The index of the first option from `i` on that carries `v`, or -1. */
  function FirstMatchFrom<V(==)>(opts: seq<EnumOption<V>>, v: V, i: nat): (k: int)
    requires i <= |opts|
    ensures k == -1 || i <= k < |opts|
    decreases |opts| - i
  {
    if i == |opts| then -1
    else if opts[i].settingsValue == v then i
    else FirstMatchFrom(opts, v, i + 1)
  }

  /** The index the dropdown moves to after the entry's value changes to `v`,
      or -1 when `v` is not registered (the dropdown is then left alone). */
  function FirstMatch<V(==)>(opts: seq<EnumOption<V>>, v: V): (k: int)
    ensures -1 <= k < |opts|
  {
    FirstMatchFrom(opts, v, 0)
  }

  /** The value the dropdown handler writes for a chosen index: the option's
      value, or the current value for an index past the registered options. */
  function ValueForIndex<V>(opts: seq<EnumOption<V>>, index: nat, current: V): (v: V)
    ensures index < |opts| ==> v == opts[index].settingsValue
    ensures index >= |opts| ==> v == current
  {
    if index >= |opts| then current else opts[index].settingsValue
  }

  /** The options of a string combo setting: the registered display names, then
      the current value itself when no option carries it. */
  function StringOptions(opts: seq<EnumOption<string>>, current: string): (options: seq<string>)
    ensures |options| == if Registered(opts, current) then |opts| else |opts| + 1
    ensures forall i :: 0 <= i < |opts| ==> options[i] == opts[i].displayName
    ensures !Registered(opts, current) ==> options[|opts|] == current
  {
    DisplayNames(opts) + (if Registered(opts, current) then [] else [current])
  }

  lemma {:induction false} ScanSelectedIsLastMatch<V>(opts: seq<EnumOption<V>>, current: V, n: nat)
    requires n <= |opts|
    ensures var k := ScanSelected(opts, current, n);
      (k < n && opts[k].settingsValue == current
         && forall j :: k < j < n ==> opts[j].settingsValue != current)
      || (k == |opts| && forall j :: 0 <= j < n ==> opts[j].settingsValue != current)
  {
    if n > 0 && opts[n - 1].settingsValue != current {
      ScanSelectedIsLastMatch(opts, current, n - 1);
    }
  }

  /** The selected index is the LAST option carrying the current value; when no
      option carries it, it is the option count. */
  lemma SelectedIndexIsLastMatch<V>(opts: seq<EnumOption<V>>, current: V)
    ensures var k := SelectedIndex(opts, current);
      k <= |opts|
      && (k < |opts| <==> Registered(opts, current))
      && (k < |opts| ==> opts[k].settingsValue == current
                         && forall j :: k < j < |opts| ==> opts[j].settingsValue != current)
  {
    ScanSelectedIsLastMatch(opts, current, |opts|);
  }

  lemma {:induction false} FirstMatchFromIsLeast<V>(opts: seq<EnumOption<V>>, v: V, i: nat)
    requires i <= |opts|
    ensures var k := FirstMatchFrom(opts, v, i);
      (i <= k < |opts| && opts[k].settingsValue == v
         && forall j :: i <= j < k ==> opts[j].settingsValue != v)
      || (k == -1 && forall j :: i <= j < |opts| ==> opts[j].settingsValue != v)
    decreases |opts| - i
  {
    if i < |opts| && opts[i].settingsValue != v {
      FirstMatchFromIsLeast(opts, v, i + 1);
    }
  }

  /** After a value change the dropdown moves to the FIRST option carrying the
      new value; -1 (dropdown unchanged) exactly when no option carries it. */
  lemma FirstMatchIsLeast<V>(opts: seq<EnumOption<V>>, v: V)
    ensures var k := FirstMatch(opts, v);
      (k == -1 <==> !Registered(opts, v))
      && (k != -1 ==> 0 <= k < |opts| && opts[k].settingsValue == v
                      && forall j :: 0 <= j < k ==> opts[j].settingsValue != v)
  {
    FirstMatchFromIsLeast(opts, v, 0);
  }

  /** The string combo always has an option at the selected index: the matching
      option's display name, or the appended current value. The list has one
      entry per registered option plus one exactly when the value is not registered. */
  lemma StringOptionsShowCurrent(opts: seq<EnumOption<string>>, current: string)
    ensures var options := StringOptions(opts, current);
      var k := SelectedIndex(opts, current);
      |options| == |opts| + (if Registered(opts, current) then 0 else 1)
      && k < |options|
      && options[k] == (if Registered(opts, current) then opts[k].displayName else current)
  {
    SelectedIndexIsLastMatch(opts, current);
  }

  /** The enum combo has exactly one option per registered value, so its
      selected index names an option exactly when the current value is registered. */
  lemma EnumOptionsSelection<V>(opts: seq<EnumOption<V>>, current: V)
    ensures |DisplayNames(opts)| == |opts|
    ensures SelectedIndex(opts, current) < |DisplayNames(opts)| <==> Registered(opts, current)
  {
    SelectedIndexIsLastMatch(opts, current);
  }

  /** Selecting the index shown after building the options writes nothing: the
      index maps back to the current value. */
  lemma SelectedIndexMapsBack<V>(opts: seq<EnumOption<V>>, current: V)
    ensures ValueForIndex(opts, SelectedIndex(opts, current), current) == current
  {
    SelectedIndexIsLastMatch(opts, current);
  }

  /** The index chosen after a value change maps back to that value, whatever the
      current value is, so the dropdown's echo of the change writes nothing. */
  lemma FirstMatchMapsBack<V>(opts: seq<EnumOption<V>>, v: V, current: V)
    requires FirstMatch(opts, v) != -1
    ensures ValueForIndex(opts, FirstMatch(opts, v), current) == v
  {
    FirstMatchIsLeast(opts, v);
  }

  /** A pick in the dropdown settles: after the pick writes its value (moving the
      dropdown to the first option carrying it) or writes nothing (leaving the
      picked index), the index the dropdown then shows maps back to the entry's
      value, so the dropdown's echo of that index writes nothing more. */
  lemma PickSettles<V>(opts: seq<EnumOption<V>>, index: nat, current: V)
    ensures var v := ValueForIndex(opts, index, current);
      var shown := if v != current then FirstMatch(opts, v) else index;
      0 <= shown && ValueForIndex(opts, shown, v) == v
  {
    var v := ValueForIndex(opts, index, current);
    if v != current {
      assert index < |opts| && opts[index].settingsValue == v;
      FirstMatchIsLeast(opts, v);
    }
  }

  /** Choosing a registered index `i` and mapping the resulting value back gives
      an index no later than `i` after a value change and no earlier than `i`
      after a rebuild; both are `i` itself when the registered values are distinct. */
  lemma IndexRoundTrip<V>(opts: seq<EnumOption<V>>, i: nat, current: V)
    requires i < |opts|
    ensures var v := ValueForIndex(opts, i, current);
      0 <= FirstMatch(opts, v) <= i <= SelectedIndex(opts, v) < |opts|
      && (DistinctValues(opts) ==> FirstMatch(opts, v) == i == SelectedIndex(opts, v))
  {
    var v := ValueForIndex(opts, i, current);
    assert opts[i].settingsValue == v;
    FirstMatchIsLeast(opts, v);
    SelectedIndexIsLastMatch(opts, v);
  }

  /** The two searches agree on the value they select and differ in index only
      when several options carry the same value. */
  lemma FirstAndLastMatchAgree<V>(opts: seq<EnumOption<V>>, v: V)
    requires Registered(opts, v)
    ensures 0 <= FirstMatch(opts, v) <= SelectedIndex(opts, v) < |opts|
    ensures opts[FirstMatch(opts, v)].settingsValue == opts[SelectedIndex(opts, v)].settingsValue
    ensures FirstMatch(opts, v) != SelectedIndex(opts, v) ==> !DistinctValues(opts)
  {
    FirstMatchIsLeast(opts, v);
    SelectedIndexIsLastMatch(opts, v);
  }

  /** With two options sharing a value, building the options selects the second
      while a value change selects the first. */
  lemma DuplicateValuesSelectDifferently()
    ensures var opts := [EnumOption("Low", "x"), EnumOption("Also low", "x")];
      SelectedIndex(opts, "x") == 1 && FirstMatch(opts, "x") == 0
  {
    var opts := [EnumOption("Low", "x"), EnumOption("Also low", "x")];
    assert ScanSelected(opts, "x", 2) == 1;
    assert FirstMatchFrom(opts, "x", 0) == 0;
  }

  /** The option loop: collects the display names and keeps the index of the
      last option whose value equals `current`, starting from the option count. */
  method ScanOptions<V(==)>(opts: seq<EnumOption<V>>, current: V) returns (names: seq<string>, selectedIndex: nat)
    ensures names == DisplayNames(opts)
    ensures selectedIndex == SelectedIndex(opts, current)
  {
    names := [];
    selectedIndex := |opts|;
    var i := 0;
    while i < |opts|
      invariant 0 <= i <= |opts|
      invariant names == DisplayNames(opts[..i])
      invariant selectedIndex == ScanSelected(opts, current, i)
    {
      names := names + [opts[i].displayName];
      if current == opts[i].settingsValue {
        selectedIndex := i;
      }
      i := i + 1;
    }
    assert opts[..i] == opts;
  }

  /** The value-changed search: stops at the first option whose value equals
      `newValue`, leaving -1 when there is none. */
  method FindNewIndex<V(==)>(opts: seq<EnumOption<V>>, newValue: V) returns (newIndex: int)
    ensures newIndex == FirstMatch(opts, newValue)
  {
    newIndex := -1;
    var i := 0;
    while i < |opts|
      invariant 0 <= i <= |opts|
      invariant newIndex == -1
      invariant FirstMatchFrom(opts, newValue, i) == FirstMatch(opts, newValue)
    {
      if opts[i].settingsValue == newValue {
        newIndex := i;
        break;
      }
      i := i + 1;
    }
  }

  /** The whole option rebuild of a string combo: the option loop, then the
      current value appended when no option carries it. */
  method BuildStringOptions(opts: seq<EnumOption<string>>, current: string) returns (options: seq<string>, selectedIndex: nat)
    ensures options == StringOptions(opts, current)
    ensures selectedIndex == SelectedIndex(opts, current)
  {
    options, selectedIndex := ScanOptions(opts, current);
    if forall i :: 0 <= i < |opts| ==> opts[i].settingsValue != current {
      options := options + [current];
    }
  }
}
