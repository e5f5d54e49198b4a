# UIExpansionKit mod settings panel — a Dafny model

UIExpansionKit builds an in-game settings panel from the mod loader's preference
registry (`UIExpansionKit/ModSettingsHandler.cs`). This project models the rules
inside that panel code, with every widget reduced to plain values: a dropdown is
an option list and a selected index, a toggle is a bool, and a text field is a
string. It then proves what those rules promise. The model covers:

- **Combo options** (`enum_options.dfy`, `combo_settings.dfy`). A string entry
  with registered enum values, and an entry of a true enum type, are both shown as
  dropdowns. The option list is built from the registered
  `(display name, settings value)` pairs. The string form also appends the current
  value when no pair carries it. Building the options selects the *last* matching
  index, while a value change moves the dropdown to the *first* match. Picking an
  index writes the registered value, or keeps the current value for an index past
  the registered options.
- **Write guards** (`prefs.dfy`, `field_settings.dfy`). Every widget-to-value path
  writes only when the new value differs from the current one. Numeric fields also
  write only when the text parses. Writes are recorded in a per-entry `writes` log.
  Each write raises the entry's value-changed event, and the handlers invoke it
  synchronously, as the host does.
- **Reset confirmation** (`reset_confirmation.dfy`). The popup's reset button
  counts down from 3. The button text changes after the first and second clicks.
  The third click resets every entry that is not hidden, or all entries when
  "also reset invisible settings" is on, and then closes the popup. The reset
  assigns `Value := DefaultValue` with no equality guard.
- **Expand state** (`category_expansion.dfy`). A session-wide map from category id
  to expanded/collapsed. A new category starts expanded unless categories start
  collapsed. A known category keeps its state when the panel is rebuilt, each click
  flips it, and the button shows "^" exactly when the category is expanded.
- **Panel layout** (`panel_layout.dfy`). Categories are visited in stable,
  case-insensitive order of `DisplayName ?? Identifier`. A custom category UI
  replaces the generated section. A category with no visible entry and no custom
  button is skipped. Each visible entry gets a renderer chosen by its value type,
  and dropdowns and toggles get a pin toggle that starts on when the setting is
  pinned.

Host calls become parameters or are left out: disk saves, pin persistence, the
input popup's UI and logging. The numeric parser and formatter are
function-valued parameters of `NumericSetting`.

## Model

| member | source | states |
|---|---|---|
| `Prefs.GuardedWrite` | UIExpansionKit/ModSettingsHandler.cs:164-169 | A candidate value is written exactly when it is present (the text parsed) and differs from the current value. The same guard is used at lines 176-182, 235-236, 266-267, 297-298 and 383-384. |
| `Prefs.Pref.WriteIfChanged` | UIExpansionKit/ModSettingsHandler.cs:166-168 | The entry changes, and its write log grows by one, exactly when the guard lets the candidate through. Otherwise value and log are untouched. |
| `Prefs.Pref.ResetToDefault` | UIExpansionKit/ModSettingsHandler.cs:50 | The value becomes the default, and the assignment is always logged (no equality guard). |
| `EnumOptions.ScanSelected` | UIExpansionKit/ModSettingsHandler.cs:213-220 | After the loop has looked at `n` options, the index is one of those `n` or the option count. |
| `EnumOptions.SelectedIndex` | UIExpansionKit/ModSettingsHandler.cs:213-220 | The selected index after a rebuild is at most the option count. |
| `EnumOptions.ValueForIndex` | UIExpansionKit/ModSettingsHandler.cs:231-234 | A registered index yields its option's value. An index past the registered options (the appended current value) keeps the current value. The same mapping appears at lines 378-382. |
| `EnumOptions.StringOptions` | UIExpansionKit/ModSettingsHandler.cs:213-222 | The options are the display names in order, plus the current value as one extra option exactly when no option carries it. |
| `EnumOptions.ScanSelectedIsLastMatch` | UIExpansionKit/ModSettingsHandler.cs:213-220 | After the loop has looked at the first `n` options, the index is the last match among them. If there is none, it is still the initial option count. |
| `EnumOptions.SelectedIndexIsLastMatch` | UIExpansionKit/ModSettingsHandler.cs:213-220 | The selected index is the largest `i` whose settings value equals the current value. It equals the option count exactly when no option carries the value. |
| `EnumOptions.FirstMatchFrom` | UIExpansionKit/ModSettingsHandler.cs:243-250 | The search from position `i` returns -1 or an index in `[i, Count)`. |
| `EnumOptions.FirstMatch` | UIExpansionKit/ModSettingsHandler.cs:242-250 | The index found after a value change is -1 or a valid option index. |
| `EnumOptions.FirstMatchFromIsLeast` | UIExpansionKit/ModSettingsHandler.cs:243-250 | The search from `i` stops at the first match at or after `i`. It gives -1 only when nothing from `i` on matches. |
| `EnumOptions.FirstMatchIsLeast` | UIExpansionKit/ModSettingsHandler.cs:242-253 | After a value change, the index is the smallest `i` carrying the new value. It is -1, and the dropdown is left unchanged, exactly when the value is not registered. |
| `EnumOptions.StringOptionsShowCurrent` | UIExpansionKit/ModSettingsHandler.cs:213-224 | A string combo has `Count` options, plus one exactly when the current value is unregistered. The selected index always names an option: the matching display name, or the appended current value. |
| `EnumOptions.EnumOptionsSelection` | UIExpansionKit/ModSettingsHandler.cs:363-375 | An enum combo has exactly `Count` options and no appended one. Its selected index names an option exactly when the current value is registered. |
| `EnumOptions.SelectedIndexMapsBack` | UIExpansionKit/ModSettingsHandler.cs:224-236 | Choosing the index selected by the rebuild maps back to the current value, so it writes nothing. |
| `EnumOptions.FirstMatchMapsBack` | UIExpansionKit/ModSettingsHandler.cs:229-253 | The index chosen after a value change maps back to that value, so the dropdown's echo writes nothing. |
| `EnumOptions.PickSettles` | UIExpansionKit/ModSettingsHandler.cs:229-254 | After any pick, the index the dropdown ends up showing maps back to the entry's value. It is the picked index, or the first match of the written value. |
| `EnumOptions.IndexRoundTrip` | UIExpansionKit/ModSettingsHandler.cs:214-250 | Picking a registered index `i` and mapping its value back gives first match <= `i` <= last match. Both equal `i` when the registered values are distinct. |
| `EnumOptions.FirstAndLastMatchAgree` | UIExpansionKit/ModSettingsHandler.cs:214-248 | For a registered value, the first match is at most the last match and both carry the same value. They differ only if some value is registered twice. |
| `EnumOptions.DuplicateValuesSelectDifferently` | UIExpansionKit/ModSettingsHandler.cs:214-248 | A witness, not a general property: one two-option list, both carrying "x", on which the rebuild selects index 1 and a value change selects index 0. It shows the bound in `FirstAndLastMatchAgree` is reachable. |
| `EnumOptions.ScanOptions` | UIExpansionKit/ModSettingsHandler.cs:213-220 | The option loop returns all display names, in order, and the last-match index. The same loop appears at lines 365-372. |
| `EnumOptions.FindNewIndex` | UIExpansionKit/ModSettingsHandler.cs:242-250 | The loop with `break` returns the first-match index, or -1. The same loop appears at lines 390-398. |
| `EnumOptions.BuildStringOptions` | UIExpansionKit/ModSettingsHandler.cs:209-224 | The rebuilt options are the display names followed by the current value exactly when no option carries it. The selected index is the last match. |
| `ComboSettings.StringComboSetting.constructor` | UIExpansionKit/ModSettingsHandler.cs:205-227 | A new string combo shows the rebuilt options and the selected index for the entry's value. The selected index names one of the options (`Valid`). |
| `ComboSettings.StringComboSetting.RefreshOptions` | UIExpansionKit/ModSettingsHandler.cs:209-225 | A rebuild (also run when the dropdown is enabled) sets the options and the index from the current value, without touching the entry. Afterwards the selected index names an option, the appended current value when it is unregistered. |
| `ComboSettings.StringComboSetting.OnDropdownChanged` | UIExpansionKit/ModSettingsHandler.cs:229-237 | Picking index `v` sets the value to `enumValues[v].SettingsValue`, or keeps it when `v >= Count`. The entry is written only if the value changed. A write moves the dropdown to the first match. The dropdown only reports an index naming an option, and the selected index still names one afterwards. |
| `ComboSettings.StringComboSetting.OnValueChanged` | UIExpansionKit/ModSettingsHandler.cs:238-254 | The dropdown moves to the first option carrying the new value, and stays put when there is none. The options are unchanged, and the selected index still names one of them. |
| `ComboSettings.EnumComboSetting.constructor` | UIExpansionKit/ModSettingsHandler.cs:355-375 | An enum combo shows exactly the display names, with the last-match index selected. |
| `ComboSettings.EnumComboSetting.OnDropdownChanged` | UIExpansionKit/ModSettingsHandler.cs:377-385 | Same mapping and write guard as the string combo. |
| `ComboSettings.EnumComboSetting.OnValueChanged` | UIExpansionKit/ModSettingsHandler.cs:386-402 | The dropdown moves to the first option carrying the new value, if any. |
| `FieldSettings.TextSetting.constructor` | UIExpansionKit/ModSettingsHandler.cs:260-263 | The field starts with the entry's value. |
| `FieldSettings.TextSetting.OnTextChanged` | UIExpansionKit/ModSettingsHandler.cs:264-268 | The entry takes the typed text, and it is logged as a write only if it differs. |
| `FieldSettings.TextSetting.OnPopupResult` | UIExpansionKit/ModSettingsHandler.cs:269-279 | The field shows the popup's result. The entry takes it, with a write only if it differs. |
| `FieldSettings.TextSetting.OnValueChanged` | UIExpansionKit/ModSettingsHandler.cs:280-284 | The field shows the new value. |
| `FieldSettings.ToggleSetting.constructor` | UIExpansionKit/ModSettingsHandler.cs:290-293 | The toggle starts with the entry's value. |
| `FieldSettings.ToggleSetting.OnToggleChanged` | UIExpansionKit/ModSettingsHandler.cs:294-299 | The entry takes the toggle's state, with a write only if it differs. |
| `FieldSettings.ToggleSetting.OnValueChanged` | UIExpansionKit/ModSettingsHandler.cs:301-306 | The toggle shows the new value. |
| `FieldSettings.NumericSetting.constructor` | UIExpansionKit/ModSettingsHandler.cs:155-163 | The field starts with the formatted value. The decimal flag is kept as given; `SelectRenderer` decides it. |
| `FieldSettings.NumericSetting.OnTextChanged` | UIExpansionKit/ModSettingsHandler.cs:164-169 | Text that fails to parse, or parses to the current value, writes nothing and stays as typed. Otherwise this handler writes the parsed number and the field shows it formatted. The write the field's own echo may add is `EchoWrite`. |
| `FieldSettings.NumericSetting.OnPopupResult` | UIExpansionKit/ModSettingsHandler.cs:170-184 | An unparsable popup result is dropped and the field keeps its text. A parsable one is shown and written under the guard. |
| `FieldSettings.NumericSetting.OnValueChanged` | UIExpansionKit/ModSettingsHandler.cs:185-190 | The field shows the formatted new value. |
| `FieldSettings.EchoWrite` | UIExpansionKit/ModSettingsHandler.cs:164-169 | When the value-changed handler puts the formatted number `n` into the field, the field's change event writes the parsed text back. Nothing is written exactly when the text does not parse or parses back to `n`; otherwise the written number differs from `n`. |
| `ResetConfirmation.Click` | UIExpansionKit/ModSettingsHandler.cs:119-145 | A click drops the counter by one, and it resets exactly when one click was left. The button reads "1 click left" when one is left and "2 clicks left" when two are left. Otherwise its text is unchanged. |
| `ResetConfirmation.ResetsEntry` | UIExpansionKit/ModSettingsHandler.cs:128 | A visible entry is always reset. A hidden one is reset exactly when invisible settings are included. |
| `ResetConfirmation.ClickSequence` | UIExpansionKit/ModSettingsHandler.cs:111-145 | After `n` clicks the counter is `3 - n`. The button reads "2 clicks left" after one click and "1 click left" after two. Click `n + 1` resets exactly when `n == 2`. |
| `ResetConfirmation.ResetsOnce` | UIExpansionKit/ModSettingsHandler.cs:119-145 | Over any number of clicks, the entries are reset exactly once if there were at least three clicks, and never otherwise. |
| `ResetConfirmation.ResetCategory` | UIExpansionKit/ModSettingsHandler.cs:126-131 | Exactly the entries that are not hidden (all entries when `resetInvisible`) get `Value := DefaultValue`, with one logged write each. All other entries are unchanged. |
| `ResetConfirmation.ResetDialog.constructor` | UIExpansionKit/ModSettingsHandler.cs:111-119 | The popup opens with 3 clicks left, text "Reset (3 clicks more...)", and invisible settings not included. |
| `ResetConfirmation.ResetDialog.SetResetInvisible` | UIExpansionKit/ModSettingsHandler.cs:148 | The toggle sets the "also reset invisible settings" flag and nothing else. |
| `ResetConfirmation.ResetDialog.Cancel` | UIExpansionKit/ModSettingsHandler.cs:150 | Cancel closes the popup and touches no entry. |
| `ResetConfirmation.ResetDialog.ClickReset` | UIExpansionKit/ModSettingsHandler.cs:119-146 | One click steps the counter and text as `Click` says. On the resetting click it resets the filtered entries and closes the popup. Any other click leaves every entry unchanged. |
| `CategoryExpansion.SetExpanded` | UIExpansionKit/ModSettingsHandler.cs:92-96 | The button shows "^" exactly when expanded ("V" otherwise), and the entries are visible exactly when expanded. |
| `CategoryExpansion.RegisterCategory` | UIExpansionKit/ModSettingsHandler.cs:103-104 | A new category is added as `!startCollapsed`. Known categories, including this one if known, keep their state. |
| `CategoryExpansion.ToggleCategory` | UIExpansionKit/ModSettingsHandler.cs:98-101 | A click flips that category and no other, and adds no key. |
| `CategoryExpansion.RepopulationKeepsState` | UIExpansionKit/ModSettingsHandler.cs:103-106 | Rebuilding the panel keeps every known category's state, even if "start collapsed" changed. Every new category gets `!startCollapsed`. |
| `CategoryExpansion.ClicksFlipState` | UIExpansionKit/ModSettingsHandler.cs:98-101 | After any sequence of clicks, a category's state is its earlier state flipped once per click on it. |
| `CategoryExpansion.ExpansionState.constructor` | UIExpansionKit/ModSettingsHandler.cs:19 | The session starts with no category known. |
| `CategoryExpansion.ExpansionState.Populate` | UIExpansionKit/ModSettingsHandler.cs:103-106 | Populating a category updates the map as `RegisterCategory` says and shows the category's state. |
| `CategoryExpansion.ExpansionState.OnExpandClicked` | UIExpansionKit/ModSettingsHandler.cs:98-101 | A click updates the map as `ToggleCategory` says and shows the new state. |
| `PanelLayout.OrderCategories` | UIExpansionKit/ModSettingsHandler.cs:67 | The visit order holds exactly the registry's categories, each as often as registered (a permutation). |
| `PanelLayout.OrderCategoriesSpec` | UIExpansionKit/ModSettingsHandler.cs:67 | The visit order is sorted by the case-folded `DisplayName ?? Identifier` and is a permutation of the registry's categories. Categories whose keys fold equal keep their registry order (a stable sort). |
| `PanelLayout.SortedKeysInOrder` | UIExpansionKit/ModSettingsHandler.cs:67 | In a sequence sorted by adjacent keys, every category's key is at most the key of any later category, so the visit order is sorted over all pairs. |
| `PanelLayout.VisibleEntries` | UIExpansionKit/ModSettingsHandler.cs:80 | The visible entries are no more than the entries. `VisibleEntriesSpec` says which entries they are and `VisibleEntriesKeepOrder` that their order is kept. |
| `PanelLayout.VisibleEntriesSpec` | UIExpansionKit/ModSettingsHandler.cs:80 | The generated entries are exactly the non-hidden entries. |
| `PanelLayout.VisibleEntriesKeepOrder` | UIExpansionKit/ModSettingsHandler.cs:80 | Filtering keeps entry order: the visible entries of `a + b` are those of `a` followed by those of `b`. |
| `PanelLayout.SelectRenderer` | UIExpansionKit/ModSettingsHandler.cs:199-346 | The dispatch table, one "exactly when" per renderer. A string entry with registered enum values gets a combo box, and any other string gets a text field. A bool gets a toggle. The six number types (float, double, byte, short, int, long) get a numeric field, which takes decimals exactly for float and double. An enum gets an enum combo box, and only other types get no widget. Exactly the combo boxes and toggles carry a pin toggle. |
| `PanelLayout.EntryWidget` | UIExpansionKit/ModSettingsHandler.cs:26-29 | An entry's widget carries the entry id, its chosen renderer and the title `DisplayName ?? Identifier`. Its pin toggle exists only for pinnable renderers and starts on exactly when the pair is in the pinned list. |
| `PanelLayout.EntryWidgetsMatchEntries` | UIExpansionKit/ModSettingsHandler.cs:195-347 | Every visible entry with a renderer gets its widget, and no other widget is made. |
| `PanelLayout.EntryWidgets` | UIExpansionKit/ModSettingsHandler.cs:195-347 | A section has at most one widget per visible entry. |
| `PanelLayout.EntryWidgetsKeepOrder` | UIExpansionKit/ModSettingsHandler.cs:195-347 | Widgets follow entry order: the widgets of `a + b` are those of `a` followed by those of `b`. |
| `PanelLayout.PlanCategory` | UIExpansionKit/ModSettingsHandler.cs:72-83 | A category with a custom UI gets exactly that UI. Any section belongs to its own category, and a generated one carries the category's custom button count and at most one widget per entry. `CategorySkipRule` gives when a section exists, and `GeneratedSectionWidgets` which widgets it lists. |
| `PanelLayout.CategorySkipRule` | UIExpansionKit/ModSettingsHandler.cs:72-83 | A custom UI always replaces the generated section, even with every entry hidden. Otherwise a section is generated exactly when there is a visible entry or a registered custom button. Its widgets come only from visible entries. The converse, that every visible entry with a renderer has its widget there, is `GeneratedSectionWidgets`. |
| `PanelLayout.GeneratedSectionWidgets` | UIExpansionKit/ModSettingsHandler.cs:80-83 | A generated section's widgets are the widgets of the visible entries, in entry order, as the loop at line 195 builds them. Every visible entry with a renderer has its widget in the section. |
| `PanelLayout.SectionOf` | UIExpansionKit/ModSettingsHandler.cs:72-83 | A category contributes at most one section, none exactly when it is skipped, and that section is its plan. |
| `PanelLayout.SectionsFor` | UIExpansionKit/ModSettingsHandler.cs:67-83 | At most one section per visited category. `SectionsForSpec` says which sections appear and `SectionsFollowVisitOrder` that they follow the visit order. |
| `PanelLayout.SectionsForSpec` | UIExpansionKit/ModSettingsHandler.cs:67-83 | Every shown category's section is in the output, and nothing else is. |
| `PanelLayout.SectionsFollowVisitOrder` | UIExpansionKit/ModSettingsHandler.cs:67-83 | Sections appear in visit order: the sections of `a + b` are those of `a` followed by those of `b`. |
| `PanelLayout.PanelIsComplete` | UIExpansionKit/ModSettingsHandler.cs:67-83 | The whole panel holds exactly the sections of the registry's shown categories. |
| `PanelLayout.Panel` | UIExpansionKit/ModSettingsHandler.cs:67-83 | The panel has at most one section per registered category. `PanelFollowsVisitOrder` and `PanelIsComplete` say what it holds and in which order. |
| `PanelLayout.PanelFollowsVisitOrder` | UIExpansionKit/ModSettingsHandler.cs:67-83 | The panel is the sections of some rearrangement of the registry that is sorted by case-folded key. In that rearrangement, categories with equal keys keep their registry order. |

## Left out

- Unity widget instantiation, `Transform.Find`, layer setting, child destruction and the three coroutine frames at the start of population are not modelled. They are engine plumbing.
- Reflection-based generic dispatch (`MakeGenericMethod`) is not modelled. Entries are generic `Pref<T>` objects, and the value type that picks a renderer is the `ValueType` datatype.
- Float and double formatting and parsing (`CultureInfo`, `NumberStyles.Any`) are not modelled. They are abstract parameters `format` and `parse` of `NumericSetting`, with `parse` returning None on failure.
- `MelonPreferences.Save`, pinning and unpinning through the pin toggle, the pin toggle's refresh when the pinned list changes, the input popup's own UI, the popup menu's construction and labels, the custom buttons' population, and the debug log for unknown types are not modelled. They are host I/O or foreign calls. The pin toggle's initial state is modelled.
- Event subscription (`OnValueChanged +=`, `AddListener`) and the `AreSettingsDirty` flag are not modelled. Handlers are methods invoked in sequence. A write made inside a handler invokes that widget's own value-changed handler, as the host does.
- The refresh of other widgets when a reset writes their entries is not modelled inside `ClickReset`. Those refreshes are the widgets' `OnValueChanged` methods.
- Assigning a widget's value from code does not re-raise that widget's own change event. This covers `Dropdown.value` (lines 224, 253, 375, 401), `InputField.text` (lines 179, 189, 275, 283) and `Toggle.isOn` (line 305). For dropdowns, `PickSettles`, `SelectedIndexMapsBack` and `FirstMatchMapsBack` prove that the echo would write nothing. For text fields and toggles, an echo from a value-changed handler carries the value just written, which the write guard rejects. A popup result assigned at line 275 is written by the echo instead of by the popup's own guarded write, with the same final state.
- The widget toolkit's clamping of an out-of-range dropdown index is not modelled. The model keeps the index as assigned, for example `Count` for an unregistered enum value.
- `FieldSettings.NumericSetting`: after a write of `n`, the field's echo of `format(n)` is not run by `OnTextChanged`, `OnPopupResult` or `OnValueChanged`. In the host it writes `parse(format(n))` when that parses to a different number, for example a double rounded by its 15-digit formatting. `FieldSettings.EchoWrite` states exactly when that extra write happens. The chain of echoes it may start is unbounded in general, so it is not modelled.
- `ResetConfirmation.ResetDialog`: all entries of a category share one value type here. Resetting is per entry and independent of the type, so only the mixing of types is not captured.
- `PanelLayout.OrderCategoriesSpec`: case-insensitive ordering is modelled as character-by-character comparison after ASCII upper-casing. The culture-aware comparison of the invariant culture, which also weighs accents, punctuation and non-ASCII case, is not captured.
- `EnumPrefUtil.GetEnumSettingOptions` is not part of this model. An enum setting's options are a parameter of `EnumComboSetting`.
