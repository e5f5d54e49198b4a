/** How the settings panel is laid out from the preference registry: the order in
    which categories are visited, which categories get a custom UI, a generated
    section or nothing, and which widget each visible entry gets. */
module PanelLayout {
  import opened Prefs

  /** The value type of an entry, as far as the panel distinguishes types. */
  datatype ValueType =
    | StringValue | BoolValue
    | FloatValue | DoubleValue | ByteValue | ShortValue | IntValue | LongValue
    | EnumValue | OtherValue

  datatype EntryInfo = EntryInfo(identifier: string, displayName: Option<string>, isHidden: bool, valueType: ValueType)

  datatype CategoryInfo = CategoryInfo(identifier: string, displayName: Option<string>, entries: seq<EntryInfo>)

  /** What other mods registered with the panel, and the pinned settings. */
  datatype Extensions = Extensions(
    customCategoryUIs: set<string>,         // category id -> its own UI replaces the generated one
    buttonCounts: map<string, nat>,         // category id -> number of custom buttons registered
    enumSettings: set<(string, string)>,    // (category id, entry id) of string entries with enum values
    pinned: seq<(string, string)>)          // pinned (category id, entry id) pairs

  datatype Renderer = ComboBox | TextField | Toggle | NumericField(isDecimal: bool) | EnumComboBox | NoWidget

  /** One generated widget: the entry it edits, its title, its kind, and the
      initial state of its pin toggle (None when it has no pin toggle). */
  datatype Widget = Widget(prefId: string, title: string, renderer: Renderer, pinOn: Option<bool>)

  datatype Section =
    | CustomSection(categoryId: string)
    | GeneratedSection(categoryId: string, title: string, widgets: seq<Widget>, customButtons: nat)

  // ----- Case-insensitive ordering of categories -----

  function UpperAscii(c: char): (u: char)
  {
    if 'a' <= c <= 'z' then (c as int - 32) as char else c
  }

  /** A string with its letters upper-cased, so that strings differing only in
      case compare equal. */
  function FoldCase(s: string): (folded: string)
  {
    if s == [] then [] else [UpperAscii(s[0])] + FoldCase(s[1..])
  }

  /** Lexicographic order on strings, character by character. */
  predicate LexLe(a: string, b: string)
  {
    |a| == 0 || (|b| > 0 && (a[0] < b[0] || (a[0] == b[0] && LexLe(a[1..], b[1..]))))
  }

  predicate LexLt(a: string, b: string)
  {
    LexLe(a, b) && a != b
  }

  lemma {:induction false} LexLeReflexive(a: string)
    ensures LexLe(a, a)
  {
    if |a| > 0 {
      LexLeReflexive(a[1..]);
    }
  }

  lemma {:induction false} LexLeTotal(a: string, b: string)
    ensures LexLe(a, b) || LexLe(b, a)
  {
    if |a| > 0 && |b| > 0 && a[0] == b[0] {
      LexLeTotal(a[1..], b[1..]);
    }
  }

  lemma {:induction false} LexLeTransitive(a: string, b: string, c: string)
    requires LexLe(a, b) && LexLe(b, c)
    ensures LexLe(a, c)
  {
    if |a| > 0 && a[0] == b[0] && b[0] == c[0] {
      LexLeTransitive(a[1..], b[1..], c[1..]);
    }
  }

  /** The key categories are ordered by: the display name, or the identifier when
      there is none, compared without regard to case. */
  function SortKey(c: CategoryInfo): (key: string)
  {
    FoldCase(match c.displayName case Some(d) => d case None => c.identifier)
  }

  /** Each category's key is no larger than the next one's. */
  ghost predicate SortedByKey(s: seq<CategoryInfo>)
  {
    forall i :: 0 < i < |s| ==> LexLe(SortKey(s[i - 1]), SortKey(s[i]))
  }

  /** The categories whose key equals `key`, in their order in `s`. */
  function WithKey(s: seq<CategoryInfo>, key: string): (r: seq<CategoryInfo>)
  {
    if s == [] then []
    else KeptFor(s[0], key) + WithKey(s[1..], key)
  }

  /** Inserts `x` before the first category whose key is not smaller than its own. */
  function Insert(x: CategoryInfo, s: seq<CategoryInfo>): (r: seq<CategoryInfo>)
  {
    if s == [] || !LexLt(SortKey(s[0]), SortKey(x)) then [x] + s
    else [s[0]] + Insert(x, s[1..])
  }

  /** The order in which the panel visits the categories: a stable sort by key. */
  function OrderCategories(cs: seq<CategoryInfo>): (order: seq<CategoryInfo>)
    ensures multiset(order) == multiset(cs)
    ensures |order| == |cs|
  {
    if cs == [] then []
    else
      var rest := OrderCategories(cs[1..]);
      InsertPermutes(cs[0], rest);
      assert cs == [cs[0]] + cs[1..];
      Insert(cs[0], rest)
  }

  lemma {:induction false} InsertPermutes(x: CategoryInfo, s: seq<CategoryInfo>)
    ensures multiset(Insert(x, s)) == multiset(s) + multiset{x}
  {
    if s != [] && LexLt(SortKey(s[0]), SortKey(x)) {
      InsertPermutes(x, s[1..]);
      assert s == [s[0]] + s[1..];
    }
  }

  lemma {:induction false} InsertHead(x: CategoryInfo, s: seq<CategoryInfo>)
    ensures |Insert(x, s)| == |s| + 1
    ensures Insert(x, s)[0] == x || (s != [] && Insert(x, s)[0] == s[0])
  {
    if s != [] && LexLt(SortKey(s[0]), SortKey(x)) {
      InsertHead(x, s[1..]);
    }
  }

  lemma {:induction false} InsertSorted(x: CategoryInfo, s: seq<CategoryInfo>)
    requires SortedByKey(s)
    ensures SortedByKey(Insert(x, s))
  {
    if s == [] {
    } else if !LexLt(SortKey(s[0]), SortKey(x)) {
      if SortKey(s[0]) == SortKey(x) {
        LexLeReflexive(SortKey(x));
      } else {
        LexLeTotal(SortKey(s[0]), SortKey(x));
      }
      var out := [x] + s;
      forall i | 1 < i < |out|
        ensures LexLe(SortKey(out[i - 1]), SortKey(out[i]))
      {
        assert out[i - 1] == s[i - 2] && out[i] == s[i - 1];
      }
    } else {
      var tail := s[1..];
      InsertSorted(x, tail);
      InsertHead(x, tail);
      var r := Insert(x, tail);
      assert LexLe(SortKey(s[0]), SortKey(r[0]));
      var out := [s[0]] + r;
      forall i | 1 < i < |out|
        ensures LexLe(SortKey(out[i - 1]), SortKey(out[i]))
      {
        assert out[i - 1] == r[i - 2] && out[i] == r[i - 1];
      }
    }
  }

  lemma WithKeyCons(y: CategoryInfo, t: seq<CategoryInfo>, key: string)
    ensures WithKey([y] + t, key) == KeptFor(y, key) + WithKey(t, key)
  {
    assert ([y] + t)[1..] == t;
  }

  /** The categories kept for `key` from a single category. */
  function KeptFor(y: CategoryInfo, key: string): (r: seq<CategoryInfo>)
  {
    if SortKey(y) == key then [y] else []
  }

  lemma KeptCommute(y: CategoryInfo, x: CategoryInfo, key: string, w: seq<CategoryInfo>)
    requires SortKey(y) != SortKey(x)
    ensures KeptFor(y, key) + (KeptFor(x, key) + w) == KeptFor(x, key) + (KeptFor(y, key) + w)
  {
  }

  lemma {:induction false} InsertKeepsKeyOrder(x: CategoryInfo, s: seq<CategoryInfo>, key: string)
    ensures WithKey(Insert(x, s), key) == KeptFor(x, key) + WithKey(s, key)
  {
    if s == [] || !LexLt(SortKey(s[0]), SortKey(x)) {
      WithKeyCons(x, s, key);
    } else {
      var rest := Insert(x, s[1..]);
      assert Insert(x, s) == [s[0]] + rest;
      InsertKeepsKeyOrder(x, s[1..], key);
      WithKeyCons(s[0], rest, key);
      WithKeyCons(s[0], s[1..], key);
      assert s == [s[0]] + s[1..];
      KeptCommute(s[0], x, key, WithKey(s[1..], key));
    }
  }

  /** Categories are visited in order of their case-folded key; the visit order
      is a permutation of the registry's categories; and categories whose keys
      fold to the same string keep their registry order (the sort is stable). */
  lemma {:induction false} OrderCategoriesSpec(cs: seq<CategoryInfo>)
    ensures SortedByKey(OrderCategories(cs))
    ensures multiset(OrderCategories(cs)) == multiset(cs)
    ensures forall key :: WithKey(OrderCategories(cs), key) == WithKey(cs, key)
  {
    if cs != [] {
      OrderCategoriesSpec(cs[1..]);
      InsertSorted(cs[0], OrderCategories(cs[1..]));
      forall key
        ensures WithKey(OrderCategories(cs), key) == WithKey(cs, key)
      {
        InsertKeepsKeyOrder(cs[0], OrderCategories(cs[1..]), key);
      }
    }
  }

  /** Sorted by adjacent pairs means sorted by all pairs: every category's key
      is no larger than the key of any category after it. */
  lemma {:induction false} SortedKeysInOrder(s: seq<CategoryInfo>, i: nat, j: nat)
    requires SortedByKey(s) && i < j < |s|
    ensures LexLe(SortKey(s[i]), SortKey(s[j]))
    decreases j - i
  {
    if i + 1 < j {
      SortedKeysInOrder(s, i, j - 1);
      LexLeTransitive(SortKey(s[i]), SortKey(s[j - 1]), SortKey(s[j]));
    }
  }

  // ----- Which categories get a section -----

  /** The entries shown in a generated section: the non-hidden ones, in order. */
  function VisibleEntries(entries: seq<EntryInfo>): (r: seq<EntryInfo>)
    ensures |r| <= |entries|
  {
    if entries == [] then []
    else (if entries[0].isHidden then [] else [entries[0]]) + VisibleEntries(entries[1..])
  }

  /** The visible entries are exactly the entries that are not hidden. */
  lemma {:induction false} VisibleEntriesSpec(entries: seq<EntryInfo>)
    ensures forall e :: e in VisibleEntries(entries) ==> e in entries && !e.isHidden
    ensures forall e :: e in entries && !e.isHidden ==> e in VisibleEntries(entries)
  {
    if entries != [] {
      VisibleEntriesSpec(entries[1..]);
      assert entries == [entries[0]] + entries[1..];
    }
  }

  function ButtonCount(ext: Extensions, categoryId: string): (n: nat)
  {
    if categoryId in ext.buttonCounts then ext.buttonCounts[categoryId] else 0
  }

  function Title(displayName: Option<string>, identifier: string): (title: string)
  {
    match displayName case Some(d) => d case None => identifier
  }

  /** The renderer chosen by an entry's value type. Only entries of an unknown
      type get no widget; only dropdowns and toggles carry a pin toggle, so a free
      text or numeric field cannot be pinned from the panel; numeric fields take
      decimals exactly for floating-point entries. */
  function SelectRenderer(categoryId: string, e: EntryInfo, enumSettings: set<(string, string)>): (r: Renderer)
    ensures r == ComboBox <==> e.valueType == StringValue && (categoryId, e.identifier) in enumSettings
    ensures r == TextField <==> e.valueType == StringValue && (categoryId, e.identifier) !in enumSettings
    ensures r == Toggle <==> e.valueType == BoolValue
    ensures r.NumericField? <==> IsNumeric(e.valueType)
    ensures r == EnumComboBox <==> e.valueType == EnumValue
    ensures r == NoWidget <==> e.valueType == OtherValue
    ensures HasPinToggle(r) <==>
      (e.valueType == StringValue && (categoryId, e.identifier) in enumSettings)
      || e.valueType == BoolValue || e.valueType == EnumValue
    ensures r.NumericField? ==> (r.isDecimal <==> e.valueType == FloatValue || e.valueType == DoubleValue)
  {
    match e.valueType
    case StringValue => if (categoryId, e.identifier) in enumSettings then ComboBox else TextField
    case BoolValue => Toggle
    case FloatValue => NumericField(true)
    case DoubleValue => NumericField(true)
    case ByteValue => NumericField(false)
    case ShortValue => NumericField(false)
    case IntValue => NumericField(false)
    case LongValue => NumericField(false)
    case EnumValue => EnumComboBox
    case OtherValue => NoWidget
  }

  /** The six number types edited in a numeric field. */
  predicate IsNumeric(t: ValueType)
  {
    t.FloatValue? || t.DoubleValue? || t.ByteValue? || t.ShortValue? || t.IntValue? || t.LongValue?
  }

  /** Dropdowns and toggles carry a pin toggle; text and numeric fields do not. */
  predicate HasPinToggle(r: Renderer): (pinnable: bool)
  {
    r.ComboBox? || r.Toggle? || r.EnumComboBox?
  }

  /** The widget built for one visible entry: none for a type without a renderer;
      otherwise titled by the entry's display name or identifier, and with a pin
      toggle, initially on exactly when the entry is pinned, for the kinds that
      carry one. */
  function EntryWidget(categoryId: string, e: EntryInfo, ext: Extensions): (w: Option<Widget>)
    ensures w.Some? <==> !e.valueType.OtherValue?
    ensures w.Some? ==>
      (w.value.prefId == e.identifier
       && w.value.renderer == SelectRenderer(categoryId, e, ext.enumSettings)
       && w.value.title == Title(e.displayName, e.identifier)
       && (w.value.pinOn.Some? <==> HasPinToggle(w.value.renderer))
       && (w.value.pinOn.Some? ==> (w.value.pinOn.value <==> (categoryId, e.identifier) in ext.pinned)))
  {
    var r := SelectRenderer(categoryId, e, ext.enumSettings);
    var pin := if HasPinToggle(r) then Some((categoryId, e.identifier) in ext.pinned) else None;
    if r == NoWidget then None else Some(Widget(e.identifier, Title(e.displayName, e.identifier), r, pin))
  }

  /** The widgets of a generated section, in entry order. */
  function EntryWidgets(categoryId: string, entries: seq<EntryInfo>, ext: Extensions): (ws: seq<Widget>)
    ensures |ws| <= |entries|
  {
    if entries == [] then []
    else
      (match EntryWidget(categoryId, entries[0], ext) case Some(w) => [w] case None => [])
        + EntryWidgets(categoryId, entries[1..], ext)
  }

  /** Every entry with a renderer gets its widget, and there are no other widgets. */
  lemma {:induction false} EntryWidgetsMatchEntries(categoryId: string, entries: seq<EntryInfo>, ext: Extensions)
    ensures forall e :: e in entries && EntryWidget(categoryId, e, ext).Some? ==>
      EntryWidget(categoryId, e, ext).value in EntryWidgets(categoryId, entries, ext)
    ensures forall w :: w in EntryWidgets(categoryId, entries, ext) ==>
      exists e :: e in entries && EntryWidget(categoryId, e, ext) == Some(w)
  {
    if entries != [] {
      EntryWidgetsMatchEntries(categoryId, entries[1..], ext);
      assert entries == [entries[0]] + entries[1..];
    }
  }

  /** Visible entries keep their order: the visible entries of a concatenation
      are those of each part, one after the other. */
  lemma {:induction false} VisibleEntriesKeepOrder(a: seq<EntryInfo>, b: seq<EntryInfo>)
    ensures VisibleEntries(a + b) == VisibleEntries(a) + VisibleEntries(b)
  {
    if a == [] {
      assert a + b == b;
    } else {
      assert (a + b)[1..] == a[1..] + b;
      VisibleEntriesKeepOrder(a[1..], b);
    }
  }

  /** Widgets keep the order of their entries: the widgets of a concatenation are
      those of each part, one after the other. */
  lemma {:induction false} EntryWidgetsKeepOrder(categoryId: string, a: seq<EntryInfo>, b: seq<EntryInfo>, ext: Extensions)
    ensures EntryWidgets(categoryId, a + b, ext) == EntryWidgets(categoryId, a, ext) + EntryWidgets(categoryId, b, ext)
  {
    if a == [] {
      assert a + b == b;
    } else {
      assert (a + b)[1..] == a[1..] + b;
      EntryWidgetsKeepOrder(categoryId, a[1..], b, ext);
    }
  }

  /** What the panel builds for one category, if anything. */
  function PlanCategory(c: CategoryInfo, ext: Extensions): (plan: Option<Section>)
    ensures c.identifier in ext.customCategoryUIs ==> plan == Some(CustomSection(c.identifier))
    ensures plan.Some? ==> plan.value.categoryId == c.identifier
    ensures plan.Some? && plan.value.GeneratedSection? ==>
      plan.value.customButtons == ButtonCount(ext, c.identifier) && |plan.value.widgets| <= |c.entries|
  {
    if c.identifier in ext.customCategoryUIs then Some(CustomSection(c.identifier))
    else
      var visible := VisibleEntries(c.entries);
      var buttons := ButtonCount(ext, c.identifier);
      if |visible| == 0 && buttons == 0 then None
      else Some(GeneratedSection(c.identifier, Title(c.displayName, c.identifier),
                                 EntryWidgets(c.identifier, visible, ext), buttons))
  }

  /** A custom UI replaces the generated section, even when every entry is hidden;
      otherwise a section is generated exactly when the category has a visible
      entry or a registered custom button, and it lists widgets only for visible
      entries. */
  lemma CategorySkipRule(c: CategoryInfo, ext: Extensions)
    ensures c.identifier in ext.customCategoryUIs ==> PlanCategory(c, ext) == Some(CustomSection(c.identifier))
    ensures c.identifier !in ext.customCategoryUIs ==>
      (PlanCategory(c, ext).Some? <==>
         (exists e :: e in c.entries && !e.isHidden) || ButtonCount(ext, c.identifier) > 0)
    ensures PlanCategory(c, ext).Some? && PlanCategory(c, ext).value.GeneratedSection? ==>
      PlanCategory(c, ext).value.title == Title(c.displayName, c.identifier)
      && forall w :: w in PlanCategory(c, ext).value.widgets ==>
           exists e :: e in c.entries && !e.isHidden && EntryWidget(c.identifier, e, ext) == Some(w)
  {
    var visible := VisibleEntries(c.entries);
    VisibleEntriesSpec(c.entries);
    EntryWidgetsMatchEntries(c.identifier, visible, ext);
    if |visible| > 0 {
      assert visible[0] in visible;
    }
  }

  /** The section a category contributes: its plan, or nothing when it is skipped. */
  function SectionOf(c: CategoryInfo, ext: Extensions): (ss: seq<Section>)
    ensures |ss| <= 1
    ensures ss == [] <==> PlanCategory(c, ext).None?
    ensures ss != [] ==> PlanCategory(c, ext) == Some(ss[0])
  {
    match PlanCategory(c, ext) case Some(s) => [s] case None => []
  }

  /** A generated section lists the widgets of the category's visible entries,
      in entry order, and every visible entry with a renderer has its widget
      there. */
  lemma GeneratedSectionWidgets(c: CategoryInfo, ext: Extensions)
    ensures PlanCategory(c, ext).Some? && PlanCategory(c, ext).value.GeneratedSection? ==>
      PlanCategory(c, ext).value.widgets == EntryWidgets(c.identifier, VisibleEntries(c.entries), ext)
      && forall e :: e in c.entries && !e.isHidden && EntryWidget(c.identifier, e, ext).Some? ==>
           EntryWidget(c.identifier, e, ext).value in PlanCategory(c, ext).value.widgets
  {
    VisibleEntriesSpec(c.entries);
    EntryWidgetsMatchEntries(c.identifier, VisibleEntries(c.entries), ext);
  }

  /** The sections built for categories visited in the given order. */
  function SectionsFor(cs: seq<CategoryInfo>, ext: Extensions): (ss: seq<Section>)
    ensures |ss| <= |cs|
  {
    if cs == [] then [] else SectionOf(cs[0], ext) + SectionsFor(cs[1..], ext)
  }

  /** Every shown category's section is among the sections, and every section
      is the plan of one of the categories. */
  lemma {:induction false} SectionsForSpec(cs: seq<CategoryInfo>, ext: Extensions)
    ensures forall c :: c in cs && PlanCategory(c, ext).Some? ==> PlanCategory(c, ext).value in SectionsFor(cs, ext)
    ensures forall s :: s in SectionsFor(cs, ext) ==> exists c :: c in cs && PlanCategory(c, ext) == Some(s)
  {
    if cs != [] {
      SectionsForSpec(cs[1..], ext);
      var head := SectionOf(cs[0], ext);
      var tail := SectionsFor(cs[1..], ext);
      assert SectionsFor(cs, ext) == head + tail;
      forall c | c in cs && PlanCategory(c, ext).Some?
        ensures PlanCategory(c, ext).value in SectionsFor(cs, ext)
      {
        if c == cs[0] {
          assert head == [PlanCategory(c, ext).value];
        } else {
          assert c in cs[1..];
        }
      }
      forall s | s in SectionsFor(cs, ext)
        ensures exists c :: c in cs && PlanCategory(c, ext) == Some(s)
      {
        if s in head {
          assert cs[0] in cs && PlanCategory(cs[0], ext) == Some(s);
        } else {
          var c :| c in cs[1..] && PlanCategory(c, ext) == Some(s);
          assert c in cs;
        }
      }
    }
  }

  /** The whole panel: the categories in visit order, each with its section. */
  function Panel(cs: seq<CategoryInfo>, ext: Extensions): (panel: seq<Section>)
    ensures |panel| <= |cs|
  {
    SectionsFor(OrderCategories(cs), ext)
  }

  /** Sections follow the visit order: the sections of a concatenation are the
      sections of each part, one after the other. */
  lemma {:induction false} SectionsFollowVisitOrder(a: seq<CategoryInfo>, b: seq<CategoryInfo>, ext: Extensions)
    ensures SectionsFor(a + b, ext) == SectionsFor(a, ext) + SectionsFor(b, ext)
  {
    if a == [] {
      assert a + b == b;
    } else {
      assert (a + b)[1..] == a[1..] + b;
      SectionsFollowVisitOrder(a[1..], b, ext);
    }
  }

  /** Every category that is shown gets exactly the section its plan describes,
      and the panel holds nothing else. */
  lemma PanelIsComplete(cs: seq<CategoryInfo>, ext: Extensions)
    ensures forall c :: c in cs && PlanCategory(c, ext).Some? ==> PlanCategory(c, ext).value in Panel(cs, ext)
    ensures forall s :: s in Panel(cs, ext) ==> exists c :: c in cs && PlanCategory(c, ext) == Some(s)
  {
    OrderCategoriesSpec(cs);
    var order := OrderCategories(cs);
    SectionsForSpec(order, ext);
    forall c | c in cs
      ensures c in order
    {
      assert c in multiset(cs);
    }
    forall c | c in order
      ensures c in cs
    {
      assert c in multiset(order);
    }
  }

  /** The panel lists the sections in the visit order: a rearrangement of the
      registry sorted by case-folded key, in which categories with equal keys
      keep their registry order. */
  lemma PanelFollowsVisitOrder(cs: seq<CategoryInfo>, ext: Extensions)
    ensures exists order ::
      multiset(order) == multiset(cs)
      && SortedByKey(order)
      && (forall key :: WithKey(order, key) == WithKey(cs, key))
      && Panel(cs, ext) == SectionsFor(order, ext)
  {
    OrderCategoriesSpec(cs);
    var order := OrderCategories(cs);
    assert Panel(cs, ext) == SectionsFor(order, ext);
  }
}
