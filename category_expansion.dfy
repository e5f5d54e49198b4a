/** Which categories of the settings panel are expanded. The state lives for the
    whole session, keyed by category identifier, and survives every rebuild of
    the panel. */
module CategoryExpansion {

  /** What the expand button and the category's entry list show. */
  datatype ExpandView = ExpandView(buttonText: string, contentActive: bool)

  /** The view of a category in a given state: "^" and visible entries when
      expanded, "V" and hidden entries when collapsed. */
  function SetExpanded(expanded: bool): (v: ExpandView)
    ensures v.buttonText == "^" <==> expanded
    ensures v.buttonText == "^" || v.buttonText == "V"
    ensures v.contentActive == expanded
  {
    ExpandView(if expanded then "^" else "V", expanded)
  }

  /** The state after a category is populated: a category seen for the first
      time starts expanded unless categories start collapsed; a known category
      keeps its state. */
  function RegisterCategory(m: map<string, bool>, categoryId: string, startCollapsed: bool): (r: map<string, bool>)
    ensures r.Keys == m.Keys + {categoryId}
    ensures r[categoryId] == if categoryId in m then m[categoryId] else !startCollapsed
    ensures forall k :: k in m ==> r[k] == m[k]
  {
    if categoryId in m then m else m[categoryId := !startCollapsed]
  }

  /** The state after a click on a category's expand button: that category flips,
      every other one is unchanged. */
  function ToggleCategory(m: map<string, bool>, categoryId: string): (r: map<string, bool>)
    requires categoryId in m
    ensures r.Keys == m.Keys
    ensures r[categoryId] == !m[categoryId]
    ensures forall k :: k in m && k != categoryId ==> r[k] == m[k]
  {
    m[categoryId := !m[categoryId]]
  }

  /** The state after populating the given categories in order. */
  function RegisterAll(m: map<string, bool>, categoryIds: seq<string>, startCollapsed: bool): (r: map<string, bool>)
    decreases |categoryIds|
  {
    if categoryIds == [] then m
    else RegisterAll(RegisterCategory(m, categoryIds[0], startCollapsed), categoryIds[1..], startCollapsed)
  }

  /** The state after the given clicks on expand buttons, in order. */
  function ClickAll(m: map<string, bool>, clicks: seq<string>): (r: map<string, bool>)
    requires forall i :: 0 <= i < |clicks| ==> clicks[i] in m
    decreases |clicks|
  {
    if clicks == [] then m
    else
      var m' := ToggleCategory(m, clicks[0]);
      ClickAll(m', clicks[1..])
  }

  /** How many of the clicks hit `categoryId`. */
  function ClicksOn(clicks: seq<string>, categoryId: string): (count: nat)
  {
    if clicks == [] then 0
    else (if clicks[0] == categoryId then 1 else 0) + ClicksOn(clicks[1..], categoryId)
  }

  /** Rebuilding the panel keeps every known category's state, whatever the
      "start collapsed" setting is now, and gives each new category the state
      that setting asks for. */
  lemma {:induction false} RepopulationKeepsState(m: map<string, bool>, categoryIds: seq<string>, startCollapsed: bool)
    ensures var r := RegisterAll(m, categoryIds, startCollapsed);
      (forall k :: k in m ==> k in r && r[k] == m[k])
      && (forall i :: 0 <= i < |categoryIds| && categoryIds[i] !in m ==>
            categoryIds[i] in r && r[categoryIds[i]] == !startCollapsed)
    decreases |categoryIds|
  {
    if categoryIds != [] {
      var m' := RegisterCategory(m, categoryIds[0], startCollapsed);
      RepopulationKeepsState(m', categoryIds[1..], startCollapsed);
      var r := RegisterAll(m, categoryIds, startCollapsed);
      forall i | 0 <= i < |categoryIds| && categoryIds[i] !in m
        ensures categoryIds[i] in r && r[categoryIds[i]] == !startCollapsed
      {
        if i > 0 && categoryIds[i] !in m' {
          assert categoryIds[1..][i - 1] == categoryIds[i];
        }
      }
    }
  }

  /** Each click flips its category: after any sequence of clicks a category's
      state is its earlier state flipped once per click on it. */
  lemma {:induction false} ClicksFlipState(m: map<string, bool>, clicks: seq<string>, categoryId: string)
    requires categoryId in m
    requires forall i :: 0 <= i < |clicks| ==> clicks[i] in m
    ensures var r := ClickAll(m, clicks);
      categoryId in r && r[categoryId] == (m[categoryId] != (ClicksOn(clicks, categoryId) % 2 == 1))
    decreases |clicks|
  {
    if clicks != [] {
      var m' := ToggleCategory(m, clicks[0]);
      ClicksFlipState(m', clicks[1..], categoryId);
    }
  }

  /** The per-session expand state of all categories. */
  class ExpansionState {
    var expanded: map<string, bool>

    constructor ()
      ensures expanded == map[]
    {
      expanded := map[];
    }

    /** Populating a category: record its initial state if it is new, and show
        the state it has. */
    method Populate(categoryId: string, startCollapsed: bool) returns (view: ExpandView)
      modifies this
      ensures expanded == RegisterCategory(old(expanded), categoryId, startCollapsed)
      ensures view == SetExpanded(expanded[categoryId])
    {
      if categoryId !in expanded {
        expanded := expanded[categoryId := !startCollapsed];
      }
      view := SetExpanded(expanded[categoryId]);
    }

    /** A click on the category's expand button flips its state and shows it. */
    method OnExpandClicked(categoryId: string) returns (view: ExpandView)
      requires categoryId in expanded
      modifies this
      ensures expanded == ToggleCategory(old(expanded), categoryId)
      ensures view == SetExpanded(expanded[categoryId])
    {
      expanded := expanded[categoryId := !expanded[categoryId]];
      view := SetExpanded(expanded[categoryId]);
    }
  }
}
