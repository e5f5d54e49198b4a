/** The confirmation popup behind a category's reset button: the reset button in
    the popup must be clicked three times; the third click resets the category's
    entries to their defaults (hidden entries only when "also reset invisible
    settings" is on) and closes the popup. */
module ResetConfirmation {
  import opened Prefs

  const InitialLabel := "Reset (3 clicks more...)"
  const TwoClicksLeftLabel := "Reset (2 clicks left...)"
  const OneClickLeftLabel := "Reset (1 click left...)"

  /** The counter and the button text of an open popup. */
  datatype Confirm = Confirm(clicksLeft: int, buttonText: string)

  /** What one click does: the next counter and button text, and whether the entries
      are reset on this click. */
  datatype ClickOutcome = ClickOutcome(next: Confirm, resets: bool)

  const Opened := Confirm(3, InitialLabel)

  /** One click on the reset button: the counter drops by one; reaching 0 resets,
      reaching 1 or 2 relabels the button, any other count changes nothing else. */
  function Click(s: Confirm): (o: ClickOutcome)
    ensures o.next.clicksLeft == s.clicksLeft - 1
    ensures o.resets <==> s.clicksLeft == 1
    ensures o.next.buttonText == if o.next.clicksLeft == 1 then OneClickLeftLabel
                                 else if o.next.clicksLeft == 2 then TwoClicksLeftLabel
                                 else s.buttonText
  {
    var left := s.clicksLeft - 1;
    if left == 0 then ClickOutcome(Confirm(left, s.buttonText), true)
    else if left == 1 then ClickOutcome(Confirm(left, OneClickLeftLabel), false)
    else if left == 2 then ClickOutcome(Confirm(left, TwoClicksLeftLabel), false)
    else ClickOutcome(Confirm(left, s.buttonText), false)
  }

  /** The popup state after `n` clicks on a freshly opened popup. */
  function AfterClicks(n: nat): (s: Confirm)
  {
    if n == 0 then Opened else Click(AfterClicks(n - 1)).next
  }

  /** The number of clicks among the first `n` that reset the entries. */
  function ResetCount(n: nat): (count: nat)
  {
    if n == 0 then 0 else ResetCount(n - 1) + (if Click(AfterClicks(n - 1)).resets then 1 else 0)
  }

  /** The counter starts at 3 and drops by one per click; the button text reads
      "2 clicks left" after the first click and "1 click left" from the second on;
      click number `n + 1` resets exactly when it is the third. */
  lemma {:induction false} ClickSequence(n: nat)
    ensures AfterClicks(n).clicksLeft == 3 - n
    ensures AfterClicks(n).buttonText == if n == 0 then InitialLabel
                                    else if n == 1 then TwoClicksLeftLabel
                                    else OneClickLeftLabel
    ensures Click(AfterClicks(n)).resets <==> n == 2
  {
    if n > 0 {
      ClickSequence(n - 1);
    }
  }

  /** However many times the button is clicked, the entries are reset at most
      once, and once exactly when it was clicked at least three times. */
  lemma {:induction false} ResetsOnce(n: nat)
    ensures ResetCount(n) == if n >= 3 then 1 else 0
  {
    if n > 0 {
      ResetsOnce(n - 1);
      ClickSequence(n - 1);
    }
  }

  /** The reset filter: hidden entries are skipped unless invisible settings are
      to be reset as well. */
  predicate ResetsEntry(isHidden: bool, resetInvisible: bool): (resets: bool)
    ensures !isHidden ==> resets
    ensures isHidden ==> (resets <==> resetInvisible)
  {
    !isHidden || resetInvisible
  }

  /** No entry object occurs twice in a category. */
  ghost predicate DistinctEntries<V>(entries: seq<Pref<V>>)
  {
    forall i, j :: 0 <= i < j < |entries| ==> entries[i] != entries[j]
  }

  /** Resets every entry the filter selects, in order, and leaves the others alone. */
  method ResetCategory<V(==)>(entries: seq<Pref<V>>, resetInvisible: bool)
    requires DistinctEntries(entries)
    modifies set e | e in entries
    ensures forall i :: 0 <= i < |entries| ==>
      if ResetsEntry(entries[i].isHidden, resetInvisible)
      then entries[i].value == entries[i].defaultValue
           && entries[i].writes == old(entries[i].writes) + [entries[i].defaultValue]
      else entries[i].value == old(entries[i].value) && entries[i].writes == old(entries[i].writes)
  {
    var k := 0;
    while k < |entries|
      invariant 0 <= k <= |entries|
      invariant forall i :: 0 <= i < k ==>
        if ResetsEntry(entries[i].isHidden, resetInvisible)
        then entries[i].value == entries[i].defaultValue
             && entries[i].writes == old(entries[i].writes) + [entries[i].defaultValue]
        else entries[i].value == old(entries[i].value) && entries[i].writes == old(entries[i].writes)
      invariant forall i :: k <= i < |entries| ==>
        entries[i].value == old(entries[i].value) && entries[i].writes == old(entries[i].writes)
    {
      if ResetsEntry(entries[k].isHidden, resetInvisible) {
        entries[k].ResetToDefault();
      }
      k := k + 1;
    }
  }

  /** The popup opened by a category's reset button. */
  class ResetDialog<V(==)> {
    const entries: seq<Pref<V>>
    var clicksLeft: int
    var buttonText: string
    var resetInvisible: bool
    var shown: bool

    ghost predicate Valid()
      reads this
    {
      DistinctEntries(entries)
    }

    function State(): (s: Confirm)
      reads this
    {
      Confirm(clicksLeft, buttonText)
    }

    /** Opening the popup: three clicks to go, invisible settings not included. */
    constructor (entries: seq<Pref<V>>)
      requires DistinctEntries(entries)
      ensures Valid() && this.entries == entries
      ensures State() == Opened && !resetInvisible && shown
    {
      this.entries := entries;
      clicksLeft := 3;
      buttonText := InitialLabel;
      resetInvisible := false;
      shown := true;
    }

    /** The "also reset invisible settings" toggle. */
    method SetResetInvisible(b: bool)
      modifies this
      ensures resetInvisible == b
      ensures State() == old(State()) && shown == old(shown)
    {
      resetInvisible := b;
    }

    /** The cancel button closes the popup without touching any entry. */
    method Cancel()
      modifies this
      ensures !shown
      ensures State() == old(State()) && resetInvisible == old(resetInvisible)
    {
      shown := false;
    }

    /** One click on the reset button. */
    method ClickReset()
      requires Valid()
      modifies this, set e | e in entries
      ensures Valid()
      ensures State() == Click(old(State())).next
      ensures resetInvisible == old(resetInvisible)
      ensures shown == (old(shown) && !Click(old(State())).resets)
      ensures forall i :: 0 <= i < |entries| ==>
        if Click(old(State())).resets && ResetsEntry(entries[i].isHidden, resetInvisible)
        then entries[i].value == entries[i].defaultValue
             && entries[i].writes == old(entries[i].writes) + [entries[i].defaultValue]
        else entries[i].value == old(entries[i].value) && entries[i].writes == old(entries[i].writes)
    {
      clicksLeft := clicksLeft - 1;
      if clicksLeft == 0 {
        ResetCategory(entries, resetInvisible);
        shown := false;
      } else if clicksLeft == 1 {
        buttonText := OneClickLeftLabel;
      } else if clicksLeft == 2 {
        buttonText := TwoClicksLeftLabel;
      }
    }
  }
}
