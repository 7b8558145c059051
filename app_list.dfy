/**
 * `AppListActivity`, the base of the lists of forms and of saved instances: the select-all /
 * clear-all toggle over a list view's check marks, the toggle button's label, restoring the
 * check marks of previously selected rows, the progress-bar flags and the filter text.
 */
module AppList {
  import opened Wrappers

  /** How many entries of `s` are true. */
  function Count(s: seq<bool>): (n: nat)
    ensures n <= |s|
    ensures n == |s| <==> forall i :: 0 <= i < |s| ==> s[i]
    decreases |s|
  {
    if s == [] then 0
    else
      var init := s[..|s| - 1];
      assert forall i :: 0 <= i < |init| ==> init[i] == s[i];
      Count(init) + (if s[|s| - 1] then 1 else 0)
  }

  /** A sequence of `n` copies of `b`. */
  function Uniform(n: nat, b: bool): (s: seq<bool>)
    ensures |s| == n && forall i :: 0 <= i < n ==> s[i] == b
  {
    seq(n, _ => b)
  }

  /**
   * The state `toggleChecked` moves every row to: checked when the list has more rows than
   * check marks, that is, exactly when some row is unchecked.
   */
  function NewCheckState(checked: seq<bool>): (b: bool)
    ensures b <==> exists i :: 0 <= i < |checked| && !checked[i]
  {
    |checked| > Count(checked)
  }

  /** Toggling a non-empty list whose rows all agree flips them all: a second toggle undoes the first. */
  lemma {:induction false} ToggleFlipsUniform(n: nat, b: bool)
    requires n > 0
    ensures NewCheckState(Uniform(n, b)) == !b
  {
    var s := Uniform(n, b);
    if !b {
      assert !s[0];
    }
  }

  /** The two labels of the toggle button. */
  datatype Label = SelectAll | ClearAll

  /** `toggleButtonLabel`'s choice: "select all" while the check marks are fewer than the rows. */
  function LabelFor(checked: seq<bool>): (l: Label)
    ensures l == SelectAll <==> exists i :: 0 <= i < |checked| && !checked[i]
    ensures l == ClearAll <==> forall i :: 0 <= i < |checked| ==> checked[i]
  {
    if Count(checked) != |checked| then SelectAll else ClearAll
  }

  /** After a toggle the label offers the opposite action: "clear all" when all were checked by it. */
  lemma {:induction false} LabelAfterToggle(checked: seq<bool>)
    requires |checked| > 0
    ensures LabelFor(Uniform(|checked|, NewCheckState(checked))) == (if NewCheckState(checked) then ClearAll else SelectAll)
  {
    var s := Uniform(|checked|, NewCheckState(checked));
    if !NewCheckState(checked) {
      assert !s[0];
    }
  }

  /** The positions, in increasing order, of the cursor rows whose id is selected. */
  function SelectedPositions(rows: seq<int>, selected: set<int>): (ps: seq<nat>)
    ensures forall k :: 0 <= k < |ps| ==> ps[k] < |rows|
    ensures forall p: nat :: p in ps <==> p < |rows| && rows[p] in selected
    ensures forall k, l :: 0 <= k < l < |ps| ==> ps[k] < ps[l]
    decreases |rows|
  {
    if rows == [] then []
    else
      var n := |rows| - 1;
      var init := SelectedPositions(rows[..n], selected);
      if rows[n] in selected then init + [n] else init
  }

  /** The check marks of an Android `ListView`; the row count is their number. */
  class ListView {
    var checked: seq<bool>

    constructor(count: nat)
      ensures checked == Uniform(count, false)
    {
      checked := Uniform(count, false);
    }

    /** `setItemChecked`: one row's check mark is set, every other stays. */
    method SetItemChecked(position: nat, value: bool)
      requires position < |checked|
      modifies this
      ensures checked == old(checked)[position := value]
    {
      checked := checked[position := value];
    }

    /** `clearChoices`: every check mark is removed. */
    method ClearChoices()
      modifies this
      ensures checked == Uniform(|old(checked)|, false)
    {
      checked := Uniform(|checked|, false);
    }
  }

  /** The toggle `Button`; `text` is the label it shows. */
  class Button {
    var text: Label

    constructor()
      ensures text == SelectAll
    {
      text := SelectAll;
    }
  }

  /** `setAllToCheckedState`: every row of the list gets `check`; a null list is left alone. */
  method SetAllToCheckedState(lv: ListView?, check: bool)
    modifies lv
    ensures lv != null ==> lv.checked == Uniform(|old(lv.checked)|, check)
  {
    if lv == null {
      return;
    }
    var x := 0;
    while x < |lv.checked|
      invariant 0 <= x <= |lv.checked| == |old(lv.checked)|
      invariant forall i :: 0 <= i < x ==> lv.checked[i] == check
    {
      lv.SetItemChecked(x, check);
      x := x + 1;
    }
  }

  /**
   * `toggleChecked`: a null list gives false. Otherwise every row is checked when some row
   * was unchecked and unchecked when all were checked, and that new state is returned.
   */
  method ToggleChecked(lv: ListView?) returns (newCheckState: bool)
    modifies lv
    ensures lv == null ==> !newCheckState
    ensures lv != null ==>
      && newCheckState == NewCheckState(old(lv.checked))
      && lv.checked == Uniform(|old(lv.checked)|, newCheckState)
  {
    if lv == null {
      return false;
    }
    newCheckState := |lv.checked| > Count(lv.checked);
    SetAllToCheckedState(lv, newCheckState);
  }

  /** `toggleButtonLabel`: the button offers "select all" unless every row is checked. */
  method ToggleButtonLabel(toggleButton: Button, lv: ListView)
    modifies toggleButton
    ensures toggleButton.text == LabelFor(lv.checked)
  {
    if Count(lv.checked) != |lv.checked| {
      toggleButton.text := SelectAll;
    } else {
      toggleButton.text := ClearAll;
    }
  }

  /** The state of `AppListActivity` that the modelled methods read and write. */
  class AppListActivity {
    const listView: ListView
    /** the instance ids of the adapter's cursor in row order, or nothing for a null cursor */
    var cursor: Option<seq<int>>
    /** `selectedInstances` */
    var selectedInstances: set<int>
    var filterText: Option<string>
    var canHideProgressBar: bool
    var progressBarVisible: bool

    constructor(listView: ListView, cursor: Option<seq<int>>)
      ensures this.listView == listView && this.cursor == cursor
      ensures selectedInstances == {} && filterText == None
      ensures !canHideProgressBar && !progressBarVisible
    {
      this.listView := listView;
      this.cursor := cursor;
      selectedInstances := {};
      filterText := None;
      canHideProgressBar := false;
      progressBarVisible := false;
    }

    /**
     * `checkPreviouslyCheckedItems`: the check marks are cleared, then exactly the rows whose
     * instance id is selected are checked; with a null cursor none is.
     */
    method CheckPreviouslyCheckedItems()
      requires cursor.Some? ==> |cursor.value| == |listView.checked|
      modifies listView
      ensures |listView.checked| == |old(listView.checked)|
      ensures forall p :: 0 <= p < |listView.checked| ==>
        (listView.checked[p] <==> cursor.Some? && cursor.value[p] in selectedInstances)
    {
      listView.ClearChoices();
      var selectedPositions := SelectedRows();
      var k := 0;
      while k < |selectedPositions|
        invariant 0 <= k <= |selectedPositions|
        invariant |listView.checked| == |old(listView.checked)|
        invariant forall p :: 0 <= p < |listView.checked| ==>
          (listView.checked[p] <==> p in selectedPositions[..k])
      {
        listView.SetItemChecked(selectedPositions[k], true);
        assert selectedPositions[..k + 1] == selectedPositions[..k] + [selectedPositions[k]];
        k := k + 1;
      }
      assert selectedPositions[..k] == selectedPositions;
    }

    /** The cursor walk of `checkPreviouslyCheckedItems`: the selected rows' positions, in order. */
    method SelectedRows() returns (positions: seq<nat>)
      ensures cursor.None? ==> positions == []
      ensures cursor.Some? ==> positions == SelectedPositions(cursor.value, selectedInstances)
    {
      positions := [];
      if cursor.None? {
        return;
      }
      var rows := cursor.value;
      var selected := selectedInstances;
      var listViewPosition := 0;
      while listViewPosition < |rows|
        invariant 0 <= listViewPosition <= |rows|
        invariant positions == SelectedPositions(rows[..listViewPosition], selected)
      {
        var n := listViewPosition;
        assert rows[..n + 1][..n] == rows[..n];
        if rows[n] in selected {
          positions := positions + [n];
        }
        listViewPosition := listViewPosition + 1;
      }
      assert rows[..listViewPosition] == rows;
    }

    /** `getFilterText`: the search text, with null read as the empty text. */
    function GetFilterText(): (r: string)
      reads this
      ensures filterText.None? ==> r == ""
      ensures filterText.Some? ==> r == filterText.value
    {
      if filterText.Some? then filterText.value else ""
    }

    /** `hideProgressBarIfAllowed`: the bar is hidden only when hiding is allowed and it is shown. */
    method HideProgressBarIfAllowed()
      modifies this
      ensures progressBarVisible == (old(progressBarVisible) && !canHideProgressBar)
      ensures canHideProgressBar == old(canHideProgressBar)
      ensures cursor == old(cursor) && selectedInstances == old(selectedInstances) && filterText == old(filterText)
    {
      if canHideProgressBar && progressBarVisible {
        HideProgressBar();
      }
    }

    /** `hideProgressBarAndAllow`: hiding is allowed from now on, and the bar is hidden. */
    method HideProgressBarAndAllow()
      modifies this
      ensures canHideProgressBar && !progressBarVisible
      ensures cursor == old(cursor) && selectedInstances == old(selectedInstances) && filterText == old(filterText)
    {
      canHideProgressBar := true;
      HideProgressBar();
    }

    /** `hideProgressBar`. */
    method HideProgressBar()
      modifies this
      ensures !progressBarVisible
      ensures canHideProgressBar == old(canHideProgressBar)
      ensures cursor == old(cursor) && selectedInstances == old(selectedInstances) && filterText == old(filterText)
    {
      progressBarVisible := false;
    }

    /** `showProgressBar`: the bar is shown; whether it may be hidden is unchanged. */
    method ShowProgressBar()
      modifies this
      ensures progressBarVisible
      ensures canHideProgressBar == old(canHideProgressBar)
      ensures cursor == old(cursor) && selectedInstances == old(selectedInstances) && filterText == old(filterText)
    {
      progressBarVisible := true;
    }
  }
}
