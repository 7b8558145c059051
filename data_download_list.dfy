/**
 * `DataDownloadListFragment`: the list of server forms that have records to download. The
 * form list is built in alphabetical order as the fetched details arrive, shown filtered by
 * the search text and sorted ignoring case, and the rows the user checks are turned into
 * one download task.
 */
module DataDownloadList {
  import opened Wrappers
  import opened Seqs
  import opened Text
  import opened Forms
  import opened ServerFormsDetails

  /** A server form's details with the record counts of this fork's `ServerFormDetails`. */
  datatype DataFormDetails = DataFormDetails(server: ServerFormDetails, dataToDownload: int, dataCount: int)

  /** A row of the list: its `FORMNAME` and its `FORMDETAIL_KEY`. */
  datatype ListItem = ListItem(formName: string, detailKey: string)

  /** What a comparator compares: the string it orders a row by. */
  type Order = ListItem -> string

  /** `String.compareTo` on the names. */
  const ByName: Order := (it: ListItem) => it.formName

  /** `compareToIgnoreCase` on the names: `compareTo` of the lower-cased names under the ASCII case model. */
  const ByNameIgnoringCase: Order := (it: ListItem) => Lower(it.formName)

  /** The rows whose key comes after `key`, as a filter. */
  function After(key: string, o: Order): ListItem -> bool {
    (it: ListItem) => LexLess(key, o(it))
  }

  /** The rows whose key is `key`, as a filter. */
  function HasKey(key: string, o: Order): ListItem -> bool {
    (it: ListItem) => o(it) == key
  }

  /** No row comes before a row ahead of it. */
  predicate Sorted(l: seq<ListItem>, o: Order) {
    forall i, j :: 0 <= i < j < |l| ==> !LexLess(o(l[j]), o(l[i]))
  }

  /** Where `x` goes: before the first row whose key is greater, or at the end. */
  function InsertionIndex(l: seq<ListItem>, x: ListItem, o: Order): (j: nat)
    ensures j <= |l|
    ensures forall k :: 0 <= k < j ==> !LexLess(o(x), o(l[k]))
    ensures j < |l| ==> LexLess(o(x), o(l[j]))
  {
    match FirstIndex(l, After(o(x), o))
    case None => |l|
    case Some(j) => j
  }

  /** `list.add(j, x)` at the insertion index. */
  function Insert(l: seq<ListItem>, x: ListItem, o: Order): (r: seq<ListItem>)
    ensures |r| == |l| + 1
  {
    var j := InsertionIndex(l, x, o);
    l[..j] + [x] + l[j..]
  }

  /** Inserting adds the row and loses none. */
  lemma {:induction false} InsertPermutes(l: seq<ListItem>, x: ListItem, o: Order)
    ensures multiset(Insert(l, x, o)) == multiset(l) + multiset{x}
  {
    var j := InsertionIndex(l, x, o);
    assert l == l[..j] + l[j..];
  }

  /** In a sorted list every row from one with a key greater than `key` on also has one. */
  lemma {:induction false} SortedTail(l: seq<ListItem>, o: Order, j: nat, key: string)
    requires Sorted(l, o) && j < |l| && LexLess(key, o(l[j]))
    ensures forall m :: j <= m < |l| ==> LexLess(key, o(l[m]))
  {
    forall m | j < m < |l|
      ensures LexLess(key, o(l[m]))
    {
      if o(l[m]) != o(l[j]) {
        LexLessTotal(o(l[j]), o(l[m]));
        LexLessTransitive(key, o(l[j]), o(l[m]));
      }
    }
  }

  /** Inserting into a sorted list keeps it sorted. */
  lemma {:induction false} InsertSorted(l: seq<ListItem>, x: ListItem, o: Order)
    requires Sorted(l, o)
    ensures Sorted(Insert(l, x, o), o)
  {
    var j := InsertionIndex(l, x, o);
    var r := Insert(l, x, o);
    assert r == l[..j] + [x] + l[j..];
    if j < |l| {
      SortedTail(l, o, j, o(x));
    }
    forall a, b | 0 <= a < b < |r|
      ensures !LexLess(o(r[b]), o(r[a]))
    {
      if b == j {
        assert r[a] == l[a];
      } else if a == j {
        assert r[b] == l[b - 1];
        if LexLess(o(r[b]), o(x)) {
          LexLessTransitive(o(x), o(r[b]), o(x));
          LexLessIrreflexive(o(x));
        }
      } else {
        var a' := if a < j then a else a - 1;
        var b' := if b < j then b else b - 1;
        assert r[a] == l[a'] && r[b] == l[b'] && a' < b';
      }
    }
  }

  /**
   * Inserting into a sorted list puts the new row after every row with the same key: the
   * rows of one key keep their arrival order.
   */
  lemma {:induction false} InsertStable(l: seq<ListItem>, x: ListItem, o: Order, key: string)
    requires Sorted(l, o)
    ensures Filter(Insert(l, x, o), HasKey(key, o)) == Filter(l, HasKey(key, o)) + (if o(x) == key then [x] else [])
  {
    if o(x) == key {
      InsertSameKey(l, x, o, key);
    } else {
      InsertOtherKey(l, x, o, key);
    }
  }

  lemma {:induction false} InsertSameKey(l: seq<ListItem>, x: ListItem, o: Order, key: string)
    requires Sorted(l, o) && o(x) == key
    ensures Filter(Insert(l, x, o), HasKey(key, o)) == Filter(l, HasKey(key, o)) + [x]
  {
    var p := HasKey(key, o);
    var j := InsertionIndex(l, x, o);
    FilterInsert(l, x, o, p);
    FilterSingleton(x, p);
    AfterHasNoKey(l, o, j, key);
    var fb := Filter(l[..j], p);
    assert fb + [x] + [] == (fb + []) + [x];
  }

  lemma {:induction false} InsertOtherKey(l: seq<ListItem>, x: ListItem, o: Order, key: string)
    requires o(x) != key
    ensures Filter(Insert(l, x, o), HasKey(key, o)) == Filter(l, HasKey(key, o))
  {
    var j := InsertionIndex(l, x, o);
    var r := Insert(l, x, o);
    assert r[j] == x && r[..j] + r[j + 1..] == l;
    FilterDropAt(r, j, HasKey(key, o));
  }

  /** The filter of an insertion, split at the insertion index. */
  lemma {:induction false} FilterInsert(l: seq<ListItem>, x: ListItem, o: Order, p: ListItem -> bool)
    ensures var j := InsertionIndex(l, x, o);
      && Filter(Insert(l, x, o), p) == Filter(l[..j], p) + Filter([x], p) + Filter(l[j..], p)
      && Filter(l, p) == Filter(l[..j], p) + Filter(l[j..], p)
  {
    var j := InsertionIndex(l, x, o);
    var before, after := l[..j], l[j..];
    assert Insert(l, x, o) == (before + [x]) + after;
    assert l == before + after;
    FilterConcat(before + [x], after, p);
    FilterConcat(before, [x], p);
    FilterConcat(before, after, p);
  }

  /** In a sorted list, no row from the insertion index of a row with key `key` on has that key. */
  lemma {:induction false} AfterHasNoKey(l: seq<ListItem>, o: Order, j: nat, key: string)
    requires Sorted(l, o) && j <= |l|
    requires j < |l| ==> LexLess(key, o(l[j]))
    ensures Filter(l[j..], HasKey(key, o)) == []
  {
    var after := l[j..];
    if j < |l| {
      SortedTail(l, o, j, key);
    }
    var f := Filter(after, HasKey(key, o));
    if f != [] {
      assert f[0] in after;
      var m :| 0 <= m < |after| && after[m] == f[0];
      assert after[m] == l[j + m];
      LexLessIrreflexive(key);
    }
  }

  /** `Collections.sort` with a comparator: the stable sort, as insertion of each row in turn. */
  function SortedBy(xs: seq<ListItem>, o: Order): (r: seq<ListItem>)
    ensures |r| == |xs|
    decreases |xs|
  {
    if xs == [] then []
    else Insert(SortedBy(xs[..|xs| - 1], o), xs[|xs| - 1], o)
  }

  /** The sort is a permutation. */
  lemma {:induction false} SortedByPermutes(xs: seq<ListItem>, o: Order)
    ensures multiset(SortedBy(xs, o)) == multiset(xs)
    decreases |xs|
  {
    if xs != [] {
      var init, x := xs[..|xs| - 1], xs[|xs| - 1];
      var sorted := SortedBy(init, o);
      assert SortedBy(xs, o) == Insert(sorted, x, o);
      SortedByPermutes(init, o);
      InsertPermutes(sorted, x, o);
      assert xs == init + [x];
      assert multiset(xs) == multiset(init) + multiset{x};
    }
  }

  /** The sort orders the rows. */
  lemma {:induction false} SortedBySorts(xs: seq<ListItem>, o: Order)
    ensures Sorted(SortedBy(xs, o), o)
    decreases |xs|
  {
    if xs != [] {
      SortedBySorts(xs[..|xs| - 1], o);
      InsertSorted(SortedBy(xs[..|xs| - 1], o), xs[|xs| - 1], o);
    }
  }

  /** The sort is stable: the rows of one key appear in the order they had. */
  lemma {:induction false} SortedByStable(xs: seq<ListItem>, o: Order, key: string)
    ensures Filter(SortedBy(xs, o), HasKey(key, o)) == Filter(xs, HasKey(key, o))
    decreases |xs|
  {
    if xs != [] {
      var p := HasKey(key, o);
      var init, x := xs[..|xs| - 1], xs[|xs| - 1];
      var sorted := SortedBy(init, o);
      SortedByStable(init, o, key);
      SortedBySorts(init, o);
      InsertStable(sorted, x, o, key);
      assert xs == init + [x];
      FilterAppend(init, x, p);
    }
  }

  /** The rows the loop of `formListDownloadingComplete` adds, in arrival order: forms with records to download. */
  function Arrivals(ids: seq<string>, details: map<string, DataFormDetails>): (r: seq<ListItem>)
    requires forall k :: 0 <= k < |ids| ==> ids[k] in details
    ensures forall x :: x in r ==>
      x.detailKey in details && details[x.detailKey].server.formName == x.formName && details[x.detailKey].dataToDownload > 0
    decreases |ids|
  {
    if ids == [] then []
    else
      var rest := Arrivals(ids[..|ids| - 1], details);
      var key := ids[|ids| - 1];
      var d := details[key];
      if d.dataToDownload <= 0 then rest else rest + [ListItem(d.server.formName, key)]
  }

  /** Every form with records to download, and no other, gets a row. */
  lemma {:induction false} ArrivalsComplete(ids: seq<string>, details: map<string, DataFormDetails>, k: nat)
    requires forall i :: 0 <= i < |ids| ==> ids[i] in details
    requires k < |ids|
    ensures ListItem(details[ids[k]].server.formName, ids[k]) in Arrivals(ids, details) <==> details[ids[k]].dataToDownload > 0
    decreases |ids|
  {
    if k < |ids| - 1 {
      var init := ids[..|ids| - 1];
      assert init[k] == ids[k];
      ArrivalsComplete(init, details, k);
    }
  }

  /** The rows the search text lets through: all of them for an empty text. */
  function Matching(items: seq<ListItem>, filterText: string): (r: seq<ListItem>)
    ensures forall x :: x in r <==> x in items && (|filterText| > 0 ==> Contains(Lower(x.formName), Lower(filterText)))
  {
    if |filterText| > 0 then Filter(items, NameContains(filterText)) else items
  }

  /** The rows whose lower-cased name contains the lower-cased text, as a filter. */
  function NameContains(filterText: string): ListItem -> bool {
    (it: ListItem) => Contains(Lower(it.formName), Lower(filterText))
  }

  /** What `updateAdapter` shows: the matching rows, sorted by name ignoring case. */
  function Displayed(items: seq<ListItem>, filterText: string): (r: seq<ListItem>)
    ensures forall x :: x in r <==> x in items && (|filterText| > 0 ==> Contains(Lower(x.formName), Lower(filterText)))
  {
    var r := SortedBy(Matching(items, filterText), ByNameIgnoringCase);
    SortedByPermutes(Matching(items, filterText), ByNameIgnoringCase);
    assert forall x :: x in r <==> x in multiset(r);
    r
  }

  /** The shown list is sorted ignoring case, and rows whose names differ only in case keep their order. */
  lemma {:induction false} DisplayedOrder(items: seq<ListItem>, filterText: string, lowered: string)
    ensures multiset(Displayed(items, filterText)) == multiset(Matching(items, filterText))
    ensures Sorted(Displayed(items, filterText), ByNameIgnoringCase)
    ensures Filter(Displayed(items, filterText), HasKey(lowered, ByNameIgnoringCase))
         == Filter(Matching(items, filterText), HasKey(lowered, ByNameIgnoringCase))
  {
    SortedByPermutes(Matching(items, filterText), ByNameIgnoringCase);
    SortedBySorts(Matching(items, filterText), ByNameIgnoringCase);
    SortedByStable(Matching(items, filterText), ByNameIgnoringCase, lowered);
  }

  /** The form list after the details arrive: the arrivals, each inserted in alphabetical order. */
  lemma {:induction false} FormListOrder(ids: seq<string>, details: map<string, DataFormDetails>, name: string)
    requires forall k :: 0 <= k < |ids| ==> ids[k] in details
    ensures multiset(SortedBy(Arrivals(ids, details), ByName)) == multiset(Arrivals(ids, details))
    ensures Sorted(SortedBy(Arrivals(ids, details), ByName), ByName)
    ensures Filter(SortedBy(Arrivals(ids, details), ByName), HasKey(name, ByName))
         == Filter(Arrivals(ids, details), HasKey(name, ByName))
  {
    SortedByPermutes(Arrivals(ids, details), ByName);
    SortedBySorts(Arrivals(ids, details), ByName);
    SortedByStable(Arrivals(ids, details), ByName, name);
  }

  /**
   * The forms `processDownload` hands to the task: the details of the selected rows in
   * selection order, up to the first form not on the device. A position outside the list
   * or a key without details throws.
   */
  function Selected(selected: seq<int>, filtered: seq<ListItem>, details: map<string, DataFormDetails>): (r: Result<seq<DataFormDetails>, Exception>)
    ensures r.Failure? ==> r.error == RuntimeFailure
    ensures r.Success? ==> |r.value| <= |selected|
    decreases |selected|
  {
    if selected == [] then Success([])
    else if !(0 <= selected[0] < |filtered|) then Failure(RuntimeFailure)
    else
      var key := filtered[selected[0]].detailKey;
      if key !in details then Failure(RuntimeFailure)
      else if details[key].server.isNotOnDevice then Success([])
      else Prepend(details[key], Selected(selected[1..], filtered, details))
  }

  /** The row at a selected position, when it has details. */
  predicate Resolves(position: int, filtered: seq<ListItem>, details: map<string, DataFormDetails>) {
    0 <= position < |filtered| && filtered[position].detailKey in details
  }

  /**
   * What `Selected` collects: the details of the first selected rows, in selection order,
   * none of them missing from the device, and it stops only at the end of the selection or
   * at a form not on the device.
   */
  lemma {:induction false} SelectedCollects(selected: seq<int>, filtered: seq<ListItem>, details: map<string, DataFormDetails>)
    ensures var r := Selected(selected, filtered, details);
      r.Success? ==>
        && (forall k :: 0 <= k < |r.value| ==>
              && Resolves(selected[k], filtered, details)
              && r.value[k] == details[filtered[selected[k]].detailKey]
              && !r.value[k].server.isNotOnDevice)
        && (|r.value| < |selected| ==>
              && Resolves(selected[|r.value|], filtered, details)
              && details[filtered[selected[|r.value|]].detailKey].server.isNotOnDevice)
    decreases |selected|
  {
    if selected != [] && 0 <= selected[0] < |filtered| {
      var key := filtered[selected[0]].detailKey;
      if key in details && !details[key].server.isNotOnDevice {
        SelectedCollects(selected[1..], filtered, details);
        var rest := Selected(selected[1..], filtered, details);
        if rest.Success? {
          var r := Selected(selected, filtered, details);
          assert r.value == [details[key]] + rest.value;
          forall k | 0 < k < |r.value|
            ensures Resolves(selected[k], filtered, details) && r.value[k] == details[filtered[selected[k]].detailKey]
          {
            assert selected[k] == selected[1..][k - 1] && r.value[k] == rest.value[k - 1];
          }
          if |r.value| < |selected| {
            assert selected[|r.value|] == selected[1..][|rest.value|];
          }
        }
      }
    }
  }

  /** The positions other than `position`, as a filter. */
  function Except(position: int): int -> bool {
    (p: int) => p != position
  }

  /** Positions appear at most once (`LinkedHashSet`). */
  predicate NoDuplicates(s: seq<int>) {
    forall i, j :: 0 <= i < j < |s| ==> s[i] != s[j]
  }

  /** The inner loop of the alphabetical insertion: the first row whose name is greater. */
  method InsertionPoint(list: seq<ListItem>, item: ListItem) returns (j: nat)
    ensures j == InsertionIndex(list, item, ByName)
  {
    j := 0;
    while j < |list|
      invariant 0 <= j <= |list|
      invariant forall k :: 0 <= k < j ==> !After(item.formName, ByName)(list[k])
    {
      if LexLess(item.formName, list[j].formName) {
        FirstIndexIs(list, After(item.formName, ByName), j);
        return;
      }
      j := j + 1;
    }
  }

  /**
   * The rebuilding loop of `formListDownloadingComplete`: each form with records to download,
   * taken in `ids` order, is inserted before the first row whose name is greater.
   */
  method ArrivedInOrder(received: map<string, DataFormDetails>, ids: seq<string>) returns (forms: seq<ListItem>)
    requires |ids| == |received| && forall k :: 0 <= k < |ids| ==> ids[k] in received
    ensures forms == SortedBy(Arrivals(ids, received), ByName)
  {
    forms := [];
    var i := 0;
    while i < |received|
      invariant 0 <= i <= |ids|
      invariant forms == SortedBy(Arrivals(ids[..i], received), ByName)
    {
      var key := ids[i];
      var details := received[key];
      assert ids[..i + 1][..i] == ids[..i];
      if details.dataToDownload <= 0 {
        i := i + 1;
        continue;
      }
      var item := ListItem(details.server.formName, key);
      ghost var arrived := Arrivals(ids[..i], received);
      assert Arrivals(ids[..i + 1], received) == arrived + [item];
      assert (arrived + [item])[..|arrived|] == arrived;
      if forms == [] {
        forms := [item];
      } else {
        var j := InsertionPoint(forms, item);
        forms := forms[..j] + [item] + forms[j..];
      }
      i := i + 1;
    }
    assert ids[..i] == ids;
  }

  /** The `DownloadDataTask` started with these forms; `finished` tracks its `AsyncTask` status. */
  datatype DownloadTask = DownloadTask(files: seq<DataFormDetails>, finished: bool)

  class DataDownloadListFragment {
    /** the view model's form list */
    var formList: seq<ListItem>
    /** the view model's details by key */
    var formDetailsByFormId: map<string, DataFormDetails>
    var filteredFormList: seq<ListItem>
    /** the checked positions, in the order they were checked */
    var selectedForm: seq<int>
    var downloadDataTask: Option<DownloadTask>
    var progressBarVisible: bool

    constructor()
      ensures formList == [] && formDetailsByFormId == map[] && filteredFormList == []
      ensures selectedForm == [] && downloadDataTask == None && !progressBarVisible
    {
      formList := [];
      formDetailsByFormId := map[];
      filteredFormList := [];
      selectedForm := [];
      downloadDataTask := None;
      progressBarVisible := false;
    }

    /**
     * `onListItemClick`: a row the click leaves checked joins the selection (once), and one
     * it leaves unchecked leaves it; the selection never holds a position twice.
     */
    method OnListItemClick(position: int, isChecked: bool)
      modifies this
      requires NoDuplicates(selectedForm)
      ensures NoDuplicates(selectedForm)
      ensures isChecked ==> selectedForm == if position in old(selectedForm) then old(selectedForm) else old(selectedForm) + [position]
      ensures !isChecked ==> selectedForm == Filter(old(selectedForm), Except(position))
      ensures forall p :: p in selectedForm <==> if p == position then isChecked else p in old(selectedForm)
      ensures formList == old(formList) && filteredFormList == old(filteredFormList)
      ensures formDetailsByFormId == old(formDetailsByFormId)
      ensures downloadDataTask == old(downloadDataTask) && progressBarVisible == old(progressBarVisible)
    {
      if isChecked {
        if position !in selectedForm {
          selectedForm := selectedForm + [position];
        }
      } else {
        var kept := Filter(selectedForm, Except(position));
        FilterNoDuplicates(selectedForm, Except(position));
        selectedForm := kept;
      }
    }

    /** `sortList`: the shown rows sorted by name ignoring case, stably. */
    method SortList()
      modifies this
      ensures filteredFormList == SortedBy(old(filteredFormList), ByNameIgnoringCase)
      ensures formList == old(formList) && selectedForm == old(selectedForm)
      ensures formDetailsByFormId == old(formDetailsByFormId)
      ensures downloadDataTask == old(downloadDataTask) && progressBarVisible == old(progressBarVisible)
    {
      filteredFormList := SortedBy(filteredFormList, ByNameIgnoringCase);
    }

    /** `updateAdapter` with the search box's text: the shown rows become `Displayed`. */
    method UpdateAdapter(filterText: string)
      modifies this
      ensures filteredFormList == Displayed(formList, filterText)
      ensures formList == old(formList) && selectedForm == old(selectedForm)
      ensures formDetailsByFormId == old(formDetailsByFormId)
      ensures downloadDataTask == old(downloadDataTask) && progressBarVisible == old(progressBarVisible)
    {
      var filtered := MatchingForms(filterText);
      filteredFormList := filtered;
      SortList();
    }

    /** The filling loop of `updateAdapter`: the rows of the form list the search text lets through. */
    method MatchingForms(filterText: string) returns (filtered: seq<ListItem>)
      ensures filtered == Matching(formList, filterText)
    {
      var forms := formList;
      filtered := [];
      if |filterText| > 0 {
        var i := 0;
        while i < |forms|
          invariant 0 <= i <= |forms|
          invariant filtered == Filter(forms[..i], NameContains(filterText))
        {
          var form := forms[i];
          assert forms[..i + 1] == forms[..i] + [form];
          FilterConcat(forms[..i], [form], NameContains(filterText));
          FilterSingleton(form, NameContains(filterText));
          if Contains(Lower(form.formName), Lower(filterText)) {
            filtered := filtered + [form];
          }
          i := i + 1;
        }
        assert forms[..i] == forms;
      } else {
        filtered := forms;
      }
    }

    /**
     * `formListDownloadingComplete`, where `ids` is the order in which the map yields its
     * keys: after an exception only the progress bar changes. Otherwise the details are
     * stored, the form list is rebuilt from the forms with records to download, each
     * inserted in alphabetical order, and the shown rows are refreshed.
     */
    method FormListDownloadingComplete(received: map<string, DataFormDetails>, ids: seq<string>,
                                       exception: Option<Exception>, filterText: string)
      modifies this
      requires |ids| == |received| && forall k :: 0 <= k < |ids| ==> ids[k] in received
      ensures !progressBarVisible
      ensures exception.Some? ==>
        && formList == old(formList) && filteredFormList == old(filteredFormList)
        && formDetailsByFormId == old(formDetailsByFormId)
      ensures exception.None? ==>
        && formDetailsByFormId == received
        && formList == SortedBy(Arrivals(ids, received), ByName)
        && filteredFormList == Displayed(formList, filterText)
      ensures selectedForm == old(selectedForm) && downloadDataTask == old(downloadDataTask)
    {
      progressBarVisible := false;
      if exception.Some? {
        return;
      }
      formDetailsByFormId := received;
      var forms := ArrivedInOrder(received, ids);
      formList := forms;
      filteredFormList := filteredFormList + formList;
      UpdateAdapter(filterText);
    }

    /**
     * `processDownload`: nothing happens while an earlier task is unfinished; a finished one
     * is dropped. The selected forms are then collected as `Selected` says, and a task is
     * started with them, showing the progress bar, when there is at least one.
     */
    method ProcessDownload() returns (r: Outcome<Exception>)
      modifies this
      ensures old(downloadDataTask).Some? && !old(downloadDataTask).value.finished ==>
        r == Pass && downloadDataTask == old(downloadDataTask) && progressBarVisible == old(progressBarVisible)
      ensures !(old(downloadDataTask).Some? && !old(downloadDataTask).value.finished) ==>
        var sel := Selected(selectedForm, filteredFormList, formDetailsByFormId);
        && (sel.Failure? ==> r == Fail(RuntimeFailure) && downloadDataTask.None? && progressBarVisible == old(progressBarVisible))
        && (sel.Success? && sel.value == [] ==> r == Pass && downloadDataTask.None? && progressBarVisible == old(progressBarVisible))
        && (sel.Success? && sel.value != [] ==> r == Pass && downloadDataTask == Some(DownloadTask(sel.value, false)) && progressBarVisible)
      ensures formList == old(formList) && filteredFormList == old(filteredFormList) && selectedForm == old(selectedForm)
      ensures formDetailsByFormId == old(formDetailsByFormId)
    {
      if downloadDataTask.Some? && !downloadDataTask.value.finished {
        return Pass;
      } else if downloadDataTask.Some? {
        downloadDataTask := None;
      }
      var collected := CollectSelected();
      if collected.Failure? {
        return Fail(collected.error);
      }
      var files := collected.value;
      if downloadDataTask.None? && files != [] {
        progressBarVisible := true;
        downloadDataTask := Some(DownloadTask(files, false));
      }
      return Pass;
    }

    /** The loop of `processDownload`: the selected forms up to the first one not on the device. */
    method CollectSelected() returns (r: Result<seq<DataFormDetails>, Exception>)
      ensures r == Selected(selectedForm, filteredFormList, formDetailsByFormId)
    {
      var selection, shown, byKey := selectedForm, filteredFormList, formDetailsByFormId;
      ghost var whole := Selected(selection, shown, byKey);
      var files: seq<DataFormDetails> := [];
      var i := 0;
      PrefixedNil(whole);
      assert selection[0..] == selection;
      while i < |selection|
        invariant 0 <= i <= |selection|
        invariant whole == Prefixed(files, Selected(selection[i..], shown, byKey))
      {
        var itemid := selection[i];
        ghost var rest := selection[i..];
        assert rest[0] == itemid && rest[1..] == selection[i + 1..];
        if !(0 <= itemid < |shown|) {
          return Failure(RuntimeFailure);
        }
        var key := shown[itemid].detailKey;
        if key !in byKey {
          return Failure(RuntimeFailure);
        }
        var serverFormDetails := byKey[key];
        if serverFormDetails.server.isNotOnDevice {
          break;
        }
        PrefixedPrepend(files, serverFormDetails, Selected(selection[i + 1..], shown, byKey));
        files := files + [serverFormDetails];
        i := i + 1;
      }
      if i == |selection| {
        assert selection[i..] == [];
      }
      assert files + [] == files;
      return Success(files);
    }

    /** `dataDownloadingComplete`: reported failed exactly when there is no result or some form's result is "error". */
    method DataDownloadingComplete(result: Option<map<DataFormDetails, string>>) returns (failed: bool)
      modifies this
      ensures failed <==> result.None? || exists d :: d in result.value && result.value[d] == "error"
      ensures !progressBarVisible
      ensures formList == old(formList) && filteredFormList == old(filteredFormList) && selectedForm == old(selectedForm)
      ensures formDetailsByFormId == old(formDetailsByFormId) && downloadDataTask == old(downloadDataTask)
    {
      progressBarVisible := false;
      failed := result.None? || "error" in result.value.Values;
    }
  }

  /** Filtering keeps a sequence free of duplicates. */
  lemma {:induction false} FilterNoDuplicates(s: seq<int>, p: int -> bool)
    requires NoDuplicates(s)
    ensures NoDuplicates(Filter(s, p))
    decreases |s|
  {
    if s != [] {
      FilterNoDuplicates(s[1..], p);
      assert s[0] !in s[1..];
    }
  }
}
