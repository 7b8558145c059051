/**
 * `FormListActivity.getSortingOrder`: the sort code chosen in the sort dialog becomes the
 * `ORDER BY` clause of the forms query.
 */
module FormList {

  /** The sort codes of `ApplicationConstants.SortingOrder`. */
  const BY_NAME_ASC := 0
  const BY_NAME_DESC := 1
  const BY_DATE_ASC := 2
  const BY_DATE_DESC := 3

  /** The forms table's columns `FormsColumns.DISPLAY_NAME` and `FormsColumns.DATE`. */
  const DISPLAY_NAME := "displayName"
  const DATE := "date"

  const SORT_BY_NAME_ASC := DISPLAY_NAME + " COLLATE NOCASE ASC"
  const SORT_BY_NAME_DESC := DISPLAY_NAME + " COLLATE NOCASE DESC"
  const SORT_BY_DATE_ASC := DATE + " ASC"
  const SORT_BY_DATE_DESC := DATE + " DESC"

  /** `getSortingOrder`: the clause for each of the four codes; any other code sorts by name, ascending. */
  function GetSortingOrder(selectedSortingOrder: int): (sortingOrder: string)
    ensures sortingOrder == Clause(OrderingOf(selectedSortingOrder))
  {
    if selectedSortingOrder == BY_NAME_ASC then SORT_BY_NAME_ASC
    else if selectedSortingOrder == BY_NAME_DESC then SORT_BY_NAME_DESC
    else if selectedSortingOrder == BY_DATE_ASC then SORT_BY_DATE_ASC
    else if selectedSortingOrder == BY_DATE_DESC then SORT_BY_DATE_DESC
    else SORT_BY_NAME_ASC
  }

  /** What a sort code asks for: the column, and whether the order ascends. */
  datatype Column = Name | Date
  datatype Ordering = Ordering(column: Column, ascending: bool)

  /** The ordering each code names; an unknown code means the default, by name ascending. */
  function OrderingOf(code: int): (o: Ordering)
    ensures o.column == Date <==> code == BY_DATE_ASC || code == BY_DATE_DESC
    ensures !o.ascending <==> code == BY_NAME_DESC || code == BY_DATE_DESC
  {
    match code
    case 1 => Ordering(Name, false)
    case 2 => Ordering(Date, true)
    case 3 => Ordering(Date, false)
    case _ => Ordering(Name, true)
  }

  /**
   * The SQL clause for an ordering: names compare without regard to case
   * (`COLLATE NOCASE`), dates as stored.
   */
  function Clause(o: Ordering): (c: string)
  {
    (if o.column == Name then DISPLAY_NAME + " COLLATE NOCASE" else DATE)
    + (if o.ascending then " ASC" else " DESC")
  }

  /** Different orderings give different clauses, so no two codes of the dialog sort alike. */
  lemma {:induction false} ClauseInjective(o1: Ordering, o2: Ordering)
    requires o1 != o2
    ensures Clause(o1) != Clause(o2)
  {
    var c1, c2 := Clause(o1), Clause(o2);
    if o1.column != o2.column {
      assert c1[0 .. 2] != c2[0 .. 2] || |c1| != |c2|;
    } else if o1.column == Name {
      assert |c1| != |c2|;
    } else {
      assert |c1| != |c2|;
    }
  }

  /** The four codes of the dialog give four different clauses. */
  lemma {:induction false} SortingOrdersDistinct(a: int, b: int)
    requires 0 <= a <= 3 && 0 <= b <= 3 && a != b
    ensures GetSortingOrder(a) != GetSortingOrder(b)
  {
    ClauseInjective(OrderingOf(a), OrderingOf(b));
  }
}
