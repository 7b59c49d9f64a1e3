/** components/procurement-dashboard.tsx: the `ProcurementItem` record and
    the dashboard's copy of the table sort controller, which starts on
    `Potential_Savings`. */
module ProcurementDashboard {
  import opened Wrappers
  import SortControl

  /** One row of the analysed file. The FOB price and pack size are kept as
      text, so they sort as strings. */
  datatype ProcurementItem = ProcurementItem(
    product: string,
    currentFob: string,
    packSize: string,
    origin: string,
    currentLandedCost: real,
    weeklyVolume: real,
    potentialSavings: real)

  /** `keyof ProcurementItem`. */
  datatype Column =
    | Product | CurrentFob | PackSize | Origin
    | CurrentLandedCost | WeeklyVolume | PotentialSavings

  /** `item[key]`. */
  function Field(item: ProcurementItem, c: Column): SortControl.Key {
    match c
    case Product => SortControl.Str(item.product)
    case CurrentFob => SortControl.Str(item.currentFob)
    case PackSize => SortControl.Str(item.packSize)
    case Origin => SortControl.Str(item.origin)
    case CurrentLandedCost => SortControl.Num(item.currentLandedCost)
    case WeeklyVolume => SortControl.Num(item.weeklyVolume)
    case PotentialSavings => SortControl.Num(item.potentialSavings)
  }

  predicate IsTextColumn(c: Column) {
    c == Product || c == CurrentFob || c == PackSize || c == Origin
  }

  function TextOf(item: ProcurementItem, c: Column): string
    requires IsTextColumn(c)
  {
    match c
    case Product => item.product
    case CurrentFob => item.currentFob
    case PackSize => item.packSize
    case Origin => item.origin
  }

  type SortState = Option<SortControl.SortConfig<Column>>

  /** The state the dashboard starts in: potential savings, descending. */
  const InitialSort: SortState := Some(SortControl.SortConfig(PotentialSavings, SortControl.Desc))

  /** The dashboard's `requestSort`. */
  function RequestSort(state: SortState, c: Column): (r: SortControl.SortConfig<Column>)
    ensures r.key == c
    ensures r.direction == SortControl.Desc <==> state == Some(SortControl.SortConfig(c, SortControl.Asc))
  {
    SortControl.RequestSort(state, c)
  }

  /** The first click on the default column sorts it ascending. */
  lemma FirstClickOnSavingsAscends()
    ensures RequestSort(InitialSort, PotentialSavings) == SortControl.SortConfig(PotentialSavings, SortControl.Asc)
  {}

  /** The dashboard's `sortedItems`: a reordered copy of `items`. */
  function SortedItems(items: seq<ProcurementItem>, state: SortState): (r: seq<ProcurementItem>)
    ensures multiset(r) == multiset(items)
    ensures state.Some? && state.value.direction == SortControl.Asc ==>
      forall i, j :: 0 <= i < j < |r| ==>
        !SortControl.KeyLess(Field(r[j], state.value.key), Field(r[i], state.value.key))
    ensures state.Some? && state.value.direction == SortControl.Desc ==>
      forall i, j :: 0 <= i < j < |r| ==>
        !SortControl.KeyLess(Field(r[i], state.value.key), Field(r[j], state.value.key))
    ensures state.None? ==> r == items
  {
    SortControl.SortedView(items, state, Field)
  }

  /** As first shown, the dashboard lists the largest potential savings first. */
  lemma InitialViewBySavingsDescending(items: seq<ProcurementItem>)
    ensures var r := SortedItems(items, InitialSort);
      forall i, j :: 0 <= i < j < |r| ==> r[i].potentialSavings >= r[j].potentialSavings
  {
    var r := SortedItems(items, InitialSort);
    forall i, j | 0 <= i < j < |r| ensures r[i].potentialSavings >= r[j].potentialSavings {
      assert !SortControl.KeyLess(Field(r[i], PotentialSavings), Field(r[j], PotentialSavings));
    }
  }

  /** The text columns (`Current_FOB` and `Pack_Size` included) sort
      lexicographically, in either direction. */
  lemma TextColumnsSortLexicographically(items: seq<ProcurementItem>, state: SortState)
    requires state.Some? && IsTextColumn(state.value.key)
    ensures var r := SortedItems(items, state);
      var c := state.value.key;
      && (state.value.direction == SortControl.Asc ==>
            forall i, j :: 0 <= i < j < |r| ==> !SortControl.StrLess(TextOf(r[j], c), TextOf(r[i], c)))
      && (state.value.direction == SortControl.Desc ==>
            forall i, j :: 0 <= i < j < |r| ==> !SortControl.StrLess(TextOf(r[i], c), TextOf(r[j], c)))
  {
    var r := SortedItems(items, state);
    var c := state.value.key;
    forall i | 0 <= i < |r| ensures Field(r[i], c) == SortControl.Str(TextOf(r[i], c)) {}
  }

  /** Rows that are level in the sort column keep their input order. */
  lemma SortedItemsAreStable(items: seq<ProcurementItem>, state: SortState, e: ProcurementItem)
    requires state.Some?
    ensures var k := state.value.key;
      SortControl.WithKey(SortedItems(items, state), Field, k, Field(e, k))
        == SortControl.WithKey(items, Field, k, Field(e, k))
  {
    SortControl.SortedViewIsStable(items, state, Field, e);
  }
}
