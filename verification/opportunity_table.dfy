/** components/opportunity-table.tsx: the `Opportunity` record and the
    table's sort state, `requestSort` and `sortedItems`. */
module OpportunityTable {
  import opened Wrappers
  import SortControl

  /** One savings opportunity, as derived from a row of the input file. */
  datatype Opportunity = Opportunity(
    product: string,
    currentSupplier: string,
    currentPrice: real,
    targetSupplier: string,
    targetPrice: real,
    savingsPerCase: real,
    annualSavings: real,
    spreadPercentage: real)

  /** `keyof Opportunity`: the columns the table can sort on. */
  datatype Column =
    | Product | CurrentSupplier | CurrentPrice | TargetSupplier
    | TargetPrice | SavingsPerCase | AnnualSavings | SpreadPercentage

  /** `item[key]`. */
  function Field(o: Opportunity, c: Column): SortControl.Key {
    match c
    case Product => SortControl.Str(o.product)
    case CurrentSupplier => SortControl.Str(o.currentSupplier)
    case CurrentPrice => SortControl.Num(o.currentPrice)
    case TargetSupplier => SortControl.Str(o.targetSupplier)
    case TargetPrice => SortControl.Num(o.targetPrice)
    case SavingsPerCase => SortControl.Num(o.savingsPerCase)
    case AnnualSavings => SortControl.Num(o.annualSavings)
    case SpreadPercentage => SortControl.Num(o.spreadPercentage)
  }

  type SortState = Option<SortControl.SortConfig<Column>>

  /** The state the table starts in: annual savings, descending. */
  const InitialSort: SortState := Some(SortControl.SortConfig(AnnualSavings, SortControl.Desc))

  /** The table's `requestSort`. */
  function RequestSort(state: SortState, c: Column): (r: SortControl.SortConfig<Column>)
    ensures r.key == c
    ensures r.direction == SortControl.Desc <==> state == Some(SortControl.SortConfig(c, SortControl.Asc))
  {
    SortControl.RequestSort(state, c)
  }

  /** The first click on the default column sorts it ascending, not
      descending: the initial state is descending, not ascending. */
  lemma FirstClickOnSavingsAscends()
    ensures RequestSort(InitialSort, AnnualSavings) == SortControl.SortConfig(AnnualSavings, SortControl.Asc)
  {}

  /** The table's `sortedItems`: a reordered copy of `items`. */
  function SortedItems(items: seq<Opportunity>, state: SortState): (r: seq<Opportunity>)
    ensures multiset(r) == multiset(items)
    ensures state.Some? && state.value.direction == SortControl.Asc ==>
      forall i, j :: 0 <= i < j < |r| ==>
        !SortControl.KeyLess(Field(r[j], state.value.key), Field(r[i], state.value.key))
    ensures state.Some? && state.value.direction == SortControl.Desc ==>
      forall i, j :: 0 <= i < j < |r| ==>
        !SortControl.KeyLess(Field(r[i], state.value.key), Field(r[j], state.value.key))
    ensures state.None? ==> r == items
  {
    SortControl.SortedView(items, state, Field)
  }

  /** As first shown, the table lists the largest annual savings first. */
  lemma InitialViewBySavingsDescending(items: seq<Opportunity>)
    ensures var r := SortedItems(items, InitialSort);
      forall i, j :: 0 <= i < j < |r| ==> r[i].annualSavings >= r[j].annualSavings
  {
    var r := SortedItems(items, InitialSort);
    forall i, j | 0 <= i < j < |r| ensures r[i].annualSavings >= r[j].annualSavings {
      assert !SortControl.KeyLess(Field(r[i], AnnualSavings), Field(r[j], AnnualSavings));
    }
  }

  /** Sorting by a text column orders the rows lexicographically. */
  lemma ProductColumnIsLexicographic(items: seq<Opportunity>)
    ensures var r := SortedItems(items, Some(SortControl.SortConfig(Product, SortControl.Asc)));
      forall i, j :: 0 <= i < j < |r| ==> !SortControl.StrLess(r[j].product, r[i].product)
  {
    var r := SortedItems(items, Some(SortControl.SortConfig(Product, SortControl.Asc)));
    forall i, j | 0 <= i < j < |r| ensures !SortControl.StrLess(r[j].product, r[i].product) {
      assert !SortControl.KeyLess(Field(r[j], Product), Field(r[i], Product));
    }
  }

  /** Rows that are level in the sort column keep their input order. */
  lemma SortedItemsAreStable(items: seq<Opportunity>, state: SortState, e: Opportunity)
    requires state.Some?
    ensures var k := state.value.key;
      SortControl.WithKey(SortedItems(items, state), Field, k, Field(e, k))
        == SortControl.WithKey(items, Field, k, Field(e, k))
  {
    SortControl.SortedViewIsStable(items, state, Field, e);
  }
}
