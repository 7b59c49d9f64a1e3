/** The sort controller shared by the opportunity table and the procurement
    dashboard: a `{key, direction}` state, the `requestSort` transition, and
    the comparator that orders a copy of the rows by the chosen column. */
module SortControl {
  import opened Wrappers
  import Sorting

  datatype Direction = Asc | Desc

  /** The non-null sort state `{ key, direction }`. */
  datatype SortConfig<K> = SortConfig(key: K, direction: Direction)

  /** `requestSort(key)`: the same column while ascending turns descending;
      any other click sorts that column ascending. The new state is never null. */
  function RequestSort<K(==)>(state: Option<SortConfig<K>>, key: K): (r: SortConfig<K>)
    ensures r.key == key
    ensures r.direction == Desc <==> state == Some(SortConfig(key, Asc))
  {
    var direction :=
      if state.Some? && state.value.key == key && state.value.direction == Asc then Desc else Asc;
    SortConfig(key, direction)
  }

  /** Two clicks on a column end descending unless the first click found it
      already ascending. */
  lemma RequestSortTwice<K>(state: Option<SortConfig<K>>, key: K)
    ensures RequestSort(Some(RequestSort(state, key)), key) == SortConfig(key, Desc)
        <==> state != Some(SortConfig(key, Asc))
  {}

  /** Repeated clicks on the same column alternate the direction. */
  lemma RequestSortAlternates<K>(state: Option<SortConfig<K>>, key: K)
    ensures var once := RequestSort(state, key);
      var twice := RequestSort(Some(once), key);
      twice.key == key && twice.direction != once.direction
  {}

  /** A column value as JavaScript's `<` sees it: a number or a string. */
  datatype Key = Num(number: real) | Str(text: string)

  /** JavaScript's `<` on strings: lexicographic, a proper prefix first. */
  predicate StrLess(a: string, b: string) {
    if |a| == 0 then |b| > 0
    else if |b| == 0 then false
    else if a[0] == b[0] then StrLess(a[1..], b[1..])
    else a[0] < b[0]
  }

  lemma {:induction false} StrLessIrreflexive(a: string)
    ensures !StrLess(a, a)
  {
    if |a| > 0 {
      StrLessIrreflexive(a[1..]);
    }
  }

  lemma {:induction false} StrLessAsymmetric(a: string, b: string)
    ensures StrLess(a, b) ==> !StrLess(b, a)
  {
    if |a| > 0 && |b| > 0 && a[0] == b[0] {
      StrLessAsymmetric(a[1..], b[1..]);
    }
  }

  lemma {:induction false} StrLessTransitive(a: string, b: string, c: string)
    ensures StrLess(a, b) && StrLess(b, c) ==> StrLess(a, c)
  {
    if |a| > 0 && |b| > 0 && |c| > 0 && a[0] == b[0] && b[0] == c[0] {
      StrLessTransitive(a[1..], b[1..], c[1..]);
    }
  }

  lemma {:induction false} StrLessTotal(a: string, b: string)
    ensures a == b || StrLess(a, b) || StrLess(b, a)
  {
    if |a| > 0 && |b| > 0 && a[0] == b[0] {
      StrLessTotal(a[1..], b[1..]);
      if a[1..] == b[1..] {
        assert a == [a[0]] + a[1..] && b == [b[0]] + b[1..];
      }
    }
  }

  /** The order of column values. A column holds only numbers or only
      strings, so the order between a number and a string is never consulted. */
  predicate KeyLess(x: Key, y: Key) {
    match (x, y)
    case (Num(m), Num(n)) => m < n
    case (Str(s), Str(t)) => StrLess(s, t)
    case (Num(_), Str(_)) => true
    case (Str(_), Num(_)) => false
  }

  /** `KeyLess` is a strict total order: of two keys exactly one is less,
      or they are equal. */
  lemma KeyLessIsStrictTotalOrder(x: Key, y: Key, z: Key)
    ensures !KeyLess(x, x)
    ensures KeyLess(x, y) ==> !KeyLess(y, x)
    ensures KeyLess(x, y) && KeyLess(y, z) ==> KeyLess(x, z)
    ensures x == y || KeyLess(x, y) || KeyLess(y, x)
  {
    if x.Str? {
      StrLessIrreflexive(x.text);
      if y.Str? {
        StrLessAsymmetric(x.text, y.text);
        StrLessTotal(x.text, y.text);
        if z.Str? {
          StrLessTransitive(x.text, y.text, z.text);
        }
      }
    }
  }

  /** The comparator of `sortedItems`: -1, 1 or 0 as `a` goes before, after
      or level with `b` in the chosen column and direction; 0 throughout when
      there is no sort state. */
  function Compare<T, K>(cfg: Option<SortConfig<K>>, field: (T, K) -> Key, a: T, b: T): (r: int)
    ensures -1 <= r <= 1
    ensures cfg.None? ==> r == 0
    ensures cfg.Some? ==>
      var x := field(a, cfg.value.key);
      var y := field(b, cfg.value.key);
      && (r == 0 <==> !KeyLess(x, y) && !KeyLess(y, x))
      && (r == 0 <==> x == y)
      && (cfg.value.direction == Asc ==> (r < 0 <==> KeyLess(x, y)) && (r > 0 <==> KeyLess(y, x)))
      && (cfg.value.direction == Desc ==> (r < 0 <==> KeyLess(y, x)) && (r > 0 <==> KeyLess(x, y)))
  {
    if cfg.None? then 0
    else
      var x := field(a, cfg.value.key);
      var y := field(b, cfg.value.key);
      KeyLessIsStrictTotalOrder(x, y, x);
      var asc := cfg.value.direction == Asc;
      if KeyLess(x, y) then (if asc then -1 else 1)
      else if KeyLess(y, x) then (if asc then 1 else -1)
      else 0
  }

  /** Swapping the arguments negates the comparison. */
  lemma CompareAntisymmetric<T, K>(cfg: Option<SortConfig<K>>, field: (T, K) -> Key, a: T, b: T)
    ensures Compare(cfg, field, a, b) == -Compare(cfg, field, b, a)
  {
    if cfg.Some? {
      var k := cfg.value.key;
      KeyLessIsStrictTotalOrder(field(a, k), field(b, k), field(a, k));
    }
  }

  function Comparator<T, K>(cfg: Option<SortConfig<K>>, field: (T, K) -> Key): (T, T) -> int {
    (a, b) => Compare(cfg, field, a, b)
  }

  lemma CompareIsComparator<T(!new), K>(cfg: Option<SortConfig<K>>, field: (T, K) -> Key)
    ensures Sorting.IsComparator(Comparator(cfg, field))
  {
    var cmp := Comparator(cfg, field);
    forall a, b ensures cmp(a, b) < 0 <==> cmp(b, a) > 0 {
      CompareAntisymmetric(cfg, field, a, b);
    }
    forall a, b, c | cmp(a, b) <= 0 && cmp(b, c) <= 0 ensures cmp(a, c) <= 0 {
      if cfg.Some? {
        var k := cfg.value.key;
        KeyLessIsStrictTotalOrder(field(a, k), field(b, k), field(c, k));
        KeyLessIsStrictTotalOrder(field(c, k), field(b, k), field(a, k));
      }
    }
  }

  /** Sortedness under the comparator, read back as an order on the column. */
  lemma SortedMeansOrderedByKey<T(!new), K>(r: seq<T>, cfg: Option<SortConfig<K>>, field: (T, K) -> Key)
    requires Sorting.Sorted(r, Comparator(cfg, field))
    ensures cfg.Some? && cfg.value.direction == Asc ==>
      forall i, j :: 0 <= i < j < |r| ==> !KeyLess(field(r[j], cfg.value.key), field(r[i], cfg.value.key))
    ensures cfg.Some? && cfg.value.direction == Desc ==>
      forall i, j :: 0 <= i < j < |r| ==> !KeyLess(field(r[i], cfg.value.key), field(r[j], cfg.value.key))
  {
    forall i, j | 0 <= i < j < |r|
      ensures Compare(cfg, field, r[i], r[j]) <= 0
    {
      assert Comparator(cfg, field)(r[i], r[j]) <= 0;
    }
  }

  /** With no sort state every pair compares level, so the stable sort
      returns the rows unchanged. */
  lemma UnsortedViewIsIdentity<T(!new), K>(items: seq<T>, field: (T, K) -> Key)
    ensures Sorting.IsComparator(Comparator(None, field))
    ensures Sorting.Sort(items, Comparator(None, field)) == items
  {
    var cmp := Comparator(None, field);
    CompareIsComparator(None, field);
    if |items| > 0 {
      var r := Sorting.Sort(items, cmp);
      Sorting.SortIsStable(items, items[0], cmp);
      Sorting.AllTied(items, items[0], cmp);
      assert forall i :: 0 <= i < |r| ==> cmp(r[i], items[0]) == 0;
      Sorting.AllTied(r, items[0], cmp);
    }
  }

  /** `sortedItems`: a sorted copy of the rows by the configured column. */
  function SortedView<T(!new), K>(items: seq<T>, cfg: Option<SortConfig<K>>, field: (T, K) -> Key): (r: seq<T>)
    ensures multiset(r) == multiset(items)
    ensures cfg.Some? && cfg.value.direction == Asc ==>
      forall i, j :: 0 <= i < j < |r| ==> !KeyLess(field(r[j], cfg.value.key), field(r[i], cfg.value.key))
    ensures cfg.Some? && cfg.value.direction == Desc ==>
      forall i, j :: 0 <= i < j < |r| ==> !KeyLess(field(r[i], cfg.value.key), field(r[j], cfg.value.key))
    ensures cfg.None? ==> r == items
  {
    CompareIsComparator(cfg, field);
    var r := Sorting.Sort(items, Comparator(cfg, field));
    SortedMeansOrderedByKey(r, cfg, field);
    if cfg.None? then
      UnsortedViewIsIdentity(items, field);
      r
    else r
  }

  /** The rows whose value in column `key` is `v`, in order. */
  function WithKey<T, K>(s: seq<T>, field: (T, K) -> Key, key: K, v: Key): seq<T> {
    if |s| == 0 then []
    else (if field(s[0], key) == v then [s[0]] else []) + WithKey(s[1..], field, key, v)
  }

  lemma {:induction false} TiesAreEqualKeys<T, K>(s: seq<T>, cfg: Option<SortConfig<K>>, field: (T, K) -> Key, e: T)
    requires cfg.Some?
    ensures Sorting.TiesOf(s, e, Comparator(cfg, field)) == WithKey(s, field, cfg.value.key, field(e, cfg.value.key))
  {
    if |s| > 0 {
      TiesAreEqualKeys(s[1..], cfg, field, e);
    }
  }

  /** Stability: rows with equal values in the sort column keep their input
      order. */
  lemma SortedViewIsStable<T(!new), K>(items: seq<T>, cfg: Option<SortConfig<K>>, field: (T, K) -> Key, e: T)
    requires cfg.Some?
    ensures var k := cfg.value.key;
      WithKey(SortedView(items, cfg, field), field, k, field(e, k)) == WithKey(items, field, k, field(e, k))
  {
    CompareIsComparator(cfg, field);
    Sorting.SortIsStable(items, e, Comparator(cfg, field));
    TiesAreEqualKeys(items, cfg, field, e);
    TiesAreEqualKeys(SortedView(items, cfg, field), cfg, field, e);
  }
}
