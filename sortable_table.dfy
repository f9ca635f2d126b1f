/**
 * The generic sortable table: a tri-state sort selection per column
 * (ascending, descending, unsorted), a row comparator that keeps empty cells
 * last, the sorted copy of the rows shown on each render, and the header icon.
 */
module SortableTable {
  import opened Wrappers
  import opened Strings

  /** `SortDirection = "asc" | "desc" | null`. */
  datatype SortDirection = Asc | Desc | NoDirection

  /** `SortConfig<T>`: the column being sorted and the direction. */
  datatype SortConfig<K> = SortConfig(key: K, direction: SortDirection)

  /**
   * A cell as the comparator sees it. `Null` stands for both `null` and
   * `undefined`; `Bool` stands for every value that is neither a string nor a number.
   */
  datatype Value = Null | Str(s: string) | Num(n: real) | Bool(b: bool)

  /** A row: its cells by column key; a key with no cell reads as `undefined`. */
  type Row<K(==)> = map<K, Value>

  /** A column descriptor; `sortable` is optional and only an explicit `false` switches sorting off. */
  datatype Column<K> = Column(key: K, heading: string, sortable: Option<bool>)

  function Cell<K(==)>(row: Row<K>, key: K): Value {
    if key in row then row[key] else Null
  }

  /** Sorting is on unless the column says `sortable: false`; a missing flag leaves it on. */
  predicate IsSortable<K(==)>(column: Column<K>)
    ensures IsSortable(column) <==> column.sortable != Some(false)
  {
    match column.sortable
    case None => true
    case Some(b) => b
  }

  /** A state the table can reach: either unsorted, or sorted on one key in a real direction. */
  predicate Reachable<K(==)>(cfg: Option<SortConfig<K>>) {
    cfg.Some? ==> cfg.value.direction != NoDirection
  }

  // ---------------------------------------------------------------------------
  // handleSort: the click state machine
  // ---------------------------------------------------------------------------

  /**
   * `handleSort(key)`: the next sort selection after a click on the header of `key`.
   * The result is never a configuration without a direction, always names the
   * clicked key, and is unsorted exactly after a click on the column sorted descending.
   */
  function NextSort<K(==)>(current: Option<SortConfig<K>>, key: K): (r: Option<SortConfig<K>>)
    ensures Reachable(r)
    ensures r.Some? ==> r.value.key == key
    ensures r.None? <==> current == Some(SortConfig(key, Desc))
  {
    var direction :=
      if current.Some? && current.value.key == key && current.value.direction == Asc then Desc
      else if current.Some? && current.value.key == key && current.value.direction == Desc then NoDirection
      else Asc;
    if direction != NoDirection then Some(SortConfig(key, direction)) else None
  }

  /** Clicking a column that is not the sorted one starts it ascending. */
  lemma NewKeyStartsAscending<K>(current: Option<SortConfig<K>>, key: K)
    requires current.None? || current.value.key != key
    ensures NextSort(current, key) == Some(SortConfig(key, Asc))
  {
  }

  /** On one column the clicks cycle unsorted, ascending, descending, unsorted. */
  lemma ClickCycle<K>(key: K)
    ensures NextSort(None, key) == Some(SortConfig(key, Asc))
    ensures NextSort(Some(SortConfig(key, Asc)), key) == Some(SortConfig(key, Desc))
    ensures NextSort(Some(SortConfig(key, Desc)), key) == None
    ensures NextSort(NextSort(NextSort(None, key), key), key) == None
  {
  }

  // ---------------------------------------------------------------------------
  // localeCompare, taken as lexicographic order on code points
  // ---------------------------------------------------------------------------

  /** `a.localeCompare(b)` as plain lexicographic order: negative, zero or positive. */
  function LocaleCompare(a: string, b: string): (r: int)
    ensures -1 <= r <= 1
    ensures r == 0 <==> a == b
    decreases |a|
  {
    if a == [] && b == [] then 0
    else if a == [] then -1
    else if b == [] then 1
    else if a[0] < b[0] then -1
    else if a[0] > b[0] then 1
    else
      assert a == [a[0]] + a[1..] && b == [b[0]] + b[1..];
      LocaleCompare(a[1..], b[1..])
  }

  /** Swapping the strings flips the result. */
  lemma {:induction false} LocaleCompareAntisymmetric(a: string, b: string)
    ensures LocaleCompare(b, a) == -LocaleCompare(a, b)
    decreases |a|
  {
    if a != [] && b != [] && a[0] == b[0] {
      LocaleCompareAntisymmetric(a[1..], b[1..]);
    }
  }

  /** The order is transitive. */
  lemma {:induction false} LocaleCompareTransitive(a: string, b: string, c: string)
    requires LocaleCompare(a, b) <= 0 && LocaleCompare(b, c) <= 0
    ensures LocaleCompare(a, c) <= 0
    decreases |a|
  {
    if a != [] && b != [] && c != [] && a[0] == b[0] == c[0] {
      LocaleCompareTransitive(a[1..], b[1..], c[1..]);
    }
  }

  // ---------------------------------------------------------------------------
  // the comparator given to Array.prototype.sort
  // ---------------------------------------------------------------------------

  /**
   * The comparator of `sortedData`: negative when `a` goes before `b`. Only its
   * sign matters to the sort. A string is compared by `localeCompare`, a number
   * by subtraction; any direction other than ascending compares the other way round.
   */
  function Compare<K(==)>(cfg: Option<SortConfig<K>>, a: Row<K>, b: Row<K>): (r: real)
    ensures cfg.None? ==> r == 0.0
    ensures cfg.Some? && Cell(a, cfg.value.key).Null? ==> r > 0.0
    ensures cfg.Some? && !Cell(a, cfg.value.key).Null? && Cell(b, cfg.value.key).Null? ==> r < 0.0
  {
    match cfg
    case None => 0.0
    case Some(c) =>
      var x := Cell(a, c.key);
      var y := Cell(b, c.key);
      if x.Null? then 1.0
      else if y.Null? then -1.0
      else if x.Str? && y.Str? then
        (if c.direction == Asc then LocaleCompare(x.s, y.s) else LocaleCompare(y.s, x.s)) as real
      else if x.Num? && y.Num? then
        (if c.direction == Asc then x.n - y.n else y.n - x.n)
      else 0.0
  }

  /** `a` may stay before `b`: the comparator does not put `b` strictly first. */
  predicate InOrder<K(==)>(cfg: Option<SortConfig<K>>, a: Row<K>, b: Row<K>) {
    !(Compare(cfg, b, a) < 0.0)
  }

  /** Every row may stay before its successor. */
  predicate AdjacentInOrder<K(==)>(cfg: Option<SortConfig<K>>, s: seq<Row<K>>) {
    forall k :: 0 < k < |s| ==> InOrder(cfg, s[k - 1], s[k])
  }

  /** Every row may stay before every later one. */
  predicate Sorted<K(==)>(cfg: Option<SortConfig<K>>, s: seq<Row<K>>) {
    forall i, j :: 0 <= i < j < |s| ==> InOrder(cfg, s[i], s[j])
  }

  /** Without a sort selection every pair compares equal, so any order is kept. */
  lemma UnsortedKeepsOrder<K>(s: seq<Row<K>>)
    ensures Sorted(None, s)
  {
  }

  /** An empty cell goes after a filled one, whatever the direction. */
  lemma NullsLast<K>(cfg: Option<SortConfig<K>>, a: Row<K>, b: Row<K>)
    requires cfg.Some?
    requires Cell(a, cfg.value.key).Null? && !Cell(b, cfg.value.key).Null?
    ensures Compare(cfg, a, b) > 0.0 && Compare(cfg, b, a) < 0.0
    ensures InOrder(cfg, b, a) && !InOrder(cfg, a, b)
  {
  }

  /** Descending is ascending reversed for two strings or two numbers. */
  lemma DirectionFlipsSign<K>(key: K, a: Row<K>, b: Row<K>)
    requires (Cell(a, key).Str? && Cell(b, key).Str?) || (Cell(a, key).Num? && Cell(b, key).Num?)
    ensures Compare(Some(SortConfig(key, Desc)), a, b) == -Compare(Some(SortConfig(key, Asc)), a, b)
  {
    if Cell(a, key).Str? {
      LocaleCompareAntisymmetric(Cell(a, key).s, Cell(b, key).s);
    }
  }

  /**
   * Ascending puts the smaller number, or the string `localeCompare` puts
   * earlier, first: `a` may stay before `b` exactly when it is not greater.
   */
  lemma AscendingByValue<K>(key: K, a: Row<K>, b: Row<K>)
    ensures Cell(a, key).Num? && Cell(b, key).Num? ==>
      (InOrder(Some(SortConfig(key, Asc)), a, b) <==> Cell(a, key).n <= Cell(b, key).n)
    ensures Cell(a, key).Str? && Cell(b, key).Str? ==>
      (InOrder(Some(SortConfig(key, Asc)), a, b) <==> LocaleCompare(Cell(a, key).s, Cell(b, key).s) <= 0)
  {
    if Cell(a, key).Str? && Cell(b, key).Str? {
      LocaleCompareAntisymmetric(Cell(a, key).s, Cell(b, key).s);
    }
  }

  /**
   * Rows "B", "A" and an empty cell, sorted ascending on that column: "A", "B"
   * and the empty cell are in order, and the input order is not.
   */
  lemma AscendingExample<K>(key: K)
    ensures var cfg, ra, rb, rn := Some(SortConfig(key, Asc)), map[key := Str("A")], map[key := Str("B")], map[];
      && Sorted(cfg, [ra, rb, rn])
      && !AdjacentInOrder(cfg, [rb, ra, rn])
  {
    var cfg, ra, rb, rn := Some(SortConfig(key, Asc)), map[key := Str("A")], map[key := Str("B")], map[];
    assert LocaleCompare("B", "A") == 1;
    assert LocaleCompare("A", "B") == -1;
    assert Cell(rn, key) == Null;
    var sorted, given := [ra, rb, rn], [rb, ra, rn];
    assert InOrder(cfg, sorted[0], sorted[1]) && InOrder(cfg, sorted[0], sorted[2]) && InOrder(cfg, sorted[1], sorted[2]);
    assert !InOrder(cfg, given[0], given[1]);
  }

  /** A string against a number, or any pairing involving another kind of value, compares equal. */
  lemma MixedCompareEqual<K>(cfg: Option<SortConfig<K>>, a: Row<K>, b: Row<K>)
    requires cfg.Some?
    requires var x, y := Cell(a, cfg.value.key), Cell(b, cfg.value.key);
      !x.Null? && !y.Null? && !(x.Str? && y.Str?) && !(x.Num? && y.Num?)
    ensures Compare(cfg, a, b) == 0.0
  {
  }

  /** If `a` must go strictly before `b`, then `a` may stay before `b`. */
  lemma CompareAsymmetric<K>(cfg: Option<SortConfig<K>>, a: Row<K>, b: Row<K>)
    ensures Compare(cfg, a, b) < 0.0 ==> InOrder(cfg, a, b)
  {
    if cfg.Some? {
      var x, y := Cell(a, cfg.value.key), Cell(b, cfg.value.key);
      if x.Str? && y.Str? {
        LocaleCompareAntisymmetric(x.s, y.s);
      }
    }
  }

  // ---------------------------------------------------------------------------
  // sortedData: [...data].sort(comparator)
  // ---------------------------------------------------------------------------

  /**
   * `[...data].sort(comparator)`: the rows copied into a new array and sorted
   * there by a stable insertion sort that moves a row before its predecessor
   * only when the comparator puts it strictly first. The result holds the same
   * rows, every row may stay before its successor, and rows already in that
   * order (in particular every input when nothing is sorted) come back unchanged.
   */
  method SortRows<K(==)>(data: seq<Row<K>>, cfg: Option<SortConfig<K>>) returns (out: array<Row<K>>)
    ensures fresh(out)
    ensures multiset(out[..]) == multiset(data)
    ensures AdjacentInOrder(cfg, out[..])
    ensures AdjacentInOrder(cfg, data) ==> out[..] == data
  {
    out := new Row<K>[|data|](k requires 0 <= k < |data| => data[k]);
    assert out[..] == data;
    var i := 0;
    while i < out.Length
      invariant 0 <= i <= out.Length
      invariant multiset(out[..]) == multiset(data)
      invariant forall k :: 0 < k < i ==> InOrder(cfg, out[k - 1], out[k])
      invariant out[i..] == data[i..]
      invariant AdjacentInOrder(cfg, data) ==> out[..] == data
    {
      Insert(out, i, cfg);
      i := i + 1;
    }
  }

  /** The rows at positions `lo` to `hi` may each stay after their predecessor. */
  predicate InOrderBetween<K>(cfg: Option<SortConfig<K>>, s: seq<Row<K>>, lo: int, hi: int)
    requires 0 <= lo && hi < |s|
  {
    forall k :: lo < k <= hi ==> InOrder(cfg, s[k - 1], s[k])
  }

  /**
   * One step of the insertion sort: moves `a[i]` left past every row that the
   * comparator puts strictly after it, so that the first `i + 1` rows are in order.
   */
  method Insert<K(==)>(a: array<Row<K>>, i: nat, cfg: Option<SortConfig<K>>)
    requires i < a.Length
    requires i == 0 || InOrderBetween(cfg, a[..], 0, i - 1)
    modifies a
    ensures multiset(a[..]) == multiset(old(a[..]))
    ensures InOrderBetween(cfg, a[..], 0, i)
    ensures a[i + 1..] == old(a[i + 1..])
    ensures (i == 0 || InOrder(cfg, old(a[i - 1]), old(a[i]))) ==> a[..] == old(a[..])
  {
    var j := i;
    while j > 0 && Compare(cfg, a[j], a[j - 1]) < 0.0
      invariant 0 <= j <= i
      invariant multiset(a[..]) == multiset(old(a[..]))
      invariant a[i + 1..] == old(a[i + 1..])
      invariant j == 0 || InOrderBetween(cfg, a[..], 0, j - 1)
      invariant InOrderBetween(cfg, a[..], j, i)
      invariant 0 < j < i ==> InOrder(cfg, a[j - 1], a[j + 1])
      invariant (i == 0 || InOrder(cfg, old(a[i - 1]), old(a[i]))) ==> j == i && a[..] == old(a[..])
    {
      ghost var before := a[..];
      a[j - 1], a[j] := a[j], a[j - 1];
      SwapStep(cfg, before, a[..], j, i);
      j := j - 1;
    }
    JoinOrdered(cfg, a[..], j, i);
  }

  /** Two ordered stretches that meet in order make one. */
  lemma JoinOrdered<K>(cfg: Option<SortConfig<K>>, s: seq<Row<K>>, j: int, i: int)
    requires 0 <= j <= i < |s|
    requires j == 0 || InOrderBetween(cfg, s, 0, j - 1)
    requires InOrderBetween(cfg, s, j, i)
    requires j == 0 || InOrder(cfg, s[j - 1], s[j])
    ensures InOrderBetween(cfg, s, 0, i)
  {
  }

  /** Swapping the row being inserted with its predecessor keeps the ordered stretches ordered. */
  lemma SwapStep<K>(cfg: Option<SortConfig<K>>, s: seq<Row<K>>, t: seq<Row<K>>, j: int, i: int)
    requires 0 < j <= i < |s|
    requires t == s[j - 1 := s[j]][j := s[j - 1]]
    requires Compare(cfg, s[j], s[j - 1]) < 0.0
    requires j == 1 || InOrderBetween(cfg, s, 0, j - 1)
    requires InOrderBetween(cfg, s, j, i)
    requires 0 < j < i ==> InOrder(cfg, s[j - 1], s[j + 1])
    ensures multiset(t) == multiset(s)
    ensures t[i + 1..] == s[i + 1..]
    ensures j - 1 == 0 || InOrderBetween(cfg, t, 0, j - 2)
    ensures InOrderBetween(cfg, t, j - 1, i)
    ensures 0 < j - 1 < i ==> InOrder(cfg, t[j - 2], t[j])
  {
    if j > 1 {
      SwapKeepsPrefix(cfg, s, t, j);
      assert InOrder(cfg, s[j - 2], s[j - 1]);
    }
    SwapOrdersSpan(cfg, s, t, j, i);
  }

  lemma SwapKeepsPrefix<K>(cfg: Option<SortConfig<K>>, s: seq<Row<K>>, t: seq<Row<K>>, j: int)
    requires 1 < j < |s|
    requires t == s[j - 1 := s[j]][j := s[j - 1]]
    requires InOrderBetween(cfg, s, 0, j - 1)
    ensures InOrderBetween(cfg, t, 0, j - 2)
  {
    forall k | 0 < k <= j - 2 ensures InOrder(cfg, t[k - 1], t[k]) {
      assert t[k - 1] == s[k - 1] && t[k] == s[k];
    }
  }

  lemma SwapOrdersSpan<K>(cfg: Option<SortConfig<K>>, s: seq<Row<K>>, t: seq<Row<K>>, j: int, i: int)
    requires 0 < j <= i < |s|
    requires t == s[j - 1 := s[j]][j := s[j - 1]]
    requires Compare(cfg, s[j], s[j - 1]) < 0.0
    requires InOrderBetween(cfg, s, j, i)
    requires 0 < j < i ==> InOrder(cfg, s[j - 1], s[j + 1])
    ensures InOrderBetween(cfg, t, j - 1, i)
  {
    CompareAsymmetric(cfg, s[j], s[j - 1]);
    forall k | j - 1 < k <= i ensures InOrder(cfg, t[k - 1], t[k]) {
      if k == j {
        assert t[k - 1] == s[j] && t[k] == s[j - 1];
      } else if k == j + 1 {
        assert t[k - 1] == s[j - 1] && t[k] == s[k];
      } else {
        assert t[k - 1] == s[k - 1] && t[k] == s[k];
      }
    }
  }

  // ---------------------------------------------------------------------------
  // full order on a column of one kind
  // ---------------------------------------------------------------------------

  /** Every filled cell of the sorted column holds a string, or every one holds a number. */
  predicate Homogeneous<K(==)>(cfg: Option<SortConfig<K>>, s: seq<Row<K>>) {
    cfg.Some? ==>
      (forall k :: 0 <= k < |s| ==> Cell(s[k], cfg.value.key).Null? || Cell(s[k], cfg.value.key).Str?)
      || (forall k :: 0 <= k < |s| ==> Cell(s[k], cfg.value.key).Null? || Cell(s[k], cfg.value.key).Num?)
  }

  /** Two cells the comparator really compares, or one of them empty. */
  predicate SameKind(x: Value, y: Value) {
    x.Null? || y.Null? || (x.Str? && y.Str?) || (x.Num? && y.Num?)
  }

  /** On cells of one kind, "may stay before" is transitive. */
  lemma InOrderTransitive<K>(cfg: Option<SortConfig<K>>, a: Row<K>, b: Row<K>, c: Row<K>)
    requires cfg.Some?
    requires var x, y, z := Cell(a, cfg.value.key), Cell(b, cfg.value.key), Cell(c, cfg.value.key);
      SameKind(x, y) && SameKind(y, z) && SameKind(x, z)
    requires InOrder(cfg, a, b) && InOrder(cfg, b, c)
    ensures InOrder(cfg, a, c)
  {
    var x, y, z := Cell(a, cfg.value.key), Cell(b, cfg.value.key), Cell(c, cfg.value.key);
    if x.Str? && y.Str? && z.Str? {
      LocaleCompareAntisymmetric(x.s, y.s);
      LocaleCompareAntisymmetric(y.s, z.s);
      LocaleCompareAntisymmetric(x.s, z.s);
      if cfg.value.direction == Asc {
        LocaleCompareTransitive(x.s, y.s, z.s);
      } else {
        LocaleCompareTransitive(z.s, y.s, x.s);
      }
    }
  }

  /**
   * On a column whose filled cells are all strings or all numbers the comparator
   * is a total preorder, so the sorted copy is in order pairwise, not only
   * neighbour by neighbour: values ascend (or descend) with empty cells last.
   */
  lemma {:induction false} AdjacentInOrderIsSorted<K>(cfg: Option<SortConfig<K>>, s: seq<Row<K>>)
    requires Homogeneous(cfg, s)
    requires AdjacentInOrder(cfg, s)
    ensures Sorted(cfg, s)
    decreases |s|
  {
    if cfg.Some? && |s| > 1 {
      var t := s[..|s| - 1];
      assert Homogeneous(cfg, t);
      AdjacentInOrderIsSorted(cfg, t);
      forall i | 0 <= i < |s| - 1 ensures InOrder(cfg, s[i], s[|s| - 1]) {
        ChainToLast(cfg, s, i);
      }
    }
  }

  /** Neighbour order carries any row forward to the last one. */
  lemma {:induction false} ChainToLast<K>(cfg: Option<SortConfig<K>>, s: seq<Row<K>>, i: int)
    requires cfg.Some? && Homogeneous(cfg, s) && AdjacentInOrder(cfg, s)
    requires 0 <= i < |s| - 1
    ensures InOrder(cfg, s[i], s[|s| - 1])
    decreases |s| - i
  {
    if i < |s| - 2 {
      ChainToLast(cfg, s, i + 1);
      InOrderTransitive(cfg, s[i], s[i + 1], s[|s| - 1]);
    }
  }

  // ---------------------------------------------------------------------------
  // getSortIcon and the header
  // ---------------------------------------------------------------------------

  /** `ArrowUpDown`, `ArrowUp`, `ArrowDown`. */
  datatype SortIcon = Neutral | Up | Down

  /** `getSortIcon(key)`: neutral unless `key` is the sorted column, then up for ascending and down otherwise. */
  function IconFor<K(==)>(cfg: Option<SortConfig<K>>, key: K): (r: SortIcon)
    ensures r != Neutral <==> cfg.Some? && cfg.value.key == key
    ensures r == Up <==> cfg == Some(SortConfig(key, Asc))
  {
    if cfg.None? || cfg.value.key != key then Neutral
    else if cfg.value.direction == Asc then Up
    else Down
  }

  /** The icon in a header: only a sortable column shows one. */
  function HeaderIcon<K(==)>(cfg: Option<SortConfig<K>>, column: Column<K>): (r: Option<SortIcon>)
    ensures r.Some? <==> IsSortable(column)
    ensures r.Some? ==> r.value == IconFor(cfg, column.key)
  {
    if IsSortable(column) then Some(IconFor(cfg, column.key)) else None
  }

  /** At most one column shows a direction. */
  lemma OneActiveIcon<K>(cfg: Option<SortConfig<K>>, k1: K, k2: K)
    requires IconFor(cfg, k1) != Neutral && IconFor(cfg, k2) != Neutral
    ensures k1 == k2
  {
  }

  /**
   * Clicking a column advances its icon neutral, up, down, neutral, and leaves
   * every other column neutral.
   */
  lemma IconCycle<K>(cfg: Option<SortConfig<K>>, key: K, other: K)
    requires Reachable(cfg)
    requires other != key
    ensures IconFor(NextSort(cfg, key), key) ==
      match IconFor(cfg, key)
      case Neutral => Up
      case Up => Down
      case Down => Neutral
    ensures IconFor(NextSort(cfg, key), other) == Neutral
  {
  }

  // ---------------------------------------------------------------------------
  // the component's state
  // ---------------------------------------------------------------------------

  /** The `SortableTable` component: its columns and the `sortConfig` state cell. */
  class Table<K(==)> {
    const columns: seq<Column<K>>
    var sortConfig: Option<SortConfig<K>>

    ghost predicate Valid()
      reads this
    {
      Reachable(sortConfig)
    }

    /** `useState<SortConfig<T> | null>(null)`: a new table starts unsorted. */
    constructor (columns: seq<Column<K>>)
      ensures Valid()
      ensures this.columns == columns && sortConfig == None
    {
      this.columns := columns;
      sortConfig := None;
    }

    /**
     * The header's `onClick`: `handleSort` for a sortable column, nothing for a
     * column marked `sortable: false`.
     */
    method HeaderClick(column: Column<K>)
      requires Valid()
      modifies this
      ensures Valid()
      ensures sortConfig == if IsSortable(column) then NextSort(old(sortConfig), column.key) else old(sortConfig)
    {
      if IsSortable(column) {
        sortConfig := NextSort(sortConfig, column.key);
      }
    }
  }
}
