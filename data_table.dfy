/**
 * The admin data table: the page count, the "showing x - y of n" range, the page buttons,
 * the previous/next enabling, the width of the empty-data row and the dotted-path lookup
 * of a cell's value.
 */
module DataTable {
  import opened Wrappers
  import Ints
  import Strings

  /** The table's `pagination` prop (its `onPageChange` callback is left out). */
  datatype Pagination = Pagination(page: int, pageSize: int, total: int)

  /** What the callers pass: a positive page size and a row count. */
  predicate WellFormed(p: Pagination) {
    p.pageSize > 0 && p.total >= 0
  }

  /**
   * `totalPages`: `Math.ceil(total / pageSize)` with pagination, otherwise 1. With pagination
   * it is the least number of pages of `pageSize` rows that hold all `total` rows.
   */
  function TotalPages(p: Option<Pagination>): (n: int)
    requires p.Some? ==> WellFormed(p.value)
    ensures p.None? ==> n == 1
    ensures p.Some? ==> n >= 0 && n * p.value.pageSize >= p.value.total
    ensures p.Some? ==> (n - 1) * p.value.pageSize < p.value.total || (n == 0 && p.value.total == 0)
  {
    match p
    case None => 1
    case Some(pg) =>
      var q, r := pg.total / pg.pageSize, pg.total % pg.pageSize;
      assert pg.total == q * pg.pageSize + r;
      if r == 0 then
        assert (q - 1) * pg.pageSize == q * pg.pageSize - pg.pageSize;
        q
      else
        assert (q + 1) * pg.pageSize == q * pg.pageSize + pg.pageSize;
        q + 1
  }

  /** The pagination controls appear when there is more than one page. */
  predicate ShowsControls(p: Option<Pagination>)
    requires p.Some? ==> WellFormed(p.value)
  {
    p.Some? && TotalPages(p) > 1
  }

  /** The controls appear exactly when the rows do not fit on one page. */
  lemma ControlsIffMoreThanOnePage(p: Pagination)
    requires WellFormed(p)
    ensures ShowsControls(Some(p)) <==> p.total > p.pageSize
  {
    var n := TotalPages(Some(p));
    if n > 1 {
      Ints.MulNonNegative(n - 2, p.pageSize);
      assert (n - 1) * p.pageSize == (n - 2) * p.pageSize + p.pageSize;
    } else if n == 1 {
      assert n * p.pageSize == p.pageSize;
    } else {
      assert n * p.pageSize == 0;
    }
  }


  /** The "showing first - last of total" numbers. */
  function DisplayedRange(p: Pagination): (int, int) {
    ((p.page - 1) * p.pageSize + 1, Ints.Min(p.page * p.pageSize, p.total))
  }

  /**
   * The displayed range never ends past the total; on an existing page it is non-empty,
   * starts at 1 or later and covers at most one page of rows.
   */
  lemma DisplayedRangeBounds(p: Pagination)
    requires WellFormed(p)
    ensures DisplayedRange(p).1 <= p.total
    ensures 1 <= p.page <= TotalPages(Some(p)) ==>
      var (first, last) := DisplayedRange(p);
      1 <= first <= last && last - first < p.pageSize
  {
    var n := TotalPages(Some(p));
    if 1 <= p.page <= n {
      assert (n - 1) * p.pageSize - (p.page - 1) * p.pageSize == (n - p.page) * p.pageSize;
      assert (p.page - 1) * p.pageSize < p.total;
      assert p.page * p.pageSize == (p.page - 1) * p.pageSize + p.pageSize;
    }
  }

  /**
   * The numbered page buttons: `1 .. min(5, totalPages)`, then `totalPages` when there are
   * more than five pages.
   */
  function PageButtons(totalPages: int): (buttons: seq<int>)
    requires totalPages >= 0
    ensures |buttons| == Ints.Min(5, totalPages) + (if totalPages > 5 then 1 else 0)
    ensures forall i :: 0 <= i < |buttons| ==> 1 <= buttons[i] <= totalPages
    ensures forall i, j :: 0 <= i < j < |buttons| ==> buttons[i] < buttons[j]
    ensures totalPages >= 1 ==> buttons[0] == 1 && buttons[|buttons| - 1] == totalPages
    ensures forall i :: 0 <= i < Ints.Min(5, totalPages) ==> buttons[i] == i + 1
  {
    var first := seq(Ints.Min(5, totalPages), i => i + 1);
    first + if totalPages > 5 then [totalPages] else []
  }

  /** The previous-page button is disabled on page 1. */
  predicate PrevDisabled(p: Pagination) {
    p.page == 1
  }

  /** The next-page button is disabled on the last page. */
  predicate NextDisabled(p: Pagination, totalPages: int) {
    p.page == totalPages
  }

  /** From an existing page, an enabled previous or next button leads to an existing page. */
  lemma NavigationStaysInRange(p: Pagination)
    requires WellFormed(p)
    requires 1 <= p.page <= TotalPages(Some(p))
    ensures !PrevDisabled(p) ==> 1 <= p.page - 1
    ensures !NextDisabled(p, TotalPages(Some(p))) ==> p.page + 1 <= TotalPages(Some(p))
  {
  }

  /** A column's header cell; `render` and `className` are left out. */
  datatype Column = Column(key: string, title: string)

  /** The header row: one cell per column, plus the actions cell when there are actions. */
  function HeaderCells(columns: seq<Column>, hasActions: bool): seq<string> {
    seq(|columns|, i requires 0 <= i < |columns| => columns[i].title) + (if hasActions then ["Thao tác"] else [])
  }

  /** The `colSpan` of the row shown when there is no data: it spans the whole header row. */
  function EmptyRowSpan(columns: seq<Column>, hasActions: bool): (span: nat)
    ensures span == |HeaderCells(columns, hasActions)|
    ensures span == if hasActions then |columns| + 1 else |columns|
  {
    |columns| + if hasActions then 1 else 0
  }

  /** A JavaScript value as far as the property walk can see it. */
  datatype Value = Undefined | Null | Primitive(text: string) | Record(fields: map<string, Value>)

  /** `(value as Record<string, unknown>)?.[k]`: a record's field; undefined for anything else. */
  function Member(v: Value, k: string): Value {
    match v
    case Record(fields) => if k in fields then fields[k] else Undefined
    case _ => Undefined
  }

  /** Reads the fields named by `keys` one after another, starting at `v`. */
  function Walk(v: Value, keys: seq<string>): Value
    decreases |keys|
  {
    if keys == [] then v else Walk(Member(v, keys[0]), keys[1..])
  }

  /** `getValue(row, key)`: walks the '.'-separated segments of `key` in order. */
  method GetValue(row: Value, key: string) returns (value: Value)
    ensures value == Walk(row, Strings.Split(key, '.'))
  {
    var keys := Strings.Split(key, '.');
    value := row;
    for i := 0 to |keys|
      invariant Walk(value, keys[i..]) == Walk(row, keys)
    {
      value := Member(value, keys[i]);
    }
  }

  /** Walking a path in two parts is walking the first part, then the second from there. */
  lemma {:induction false} WalkAppend(v: Value, a: seq<string>, b: seq<string>)
    ensures Walk(v, a + b) == Walk(Walk(v, a), b)
    decreases |a|
  {
    if a != [] {
      assert (a + b)[0] == a[0] && (a + b)[1..] == a[1..] + b;
      WalkAppend(Member(v, a[0]), a[1..], b);
    } else {
      assert a + b == b;
    }
  }

  /** Once the walk reaches undefined or null, every further segment yields undefined. */
  lemma {:induction false} WalkFromMissing(v: Value, keys: seq<string>)
    requires v == Undefined || v == Null
    requires keys != []
    ensures Walk(v, keys) == Undefined
    decreases |keys|
  {
    if keys[1..] != [] {
      WalkFromMissing(Undefined, keys[1..]);
    }
  }

  /** A key without '.' is a plain field read. */
  lemma SingleSegmentIsFieldRead(row: Value, key: string)
    requires '.' !in key
    ensures Walk(row, Strings.Split(key, '.')) == Member(row, key)
  {
    var keys := Strings.Split(key, '.');
    assert |keys| == 1;
    assert keys == [key];
  }

  /**
   * A dotted key reads its segments in order, and a missing intermediate value makes the
   * result undefined.
   */
  lemma MissingIntermediateIsUndefined(row: Value, keys: seq<string>, j: nat)
    requires j < |keys|
    requires Walk(row, keys[..j]) == Undefined || Walk(row, keys[..j]) == Null
    ensures Walk(row, keys) == Undefined
  {
    assert keys == keys[..j] + keys[j..];
    WalkAppend(row, keys[..j], keys[j..]);
    WalkFromMissing(Walk(row, keys[..j]), keys[j..]);
  }
}
