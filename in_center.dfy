/** The center-band rule of react-in-center-of-screen.

    A consumer reads the nearest offset context (the scroll offset plus the
    layout props of its OffsetYProvider, or the context defaults when there is
    no provider) and the nearest index context (the item's position, or 0),
    and decides whether the top of that item, measured against the viewport,
    lies inside the closed band [centerYStart, centerYEnd].

    JavaScript numbers are modelled as mathematical integers.
 */
module InCenter {

  datatype Option<T> = None | Some(value: T)

  /** The value the offset context carries to every consumer below a provider.
      `columnsPerRow` may be absent: the consumer then falls back to one column. */
  datatype Snapshot = Snapshot(
    offsetY: int,
    listItemHeight: int,
    columnsPerRow: Option<int>,
    centerYStart: int,
    centerYEnd: int
  )

  /** The value a consumer sees when no OffsetYProvider is above it. */
  const DefaultSnapshot := Snapshot(0, 0, Some(1), 0, 0)

  /** The index a consumer sees when no IndexProvider is above it. */
  const DefaultIndex := 0

  /** The consumer adds this many rows to an item's row before computing its top. */
  const RowShift := 5

  /** Columns per row as the consumer uses them: the context value, or 1 when absent. */
  function Columns(s: Snapshot): int {
    match s.columnsPerRow
    case Some(c) => c
    case None => 1
  }

  /** The inputs the consumer's arithmetic is defined on: a non-negative integer
      index and at least one column (JavaScript would give Infinity or NaN else). */
  predicate WellFormed(s: Snapshot, index: int) {
    index >= 0 && Columns(s) >= 1
  }

  /** The row of an item: the floor of index / columns. */
  function Row(index: int, columns: int): (r: nat)
    requires index >= 0 && columns >= 1
    ensures r * columns <= index < r * columns + columns
  {
    index / columns
  }

  /** The row an item lands in when the grid is filled from the top, columns
      items to a row: the first `columns` indices take row 0, the next row 1,
      and so on. */
  function GridRow(index: nat, columns: int): (r: nat)
    requires columns >= 1
    ensures r * columns <= index < r * columns + columns
    decreases index
  {
    if index < columns then 0 else 1 + GridRow(index - columns, columns)
  }

  /** The vertical position of the top of an item in row `row`, shifted by RowShift rows. */
  function ItemTop(listItemHeight: int, row: int): int {
    listItemHeight * (row + RowShift)
  }

  /** The item's top relative to the viewport, for the current scroll offset. */
  function Position(s: Snapshot, index: int): int
    requires WellFormed(s, index)
  {
    ItemTop(s.listItemHeight, Row(index, Columns(s))) - s.offsetY
  }

  /** Whether the item at `index` is in the center band.  Read from the offset
      side: for a fixed item, exactly the offsets in the closed interval
      [top - centerYEnd, top - centerYStart] put it in center; an inverted band
      holds nothing. */
  function IsInCenter(s: Snapshot, index: int): (r: bool)
    requires WellFormed(s, index)
    ensures r <==>
      ItemTop(s.listItemHeight, Row(index, Columns(s))) - s.centerYEnd
        <= s.offsetY <=
      ItemTop(s.listItemHeight, Row(index, Columns(s))) - s.centerYStart
    ensures s.centerYStart > s.centerYEnd ==> !r
  {
    var pos := Position(s, index);
    pos >= s.centerYStart && pos <= s.centerYEnd
  }

  /** An absent column count behaves exactly like a column count of 1, and with
      one column every index is its own row. */
  lemma MissingColumnsMeansOne(s: Snapshot, index: int)
    requires index >= 0
    ensures IsInCenter(s.(columnsPerRow := None), index)
        == IsInCenter(s.(columnsPerRow := Some(1)), index)
    ensures IsInCenter(s.(columnsPerRow := None), index) <==>
      s.centerYStart <= s.listItemHeight * (index + RowShift) - s.offsetY <= s.centerYEnd
  {
  }

  /** Items that share a row get the same answer, whatever the rest of the context. */
  lemma SameRowSameAnswer(s: Snapshot, i: int, j: int)
    requires WellFormed(s, i) && WellFormed(s, j)
    requires i / Columns(s) == j / Columns(s)
    ensures IsInCenter(s, i) == IsInCenter(s, j)
  {
  }

  /** Multiplying by a non-negative factor preserves order. */
  lemma MulMonotone(c: int, a: int, b: int)
    requires c >= 0 && a <= b
    ensures a * c <= b * c
  {
    assert b * c - a * c == (b - a) * c;
  }

  /** The row of an index is the only q with q * columns <= index < q * columns + columns. */
  lemma RowUnique(index: int, columns: int, q: int)
    requires index >= 0 && columns >= 1
    requires q * columns <= index < q * columns + columns
    ensures Row(index, columns) == q
  {
    var r := Row(index, columns);
    if r < q {
      assert (r + 1) * columns == r * columns + columns;
      MulMonotone(columns, r + 1, q);
    } else if r > q {
      assert (q + 1) * columns == q * columns + columns;
      MulMonotone(columns, q + 1, r);
    }
  }

  /** The floor division of the consumer places every item in the row the
      filled grid gives it. */
  lemma RowIsGridRow(index: int, columns: int)
    requires index >= 0 && columns >= 1
    ensures Row(index, columns) == GridRow(index, columns)
  {
    RowUnique(index, columns, GridRow(index, columns));
  }

  /** Adding one row's worth of columns to an index moves it down one row. */
  lemma RowAdvance(index: int, columns: int)
    requires index >= 0 && columns >= 1
    ensures Row(index + columns, columns) == Row(index, columns) + 1
  {
    RowIsGridRow(index, columns);
    RowIsGridRow(index + columns, columns);
  }

  /** Scrolling down by one row height while moving to the item one row further
      down leaves the answer unchanged. */
  lemma ShiftOneRow(s: Snapshot, index: int)
    requires WellFormed(s, index)
    ensures IsInCenter(s.(offsetY := s.offsetY + s.listItemHeight), index + Columns(s))
         == IsInCenter(s, index)
  {
    var c, h := Columns(s), s.listItemHeight;
    RowAdvance(index, c);
    var r := Row(index, c);
    assert ItemTop(h, r + 1) == ItemTop(h, r) + h;
  }

  /** The same for any number of rows: scrolling down by k row heights while
      moving k rows further down leaves the answer unchanged. */
  lemma {:induction false} ShiftRows(s: Snapshot, index: int, k: nat)
    requires WellFormed(s, index)
    ensures IsInCenter(s.(offsetY := s.offsetY + k * s.listItemHeight), index + k * Columns(s))
         == IsInCenter(s, index)
  {
    if k > 0 {
      var c, h := Columns(s), s.listItemHeight;
      var s' := s.(offsetY := s.offsetY + (k - 1) * h);
      ShiftRows(s, index, k - 1);
      ShiftOneRow(s', index + (k - 1) * c);
      assert s'.(offsetY := s'.offsetY + h) == s.(offsetY := s.offsetY + k * h);
      assert index + (k - 1) * c + c == index + k * c;
    }
  }

  /** When the band is narrower than one row height, at most one row is in
      center for any scroll offset. */
  lemma AtMostOneRowInCenter(s: Snapshot, i: int, j: int)
    requires WellFormed(s, i) && WellFormed(s, j)
    requires s.listItemHeight > 0 && s.centerYEnd - s.centerYStart < s.listItemHeight
    requires IsInCenter(s, i) && IsInCenter(s, j)
    ensures Row(i, Columns(s)) == Row(j, Columns(s))
  {
    var c, h := Columns(s), s.listItemHeight;
    var ri, rj := Row(i, c), Row(j, c);
    var pi, pj := Position(s, i), Position(s, j);
    assert s.centerYStart <= pi <= s.centerYEnd && s.centerYStart <= pj <= s.centerYEnd;
    TopDifference(h, ri, rj);
    assert pi - pj == h * (ri - rj);
    if ri != rj {
      MultipleOfHeight(h, ri - rj);
    }
  }

  /** Two item tops differ by the height times the difference of their rows. */
  lemma TopDifference(h: int, ri: int, rj: int)
    ensures ItemTop(h, ri) - ItemTop(h, rj) == h * (ri - rj)
  {
  }

  /** A non-zero multiple of a positive height is at least that height away from 0. */
  lemma MultipleOfHeight(h: int, d: int)
    requires h > 0 && d != 0
    ensures h * d >= h || h * d <= -h
  {
    if d > 0 {
      MulMonotone(h, 1, d);
    } else {
      MulMonotone(h, d, -1);
    }
  }

  /** Every item reaches the center at some offset, provided the band is not inverted. */
  lemma EveryItemReachesCenter(s: Snapshot, index: int)
    requires WellFormed(s, index) && s.centerYStart <= s.centerYEnd
    ensures IsInCenter(s.(offsetY := ItemTop(s.listItemHeight, Row(index, Columns(s))) - s.centerYStart), index)
  {
  }

  /** Under the context defaults (height 0, band [0, 0]) every item's position
      is 0, so every item is in center; in particular the default index is. */
  lemma DefaultsAlwaysInCenter(index: int)
    requires index >= 0
    ensures IsInCenter(DefaultSnapshot, index)
    ensures IsInCenter(DefaultSnapshot, DefaultIndex)
  {
  }
}
