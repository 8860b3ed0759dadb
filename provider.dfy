/** The OffsetYProvider component: it owns the scroll offset, hands out
    `setOffsetY` to its children, and publishes the offset together with its
    layout props as the offset context.  The InCenterConsumer side is the
    read of that context followed by the center-band rule. */
module Provider {
  import opened InCenter

  class OffsetYProvider {
    /** The component state: replaced wholesale by every setOffsetY call. */
    var offsetY: int

    /** The props, fixed for the lifetime of this provider. */
    const listItemHeight: int
    const columnsPerRow: Option<int>
    const centerYStart: int
    const centerYEnd: int

    /** The context value the provider publishes: the current offset plus the props. */
    function ContextValue(): Snapshot
      reads this
    {
      Snapshot(offsetY, listItemHeight, columnsPerRow, centerYStart, centerYEnd)
    }

    /** Mounting: the offset starts at 0 and the props are taken as given. */
    constructor (listItemHeight: int, columnsPerRow: Option<int>, centerYStart: int, centerYEnd: int)
      ensures offsetY == 0
      ensures ContextValue() == Snapshot(0, listItemHeight, columnsPerRow, centerYStart, centerYEnd)
    {
      this.listItemHeight := listItemHeight;
      this.columnsPerRow := columnsPerRow;
      this.centerYStart := centerYStart;
      this.centerYEnd := centerYEnd;
      offsetY := 0;
    }

    /** Replaces the offset; the published props do not change. */
    method SetOffsetY(v: int)
      modifies this
      ensures offsetY == v
      ensures ContextValue() == old(ContextValue()).(offsetY := v)
    {
      offsetY := v;
    }

    /** What an InCenterConsumer under this provider and an IndexProvider with
        `index` is told: the center-band rule applied to the latest snapshot.
        The body follows the consumer's render step by step. */
    method ConsumeIsInCenter(index: int) returns (isInCenter: bool)
      requires index >= 0
      requires columnsPerRow.None? || columnsPerRow.value >= 1
      ensures isInCenter == IsInCenter(ContextValue(), index)
    {
      var columns := if columnsPerRow.Some? then columnsPerRow.value else 1;
      var multiplier := index / columns + RowShift;
      var offsetTop := listItemHeight * multiplier;
      var positionRelativeToViewport := offsetTop - offsetY;
      isInCenter := positionRelativeToViewport >= centerYStart && positionRelativeToViewport <= centerYEnd;
    }
  }
}
