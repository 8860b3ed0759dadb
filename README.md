# react-in-center-of-screen, modelled in Dafny

react-in-center-of-screen tells each item of a scrolling list or grid whether
it currently sits in a vertical "center band" of the viewport. It has three
parts:
- An `OffsetYProvider` owns the scroll offset `offsetY`. The offset starts at 0,
  and the provider's children replace it through `setOffsetY`.
- The provider publishes the offset, together with its layout props
  (`listItemHeight`, `columnsPerRow`, `centerYStart`, `centerYEnd`), as a context
  value.
- An `IndexProvider` tags a subtree with an item index. An `InCenterConsumer`
  combines the nearest context value with the nearest index and computes
  `isInCenter`.

This project models two things:
- The consumer's rule, as a pure function over a snapshot of the context
  (module `InCenter`, file `in_center.dfy`). The item's row is
  `floor(index / columnsPerRow)`, shifted down by a fixed 5 rows. Its top is
  `listItemHeight * (row + 5)`. The item is in center when `top - offsetY`
  lies in the closed band `[centerYStart, centerYEnd]`.
- The provider, as a class with a mutable `offsetY` field and fixed props
  (module `Provider`, file `provider.dfy`).

The model follows the code:
- It keeps the `+ 5` row shift.
- It tests one probe point: the item's computed top.

`columnsPerRow` defaults to 1 only when it is absent from the context value.
The model carries it as an `Option<int>`. When no provider is above a consumer,
the consumer sees the context defaults: offset 0, height 0, one column and the
band `[0, 0]`. When no `IndexProvider` is above it, it sees index 0.

## Model

| member | source | states |
|---|---|---|
| InCenter.Row | src/index.js:113 | the row is the floor of index / columns: `row * columns <= index < row * columns + columns` |
| InCenter.RowUnique | src/index.js:113 | that row is the only integer meeting those bounds |
| InCenter.GridRow | src/index.js:113 | filling the grid from the top, `columnsPerRow` items to a row, puts an item in a row `r` with `r * columns <= index < r * columns + columns` (proved from the recursive calls' contracts) |
| InCenter.RowIsGridRow | src/index.js:113 | the consumer's floor division gives every index the row the filled grid gives it |
| InCenter.IsInCenter | src/index.js:105-118 | an item is in center exactly when `offsetY` lies in the closed interval `[top - centerYEnd, top - centerYStart]`, with `top = listItemHeight * (row + 5)`; an inverted band (`centerYStart > centerYEnd`) never holds an item |
| InCenter.MissingColumnsMeansOne | src/index.js:109 | an absent `columnsPerRow` gives the same answer as 1, so the item is in center iff `centerYStart <= listItemHeight * (index + 5) - offsetY <= centerYEnd` |
| InCenter.SameRowSameAnswer | src/index.js:113-114 | two indices with the same `index / columnsPerRow` get the same answer in every context |
| InCenter.RowAdvance | src/index.js:113 | adding `columnsPerRow` to an index moves it exactly one row down |
| InCenter.TopDifference | src/index.js:114 | two item tops differ by `listItemHeight` times the difference of their rows |
| InCenter.ShiftOneRow | src/index.js:113-118 | scrolling by one `listItemHeight` and moving `columnsPerRow` indices on gives the same answer as before |
| InCenter.ShiftRows | src/index.js:113-118 | the same for any number k of rows, proved by induction on k |
| InCenter.AtMostOneRowInCenter | src/index.js:113-118 | with a positive height and a band narrower than one row, any two items in center share a row |
| InCenter.EveryItemReachesCenter | src/index.js:114-118 | with a band that is not inverted, the offset `top - centerYStart` puts the item in center |
| InCenter.DefaultsAlwaysInCenter | src/index.js:11-19 | under the context defaults (height 0, band `[0, 0]`) every index is in center, including the default index 0 |
| Provider.OffsetYProvider.constructor | src/index.js:41-46 | a new provider has `offsetY == 0` and publishes its props unchanged |
| Provider.OffsetYProvider.SetOffsetY | src/index.js:59-69 | after `SetOffsetY(v)` the published snapshot has `offsetY == v`, and every prop in it is as before |
| Provider.OffsetYProvider.ConsumeIsInCenter | src/index.js:105-119 | the consumer's computation on the provider's current state equals `IsInCenter` of the latest snapshot |

## Left out

- React rendering, the provider/consumer tree wiring, the `children` render callbacks and the `create-react-context` library are not modelled. The model keeps only "a consumer reads the latest snapshot" (`ConsumeIsInCenter`).
- Re-render scheduling is not modelled. React applies `setState` asynchronously, and the model applies `SetOffsetY` at once.
- `IndexProvider` is not modelled as an operation. It only passes a fixed number to its subtree, so the model takes the index as a parameter and keeps its default as `DefaultIndex`.
- The provider's props are constants of the object. A parent re-rendering the provider with new props is not modelled.
- JavaScript floating point is not modelled. Numbers are mathematical integers, so non-integer indices and heights, precision loss above 2^53 and NaN comparisons are out of scope.
- `columnsPerRow < 1` and negative indices are excluded by a precondition. An index is a position in a list. Zero columns makes the JavaScript division give Infinity or NaN. A negative column count gives a finite answer in JavaScript, but it describes no layout.
- Fields missing from the context other than `columnsPerRow` are not modelled. They make the JavaScript comparison NaN and therefore `false`.
