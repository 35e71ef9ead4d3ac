# Cell list images of imglib2-cache, modelled in Dafny

This project models the part of imglib2-cache that loads one cell of a cached
cell list image. In that library a cell list image is cut into cells. Each cell
keeps its pixels in a flat list in which the first dimension varies fastest.
When the cache misses a cell, `LoadedCellListImgCacheLoader.get` does four things:

- it asks the `CellGrid` for the cell's minimum and extents;
- it creates a list of exactly as many entries as the cell has pixels;
- it wraps that list in a `SingleCellListImg` and hands it to a user loader;
- it returns the cell over the same list.

Three accessors walk a `SingleCellListImg`:

- a random access, which keeps a flat index in step with an n-dimensional position;
- a flat cursor;
- a localizing cursor, which carries its position like an odometer.

`ListDataAccessFactory` picks one of four list classes from the access flags.
The wrapper chosen from the same flags decides whether the loader's `setDirty`
reaches the list. Its documentation says it also strips dirty tracking off the
list the loader fills, so that populating a cell does not mark it dirty; as
written it does not (see "Findings"), and the model has `get` both ways.

Files:

- `wrappers.dfy` (module `Wrappers`): `Option`, `Result` and `Outcome`.
- `interval_indexer.dfy` (module `IntervalIndexer`): the external `IntervalIndexer`
  helpers the image relies on, as functions with proved properties:
  - allocation steps, as prefix products of the extents;
  - the flat index of a position (`Linear`);
  - its inverse, `IndexToPositionWithOffset`, which uses Java's truncating division;
  - `FlatPositions`, the positions of a cell in flat order.
- `list_data_access.dfy` (module `ListDataAccess`):
  - the access flags;
  - the four list classes as a value `ListAccess`, and the factory `Get`;
  - the mutable list `CellList`;
  - the `Dirty` object that a cell reports to (`DirtyFlag`).
- `single_cell_list_img.dfy` (module `SingleCellListImg`): the image class and
  its three accessor classes. Their fields are arrays and variables, and their
  methods update them in place. Each accessor keeps an invariant:
  - the random access keeps `index == Σ (position[d] - min[d]) * steps[d]`;
  - the localizing cursor keeps its position at the flat index it stands for.
- `cell_list_cache_loader.dfy` (module `CellListCacheLoader`):
  - the grid;
  - a concrete cell loader;
  - the two wrappers and `getWrapper`;
  - the cache loader's `get` and the static `get` (here `Create`).

## Model

| member | source | states |
|---|---|---|
| ListDataAccess.Get | src/main/java/net/imglib2/cache/img/list/ListDataAccessFactory.java:19-31 | The list is dirty-capable exactly when DIRTY is among the flags and volatile exactly when VOLATILE is; this selects the dirty-volatile, dirty, volatile or plain list; every result is empty, and volatile lists start valid; the choice is total (never null) |
| ListDataAccess.GetDependsOnlyOnFlags | src/main/java/net/imglib2/cache/img/list/ListDataAccessFactory.java:21-22 | The factory's result depends only on whether each of the two flags is present, not on order or repetition |
| ListDataAccess.ListAccess.CreateList | src/main/java/net/imglib2/cache/img/list/LoadedCellListImgCacheLoader.java:60 | createList(n) keeps the prototype's class (dirty-capable, volatile, validity) and has n entries |
| ListDataAccess.CellList.CreateList | src/main/java/net/imglib2/cache/img/list/LoadedCellListImgCacheLoader.java:60 | The new list has numEntities unset entries, is of the creator's class and is clean |
| ListDataAccess.Clean | src/main/java/net/imglib2/cache/img/list/LoadedCellListImgCacheLoader.java:85-89 | The class a list is seen as with dirty tracking stripped: same size, volatility and validity, never dirty-capable, and unchanged for a class that was not dirty-capable |
| ListDataAccess.CellList.View | src/main/java/net/imglib2/cache/img/list/LoadedCellListImgCacheLoader.java:85-89 | A view of another class over an existing store shares that store (writes through it reach the original list) and starts clean |
| ListDataAccess.CellList.SetValue | src/main/java/net/imglib2/cache/img/list/LoadedCellListImgCacheLoader.java:85-89 | setValue(i, v) puts v at entry i and changes no other entry; a list of a Dirty class is dirty afterwards, any other keeps its bit |
| ListDataAccess.CellList.SetDirty | src/main/java/net/imglib2/cache/img/list/LoadedCellListImgCacheLoader.java:137-141 | On a dirty-capable list setDirty raises the dirty bit and leaves the entries alone |
| ListDataAccess.DirtyFlag.IsDirtyNow | src/main/java/net/imglib2/cache/img/list/LoadedCellListImgCacheLoader.java:114-120 | The inert flag is never dirty; a forwarding flag reports its list's bit |
| ListDataAccess.DirtyFlag.SetDirty | src/main/java/net/imglib2/cache/img/list/LoadedCellListImgCacheLoader.java:122-124 | A forwarding flag marks its list dirty without touching its entries; the inert flag may change nothing |
| IntervalIndexer.CreateAllocationSteps | src/main/java/net/imglib2/cache/img/list/SingleCellListImg.java:82 | steps[d] becomes the product of the extents of all dimensions below d |
| IntervalIndexer.AllocationStepsRecurrence | src/main/java/net/imglib2/cache/img/list/SingleCellListImg.java:82-83 | Step 0 is 1, each step is the previous one times its extent, and the last step times the last extent is the product of all extents |
| IntervalIndexer.AllocationStepsNonNegative | src/main/java/net/imglib2/cache/img/list/SingleCellListImg.java:82 | Non-negative extents give non-negative steps |
| IntervalIndexer.ProductPositive | src/main/java/net/imglib2/cache/img/list/SingleCellListImg.java:83 | A cell with at least one pixel has every extent at least 1 |
| IntervalIndexer.LinearUpdate | src/main/java/net/imglib2/cache/img/list/SingleCellListImg.java:218-229 | Changing coordinate d to v changes the flat index by (v - position[d]) * steps[d] |
| IntervalIndexer.LinearShift | src/main/java/net/imglib2/cache/img/list/SingleCellListImg.java:164-184 | Moving a position by a distance adds the flat index of the distance (taken from the origin) |
| IntervalIndexer.LinearAtOrigin | src/main/java/net/imglib2/cache/img/list/SingleCellListImg.java:111-116 | The minimum has flat index 0 |
| IntervalIndexer.LinearBounds | src/main/java/net/imglib2/cache/img/list/SingleCellListImg.java:196-204 | A position inside the cell's box has a flat index in [0, size) |
| IntervalIndexer.IndexToPositionInBox | src/main/java/net/imglib2/cache/img/list/SingleCellListImg.java:306-310 | For 0 <= index < size the position computed from the index lies in the box, and its flat index is the index |
| IntervalIndexer.PositionToIndexInverse | src/main/java/net/imglib2/cache/img/list/SingleCellListImg.java:306-310 | For a position in the box, computing the position of its flat index gives the position back |
| IntervalIndexer.PositionAt | src/main/java/net/imglib2/cache/img/list/SingleCellListImg.java:372-377 | The position of an in-range index lies in the box and linearises back to the index |
| IntervalIndexer.PositionAtLinear | src/main/java/net/imglib2/cache/img/list/SingleCellListImg.java:365-370 | Every position of the box is the position of its own flat index, which is in range |
| IntervalIndexer.JavaRem | src/main/java/net/imglib2/cache/img/list/SingleCellListImg.java:315 | Java's `%`: for a non-negative dividend and positive divisor it is the mathematical remainder |
| IntervalIndexer.IndexToPositionCoordinate | src/main/java/net/imglib2/cache/img/list/SingleCellListImg.java:306-316 | For an entry of the cell, coordinate d of its position is (index / steps[d]) % dimensions[d] + min[d], with steps[d] >= 1 |
| IntervalIndexer.CoordinateOfInBox | src/main/java/net/imglib2/cache/img/list/SingleCellListImg.java:312-316 | For an entry of the cell, getLongPosition's per-coordinate formula with Java's division and remainder equals coordinate d of the position localize writes |
| IntervalIndexer.DivDiv | src/main/java/net/imglib2/cache/img/list/SingleCellListImg.java:315 | Dividing by a then by b is dividing by a * b, for a non-negative dividend and positive divisors |
| IntervalIndexer.FlatPositionsEnumerateBox | src/main/java/net/imglib2/cache/img/list/CellListImgLoader.java:18-27 | The flat order visits every position of the box exactly once: all listed positions are in the box and distinct, and each box position sits at its own flat index |
| IntervalIndexer.FlatPositions | src/main/java/net/imglib2/cache/img/list/CellListImgLoader.java:18-27 | The cell's positions in flat order: one per pixel, the i-th being the position of index i |
| SingleCellListImg.SingleCellListImg.constructor | src/main/java/net/imglib2/cache/img/list/SingleCellListImg.java:47-58 | A new image allocates its own arrays and is reset to the given cell |
| SingleCellListImg.SingleCellListImg.Reset | src/main/java/net/imglib2/cache/img/list/SingleCellListImg.java:74-86 | min[d] = cellMin[d], max[d] = cellMin[d] + cellDims[d] - 1 and dimensions[d] = cellDims[d]; the steps are the prefix products; size = steps[n-1] * cellDims[n-1], the product of all extents; the list and dirty flag are taken over |
| SingleCellListImg.SingleCellListImg.Size | src/main/java/net/imglib2/cache/img/list/SingleCellListImg.java:425-429 | size() is the number of pixels, the product of the extents, and equals steps[n-1] * dimensions[n-1] |
| SingleCellListImg.SingleCellListImg.GetData | src/main/java/net/imglib2/cache/img/list/SingleCellListImg.java:69-72 | getData returns the list the pixels live in |
| SingleCellListImg.SingleCellListImg.SetDirty | src/main/java/net/imglib2/cache/img/list/SingleCellListImg.java:60-67 | setDirty marks a dirty-capable backing list dirty, leaves its entries alone and otherwise does nothing |
| SingleCellListImg.SingleCellListImg.PositionOf | src/main/java/net/imglib2/cache/img/list/SingleCellListImg.java:306-310 | The position of an entry of the cell lies in the box and has that entry's flat index |
| SingleCellListImg.CellListRandomAccess.constructor | src/main/java/net/imglib2/cache/img/list/SingleCellListImg.java:111-116 | A new random access stands at the minimum with index 0, so the linearisation invariant holds from the start |
| SingleCellListImg.CellListRandomAccess.CopyOf | src/main/java/net/imglib2/cache/img/list/SingleCellListImg.java:104-109 | The copy has the same index and an equal position in its own array; it keeps the invariant exactly when the original does |
| SingleCellListImg.CellListRandomAccess.Copy | src/main/java/net/imglib2/cache/img/list/SingleCellListImg.java:231-241 | copy() yields a new random access in the same state, valid exactly when the original is |
| SingleCellListImg.CellListRandomAccess.Get | src/main/java/net/imglib2/cache/img/list/SingleCellListImg.java:118-122 | get() returns the entry at the current index, which is the entry at the flat index of the position when the invariant holds |
| SingleCellListImg.CellListRandomAccess.Fwd | src/main/java/net/imglib2/cache/img/list/SingleCellListImg.java:124-129 | fwd(d), from any state, raises only position[d], by one, and raises the index by steps[d]; the gap between index and flat index is unchanged, so the invariant holds after exactly when it held before |
| SingleCellListImg.CellListRandomAccess.Bck | src/main/java/net/imglib2/cache/img/list/SingleCellListImg.java:131-136 | bck(d), from any state, lowers only position[d], by one, and lowers the index by steps[d]; the gap between index and flat index is unchanged, so the invariant holds after exactly when it held before |
| SingleCellListImg.CellListRandomAccess.FwdThenBck | src/main/java/net/imglib2/cache/img/list/SingleCellListImg.java:124-136 | bck(d) exactly undoes fwd(d): the position and index are restored |
| SingleCellListImg.CellListRandomAccess.Move | src/main/java/net/imglib2/cache/img/list/SingleCellListImg.java:138-150 | move(distance, d), from any state, changes only position[d], by distance, and the index by steps[d] * distance; the gap between index and flat index is unchanged, so the invariant holds after exactly when it held before |
| SingleCellListImg.CellListRandomAccess.MoveAsWritten | src/main/java/net/imglib2/cache/img/list/SingleCellListImg.java:152-184 | move(int[]), move(long[]) and move(Localizable) as written: the position moves by the distance, the index becomes the flat index of the distance alone, and, from any state, the invariant holds afterwards exactly when the old position had flat index 0; from a valid state, exactly when the index was 0 |
| SingleCellListImg.CellListRandomAccess.MoveBy | src/main/java/net/imglib2/cache/img/list/SingleCellListImg.java:164-184 | The intended move, from any state: the position moves by the distance, the index by the distance's flat index, the gap between index and flat index is unchanged and so is whether the invariant holds |
| SingleCellListImg.CellListRandomAccess.SetPosition | src/main/java/net/imglib2/cache/img/list/SingleCellListImg.java:195-215 | setPosition(int[]/long[]) sets the position to pos and the index to Σ (pos[d] - min[d]) * steps[d], whatever the prior state |
| SingleCellListImg.CellListRandomAccess.SetPositionFrom | src/main/java/net/imglib2/cache/img/list/SingleCellListImg.java:186-193 | setPosition(Localizable) copies the localizable's position and recomputes the index from it, establishing the invariant |
| SingleCellListImg.CellListRandomAccess.SetPositionAt | src/main/java/net/imglib2/cache/img/list/SingleCellListImg.java:217-229 | setPosition(pos, d), from any state, changes only position[d], to pos, moves the index by (pos - position[d]) * steps[d]; the gap between index and flat index is unchanged, so the invariant holds after exactly when it held before |
| SingleCellListImg.AddDistance | src/main/java/net/imglib2/cache/img/list/SingleCellListImg.java:164-184 | The loop of move(int[]): every coordinate moves by its distance, and the sum it collects is the distance's flat index |
| SingleCellListImg.MoveAsWrittenIndex | src/main/java/net/imglib2/cache/img/list/SingleCellListImg.java:164-173 | The index move(int[]) leaves equals the flat index of the new position if and only if the old index was 0 |
| SingleCellListImg.MoveAsWrittenCounterexample | src/main/java/net/imglib2/cache/img/list/SingleCellListImg.java:164-173 | In a cell of extent 4 at 0, a random access at 1 moved by 1 reaches position 2 but is left at index 1 |
| SingleCellListImg.CellListCursor.constructor | src/main/java/net/imglib2/cache/img/list/SingleCellListImg.java:255-260 | A new cursor stands before the first entry (index -1) with lastIndex = size - 1 |
| SingleCellListImg.CellListCursor.CopyOf | src/main/java/net/imglib2/cache/img/list/SingleCellListImg.java:262-267 | The copy has the same index and last index |
| SingleCellListImg.CellListCursor.Copy | src/main/java/net/imglib2/cache/img/list/SingleCellListImg.java:318-328 | copy() yields a new cursor in the same state, valid when the original is |
| SingleCellListImg.CellListCursor.Get | src/main/java/net/imglib2/cache/img/list/SingleCellListImg.java:269-273 | get() returns the entry at the current index |
| SingleCellListImg.CellListCursor.HasNext | src/main/java/net/imglib2/cache/img/list/SingleCellListImg.java:275-279 | hasNext() holds exactly when index < size - 1 |
| SingleCellListImg.CellListCursor.JumpFwd | src/main/java/net/imglib2/cache/img/list/SingleCellListImg.java:281-285 | jumpFwd(steps) moves the index by steps |
| SingleCellListImg.CellListCursor.Next | src/main/java/net/imglib2/cache/img/list/SingleCellListImg.java:287-292 | next() advances by exactly one and returns the entry there |
| SingleCellListImg.CellListCursor.Fwd | src/main/java/net/imglib2/cache/img/list/SingleCellListImg.java:294-298 | fwd() advances the index by exactly one |
| SingleCellListImg.CellListCursor.Reset | src/main/java/net/imglib2/cache/img/list/SingleCellListImg.java:300-304 | reset() puts the index at -1 |
| SingleCellListImg.CellListCursor.Localize | src/main/java/net/imglib2/cache/img/list/SingleCellListImg.java:306-310 | localize writes the offset position of the index into the first n entries of an array of at least n entries and leaves the rest alone; for an entry of the cell that position lies in the box and has that flat index |
| SingleCellListImg.CellListCursor.GetLongPosition | src/main/java/net/imglib2/cache/img/list/SingleCellListImg.java:312-316 | getLongPosition(d) is (index / steps[d]) % dimensions[d] + min[d] with Java's truncating division and remainder, for any index; for an entry of the cell that is coordinate d of the position localize writes, between min[d] and max[d] |
| SingleCellListImg.CellListCursor.IterateAll | src/main/java/net/imglib2/cache/img/list/SingleCellListImg.java:275-304 | A reset cursor driven by hasNext and fwd visits exactly size entries, the indices 0 .. size - 1 in order |
| SingleCellListImg.BeforeStart | src/main/java/net/imglib2/cache/img/list/SingleCellListImg.java:392-398 | The reset position is the minimum with coordinate 0 one lower |
| SingleCellListImg.LinearBeforeStart | src/main/java/net/imglib2/cache/img/list/SingleCellListImg.java:392-398 | The reset position has flat index -1, one before the first entry |
| SingleCellListImg.CellListLocalizingCursor.constructor | src/main/java/net/imglib2/cache/img/list/SingleCellListImg.java:343-348 | A new localizing cursor is reset, with lastIndex = size - 1 |
| SingleCellListImg.CellListLocalizingCursor.CopyOf | src/main/java/net/imglib2/cache/img/list/SingleCellListImg.java:350-356 | The copy has the same index and last index and an equal position in its own array |
| SingleCellListImg.CellListLocalizingCursor.Copy | src/main/java/net/imglib2/cache/img/list/SingleCellListImg.java:400-410 | copy() yields a new, valid cursor in the same state |
| SingleCellListImg.CellListLocalizingCursor.Reset | src/main/java/net/imglib2/cache/img/list/SingleCellListImg.java:392-398 | reset() puts the index at -1 and the position at the minimum with position[0] decremented |
| SingleCellListImg.CellListLocalizingCursor.HasNext | src/main/java/net/imglib2/cache/img/list/SingleCellListImg.java:386-390 | hasNext() holds exactly when index < size - 1 |
| SingleCellListImg.CellListLocalizingCursor.Get | src/main/java/net/imglib2/cache/img/list/SingleCellListImg.java:358-362 | get() returns the entry at the current index |
| SingleCellListImg.CellListLocalizingCursor.Fwd | src/main/java/net/imglib2/cache/img/list/SingleCellListImg.java:364-370 | fwd() advances the index by one and carries the position so that it is the position of the new index (counted round the cell): it stays within [min, max] |
| SingleCellListImg.CellListLocalizingCursor.Next | src/main/java/net/imglib2/cache/img/list/SingleCellListImg.java:379-384 | next() is fwd() followed by get() |
| SingleCellListImg.CellListLocalizingCursor.JumpFwd | src/main/java/net/imglib2/cache/img/list/SingleCellListImg.java:372-377 | jumpFwd(steps) moves the index by steps and sets the position to that index's position |
| SingleCellListImg.CarryFrom | src/main/java/net/imglib2/cache/img/list/SingleCellListImg.java:368-369 | Once the coordinates below d have wrapped, the carry lands in the box and raises the flat index by the step of d, or wraps the whole position to the minimum when that raise reaches the size |
| SingleCellListImg.CarryFwd | src/main/java/net/imglib2/cache/img/list/SingleCellListImg.java:364-370 | From the reset position or from the position of index k, the carried position is the position of index k + 1, counted round the cell |
| SingleCellListImg.CarryPosition | src/main/java/net/imglib2/cache/img/list/SingleCellListImg.java:368-369 | The odometer loop computes exactly the carry of the old position |
| CellListCacheLoader.CellGrid.GetCellDimensions | src/main/java/net/imglib2/cache/img/list/LoadedCellListImgCacheLoader.java:56-58 | The grid fills in the cell's minimum and extents for the index |
| CellListCacheLoader.CellListImgLoader.Load | src/main/java/net/imglib2/cache/img/list/CellListImgLoader.java:18-27 | The load succeeds exactly when every pixel position of the cell can be filled; on success entry i holds the value at the i-th position in flat order. The image's list is dirty afterwards exactly when it was before, or it is of a Dirty class and got a pixel, or the loader marked it through setDirty; a separate list that setDirty forwards to is dirty exactly when it was or the loader marked it |
| CellListCacheLoader.ListDataAccessWrapper.Wrap | src/main/java/net/imglib2/cache/img/list/LoadedCellListImgCacheLoader.java:105-109 | As written, both wrappers hand the loader the very list they are given (lines 131-135 are the same), Dirty interface included |
| CellListCacheLoader.ListDataAccessWrapper.WrapStripped | src/main/java/net/imglib2/cache/img/list/LoadedCellListImgCacheLoader.java:85-101 | wrap as documented: ListAccessWrapper hands over a new, clean view over the same entries whose class is not dirty-capable; PassThrough hands over the list itself |
| CellListCacheLoader.ListDataAccessWrapper.WrapDirty | src/main/java/net/imglib2/cache/img/list/LoadedCellListImgCacheLoader.java:111-141 | ListAccessWrapper gives the list itself; PassThrough gives a flag that is never dirty and whose setDirty touches nothing |
| CellListCacheLoader.GetWrapper | src/main/java/net/imglib2/cache/img/list/LoadedCellListImgCacheLoader.java:76-83 | ListAccessWrapper exactly when the dirty flag is present, PassThrough exactly when it is absent |
| CellListCacheLoader.LoadedCellListImgCacheLoader.Get | src/main/java/net/imglib2/cache/img/list/LoadedCellListImgCacheLoader.java:52-64 | get(key) as written fails exactly when the loader fails at some pixel. On success: the cell has the grid's extents and minimum; its list and the list's store are newly allocated; the list is of the creator's class with as many entries as the product of the extents; it holds what the loader put there; and it is dirty exactly when the loader marked it with setDirty forwarded, or the list is of a Dirty class and the cell has a pixel |
| CellListCacheLoader.LoadedCellListImgCacheLoader.GetStripped | src/main/java/net/imglib2/cache/img/list/LoadedCellListImgCacheLoader.java:52-64 | get(key) with the documented wrap: the same success condition and the same newly allocated, loaded cell, but with DIRTY set the cell is dirty exactly when the loader marked it; without it a Dirty list is dirty when filled |
| CellListCacheLoader.LoadedCellListImgCacheLoader.GetWith | src/main/java/net/imglib2/cache/img/list/LoadedCellListImgCacheLoader.java:52-64 | The body of get shared by both wraps: the cell and its store are new, loaded as above, and the dirty bit is the loader's mark if forwarded, or set by filling unless the wrap strips dirty tracking |
| CellListCacheLoader.LoadedCellListImgCacheLoader.NewCellImg | src/main/java/net/imglib2/cache/img/list/LoadedCellListImgCacheLoader.java:54-60 | The cell's box comes from the grid, the new clean list of the creator's class has one entry per pixel, the image sees that list's store through the wrap and forwards setDirty through wrapDirty |
| CellListCacheLoader.Create | src/main/java/net/imglib2/cache/img/list/LoadedCellListImgCacheLoader.java:66-74 | The static get never returns null. It keeps the grid and loader, takes the factory's empty list for the flags as creator, and forwards setDirty exactly when DIRTY is set |

## Left out

- Java `int` and `long` arithmetic is modelled with unbounded integers. The `(int)` casts in `move(long, d)`, `move(long[])`, `setPosition(...)` and `jumpFwd`, and the cast of `size()` to `lastIndex`, are not modelled. Nor is any overflow of index, size or steps. The int and long overloads therefore share one member each.
- `move(Localizable)` reads `getIntPosition(d)` from the localizable as a distance and otherwise runs the body of `move(int[])`. It is covered by `MoveAsWritten`, with the distance given as an array.
- `SingleCellListImg.SingleCellListImg.constructor` and `Reset` require at least one dimension and non-negative extents. The source reads `steps[n - 1]` and assumes a well-formed cell without checking either.
- `SingleCellListImg.CellListLocalizingCursor.JumpFwd` requires the new index to lie in the cell. Past the end, `IndexToPositionWithOffset` still defines the position, but the invariant of the model does not describe it.
- `SingleCellListImg.CellListLocalizingCursor.Fwd` requires a cell with at least one pixel. On an empty cell the source's odometer has no meaningful position.
- The odometer loop of `fwd()` increments the coordinate inside the loop condition. `CarryPosition` ends the loop on the comparison and does the final increment after it. This gives the same result on every input.
- `factory()` and `copy()` of the image only throw, and are left out. So are `randomAccess(Interval)`, `iterationOrder`, `iterator` and `firstElement`, which only delegate.
- `IntervalIndexer`, `Intervals.numElements` and `AccessFlags` are library code that is not part of this model. They appear as functions whose properties are proved here.
- `getLongPosition(d)` uses the overload of `indexToPositionWithOffset` that takes the steps. It is modelled by that overload's own formula. It agrees with the position computed from the extents only for an index in [0, size); outside that range the two differ, and the model proves nothing further there.
- `SingleCellListImg.CellListCursor.Localize`, `SingleCellListImg.CellListCursor.GetLongPosition` and `IntervalIndexer.IndexToPositionWithOffset` require non-zero extents (and `GetLongPosition` non-zero steps). The source would throw `ArithmeticException` on a division by zero there; that exception is not modelled.
- `CellGrid` is represented by two functions from cell index to minimum and extents.
- The user's `CellListImgLoader` is an interface. It is modelled by one concrete loader: it fills the pixels in flat order from a function of the position, stops at the first failure, and may mark the cell dirty. Loaders that write in another order or read back what they wrote are not modelled.
- A loader failure becomes a `Failure` result instead of a thrown exception.
- The list container classes keep only what the core touches: class, size, validity, entries and dirty bit. The list classes themselves are not part of this model. `setValue` on a list of a Dirty class is taken to set the dirty bit, as the wrapper documentation at `LoadedCellListImgCacheLoader.java:85-89` describes.
- The cache around the loader is not part of this model: at most one load per key, eviction, write-back, background volatile loading and their concurrency. The same holds for `Caches`, `LoadingCacheKeyAdapter`, `CachedCellListImg` and the unchecked cache interfaces.

## Findings

| source | as written | input that shows it | evidently intended | confidence | as-written member | corrected member |
|---|---|---|---|---|---|---|
| src/main/java/net/imglib2/cache/img/list/SingleCellListImg.java:164-184 (also 152-162) | `move(int[])`, `move(long[])` and `move(Localizable)` set `index = 0` and then add the weighted distance, while the position moves relative to where it was, so the index no longer matches the position unless it was 0 before | a one-dimensional cell of extent 4 at 0; a random access moved to position 1 (index 1), then `move(new int[]{1})`: position 2, index 1 | the index moves by the weighted distance from its old value (index 2), as `move(distance, d)` does per dimension | not executed | SingleCellListImg.CellListRandomAccess.MoveAsWritten, SingleCellListImg.MoveAsWrittenIndex, SingleCellListImg.MoveAsWrittenCounterexample | SingleCellListImg.CellListRandomAccess.MoveBy |
| src/main/java/net/imglib2/cache/img/list/LoadedCellListImgCacheLoader.java:129-135 (documented at 85-89) | `ListAccessWrapper.wrap` returns the list itself, so the loader fills the cell through the Dirty interface it was meant to be stripped of | flags {DIRTY}, a cell with at least one pixel, and a loader that fills every pixel and never calls `setDirty`: the cell comes back dirty | wrap strips dirty tracking, so the cell is dirty exactly when the loader marked it | not executed | CellListCacheLoader.LoadedCellListImgCacheLoader.Get, CellListCacheLoader.ListDataAccessWrapper.Wrap | CellListCacheLoader.LoadedCellListImgCacheLoader.GetStripped, CellListCacheLoader.ListDataAccessWrapper.WrapStripped |
