/**
 * LoadedCellListImgCacheLoader: the cache loader that produces one cell of a
 * cached cell list image. For a cell index it asks the grid where the cell
 * lies and how large it is, creates a list of exactly that many entries,
 * lets a CellListImgLoader populate it through a SingleCellListImg view, and
 * returns the cell over that same list. The wrapper chosen from the access
 * flags decides whether the loader's setDirty reaches the list.
 */
module CellListCacheLoader {
  import opened Wrappers
  import opened IntervalIndexer
  import opened ListDataAccess
  import opened SingleCellListImg

  /**
   * The grid of a cell image: its number of dimensions and, for each cell
   * index, the minimum and the extents of that cell.
   */
  datatype CellGrid = CellGrid(numDimensions: nat, cellMinOf: int -> seq<int>, cellDimsOf: int -> seq<int>)
  {
    /** Every cell has numDimensions coordinates and non-negative extents. */
    ghost predicate Wf()
    {
      && numDimensions >= 1
      && (forall index :: |cellMinOf(index)| == numDimensions)
      && (forall index :: |cellDimsOf(index)| == numDimensions && NonNegative(cellDimsOf(index)))
    }

    /** getCellDimensions(index, cellMin, cellDims): fills in the cell's minimum and extents. */
    method GetCellDimensions(index: int, cellMin: array<int>, cellDims: array<int>)
      requires Wf() && cellMin.Length == numDimensions && cellDims.Length == numDimensions
      requires cellMin != cellDims
      modifies cellMin, cellDims
      ensures cellMin[..] == cellMinOf(index) && cellDims[..] == cellDimsOf(index)
    {
      CopyInto(cellMinOf(index), cellMin);
      CopyInto(cellDimsOf(index), cellDims);
    }
  }

  /** A cell of a cell image: its extents, its minimum and the list of its pixels. */
  datatype Cell<T> = Cell(dims: seq<int>, min: seq<int>, data: CellList<T>)

  /**
   * A CellListImgLoader that fills the cell pixel by pixel in flat
   * iteration order: fill gives the value at a position, or the error the
   * loader throws there. When marksDirty is set it flags the cell dirty
   * after filling it.
   */
  datatype CellListImgLoader<T> = CellListImgLoader(fill: seq<int> -> Result<T, string>, marksDirty: bool)
  {
    /**
     * load(cell): populate the cell through its list, or stop at the first
     * position that fails. Writing through a list of a Dirty class marks
     * that list dirty; the cell's setDirty marks the list its flag forwards
     * to, which may be another list object over the same store.
     */
    method Load(img: SingleCellListImg<T>) returns (r: Outcome<string>)
      requires img.Valid() && img.data.Valid() && |img.data.storage.entries| == img.size
      requires img.dirty.Wf()
      modifies img.data, img.data.storage, img.dirty.Target()
      ensures img.data.Valid() && |img.data.storage.entries| == img.size
      ensures r.Pass? <==> forall p :: p in FlatPositions(img.dimensions[..], img.min[..]) ==> fill(p).Success?
      ensures r.Pass? ==> forall i :: 0 <= i < img.size ==>
        img.data.storage.entries[i] == Some(fill(FlatPositions(img.dimensions[..], img.min[..])[i]).value)
      ensures r.Pass? ==>
        img.data.dirty == (|| old(img.data.dirty)
                           || (img.data.access.IsDirtyCapable() && img.size > 0)
                           || (marksDirty && img.dirty.ForwardTo? && img.dirty.list == img.data))
      ensures r.Pass? && img.dirty.ForwardTo? && img.dirty.list != img.data ==>
        img.dirty.list.dirty == (old(img.dirty.list.dirty) || marksDirty)
    {
      var positions := FlatPositions(img.dimensions[..], img.min[..]);
      var i := 0;
      while i < |positions|
        invariant 0 <= i <= |positions|
        invariant img.data.Valid() && |img.data.storage.entries| == |positions|
        invariant forall j :: 0 <= j < i ==> fill(positions[j]).Success?
        invariant forall j :: 0 <= j < i ==> img.data.storage.entries[j] == Some(fill(positions[j]).value)
        invariant img.data.dirty == (old(img.data.dirty) || (img.data.access.IsDirtyCapable() && i > 0))
        invariant img.dirty.ForwardTo? && img.dirty.list != img.data ==> img.dirty.list.dirty == old(img.dirty.list.dirty)
      {
        var v := fill(positions[i]);
        if v.Failure? {
          assert positions[i] in positions;
          return Fail(v.error);
        }
        img.data.SetValue(i, v.value);
        i := i + 1;
      }
      if marksDirty {
        img.SetDirty();
      }
      return Pass;
    }
  }

  /**
   * ListDataAccessWrapper: how the list of a new cell is handed to the
   * loader, and where the loader's setDirty goes.
   */
  datatype ListDataAccessWrapper = PassThrough | ListAccessWrapper
  {
    /**
     * wrap as written: both wrappers hand the loader the very list they are
     * given, so a Dirty list reaches the loader with its dirty tracking.
     */
    function Wrap<T>(access: CellList<T>): (w: CellList<T>)
      ensures w == access
    {
      access
    }

    /**
     * wrap as its documentation intends: ListAccessWrapper hands the loader
     * a list over the same store without the Dirty interface, so filling the
     * cell does not mark it; PassThrough hands over the list itself.
     */
    method WrapStripped<T>(access: CellList<T>) returns (w: CellList<T>)
      requires access.Valid()
      ensures w.Valid() && w.storage == access.storage
      ensures PassThrough? ==> w == access
      ensures ListAccessWrapper? ==> fresh(w) && !w.dirty && w.access == Clean(access.access)
    {
      if ListAccessWrapper? {
        w := new CellList.View(Clean(access.access), access.storage);
      } else {
        w := access;
      }
    }

    /**
     * wrapDirty: ListAccessWrapper forwards to the list itself; PassThrough
     * gives a flag that is never dirty and whose setDirty changes nothing.
     */
    function WrapDirty<T>(access: CellList<T>): (flag: DirtyFlag<T>)
      ensures ListAccessWrapper? ==> flag.ForwardTo? && flag.list == access
      ensures PassThrough? ==> flag.Target() == {} && !flag.IsDirtyNow()
      ensures (ListAccessWrapper? ==> access.access.IsDirtyCapable()) ==> flag.Wf()
    {
      if ListAccessWrapper? then ForwardTo(access) else Inert
    }
  }

  /** getWrapper(flags): dirty tracking is forwarded exactly when the flags ask for it. */
  function GetWrapper(flags: seq<AccessFlag>): (w: ListDataAccessWrapper)
    ensures w.ListAccessWrapper? <==> IsDirty(flags)
    ensures w.PassThrough? <==> !IsDirty(flags)
  {
    if IsDirty(flags) then ListAccessWrapper else PassThrough
  }

  /** The cache loader: the grid, the list prototype, the wrapper and the cell loader. */
  datatype LoadedCellListImgCacheLoader<T> =
    LoadedCellListImgCacheLoader(grid: CellGrid, creator: ListAccess, wrapper: ListDataAccessWrapper, loader: CellListImgLoader<T>)
  {
    /** The grid is well formed and setDirty is only forwarded to lists that implement Dirty. */
    ghost predicate Wf()
    {
      grid.Wf() && (wrapper.ListAccessWrapper? ==> creator.IsDirtyCapable())
    }

    /**
     * get(key) as written: the cell with index key, loaded. Its list is new,
     * of the creator's class, holds exactly as many entries as the cell has
     * pixels, and holds what the loader put there. The load fails exactly
     * when the loader fails at some pixel. Because wrap hands the loader the
     * list itself, a list of a Dirty class comes back dirty as soon as the
     * cell has a pixel, whether or not the loader marked it.
     */
    method Get(key: int) returns (r: Result<Cell<T>, string>)
      requires Wf()
      ensures r.Success? <==>
        forall p :: p in FlatPositions(grid.cellDimsOf(key), grid.cellMinOf(key)) ==> loader.fill(p).Success?
      ensures r.Success? ==> fresh(r.value.data) && fresh(r.value.data.storage) && Loaded(key, r.value)
      ensures r.Success? ==>
        r.value.data.dirty == ((loader.marksDirty && wrapper.ListAccessWrapper?) || (creator.IsDirtyCapable() && Product(r.value.dims) > 0))
    {
      r := GetWith(key, false);
    }

    /**
     * get(key) with the wrap its documentation intends: the same cell, but
     * it is dirty only when the loader marked it and dirty tracking is
     * forwarded (or, with PassThrough over a Dirty list, when it was filled).
     */
    method GetStripped(key: int) returns (r: Result<Cell<T>, string>)
      requires Wf()
      ensures r.Success? <==>
        forall p :: p in FlatPositions(grid.cellDimsOf(key), grid.cellMinOf(key)) ==> loader.fill(p).Success?
      ensures r.Success? ==> fresh(r.value.data) && fresh(r.value.data.storage) && Loaded(key, r.value)
      ensures r.Success? && wrapper.ListAccessWrapper? ==> r.value.data.dirty == loader.marksDirty
      ensures r.Success? && wrapper.PassThrough? ==>
        r.value.data.dirty == (creator.IsDirtyCapable() && Product(r.value.dims) > 0)
    {
      r := GetWith(key, true);
    }

    /** What every loaded cell satisfies: the grid's box, a list of the creator's class, filled by the loader. */
    ghost predicate Loaded(key: int, cell: Cell<T>)
      reads cell.data, cell.data.storage
    {
      && cell.dims == grid.cellDimsOf(key) && cell.min == grid.cellMinOf(key)
      && cell.data.access == creator.CreateList(|cell.data.storage.entries|)
      && |cell.data.storage.entries| == Product(cell.dims)
      && |cell.dims| == |cell.min| >= 1 && NonNegative(cell.dims)
      && (forall i :: 0 <= i < |cell.data.storage.entries| ==>
            && loader.fill(FlatPositions(cell.dims, cell.min)[i]).Success?
            && cell.data.storage.entries[i] == Some(loader.fill(FlatPositions(cell.dims, cell.min)[i]).value))
    }

    /** The body of get(key), with the wrap as written or stripping dirty tracking. */
    method GetWith(key: int, stripped: bool) returns (r: Result<Cell<T>, string>)
      requires Wf()
      ensures r.Success? <==>
        forall p :: p in FlatPositions(grid.cellDimsOf(key), grid.cellMinOf(key)) ==> loader.fill(p).Success?
      ensures r.Success? ==> fresh(r.value.data) && fresh(r.value.data.storage) && Loaded(key, r.value)
      ensures r.Success? ==>
        r.value.data.dirty == (|| (loader.marksDirty && wrapper.ListAccessWrapper?)
                               || (creator.IsDirtyCapable() && Product(r.value.dims) > 0 && !(stripped && wrapper.ListAccessWrapper?)))
    {
      var list, img := NewCellImg(key, stripped);
      var loaded := loader.Load(img);
      if loaded.Fail? {
        return Failure(loaded.error);
      }
      return Success(Cell(img.dimensions[..], img.min[..], list));
    }

    /**
     * The first half of get(key): the cell's box from the grid, a new list
     * of as many entries as the box has pixels, and the image over the
     * wrapped list that is handed to the loader.
     */
    method NewCellImg(key: int, stripped: bool) returns (list: CellList<T>, img: SingleCellListImg<T>)
      requires Wf()
      ensures fresh(list) && fresh(list.storage)
      ensures img.Valid() && img.dimensions[..] == grid.cellDimsOf(key) && img.min[..] == grid.cellMinOf(key)
      ensures list.Valid() && list.access == creator.CreateList(img.size) && !list.dirty
      ensures img.data.Valid() && img.data.storage == list.storage && !img.data.dirty
      ensures img.data == list <==> !(stripped && wrapper.ListAccessWrapper?)
      ensures img.data != list ==> !img.data.access.IsDirtyCapable()
      ensures img.dirty == wrapper.WrapDirty(list) && img.dirty.Wf()
    {
      var cellMin := new int[grid.numDimensions];
      var cellDims := new int[grid.numDimensions];
      grid.GetCellDimensions(key, cellMin, cellDims);
      var numEntities := Product(cellDims[..]);
      ProductNonNegative(cellDims[..]);
      list := new CellList.CreateList(creator, numEntities);
      var view := list;
      if stripped {
        view := wrapper.WrapStripped(list);
      } else {
        view := wrapper.Wrap(list);
      }
      img := new SingleCellListImg(cellDims, cellMin, view, wrapper.WrapDirty(list));
    }
  }

  /**
   * The static get(grid, loader, flags): a cache loader over the list class
   * and the wrapper the flags select. The list factory never returns null,
   * so neither does this.
   */
  function Create<T>(grid: CellGrid, loader: CellListImgLoader<T>, flags: seq<AccessFlag>)
    : (r: Option<LoadedCellListImgCacheLoader<T>>)
    ensures r.Some?
    ensures r.value.grid == grid && r.value.loader == loader
    ensures r.value.creator == ListDataAccess.Get(flags) && r.value.creator.numEntities == 0
    ensures r.value.wrapper.ListAccessWrapper? <==> IsDirty(flags)
    ensures r.value.creator.IsVolatileAccess() <==> IsVolatile(flags)
    ensures grid.Wf() ==> r.value.Wf()
  {
    var creator := ListDataAccess.Get(flags);
    var wrapper := GetWrapper(flags);
    Some(LoadedCellListImgCacheLoader(grid, creator, wrapper, loader))
  }
}
