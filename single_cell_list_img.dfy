/**
 * SingleCellListImg: an n-dimensional image that views one cell of a cell
 * list image. Its box starts at the cell's minimum rather than at the origin,
 * and its pixels live in one flat list in which the first dimension varies
 * fastest. Beside the image are its three accessors: a random access that
 * keeps a flat index in step with an n-dimensional position, a flat cursor,
 * and a localizing cursor that carries its position like an odometer.
 */
module SingleCellListImg {
  import opened Wrappers
  import opened IntervalIndexer
  import opened ListDataAccess

  /** The position a localizing cursor is reset to: the minimum, one step before it in dimension 0. */
  function BeforeStart(min: seq<int>): (p: seq<int>)
    requires |min| >= 1
    ensures |p| == |min| && p[0] == min[0] - 1 && p[1..] == min[1..]
  {
    min[0 := min[0] - 1]
  }

  class SingleCellListImg<T> {
    /** The number of dimensions. */
    const n: nat
    /** The box of the cell: its minimum and maximum (both inclusive) per dimension. */
    const min: array<int>
    const max: array<int>
    /** The extent of the cell per dimension. */
    const dimensions: array<int>
    /** The allocation step per dimension: how far the flat index moves for one step in it. */
    const steps: array<int>
    /** The number of pixels of the cell. */
    var size: int
    /** The list that holds the pixels. */
    var data: CellList<T>
    /** Where setDirty is reported to. */
    var dirty: DirtyFlag<T>

    /** The four arrays exist with n entries each and are distinct objects. */
    ghost predicate Wf()
      reads this
    {
      && n >= 1
      && min.Length == n && max.Length == n && dimensions.Length == n && steps.Length == n
      && min != max && min != dimensions && min != steps
      && max != dimensions && max != steps && dimensions != steps
    }

    /** The state reset establishes: a box of non-negative extents with its steps and size. */
    ghost predicate Valid()
      reads this, min, max, dimensions, steps
    {
      && Wf()
      && NonNegative(dimensions[..])
      && (forall d :: 0 <= d < n ==> max[d] == min[d] + dimensions[d] - 1)
      && steps[..] == AllocationSteps(dimensions[..])
      && size == Product(dimensions[..])
      && size >= 0
      && (size > 0 ==> Positive(dimensions[..]))
    }

    /** A cell over cellData with extents cellDims whose minimum is cellMin. */
    constructor (cellDims: array<int>, cellMin: array<int>, cellData: CellList<T>, dirtyFlag: DirtyFlag<T>)
      requires 1 <= cellDims.Length <= cellMin.Length
      requires NonNegative(cellDims[..])
      ensures Valid() && n == cellDims.Length
      ensures fresh(min) && fresh(max) && fresh(dimensions) && fresh(steps)
      ensures min[..] == cellMin[..n] && dimensions[..] == cellDims[..]
      ensures size == Product(cellDims[..])
      ensures data == cellData && dirty == dirtyFlag
    {
      n := cellDims.Length;
      min := new int[cellDims.Length];
      max := new int[cellDims.Length];
      dimensions := new int[cellDims.Length];
      steps := new int[cellDims.Length];
      size := 0;
      data := cellData;
      dirty := dirtyFlag;
      new;
      Reset(cellDims, cellMin, cellData, dirtyFlag);
    }

    /**
     * reset: take over the box, the list and the dirty flag of another cell
     * with the same number of dimensions.
     */
    method Reset(cellDims: array<int>, cellMin: array<int>, cellData: CellList<T>, dirtyFlag: DirtyFlag<T>)
      requires Wf()
      requires cellDims.Length == n <= cellMin.Length
      requires NonNegative(cellDims[..])
      requires cellDims !in {min, max, dimensions, steps} && cellMin !in {min, max, dimensions, steps}
      modifies this, min, max, dimensions, steps
      ensures Valid()
      ensures forall d :: 0 <= d < n ==>
        min[d] == cellMin[d] && max[d] == cellMin[d] + cellDims[d] - 1 && dimensions[d] == cellDims[d]
      ensures steps[..] == AllocationSteps(cellDims[..])
      ensures size == Product(cellDims[..])
      ensures data == cellData && dirty == dirtyFlag
    {
      for d := 0 to n
        invariant forall e :: 0 <= e < d ==>
          min[e] == cellMin[e] && max[e] == cellMin[e] + cellDims[e] - 1 && dimensions[e] == cellDims[e]
      {
        min[d] := cellMin[d];
        max[d] := min[d] + cellDims[d] - 1;
        dimensions[d] := cellDims[d];
      }
      assert dimensions[..] == cellDims[..];
      CreateAllocationSteps(cellDims, steps);
      AllocationStepsRecurrence(cellDims[..], n - 1);
      size := steps[n - 1] * cellDims[n - 1];
      data := cellData;
      dirty := dirtyFlag;
      ProductNonNegative(cellDims[..]);
      if size > 0 {
        ProductPositive(cellDims[..]);
      }
    }

    /** size(): the number of pixels, the product of the extents. */
    method Size() returns (s: int)
      requires Valid()
      ensures s == Product(dimensions[..]) && s >= 0
      ensures s == steps[n - 1] * dimensions[n - 1]
    {
      ProductNonNegative(dimensions[..]);
      AllocationStepsRecurrence(dimensions[..], n - 1);
      s := size;
    }

    /** getData(): the list the pixels live in. */
    method GetData() returns (list: CellList<T>)
      ensures list == data
    {
      list := data;
    }

    /**
     * setDirty: flag the cell dirty if it is backed by a dirty-capable list,
     * and do nothing otherwise.
     */
    method SetDirty()
      requires dirty.Wf()
      modifies dirty.Target()
      ensures dirty.ForwardTo? ==> dirty.list.dirty && dirty.list.storage.entries == old(dirty.list.storage.entries)
    {
      dirty.SetDirty();
    }

    /** The position of the pixel at a flat index of this cell. */
    function PositionOf(index: int): (p: seq<int>)
      reads this, min, max, dimensions, steps
      requires Valid() && 0 <= index < size
      ensures |p| == n && Contains(p) && IndexOf(p) == index
    {
      PositionAt(index, dimensions[..], min[..])
    }

    /** The flat index of a position: its offsets from the minimum weighted by the steps. */
    ghost function IndexOf(position: seq<int>): int
      reads this, min, max, dimensions, steps
      requires Valid() && |position| == n
    {
      Linear(position, min[..], steps[..])
    }

    /** The position lies in the cell's box. */
    ghost predicate Contains(position: seq<int>)
      reads this, min, max, dimensions, steps
      requires Valid()
    {
      InBox(position, min[..], dimensions[..])
    }
  }

  /**
   * CellListRandomAccess: a position in the cell together with the flat
   * index of that position in the cell's list.
   */
  class CellListRandomAccess<T> {
    const img: SingleCellListImg<T>
    const position: array<int>
    var index: int

    /** The image is valid and the position array is its own. */
    ghost predicate Wf()
      reads this, img, img.min, img.max, img.dimensions, img.steps
    {
      && img.Valid()
      && position.Length == img.n
      && position != img.min && position != img.max && position != img.dimensions && position != img.steps
    }

    /** The linearisation invariant: the index is the flat index of the position. */
    ghost predicate Valid()
      reads this, position, img, img.min, img.max, img.dimensions, img.steps
    {
      Wf() && index == Linear(position[..], img.min[..], img.steps[..])
    }

    /** A new random access stands at the minimum of the cell, at index 0. */
    constructor (img: SingleCellListImg<T>)
      requires img.Valid()
      ensures Valid() && this.img == img && fresh(position)
      ensures position[..] == img.min[..] && index == 0
    {
      this.img := img;
      index := 0;
      var p := new int[img.n];
      forall d | 0 <= d < img.n {
        p[d] := img.min[d];
      }
      position := p;
      new;
      assert position[..] == img.min[..];
      LinearAtOrigin(img.min[..], img.steps[..]);
    }

    /**
     * The copy constructor: same image, same index, an equal position in a
     * new array. It copies whatever state the other one is in, so the copy
     * keeps the invariant exactly when the original does.
     */
    constructor CopyOf(other: CellListRandomAccess<T>)
      requires other.Wf()
      ensures Wf() && img == other.img && fresh(position)
      ensures position[..] == other.position[..] && index == other.index
      ensures Valid() <==> other.Valid()
    {
      img := other.img;
      index := other.index;
      var p := new int[other.img.n];
      forall d | 0 <= d < other.img.n {
        p[d] := other.position[d];
      }
      position := p;
      new;
      assert position[..] == other.position[..];
    }

    /** copy(): a new random access in the same state. */
    method Copy() returns (c: CellListRandomAccess<T>)
      requires Wf()
      ensures fresh(c) && fresh(c.position) && c.Wf() && c.img == img
      ensures c.position[..] == position[..] && c.index == index
      ensures c.Valid() <==> Valid()
    {
      c := new CellListRandomAccess.CopyOf(this);
    }

    /** get(): the entry of the list at the current index, which is the position's own entry while the invariant holds. */
    method Get() returns (x: Option<T>)
      requires Wf() && 0 <= index < |img.data.storage.entries|
      ensures x == img.data.storage.entries[index]
      ensures Valid() ==> x == img.data.storage.entries[img.IndexOf(position[..])]
    {
      x := img.data.storage.entries[index];
    }

    /** fwd(d): one step forward in dimension d. */
    method Fwd(d: int)
      requires Wf() && 0 <= d < img.n
      modifies this, position
      ensures Wf()
      ensures position[..] == old(position[..])[d := old(position[d]) + 1]
      ensures index == old(index) + img.steps[d]
      ensures index - img.IndexOf(position[..]) == old(index - img.IndexOf(position[..]))
      ensures Valid() <==> old(Valid())
    {
      LinearUpdate(position[..], img.min[..], img.steps[..], d, position[d] + 1);
      index := index + img.steps[d];
      position[d] := position[d] + 1;
    }

    /** bck(d): one step backward in dimension d. */
    method Bck(d: int)
      requires Wf() && 0 <= d < img.n
      modifies this, position
      ensures Wf()
      ensures position[..] == old(position[..])[d := old(position[d]) - 1]
      ensures index == old(index) - img.steps[d]
      ensures index - img.IndexOf(position[..]) == old(index - img.IndexOf(position[..]))
      ensures Valid() <==> old(Valid())
    {
      LinearUpdate(position[..], img.min[..], img.steps[..], d, position[d] - 1);
      index := index - img.steps[d];
      position[d] := position[d] - 1;
    }

    /** fwd(d) followed by bck(d) leaves the random access as it was. */
    method FwdThenBck(d: int)
      requires Wf() && 0 <= d < img.n
      modifies this, position
      ensures Wf() && (Valid() <==> old(Valid()))
      ensures position[..] == old(position[..]) && index == old(index)
    {
      Fwd(d);
      Bck(d);
    }

    /** move(distance, d): distance steps in dimension d (the int and the long overload). */
    method Move(distance: int, d: int)
      requires Wf() && 0 <= d < img.n
      modifies this, position
      ensures Wf()
      ensures position[..] == old(position[..])[d := old(position[d]) + distance]
      ensures index == old(index) + img.steps[d] * distance
      ensures index - img.IndexOf(position[..]) == old(index - img.IndexOf(position[..]))
      ensures Valid() <==> old(Valid())
    {
      LinearUpdate(position[..], img.min[..], img.steps[..], d, position[d] + distance);
      index := index + img.steps[d] * distance;
      position[d] := position[d] + distance;
    }

    /**
     * move(int[]) and move(long[]) as they are written: the index is set to
     * zero before the weighted distance is added, although the position
     * moves relative to where it was. The invariant holds afterwards exactly
     * when the old position was the minimum's flat index 0.
     */
    method MoveAsWritten(distance: array<int>)
      requires Wf() && img.n <= distance.Length && distance != position
      modifies this, position
      ensures Wf()
      ensures position[..] == Add(old(position[..]), distance[..img.n])
      ensures index == Linear(distance[..img.n], Zeros(img.n), img.steps[..])
      ensures Valid() <==> old(img.IndexOf(position[..])) == 0
      ensures old(Valid()) ==> (Valid() <==> old(index) == 0)
    {
      ghost var before := position[..];
      index := 0;
      var delta := AddDistance(position, distance, img.steps[..]);
      index := index + delta;
      MoveAsWrittenIndex(before, distance[..img.n], img.min[..], img.steps[..]);
    }

    /**
     * move(int[]) and move(long[]) as evidently intended: the position moves
     * by distance and the index by the flat index of distance.
     */
    method MoveBy(distance: array<int>)
      requires Wf() && img.n <= distance.Length && distance != position
      modifies this, position
      ensures Wf()
      ensures position[..] == Add(old(position[..]), distance[..img.n])
      ensures index == old(index) + Linear(distance[..img.n], Zeros(img.n), img.steps[..])
      ensures index - img.IndexOf(position[..]) == old(index - img.IndexOf(position[..]))
      ensures Valid() <==> old(Valid())
    {
      ghost var before := position[..];
      var delta := AddDistance(position, distance, img.steps[..]);
      index := index + delta;
      LinearShift(before, distance[..img.n], img.min[..], img.steps[..]);
    }

    /** setPosition(int[]) and setPosition(long[]): jump to pos, whatever the state was. */
    method SetPosition(pos: array<int>)
      requires Wf() && img.n <= pos.Length && pos != position
      modifies this, position
      ensures Valid()
      ensures position[..] == pos[..img.n]
      ensures index == Linear(pos[..img.n], img.min[..], img.steps[..])
    {
      ghost var target := pos[..img.n];
      index := 0;
      for d := 0 to img.n
        invariant forall e :: 0 <= e < d ==> position[e] == target[e]
        invariant index == Linear(target[..d], img.min[..d], img.steps[..d])
      {
        LinearPrefixStep(target, img.min[..], img.steps[..], d);
        position[d] := pos[d];
        index := index + (pos[d] - img.min[d]) * img.steps[d];
      }
      assert position[..] == target;
      assert target[..img.n] == target && img.min[..][..img.n] == img.min[..] && img.steps[..][..img.n] == img.steps[..];
    }

    /** setPosition(Localizable): copy the localizable's position, then compute its index. */
    method SetPositionFrom(localizable: seq<int>)
      requires Wf() && |localizable| == img.n
      modifies this, position
      ensures Valid()
      ensures position[..] == localizable
      ensures index == Linear(localizable, img.min[..], img.steps[..])
    {
      forall d | 0 <= d < img.n {
        position[d] := localizable[d];
      }
      assert position[..] == localizable;
      index := 0;
      for d := 0 to img.n
        invariant position[..] == localizable
        invariant index == Linear(localizable[..d], img.min[..d], img.steps[..d])
      {
        LinearPrefixStep(localizable, img.min[..], img.steps[..], d);
        index := index + (position[d] - img.min[d]) * img.steps[d];
      }
      assert localizable[..img.n] == localizable && img.min[..][..img.n] == img.min[..] && img.steps[..][..img.n] == img.steps[..];
    }

    /** setPosition(pos, d): move to coordinate pos in dimension d (the int and the long overload). */
    method SetPositionAt(pos: int, d: int)
      requires Wf() && 0 <= d < img.n
      modifies this, position
      ensures Wf()
      ensures position[..] == old(position[..])[d := pos]
      ensures index == old(index) + (pos - old(position[d])) * img.steps[d]
      ensures index - img.IndexOf(position[..]) == old(index - img.IndexOf(position[..]))
      ensures Valid() <==> old(Valid())
    {
      LinearUpdate(position[..], img.min[..], img.steps[..], d, pos);
      index := index + (pos - position[d]) * img.steps[d];
      position[d] := pos;
    }
  }

  /**
   * CellListCursor: a flat cursor over the cell's list. It starts before the
   * first entry (index -1) and the last entry it may move to is size - 1.
   */
  class CellListCursor<T> {
    const img: SingleCellListImg<T>
    const lastIndex: int
    var index: int

    ghost predicate Valid()
      reads this, img, img.min, img.max, img.dimensions, img.steps
    {
      img.Valid() && lastIndex == img.size - 1
    }

    /** A new cursor is reset: it stands before the first entry. */
    constructor (img: SingleCellListImg<T>)
      requires img.Valid()
      ensures Valid() && this.img == img
      ensures index == -1 && lastIndex == img.size - 1
    {
      this.img := img;
      lastIndex := img.size - 1;
      index := -1;
    }

    /** The copy constructor: same image, same index, same last index. */
    constructor CopyOf(other: CellListCursor<T>)
      ensures img == other.img && index == other.index && lastIndex == other.lastIndex
    {
      img := other.img;
      index := other.index;
      lastIndex := other.lastIndex;
    }

    /** copy(): a new cursor in the same state, valid when this one is. */
    method Copy() returns (c: CellListCursor<T>)
      ensures fresh(c) && c.img == img && c.index == index && c.lastIndex == lastIndex
      ensures Valid() ==> c.Valid()
    {
      c := new CellListCursor.CopyOf(this);
    }

    /** get(): the entry at the current index. */
    method Get() returns (x: Option<T>)
      requires 0 <= index < |img.data.storage.entries|
      ensures x == img.data.storage.entries[index]
    {
      x := img.data.storage.entries[index];
    }

    /** hasNext(): another entry of the cell follows the current one. */
    method HasNext() returns (b: bool)
      requires Valid()
      ensures b <==> index + 1 < img.size
    {
      b := index < lastIndex;
    }

    /** jumpFwd(steps): moves the index by steps. */
    method JumpFwd(steps: int)
      modifies this
      ensures index == old(index) + steps
    {
      index := index + steps;
    }

    /** fwd(): moves to the next entry. */
    method Fwd()
      modifies this
      ensures index == old(index) + 1
    {
      index := index + 1;
    }

    /** next(): moves to the next entry and returns it. */
    method Next() returns (x: Option<T>)
      requires 0 <= index + 1 < |img.data.storage.entries|
      modifies this
      ensures index == old(index) + 1 && x == img.data.storage.entries[index]
    {
      Fwd();
      x := Get();
    }

    /** reset(): back to before the first entry. */
    method Reset()
      modifies this
      ensures index == -1
    {
      index := -1;
    }

    /**
     * localize(position): the position of the current index, computed from
     * the extents. At an entry of the cell it lies in the box and its flat
     * index is the current index.
     */
    method Localize(position: array<int>)
      requires Valid() && img.n <= position.Length
      requires position !in {img.min, img.max, img.dimensions, img.steps}
      requires forall d :: 0 <= d < img.n - 1 ==> img.dimensions[d] != 0
      modifies position
      ensures position[..img.n] == IndexToPositionWithOffset(index, img.dimensions[..], img.min[..])
      ensures position[img.n..] == old(position[img.n..])
      ensures 0 <= index < img.size ==>
        img.Contains(position[..img.n]) && img.IndexOf(position[..img.n]) == index
    {
      var p := IndexToPositionWithOffset(index, img.dimensions[..], img.min[..]);
      if 0 <= index < img.size {
        IndexToPositionInBox(index, img.dimensions[..], img.min[..]);
      }
      CopyInto(p, position);
    }

    /**
     * getLongPosition(d): coordinate d of the current index, computed from
     * the steps as index / steps[d] % dimensions[d] + min[d]. For an entry
     * of the cell it is coordinate d of that entry's position.
     */
    method GetLongPosition(d: int) returns (r: int)
      requires Valid() && 0 <= d < img.n
      requires img.steps[d] != 0 && img.dimensions[d] != 0
      ensures r == CoordinateOf(index, img.dimensions[..], img.steps[..], img.min[..], d)
      ensures 0 <= index < img.size ==> r == img.PositionOf(index)[d] && img.min[d] <= r <= img.max[d]
    {
      r := JavaRem(JavaDiv(index, img.steps[d]), img.dimensions[d]) + img.min[d];
      if 0 <= index < img.size {
        ProductPositive(img.dimensions[..]);
        CoordinateOfInBox(index, img.dimensions[..], img.min[..], d);
      }
    }

    /**
     * The iteration protocol: a reset cursor driven by hasNext and fwd visits
     * exactly the indices 0 .. size - 1, in order.
     */
    method IterateAll() returns (visited: seq<int>)
      requires Valid() && index == -1
      modifies this
      ensures Valid() && index == img.size - 1
      ensures |visited| == img.size
      ensures forall i :: 0 <= i < |visited| ==> visited[i] == i
    {
      visited := [];
      var more := HasNext();
      while more
        invariant Valid() && -1 <= index < img.size
        invariant |visited| == index + 1
        invariant forall i :: 0 <= i < |visited| ==> visited[i] == i
        invariant more <==> index + 1 < img.size
        decreases img.size - index
      {
        Fwd();
        visited := visited + [index];
        more := HasNext();
      }
    }
  }

  /**
   * CellListLocalizingCursor: a cursor that keeps its position as well as its
   * index. Each step carries the position like an odometer, dimension 0
   * turning fastest, each coordinate wrapping from its maximum back to its
   * minimum.
   */
  class CellListLocalizingCursor<T> {
    const img: SingleCellListImg<T>
    const position: array<int>
    const lastIndex: int
    var index: int

    ghost predicate Wf()
      reads this, img, img.min, img.max, img.dimensions, img.steps
    {
      && img.Valid()
      && position.Length == img.n
      && position != img.min && position != img.max && position != img.dimensions && position != img.steps
      && lastIndex == img.size - 1
    }

    /**
     * Before the first step the position is one before the minimum in
     * dimension 0; after it the position is in the box, at the flat index
     * the index stands for (counted round the cell).
     */
    ghost predicate Valid()
      reads this, position, img, img.min, img.max, img.dimensions, img.steps
    {
      && Wf()
      && index >= -1
      && (index == -1 ==> position[..] == BeforeStart(img.min[..]))
      && (index >= 0 ==>
            && img.size > 0
            && InBox(position[..], img.min[..], img.dimensions[..])
            && Linear(position[..], img.min[..], img.steps[..]) == index % img.size)
    }

    /** A new localizing cursor is reset. */
    constructor (img: SingleCellListImg<T>)
      requires img.Valid()
      ensures Valid() && this.img == img && fresh(position)
      ensures index == -1 && lastIndex == img.size - 1
    {
      this.img := img;
      lastIndex := img.size - 1;
      position := new int[img.n];
      new;
      Reset();
    }

    /** The copy constructor: same index, an equal position in a new array. */
    constructor CopyOf(other: CellListLocalizingCursor<T>)
      requires other.Valid()
      ensures Valid() && img == other.img && fresh(position)
      ensures position[..] == other.position[..] && index == other.index && lastIndex == other.lastIndex
    {
      img := other.img;
      lastIndex := other.lastIndex;
      index := other.index;
      var p := new int[other.img.n];
      forall d | 0 <= d < other.img.n {
        p[d] := other.position[d];
      }
      position := p;
      new;
      assert position[..] == other.position[..];
      assert other.Valid();
    }

    /** copy(): a new cursor in the same state. */
    method Copy() returns (c: CellListLocalizingCursor<T>)
      requires Valid()
      ensures fresh(c) && fresh(c.position) && c.Valid() && c.img == img
      ensures c.position[..] == position[..] && c.index == index
    {
      c := new CellListLocalizingCursor.CopyOf(this);
    }

    /** reset(): index -1, position one before the minimum in dimension 0. */
    method Reset()
      requires Wf()
      modifies this, position
      ensures Valid()
      ensures index == -1 && position[..] == BeforeStart(img.min[..])
    {
      index := -1;
      forall d | 0 <= d < img.n {
        position[d] := img.min[d];
      }
      position[0] := position[0] - 1;
      assert position[..] == BeforeStart(img.min[..]);
    }

    /** hasNext(): another entry of the cell follows the current one. */
    method HasNext() returns (b: bool)
      requires Valid()
      ensures b <==> index + 1 < img.size
    {
      b := index < lastIndex;
    }

    /** get(): the entry at the current index. */
    method Get() returns (x: Option<T>)
      requires 0 <= index < |img.data.storage.entries|
      ensures x == img.data.storage.entries[index]
    {
      x := img.data.storage.entries[index];
    }

    /**
     * fwd(): the index moves by one and the position is carried: every
     * coordinate at its maximum wraps to its minimum and the first one below
     * its maximum moves up by one. The for loop of fwd() increments the
     * coordinate inside its condition; here the increment follows the loop.
     */
    method Fwd()
      requires Valid() && img.size > 0
      modifies this, position
      ensures Valid() && index == old(index) + 1
      ensures position[..] == img.PositionOf(index % img.size)
    {
      CarryFwd(position[..], img.min[..], img.max[..], img.dimensions[..], index);
      index := index + 1;
      CarryPosition(position, img.min, img.max);
    }

    /** next(): moves to the next entry and returns it. */
    method Next() returns (x: Option<T>)
      requires Valid() && img.size > 0 && 0 <= index + 1 < |img.data.storage.entries|
      modifies this, position
      ensures Valid() && index == old(index) + 1
      ensures position[..] == img.PositionOf(index % img.size)
      ensures x == img.data.storage.entries[index]
    {
      Fwd();
      x := Get();
    }

    /** jumpFwd(steps): the index moves by steps and the position is computed from it. */
    method JumpFwd(steps: int)
      requires Valid() && 0 <= index + steps < img.size
      modifies this, position
      ensures Valid() && index == old(index) + steps
      ensures position[..] == img.PositionOf(index)
    {
      index := index + steps;
      var p := IndexToPositionWithOffset(index, img.dimensions[..], img.min[..]);
      IndexToPositionInBox(index, img.dimensions[..], img.min[..]);
      ModSmall(index, img.size);
      CopyInto(p, position);
    }
  }

  lemma ModSmall(i: int, m: int)
    requires 0 <= i < m
    ensures i % m == i
  {
  }

  /** The step of dimension d, or the size of the box one past the last dimension. */
  ghost function StepOrSize(dims: seq<int>, d: int): int
    requires 0 <= d <= |dims|
  {
    if d < |dims| then AllocationSteps(dims)[d] else Product(dims)
  }

  /** The reset position of a localizing cursor has flat index -1. */
  lemma LinearBeforeStart(min: seq<int>, dims: seq<int>)
    requires |min| == |dims| >= 1
    ensures Linear(BeforeStart(min), min, AllocationSteps(dims)) == -1
  {
    LinearAtOrigin(min, AllocationSteps(dims));
    LinearUpdate(min, min, AllocationSteps(dims), 0, min[0] - 1);
    AllocationStepsRecurrence(dims, 0);
  }

  /**
   * One carry of the odometer: a coordinate at its maximum wraps to its
   * minimum, and the flat index still owed moves from the step of d to the
   * step of d + 1.
   */
  lemma CarryStep(pos: seq<int>, min: seq<int>, dims: seq<int>, d: int)
    requires |pos| == |min| == |dims| && 0 <= d < |pos|
    requires pos[d] == min[d] + dims[d] - 1
    ensures Linear(pos[d := min[d]], min, AllocationSteps(dims)) + StepOrSize(dims, d + 1)
         == Linear(pos, min, AllocationSteps(dims)) + StepOrSize(dims, d)
  {
    var steps := AllocationSteps(dims);
    AllocationStepsRecurrence(dims, d);
    LinearUpdate(pos, min, steps, d, min[d]);
    assert StepOrSize(dims, d + 1) == steps[d] * dims[d];
    assert (min[d] - pos[d]) * steps[d] == steps[d] - dims[d] * steps[d];
  }

  /** The odometer stops at d: that coordinate moves up by one, and so does the flat index. */
  lemma CarryStop(pos: seq<int>, min: seq<int>, dims: seq<int>, d: int)
    requires |pos| == |min| == |dims| && 0 <= d < |pos|
    ensures Linear(pos[d := pos[d] + 1], min, AllocationSteps(dims))
         == Linear(pos, min, AllocationSteps(dims)) + StepOrSize(dims, d)
  {
    LinearUpdate(pos, min, AllocationSteps(dims), d, pos[d] + 1);
  }

  /**
   * The odometer carry of a localizing cursor from dimension d on: every
   * coordinate at its maximum wraps to its minimum, and the first one below
   * its maximum moves up by one.
   */
  function Carry(pos: seq<int>, min: seq<int>, max: seq<int>, d: nat): (r: seq<int>)
    requires |pos| == |min| == |max| && d <= |pos|
    ensures |r| == |pos|
    decreases |pos| - d
  {
    if d == |pos| then pos
    else if pos[d] + 1 > max[d] then Carry(pos[d := min[d]], min, max, d + 1)
    else pos[d := pos[d] + 1]
  }

  /**
   * Carrying from d, once every coordinate below d has wrapped, either lands
   * in the box with the flat index raised by the step of d, or wraps the
   * whole position to the minimum when that raise reaches the size.
   */
  lemma {:induction false} CarryFrom(pos: seq<int>, min: seq<int>, max: seq<int>, dims: seq<int>, d: nat)
    requires |pos| == |min| == |max| == |dims| && d <= |pos| && Positive(dims)
    requires forall e :: 0 <= e < |pos| ==> max[e] == min[e] + dims[e] - 1
    requires forall e :: 0 <= e < d ==> pos[e] == min[e]
    requires forall e :: d <= e < |pos| ==> min[e] - (if e == 0 then 1 else 0) <= pos[e] <= max[e]
    ensures InBox(Carry(pos, min, max, d), min, dims)
    ensures || Linear(Carry(pos, min, max, d), min, AllocationSteps(dims))
               == Linear(pos, min, AllocationSteps(dims)) + StepOrSize(dims, d)
            || (&& Carry(pos, min, max, d) == min
                && Linear(pos, min, AllocationSteps(dims)) + StepOrSize(dims, d) == Product(dims))
    decreases |pos| - d
  {
    if d == |pos| {
      assert pos == min;
      LinearAtOrigin(min, AllocationSteps(dims));
    } else if pos[d] + 1 > max[d] {
      CarryStep(pos, min, dims, d);
      CarryFrom(pos[d := min[d]], min, max, dims, d + 1);
    } else {
      CarryStop(pos, min, dims, d);
    }
  }

  /**
   * One fwd of a localizing cursor: from the reset position (index -1) or
   * from the position of index k, the carried position is the position of
   * the next index, counted round the cell.
   */
  lemma CarryFwd(pos: seq<int>, min: seq<int>, max: seq<int>, dims: seq<int>, k: int)
    requires |pos| == |min| == |max| == |dims| >= 1 && NonNegative(dims) && Product(dims) > 0
    requires forall e :: 0 <= e < |pos| ==> max[e] == min[e] + dims[e] - 1
    requires k >= -1
    requires k == -1 ==> pos == BeforeStart(min)
    requires k >= 0 ==> InBox(pos, min, dims) && Linear(pos, min, AllocationSteps(dims)) == k % Product(dims)
    ensures InBox(Carry(pos, min, max, 0), min, dims)
    ensures Linear(Carry(pos, min, max, 0), min, AllocationSteps(dims)) == (k + 1) % Product(dims)
    ensures Carry(pos, min, max, 0) == PositionAt((k + 1) % Product(dims), dims, min)
  {
    var size, steps := Product(dims), AllocationSteps(dims);
    ProductPositive(dims);
    AllocationStepsRecurrence(dims, 0);
    assert StepOrSize(dims, 0) == 1;
    var start := Linear(pos, min, steps);
    if k == -1 {
      LinearBeforeStart(min, dims);
    }
    assert start == if k == -1 then -1 else k % size;
    CarryFrom(pos, min, max, dims, 0);
    var r := Carry(pos, min, max, 0);
    LinearBounds(r, min, dims);
    ModSucc(k, size);
    if Linear(r, min, steps) != start + 1 {
      LinearAtOrigin(min, steps);
    }
    assert Linear(r, min, steps) == (k + 1) % size;
    PositionAtLinear(r, min, dims);
  }

  /** Counting one further round a cycle of m: the remainder goes up by one or wraps to zero. */
  lemma ModSucc(i: int, m: int)
    requires i >= -1 && m > 0
    ensures i == -1 ==> (i + 1) % m == 0
    ensures i >= 0 && i % m + 1 < m ==> (i + 1) % m == i % m + 1
    ensures i >= 0 && i % m + 1 == m ==> (i + 1) % m == 0
  {
    if i >= 0 {
      var q, r := i / m, i % m;
      DivMod(i, m);
      if r + 1 < m {
        DivUnique(i + 1, m, q, r + 1);
      } else {
        DivUnique(i + 1, m, q + 1, 0);
      }
    }
  }

  /**
   * The for loop of CellListLocalizingCursor.fwd: from dimension 0 on, a
   * coordinate that steps past its maximum is set back to its minimum and
   * the carry moves on; the first coordinate that stays within its maximum
   * ends the loop. The source increments the coordinate inside the loop
   * condition; here the increment that ends the loop follows it.
   */
  method CarryPosition(position: array<int>, min: array<int>, max: array<int>)
    requires position.Length == min.Length == max.Length
    requires position != min && position != max
    modifies position
    ensures position[..] == Carry(old(position[..]), min[..], max[..], 0)
  {
    ghost var before := position[..];
    var d := 0;
    while d < position.Length && position[d] + 1 > max[d]
      invariant 0 <= d <= position.Length
      invariant Carry(position[..], min[..], max[..], d) == Carry(before, min[..], max[..], 0)
    {
      position[d] := min[d];
      d := d + 1;
    }
    if d < position.Length {
      position[d] := position[d] + 1;
    }
  }

  /**
   * The loop shared by both move(int[]) bodies: each coordinate of position
   * moves by its distance, and delta collects the change of the index.
   */
  method AddDistance(position: array<int>, distance: array<int>, steps: seq<int>) returns (delta: int)
    requires position.Length <= distance.Length && |steps| == position.Length && position != distance
    modifies position
    ensures position[..] == Add(old(position[..]), distance[..position.Length])
    ensures delta == Linear(distance[..position.Length], Zeros(position.Length), steps)
  {
    ghost var before := position[..];
    ghost var dist := distance[..position.Length];
    ghost var zeros := Zeros(position.Length);
    delta := 0;
    for d := 0 to position.Length
      invariant forall e :: 0 <= e < d ==> position[e] == before[e] + dist[e]
      invariant forall e :: d <= e < position.Length ==> position[e] == before[e]
      invariant delta == Linear(dist[..d], zeros[..d], steps[..d])
    {
      LinearPrefixStep(dist, zeros, steps, d);
      position[d] := position[d] + distance[d];
      delta := delta + distance[d] * steps[d];
    }
    assert dist[..position.Length] == dist && zeros[..position.Length] == zeros;
    assert steps[..position.Length] == steps;
  }

  /**
   * Writes the coordinates of p into the first |p| entries of position and
   * leaves the rest alone (IntervalIndexer fills the caller's array).
   */
  method CopyInto(p: seq<int>, position: array<int>)
    requires |p| <= position.Length
    modifies position
    ensures position[..|p|] == p
    ensures position[|p|..] == old(position[|p|..])
    ensures |p| == position.Length ==> position[..] == p
  {
    forall d | 0 <= d < |p| {
      position[d] := p[d];
    }
  }

  /**
   * After move as written, the index is the flat index of the new position
   * exactly when the index before the move was zero.
   */
  lemma MoveAsWrittenIndex(pos: seq<int>, dist: seq<int>, min: seq<int>, steps: seq<int>)
    requires |pos| == |dist| == |min| == |steps|
    ensures Linear(dist, Zeros(|dist|), steps) == Linear(Add(pos, dist), min, steps)
        <==> Linear(pos, min, steps) == 0
  {
    LinearShift(pos, dist, min, steps);
  }

  /**
   * A one-dimensional cell at 0: a random access at position 1 (index 1)
   * moved by distance 1 ends at position 2 but is left at index 1.
   */
  lemma MoveAsWrittenCounterexample()
    ensures Add([1], [1]) == [2]
    ensures Linear([1], Zeros(1), AllocationSteps([4])) == 1
    ensures Linear([2], [0], AllocationSteps([4])) == 2
  {
    assert [4][..0] == [];
    assert Product([]) == 1;
    assert AllocationSteps([4]) == [1];
    assert Zeros(1) == [0];
  }
}
