/**
 * The list storage of a cell: the access flags a cached image is created
 * with, the four list variants ListDataAccessFactory chooses between, the
 * list object a cell's pixels live in, and the dirty flag handed to a cell.
 */
module ListDataAccess {
  import opened Wrappers

  /** AccessFlags: a cached list image may be dirty-tracking, volatile, both or neither. */
  datatype AccessFlag = DIRTY | VOLATILE

  /** AccessFlags.isDirty: the flag set asks for dirty tracking. */
  predicate IsDirty(flags: seq<AccessFlag>)
  {
    DIRTY in flags
  }

  /** AccessFlags.isVolatile: the flag set asks for volatile (possibly invalid) lists. */
  predicate IsVolatile(flags: seq<AccessFlag>)
  {
    VOLATILE in flags
  }

  /**
   * A list access as a value: which of the four list classes it is, how many
   * entries it has and, for the volatile classes, whether it is valid.
   */
  datatype ListAccess =
    | PlainList(numEntities: nat)
    | DirtyList(numEntities: nat)
    | VolatileList(numEntities: nat, isValid: bool)
    | DirtyVolatileList(numEntities: nat, isValid: bool)
  {
    /** The list class implements the Dirty interface. */
    predicate IsDirtyCapable()
    {
      DirtyList? || DirtyVolatileList?
    }

    /** The list class is a volatile access. */
    predicate IsVolatileAccess()
    {
      VolatileList? || DirtyVolatileList?
    }

    /** createList(n): a list of the same class with n entries (a volatile list keeps its validity). */
    function CreateList(n: nat): (a: ListAccess)
      ensures a.numEntities == n
      ensures a.IsDirtyCapable() == IsDirtyCapable() && a.IsVolatileAccess() == IsVolatileAccess()
      ensures a.IsVolatileAccess() ==> a.isValid == isValid
    {
      match this
      case PlainList(_) => PlainList(n)
      case DirtyList(_) => DirtyList(n)
      case VolatileList(_, valid) => VolatileList(n, valid)
      case DirtyVolatileList(_, valid) => DirtyVolatileList(n, valid)
    }
  }

  /**
   * The class a list is seen as once dirty tracking is stripped off: the
   * same list without the Dirty interface.
   */
  function Clean(a: ListAccess): (c: ListAccess)
    ensures !c.IsDirtyCapable() && c.numEntities == a.numEntities
    ensures c.IsVolatileAccess() == a.IsVolatileAccess()
    ensures c.IsVolatileAccess() ==> c.isValid == a.isValid
    ensures !a.IsDirtyCapable() ==> c == a
  {
    match a
    case DirtyList(n) => PlainList(n)
    case DirtyVolatileList(n, valid) => VolatileList(n, valid)
    case _ => a
  }

  /**
   * ListDataAccessFactory.get: the empty list whose class matches the flags.
   * The choice is total: every flag set yields one of the four classes.
   */
  function Get(flags: seq<AccessFlag>): (a: ListAccess)
    ensures a.numEntities == 0
    ensures a.IsDirtyCapable() <==> IsDirty(flags)
    ensures a.IsVolatileAccess() <==> IsVolatile(flags)
    ensures a.IsVolatileAccess() ==> a.isValid
  {
    var dirty := IsDirty(flags);
    var volatil := IsVolatile(flags);
    if dirty then
      (if volatil then DirtyVolatileList(0, true) else DirtyList(0))
    else
      (if volatil then VolatileList(0, true) else PlainList(0))
  }

  /** The factory's result depends on nothing but the two flags, not on their order or repetition. */
  lemma GetDependsOnlyOnFlags(flags: seq<AccessFlag>, other: seq<AccessFlag>)
    requires IsDirty(flags) == IsDirty(other) && IsVolatile(flags) == IsVolatile(other)
    ensures Get(flags) == Get(other)
  {
  }

  /**
   * The backing store of a list: the entries themselves (None: not yet set).
   * Two list objects may share one store, as a list and a view of it do.
   */
  class ListStorage<T> {
    var entries: seq<Option<T>>

    /** A store of n unset entries. */
    constructor (n: nat)
      ensures |entries| == n && forall i :: 0 <= i < n ==> entries[i] == None
    {
      entries := seq(n, i => None);
    }
  }

  /**
   * A list object of a cell: its class (access), the store its entries live
   * in, and, for the Dirty classes, the dirty bit.
   */
  class CellList<T> {
    const access: ListAccess
    const storage: ListStorage<T>
    var dirty: bool

    ghost predicate Valid()
      reads this, storage
    {
      |storage.entries| == access.numEntities
    }

    /** creator.createList(numEntities): a fresh, clean list of numEntities unset entries. */
    constructor CreateList(creator: ListAccess, numEntities: nat)
      ensures Valid() && fresh(storage)
      ensures access == creator.CreateList(numEntities)
      ensures |storage.entries| == numEntities && forall i :: 0 <= i < numEntities ==> storage.entries[i] == None
      ensures !dirty
    {
      access := creator.CreateList(numEntities);
      storage := new ListStorage(numEntities);
      dirty := false;
    }

    /** A list of class view that works on the entries of an existing store. */
    constructor View(view: ListAccess, shared: ListStorage<T>)
      requires |shared.entries| == view.numEntities
      ensures Valid() && access == view && storage == shared && !dirty
    {
      access := view;
      storage := shared;
      dirty := false;
    }

    /**
     * setValue(index, value): replaces one entry and nothing else; a list
     * of a Dirty class is flagged dirty by the write.
     */
    method SetValue(index: nat, value: T)
      requires Valid() && index < |storage.entries|
      modifies this, storage
      ensures Valid()
      ensures storage.entries == old(storage.entries)[index := Some(value)]
      ensures dirty == (old(dirty) || access.IsDirtyCapable())
    {
      storage.entries := storage.entries[index := Some(value)];
      if access.IsDirtyCapable() {
        dirty := true;
      }
    }

    /** Dirty.setDirty on a dirty-capable list. */
    method SetDirty()
      requires access.IsDirtyCapable()
      modifies this
      ensures dirty && storage.entries == old(storage.entries)
    {
      dirty := true;
    }
  }

  /**
   * The Dirty object a cell reports its modifications to: either the cell's
   * own dirty-capable list, or an inert flag that ignores setDirty.
   */
  datatype DirtyFlag<T> = Inert | ForwardTo(list: CellList<T>)
  {
    /** The objects setDirty may change. */
    function Target(): set<object>
    {
      if ForwardTo? then {list} else {}
    }

    /** The flag points only at a list that implements Dirty. */
    predicate Wf()
    {
      ForwardTo? ==> list.access.IsDirtyCapable()
    }

    /** isDirty: the forwarded list's bit, or always false for the inert flag. */
    function IsDirtyNow(): (b: bool)
      reads Target()
      ensures b ==> ForwardTo?
      ensures ForwardTo? ==> b == list.dirty
    {
      ForwardTo? && list.dirty
    }

    /** setDirty: marks the forwarded list dirty and changes nothing for the inert flag. */
    method SetDirty()
      requires Wf()
      modifies Target()
      ensures ForwardTo? ==> list.dirty && list.storage.entries == old(list.storage.entries)
    {
      if ForwardTo? {
        list.SetDirty();
      }
    }
  }
}
