/** `OnceCell` of sync/once_cell.rs: a cell that starts empty and can be written once. */
module OnceCells {
  import opened Wrappers

  class OnceCell<T> {
    var data: Option<T>

    /** `OnceCell::new`: an empty cell. */
    constructor ()
      ensures data == None
    {
      data := None;
    }

    /** `set`: panics if the cell holds a value already, leaving that value; otherwise the cell
      * holds `value` from now on. */
    method Set(value: T) returns (r: Outcome<()>)
      modifies this
      ensures old(data).Some? ==> r.Panic? && data == old(data)
      ensures old(data).None? ==> r == Done(()) && data == Some(value)
    {
      if data.Some? {
        return Panic("OnceCell already initialized");
      }
      data := Some(value);
      r := Done(());
    }

    /** `get`: the value, if one was set. */
    function Get(): (r: Option<T>)
      reads this
      ensures r.Some? <==> data.Some?
      ensures r.Some? ==> r == data
    {
      data
    }

    /** `deref`: the value, panicking when the cell is still empty. */
    function Deref(): (r: Outcome<T>)
      reads this
      ensures r.Panic? <==> Get().None?
      ensures r.Done? ==> Get() == Some(r.value)
    {
      match data
      case None => Panic("OnceCell not initialized")
      case Some(v) => Done(v)
    }
  }

  /** Of two `set` calls on an empty cell the first wins: the second panics and the cell keeps
    * the first value, which `get` and `deref` then return. */
  method SetTwice<T>(cell: OnceCell<T>, first: T, second: T) returns (r1: Outcome<()>, r2: Outcome<()>)
    requires cell.Get() == None
    modifies cell
    ensures r1 == Done(()) && r2.Panic?
    ensures cell.Get() == Some(first) && cell.Deref() == Done(first)
  {
    r1 := cell.Set(first);
    r2 := cell.Set(second);
  }
}
