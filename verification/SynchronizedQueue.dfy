/** The send queue: a linked list whose operations run with its mutex held. */
module SynchronizedQueue {
  import opened Common
  import LinkedList

  class SynchronizedQueue<T(==)> {
    const list: LinkedList.LinkedList<T>
    var locked: bool

    /** The objects the queue is made of. */
    ghost function Repr(): (r: set<object>)
      reads this, list
      ensures this in r && list in r && forall n :: n in list.nodes ==> n in r
    {
      {this, list} + set n | n in list.nodes :: n as object
    }

    ghost predicate Valid()
      reads Repr()
    {
      !locked && list.Valid()
    }

    ghost function Contents(): (r: seq<T>)
      reads Repr()
    {
      list.Contents()
    }

    constructor ()
      ensures Valid() && Contents() == [] && fresh(Repr())
    {
      list := new LinkedList.LinkedList();
      locked := false;
    }

    /** `WaitForSingleObject` on the mutex, and `ReleaseMutex`. */
    method Acquire()
      requires !locked
      modifies `locked
      ensures locked
    {
      locked := true;
    }

    method Release()
      requires locked
      modifies `locked
      ensures !locked
    {
      locked := false;
    }

    /** The two operations on the list; only the holder of the mutex may call them. */
    method AddHeld(data: Option<T>) returns (ok: bool)
      requires locked && list.Valid()
      modifies list, list.nodes
      ensures list.Valid() && ok == data.Some?
      ensures list.Contents() == if ok then old(list.Contents()) + [data.value] else old(list.Contents())
      ensures fresh(Repr() - old(Repr()))
    {
      ok := list.Add(data);
    }

    method RemoveHeld() returns (isEmpty: bool, data: Option<T>)
      requires locked && list.Valid()
      modifies list, list.nodes
      ensures list.Valid() && isEmpty == (old(list.Contents()) == [])
      ensures isEmpty ==> data.None? && list.Contents() == []
      ensures !isEmpty ==> data.Some? && [data.value] + list.Contents() == old(list.Contents())
      ensures Repr() <= old(Repr())
    {
      isEmpty, data := list.RemoveFirst();
    }

    /** `Enqueue`: appends under the mutex, and leaves the mutex free on every path. */
    method Enqueue(data: Option<T>) returns (ok: bool)
      requires Valid()
      modifies Repr()
      ensures Valid() && ok == data.Some?
      ensures Contents() == if ok then old(Contents()) + [data.value] else old(Contents())
      ensures fresh(Repr() - old(Repr()))
    {
      Acquire();
      ok := AddHeld(data);
      Release();
    }

    /** `Dequeue`: takes the oldest entry, or reports the queue empty. */
    method Dequeue() returns (isEmpty: bool, data: Option<T>)
      requires Valid()
      modifies Repr()
      ensures Valid() && isEmpty == (old(Contents()) == [])
      ensures isEmpty ==> data.None? && Contents() == []
      ensures !isEmpty ==> data.Some? && [data.value] + Contents() == old(Contents())
      ensures Repr() <= old(Repr())
    {
      Acquire();
      isEmpty, data := RemoveHeld();
      Release();
    }
  }
}
