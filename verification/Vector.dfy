/** The growing vector (vector.c).  Addresses of elements are indices here. */
module Vector {
  import opened Wrappers

  class Vector<T> {
    var storage: array?<T>
    var count: nat

    ghost predicate Valid()
      reads this
    {
      count <= if storage == null then 0 else storage.Length
    }

    ghost function Contents(): (s: seq<T>)
      requires Valid()
      reads this, storage
      ensures |s| == count
    {
      if storage == null then [] else storage[..count]
    }

    constructor ()
      ensures Valid() && Contents() == []
    {
      storage, count := null, 0;
    }

    /** VECTOR_move: the new vector takes the storage over and this one starts anew, so that what is
        pushed here later does not reach it. */
    method Move(memory: bool) returns (result: Vector?<T>)
      requires Valid()
      modifies this
      ensures Valid() && (result == null <==> !memory)
      ensures !memory ==> unchanged(this)
      ensures memory ==>
        && fresh(result) && result.Valid() && result.storage == old(storage) && result.Contents() == old(Contents())
        && storage == null && Contents() == []
    {
      result := null;
      if memory {
        result := new Vector();
        result.count := count;
        result.storage := storage;
        storage := null;
        count := 0;
      }
    }

    /** VECTOR_push_back; `memory` is the outcome of the reallocation. */
    method PushBack(elements: seq<T>, memory: bool) returns (ok: bool)
      requires Valid()
      modifies this
      ensures Valid() && ok == (elements != [] && memory)
      ensures ok ==> fresh(storage) && Contents() == old(Contents()) + elements
      ensures !ok ==> unchanged(this)
    {
      if elements == [] || !memory {
        return false;
      }
      var moved := if storage == null then elements else storage[..count] + elements;
      storage := new T[|moved|](i requires 0 <= i < |moved| => moved[i]);
      count := |moved|;
      assert storage[..count] == moved;
      ok := true;
    }

    /** VECTOR_erase from an index on; `shrunk` is the outcome of the reallocation, without which
        the storage stays as large as it was. */
    method Erase(at: nat, numElements: nat, shrunk: bool)
      requires Valid()
      modifies this, storage
      ensures Valid() && (storage == null || storage == old(storage) || fresh(storage))
      ensures numElements == 0 || at + numElements > old(count) ==> unchanged(this) && Contents() == old(Contents())
      ensures numElements > 0 && at + numElements <= old(count) ==>
        Contents() == old(Contents()[..at]) + old(Contents()[at + numElements..])
    {
      if numElements == 0 || at + numElements > count {
        return;
      }
      ghost var rest := Contents()[..at] + Contents()[at + numElements..];
      count := count - numElements;
      if count == 0 {
        storage := null;
      } else {
        forall k | at <= k < count {
          storage[k] := storage[k + numElements];
        }
        assert storage[..count] == rest;
        if shrunk {
          var kept := storage[..count];
          storage := new T[count](i requires 0 <= i < |kept| => kept[i]);
          assert storage[..count] == kept;
        }
      }
    }

    /** VECTOR_clear. */
    method Clear()
      modifies this
      ensures Valid() && Contents() == [] && storage == null
    {
      storage := null;
      count := 0;
    }

    /** VECTOR_element. */
    method Element(index: nat) returns (element: Option<T>)
      requires Valid()
      ensures element == if index < |Contents()| then Some(Contents()[index]) else None
    {
      element := if index >= count then None else Some(storage[index]);
    }

    /** VECTOR_find_if: the first element that matches, or the count for NULL. */
    method FindIf(pred: T -> bool) returns (i: nat)
      requires Valid()
      ensures i <= |Contents()| && (i < |Contents()| ==> pred(Contents()[i]))
      ensures forall k :: 0 <= k < i ==> !pred(Contents()[k])
    {
      i := 0;
      while i < count && !pred(storage[i])
        invariant 0 <= i <= count && forall k :: 0 <= k < i ==> !pred(Contents()[k])
      {
        i := i + 1;
      }
    }
  }

  /** What a vector taken over holds is out of reach of later operations on its source. */
  method TakenApart<T>(v: Vector<T>, later: seq<T>) returns (taken: Vector?<T>)
    requires v.Valid() && later != []
    modifies v
    ensures v.Valid() && v.Contents() == later
    ensures taken != null && taken.Valid() && taken.Contents() == old(v.Contents())
  {
    taken := v.Move(true);
    var ok := v.PushBack(later, true);
  }
}
