/** The fixed array that holds a node's log entries. */
module RingBuffers {

  const RING_SIZE: nat := 262144

  predicate HasRoom<T>(held: seq<T>) {
    |held| + 1 < RING_SIZE
  }

  function Min(a: nat, b: nat): nat {
    if a <= b then a else b
  }

  /** The elements left when up to count are taken off the end. */
  function Shortened<T>(held: seq<T>, count: nat): (r: seq<T>)
    ensures r <= held
    ensures |r| == if count <= |held| then |held| - count else 0
  {
    held[..|held| - Min(count, |held|)]
  }

  class RingBufferQueue<T> {
    const data: array<T>
    var head: nat
    var tail: nat

    /** Nothing is ever taken from the front, so the elements stand at 1, 2, ... and never wrap around. */
    ghost predicate Valid()
      reads this
    {
      data.Length == RING_SIZE && tail == 0 && head < RING_SIZE
    }

    ghost function Held(): (held: seq<T>)
      reads this, data
      requires Valid()
      ensures |held| == head
    {
      data[1..head + 1]
    }

    /** The slots start with some default element. */
    constructor (blank: T)
      ensures Valid() && Held() == [] && fresh(data)
      ensures forall i :: 0 <= i < data.Length ==> data[i] == blank
    {
      data := new T[RING_SIZE](_ => blank);
      head, tail := 0, 0;
    }

    method PushBack(x: T) returns (ok: bool)
      requires Valid()
      modifies this`head, data
      ensures Valid() && ok == HasRoom(old(Held()))
      ensures Held() == if ok then old(Held()) + [x] else old(Held())
      ensures forall i :: head < i < data.Length ==> data[i] == old(data[i])
    {
      if (head + 1) % RING_SIZE == tail {
        return false;
      }
      head := head + 1;
      data[head] := x;
      return true;
    }

    /** Takes up to count elements off the end and says how many. */
    method Truncate(count: nat) returns (removed: nat)
      requires Valid()
      modifies this`head
      ensures Valid() && Held() == Shortened(old(Held()), count)
      ensures removed == old(head) - head
    {
      if tail == head {
        return 0;
      }
      var maxCount := head - tail;
      removed := Min(count, maxCount);
      head := head - removed;
    }

    /** Counted from the front; a slot that holds no element is read all the same. */
    function At(i: nat): (x: T)
      reads this, data
      requires Valid() && i + 1 < RING_SIZE
      ensures i < |Held()| ==> x == Held()[i]
    {
      data[tail + i + 1]
    }

    /** Counted from the back. */
    function RAt(i: nat): (x: T)
      reads this, data
      requires Valid() && i <= head
      ensures i < |Held()| ==> x == Held()[|Held()| - 1 - i]
    {
      data[head - i]
    }

    /** Both ways of counting reach the same slot. */
    lemma SameSlot(i: nat)
      requires Valid() && i < |Held()|
      ensures At(i) == RAt(|Held()| - 1 - i)
    {
      assert Held()[i] == data[tail + i + 1];
    }
  }
}
