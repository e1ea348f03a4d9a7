/** The ring buffer of src/queue.c. A missing element is NULL there and `None` here. */
module RingQueue {
  import opened Common

  /** INT_MAX / sizeof(void*) */
  const MAX_CAPACITY: nat := 0x7FFF_FFFF / 8

  /** The place of the k-th element. */
  function Place(next: nat, k: nat, capacity: nat): nat {
    if next + k >= capacity then next + k - capacity else next + k
  }

  /** The elements in order, oldest first. */
  ghost function Ring<T>(data: seq<T>, next: nat, size: nat): (r: seq<T>)
    requires size <= |data| && (|data| > 0 ==> next < |data|)
    ensures |r| == size
  {
    seq(size, k requires 0 <= k < size => data[Place(next, k, |data|)])
  }

  /** Different elements have different places. */
  lemma PlacesDiffer(next: nat, j: nat, k: nat, capacity: nat)
    requires next < capacity && j < k < capacity
    ensures Place(next, j, capacity) != Place(next, k, capacity)
  {
  }

  lemma RingAdd<T>(data: seq<T>, next: nat, size: nat, x: T)
    requires size < |data| && next < |data|
    ensures Ring(data[Place(next, size, |data|) := x], next, size + 1) == Ring(data, next, size) + [x]
  {
    forall k | 0 <= k < size ensures Place(next, k, |data|) != Place(next, size, |data|) {
      PlacesDiffer(next, k, size, |data|);
    }
  }

  lemma RingRemove<T>(data: seq<T>, next: nat, size: nat)
    requires 0 < size <= |data| && next < |data|
    ensures Ring(data, next, size)[0] == data[next]
    ensures Ring(data, Place(next, 1, |data|), size - 1) == Ring(data, next, size)[1..]
  {
    var after := Ring(data, Place(next, 1, |data|), size - 1);
    forall k | 0 <= k < size - 1 ensures after[k] == Ring(data, next, size)[k + 1] {
      assert Place(Place(next, 1, |data|), k, |data|) == Place(next, k + 1, |data|);
    }
  }

  class Queue<T(0)> {
    const data: array<T>
    const capacity: nat
    var size: nat
    var next: nat

    ghost predicate Valid()
      reads this
    {
      data.Length == capacity && size <= capacity && (capacity > 0 ==> next < capacity)
    }

    ghost function Contents(): seq<T>
      reads this, data
      requires Valid()
    {
      Ring(data[..], next, size)
    }

    constructor (capacity: nat)
      ensures Valid() && this.capacity == capacity && fresh(data) && Contents() == []
    {
      this.capacity := capacity;
      data := new T[capacity];
      size, next := 0, 0;
    }

    /** `queue_at_capacity` */
    predicate AtCapacity()
      reads this
    {
      size >= capacity
    }

    /** `queue_add`: 0, or -1 with the queue as it was. */
    method Add(value: T) returns (rc: int)
      requires Valid()
      modifies this`size, data
      ensures Valid() && rc == if |old(Contents())| < capacity then 0 else -1
      ensures Contents() == if rc == 0 then old(Contents()) + [value] else old(Contents())
    {
      if AtCapacity() {
        return -1;
      }
      var pos := next + size;
      if pos >= capacity {
        pos := pos - capacity;
      }
      RingAdd(data[..], next, size, value);
      data[pos] := value;
      size := size + 1;
      assert data[..] == old(data[..])[pos := value];
      rc := 0;
    }

    /** `queue_remove` */
    method Remove() returns (value: Option<T>)
      requires Valid()
      modifies this`size, this`next
      ensures Valid()
      ensures old(Contents()) == [] ==> value == None && Contents() == []
      ensures old(Contents()) != [] ==> value == Some(old(Contents())[0]) && Contents() == old(Contents())[1..]
    {
      value := None;
      if size > 0 {
        RingRemove(data[..], next, size);
        value := Some(data[next]);
        next := next + 1;
        size := size - 1;
        if next >= capacity {
          next := next - capacity;
        }
      }
    }

    /** `queue_peek` */
    method Peek() returns (value: Option<T>)
      requires Valid()
      ensures value == if Contents() == [] then None else Some(Contents()[0])
    {
      if size != 0 {
        RingRemove(data[..], next, size);
        value := Some(data[next]);
      } else {
        value := None;
      }
    }
  }

  /** `queue_init`: null for a capacity beyond the limit. */
  method QueueInit<T(0)>(capacity: nat) returns (queue: Queue?<T>)
    ensures queue == null <==> capacity > MAX_CAPACITY
    ensures queue != null ==>
      (fresh(queue) && fresh(queue.data) && queue.Valid() && queue.capacity == capacity && queue.Contents() == [])
  {
    if capacity > MAX_CAPACITY {
      return null;
    }
    queue := new Queue(capacity);
  }
}
