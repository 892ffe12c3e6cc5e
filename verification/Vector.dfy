/** The growable array under the run queues (inc/common/vector.h), for element types that are copied byte by byte. */
module Vectors {
  import opened Memory

  /** How full and how large a vector is, and how many elements its growth has copied so far. */
  datatype Size = Size(count: nat, capacity: nat, copied: nat)

  /** `EnsureCapacity`: it grows as soon as the request reaches the capacity, and copies the whole old block. */
  function Grown(s: Size, size: nat): Size {
    if size >= s.capacity then Size(s.count, s.capacity + 2 * size + 1, s.copied + s.capacity) else s
  }

  function Pushed(s: Size): Size {
    Grown(s, s.count + 1).(count := s.count + 1)
  }

  /** The first occurrence goes. */
  function Remove<T(==)>(elements: seq<T>, val: T): seq<T> {
    if elements == [] then []
    else if elements[0] == val then elements[1..]
    else [elements[0]] + Remove(elements[1..], val)
  }

  lemma {:induction false} RemoveAt<T>(elements: seq<T>, val: T, i: nat)
    requires i < |elements| && elements[i] == val && val !in elements[..i]
    ensures Remove(elements, val) == elements[..i] + elements[i + 1..]
  {
    if i > 0 {
      assert elements[0] in elements[..i];
      assert elements[1..][..i - 1] == elements[..i][1..];
      RemoveAt(elements[1..], val, i - 1);
    }
  }

  lemma {:induction false} RemoveNone<T>(elements: seq<T>, val: T)
    ensures val !in elements ==> Remove(elements, val) == elements
  {
    if elements != [] {
      RemoveNone(elements[1..], val);
    }
  }

  class Vector<T(==)> {
    var data: array?<T>
    var count: nat
    var capacity: nat
    var lock: bool
    /** What new memory holds. */
    const zero: T
    ghost var copied: nat

    ghost predicate Valid()
      reads this
    {
      count <= capacity && if data == null then capacity == 0 else data.Length == capacity
    }

    function Elements(): seq<T>
      requires Valid()
      reads this, data
    {
      if data == null then [] else data[..count]
    }

    ghost function Sizes(): Size
      reads this
    {
      Size(count, capacity, copied)
    }

    constructor (blank: T)
      ensures Valid() && Elements() == [] && !lock && Sizes() == Size(0, 0, 0) && data == null && zero == blank
    {
      data, count, capacity, lock, zero, copied := null, 0, 0, false, blank, 0;
    }

    method EnsureCapacity(size: nat)
      requires Valid()
      modifies `data, `capacity, `copied
      ensures Valid() && Sizes() == old(Grown(Sizes(), size)) && capacity > size && count == old(count)
      ensures capacity == if size < old(capacity) then old(capacity) else old(capacity) + 2 * size + 1
      ensures copied == old(copied) + if size < old(capacity) then 0 else old(capacity)
      ensures data != null && (data == old(data) || fresh(data))
      ensures Elements() == old(Elements())
    {
      if size >= capacity {
        var newCapacity := capacity + 2 * size + 1;
        var bigger := new T[newCapacity](_ => zero);
        if data != null {
          Memcpy(bigger, 0, data, 0, capacity);
        }
        copied := copied + capacity;
        data, capacity := bigger, newCapacity;
      }
    }

    method AddBack(val: T)
      requires Valid()
      modifies this, data
      ensures Valid() && Elements() == old(Elements()) + [val] && Sizes() == old(Pushed(Sizes())) && !lock
      ensures capacity == if old(count) + 1 < old(capacity) then old(capacity) else old(capacity) + 2 * old(count) + 3
      ensures data != null && (data == old(data) || fresh(data))
    {
      lock := true;
      EnsureCapacity(count + 1);
      data[count] := val;
      count := count + 1;
      lock := false;
    }

    method EraseUnlocked(pos: nat)
      requires Valid() && pos < count
      modifies `count, data
      ensures Valid() && count == old(count) - 1
      ensures Elements() == old(Elements()[..pos] + Elements()[pos + 1..])
    {
      ghost var was := data[..];
      Memcpy(data, pos, data, pos + 1, count - pos - 1);
      assert data[..] == Over(was, pos, was[pos + 1..count]);
      count := count - 1;
    }

    method Erase(pos: nat)
      requires Valid() && pos < count
      modifies `count, `lock, data
      ensures Valid() && !lock && Elements() == old(Elements()[..pos] + Elements()[pos + 1..])
    {
      lock := true;
      EraseUnlocked(pos);
      lock := false;
    }

    /** The first occurrence goes; the lock stays taken exactly when there was one. */
    method RemoveFirst(val: T)
      requires Valid()
      modifies `count, `lock, data
      ensures Valid() && Elements() == old(Remove(Elements(), val))
      ensures lock == (val in old(Elements()))
    {
      lock := true;
      RemoveNone(Elements(), val);
      for i := 0 to count
        invariant Valid() && lock && Elements() == old(Elements()) && val !in Elements()[..i]
      {
        if data[i] == val {
          RemoveAt(Elements(), val, i);
          EraseUnlocked(i);
          return;
        }
      }
      lock := false;
    }

    method Reserve(size: nat)
      requires Valid()
      modifies `data, `capacity, `copied, `lock
      ensures Valid() && Elements() == old(Elements()) && Sizes() == old(Grown(Sizes(), size)) && !lock
    {
      lock := true;
      EnsureCapacity(size);
      lock := false;
    }

    method Resize(newSize: nat)
      requires Valid()
      modifies this, data
      ensures Valid() && !lock && Sizes() == old(Grown(Sizes(), newSize)).(count := newSize) && |Elements()| == newSize
      ensures Elements() == if newSize <= old(count) then old(Elements())[..newSize]
                            else old(Elements()) + seq(newSize - old(count), _ => zero)
    {
      lock := true;
      EnsureCapacity(newSize);
      var oldCount := count;
      count := newSize;
      if count > oldCount {
        for i := oldCount to count
          invariant Valid() && count == newSize && data != null && (data == old(data) || fresh(data))
          invariant Sizes() == old(Grown(Sizes(), newSize)).(count := newSize)
          invariant data[..oldCount] == old(Elements()) && forall k :: oldCount <= k < i ==> data[k] == zero
        {
          data[i] := zero;
        }
      }
      lock := false;
    }

    method PopBack() returns (r: T)
      requires Valid() && count > 0
      modifies `count
      ensures Valid() && Elements() + [r] == old(Elements())
    {
      count := count - 1;
      r := data[count];
    }

    method Clear()
      modifies this
      ensures Valid() && Elements() == [] && !lock && capacity == 0
    {
      lock := true;
      count, capacity := 0, 0;
      data := null;
      lock := false;
    }

    /** The loop of the copy constructor. */
    method CopyFrom(elements: seq<T>)
      requires Valid() && data != null && |elements| <= capacity
      modifies data
      ensures Valid() && data[..|elements|] == elements
    {
      for i := 0 to |elements|
        invariant forall k :: 0 <= k < i ==> data[k] == elements[k]
      {
        data[i] := elements[i];
      }
    }

    /** The copy constructor copies the elements and leaves the count at 0, so the copy is empty whatever is copied. */
    constructor Copy(elements: seq<T>, blank: T)
      ensures Valid() && |elements| < capacity && data != null && data[..|elements|] == elements
      ensures Elements() == []
    {
      data, count, capacity, lock, zero, copied := null, 0, 0, false, blank, 0;
      new;
      EnsureCapacity(|elements|);
      CopyFrom(elements);
    }
  }

  // ---------- the cost of growing ----------

  /** What happens to a run queue: an element is added or taken away. */
  datatype Use = Add | Take

  function After(s: Size, u: Use): Size {
    match u
    case Add => Pushed(s)
    case Take => if s.count > 0 then s.(count := s.count - 1) else s
  }

  function Run(uses: seq<Use>): Size {
    if uses == [] then Size(0, 0, 0) else After(Run(uses[..|uses| - 1]), uses[|uses| - 1])
  }

  function Adds(uses: seq<Use>): nat {
    if uses == [] then 0 else Adds(uses[..|uses| - 1]) + if uses[|uses| - 1].Add? then 1 else 0
  }

  /** Each growth at least triples the capacity, and so all growth together copies at most 3n/2 elements for n added. */
  lemma {:induction false} CopiesAtMost(uses: seq<Use>)
    ensures var s, n := Run(uses), Adds(uses);
            && s.count <= n
            && (s.capacity == 0 || (s.count < s.capacity && 2 * s.copied + 3 <= s.capacity <= 3 * n + 1))
            && (s.capacity == 0 ==> s.count == 0 && s.copied == 0)
            && 2 * s.copied <= 3 * n
  {
    if uses != [] {
      CopiesAtMost(uses[..|uses| - 1]);
    }
  }
}
