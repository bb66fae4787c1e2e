/**
 * The dynamic array Vector<T>: a heap buffer `data`, the capacity the vector
 * records and the number of elements `count`. A null buffer is modelled as a
 * zero-length array. The char Vector of the earlier exercise has the same
 * insert, erase, push_back, pop_back, clear, at and comparison code; where it
 * differs (move construction, copy assignment, `+=`) it is modelled in
 * module CharVector.
 */
module GenericVector {
  import opened SeqOps

  /**
   * mycopy: copies the range [first, last) of `src` to `dst` from `dFirst`
   * on and returns the position one past the last element written. The
   * callers never copy a range onto itself.
   */
  method MyCopy<T>(src: array<T>, first: nat, last: nat, dst: array<T>, dFirst: nat) returns (dLast: nat)
    requires first <= last <= src.Length && dFirst + (last - first) <= dst.Length
    requires src == dst ==> last <= dFirst
    modifies dst
    ensures dLast == dFirst + (last - first)
    ensures dst[dFirst..dLast] == old(src[first..last])
    ensures forall k :: 0 <= k < dst.Length && !(dFirst <= k < dLast) ==> dst[k] == old(dst[k])
  {
    var i, j := first, dFirst;
    while i != last
      invariant first <= i <= last && j == dFirst + (i - first)
      invariant dst[dFirst..j] == old(src[first..i])
      invariant forall k :: i <= k < last ==> src[k] == old(src[k])
      invariant forall k :: 0 <= k < dst.Length && !(dFirst <= k < j) ==> dst[k] == old(dst[k])
    {
      dst[j] := src[i];
      i, j := i + 1, j + 1;
    }
    dLast := j;
  }

  /**
   * resize: a new buffer of `newSize` elements holding the first
   * min(currentSize, newSize) elements of `base`; `base` itself when the
   * size does not change.
   */
  method Resize<T(0)>(base: array<T>, currentSize: nat, newSize: nat) returns (r: array<T>)
    requires currentSize <= base.Length
    ensures currentSize == newSize ==> r == base
    ensures currentSize != newSize ==> fresh(r) && r.Length == newSize
    ensures var n := if newSize < currentSize then newSize else currentSize;
            n <= r.Length && r[..n] == base[..n]
  {
    r := base;
    if currentSize != newSize {
      var tmp := new T[newSize];
      var n := if newSize < currentSize then newSize else currentSize;
      var _ := MyCopy(base, 0, n, tmp, 0);
      r := tmp;
    }
  }

  /**
   * The capacity insert and push_back settle on: there is always room for
   * one more element, the capacity is kept while the vector is not full and
   * doubled when it is (an empty buffer first counts as one slot).
   */
  function GrowCapacity(capacity: nat, count: nat): (c: nat)
    requires count <= capacity
    ensures count < c && capacity <= c
    ensures count < capacity ==> c == capacity
    ensures 0 < count == capacity ==> c == 2 * capacity
  {
    var atLeastOne := if capacity == 0 then 1 else capacity;
    if count >= atLeastOne then 2 * atLeastOne else atLeastOne
  }

  /**
   * The capacity erase settles on: doubled when the vector is full or has
   * a single free slot, kept otherwise.
   */
  function EraseCapacity(capacity: nat, count: nat): (c: nat)
    ensures c == capacity || c == 2 * capacity
    ensures count + 1 < capacity ==> c == capacity
    ensures 0 < capacity <= count + 1 ==> c == 2 * capacity
  {
    if capacity != 0 && count + 1 >= capacity then 2 * capacity else capacity
  }

  /**
   * The copying half of insert: a new buffer of `capacity` slots holding the
   * first `n` elements of `src` with `value` placed before index `pos`.
   */
  method InsertedCopy<T(0)>(src: array<T>, n: nat, pos: nat, value: T, capacity: nat) returns (dst: array<T>)
    requires pos <= n <= src.Length && n < capacity
    ensures fresh(dst) && dst.Length == capacity
    ensures dst[..n + 1] == InsertAt(src[..n], pos, value)
  {
    dst := new T[capacity];
    if n != 0 {
      for i := 0 to pos
        modifies dst
        invariant dst[..i] == src[..i]
      {
        dst[i] := src[i];
      }
      dst[pos] := value;
      for i := pos to n
        modifies dst
        invariant dst[..pos] == src[..pos] && dst[pos] == value
        invariant forall k :: pos < k <= i ==> dst[k] == src[k - 1]
      {
        dst[i + 1] := src[i];
      }
    } else {
      dst[0] := value;
    }
    assert dst[..n + 1] == src[..pos] + [value] + src[pos..n];
  }

  /**
   * The copying half of erase: a new buffer of `capacity` slots holding the
   * first `n` elements of `src` without the one at index `pos`.
   */
  method RemovedCopy<T(0)>(src: array<T>, n: nat, pos: nat, capacity: nat) returns (dst: array<T>)
    requires pos < n <= src.Length && n <= capacity
    ensures fresh(dst) && dst.Length == capacity
    ensures dst[..n - 1] == RemoveAt(src[..n], pos)
  {
    dst := new T[capacity];
    for i := 0 to pos
      modifies dst
      invariant dst[..i] == src[..i]
    {
      dst[i] := src[i];
    }
    for i := pos to n - 1
      modifies dst
      invariant dst[..pos] == src[..pos]
      invariant forall k :: pos <= k < i ==> dst[k] == src[k + 1]
    {
      dst[i] := src[i + 1];
    }
    assert dst[..n - 1] == src[..pos] + src[pos + 1..n];
  }

  class Vector<T(0)> {
    var data: array<T>
    var capacity: nat
    var count: nat

    /** The buffer has the recorded capacity and holds the elements. */
    ghost predicate Valid()
      reads this
    {
      count <= capacity == data.Length
    }

    /** The elements, in order. */
    ghost function Elements(): seq<T>
      reads this, data
      requires Valid()
    {
      data[..count]
    }

    /** Vector(count, value): `n` copies of `value`, with capacity `n`. */
    constructor (n: nat, value: T)
      ensures Valid() && fresh(data) && capacity == n
      ensures Elements() == seq(n, _ => value)
    {
      var a := new T[n];
      for i := 0 to n
        modifies a
        invariant a[..i] == seq(i, _ => value)
      {
        a[i] := value;
      }
      data := a;
      capacity, count := n, n;
    }

    /** Vector(const Vector&): the same elements and capacity in a buffer of its own. */
    constructor Copy(other: Vector<T>)
      requires other.Valid()
      ensures Valid() && fresh(data)
      ensures capacity == other.capacity && Elements() == other.Elements()
    {
      data := new T[other.capacity];
      capacity, count := other.capacity, other.count;
      new;
      var _ := MyCopy(other.data, 0, other.count, data, 0);
    }

    /** Vector(Vector&&): takes over the buffer of `other`, which is left empty with capacity 0. */
    constructor Move(other: Vector<T>)
      requires other.Valid()
      modifies other
      ensures Valid() && other.Valid()
      ensures data == old(other.data) && capacity == old(other.capacity) && Elements() == old(other.Elements())
      ensures other.capacity == 0 && other.Elements() == []
    {
      data, capacity, count := other.data, other.capacity, other.count;
      new;
      var none := new T[0];
      other.data, other.capacity, other.count := none, 0, 0;
    }

    /**
     * operator=(const Vector&): the elements of `other`. The buffer is
     * replaced, with capacity other.size(), only when the sizes differ.
     */
    method AssignCopy(other: Vector<T>)
      requires Valid() && other.Valid()
      requires other == this || data != other.data
      modifies this, data
      ensures Valid() && Elements() == old(other.Elements())
      ensures other != this && old(count) != old(other.count) ==> fresh(data) && capacity == count
      ensures other == this || old(count) == old(other.count) ==> data == old(data) && capacity == old(capacity)
    {
      if this != other {
        if count != other.count {
          data := new T[other.count];
          capacity := other.count;
        }
        var _ := MyCopy(other.data, 0, other.count, data, 0);
        count := other.count;
      }
    }

    /** operator=(Vector&&): takes over the buffer of `other`, which is left empty with capacity 0. */
    method AssignMove(other: Vector<T>)
      requires Valid() && other.Valid()
      modifies this, other
      ensures Valid() && other.Valid()
      ensures Elements() == old(other.Elements()) && capacity == old(other.capacity)
      ensures other != this ==> other.capacity == 0 && other.Elements() == []
    {
      if this != other {
        data, capacity, count := other.data, other.capacity, other.count;
        var none := new T[0];
        other.data, other.capacity, other.count := none, 0, 0;
      }
    }

    /**
     * operator+=(const Vector&): appends the elements of `other`, which may be
     * this vector itself. When they do not fit, the buffer is reallocated to
     * exactly the combined size.
     */
    method Append(other: Vector<T>)
      requires Valid() && other.Valid()
      requires other == this || data != other.data
      modifies this, data
      ensures Valid()
      ensures Elements() == old(Elements()) + old(other.Elements())
      ensures capacity == if old(count + other.count) > old(capacity) then old(count + other.count) else old(capacity)
    {
      var minReqd := count + other.count;
      if minReqd > capacity {
        Reallocate(minReqd);
      }
      AppendInPlace(other);
    }

    /** The reallocation step of `+=`: a new buffer of `newCapacity` slots holding the same elements. */
    method Reallocate(newCapacity: nat)
      requires Valid() && count < newCapacity
      modifies this
      ensures Valid() && fresh(data) && capacity == newCapacity
      ensures count == old(count) && Elements() == old(Elements())
    {
      capacity := newCapacity;
      data := Resize(data, count, capacity);
    }

    /** The copying step of `+=`, once the elements of `other` fit after those of this vector. */
    method AppendInPlace(other: Vector<T>)
      requires Valid() && other.Valid() && count + other.count <= capacity
      requires other == this || data != other.data
      modifies this, data
      ensures Valid() && capacity == old(capacity) && data == old(data)
      ensures Elements() == old(Elements()) + old(other.Elements())
    {
      var n, m := count, other.count;
      ghost var mine, added := data[..n], other.data[..m];
      var _ := MyCopy(other.data, 0, m, data, n);
      assert data[..n] == mine by {
        assert forall k :: 0 <= k < n ==> data[k] == old(data[k]);
      }
      count := n + m;
      assert data[..count] == data[..n] + data[n..n + m];
    }

    /** at(pos): the element at `pos`; the bound is asserted. */
    function At(pos: nat): (x: T)
      reads this, data
      requires Valid() && pos < count
      ensures x == Elements()[pos]
    {
      data[pos]
    }

    /** front(): the first element of a non-empty vector. */
    function Front(): (x: T)
      reads this, data
      requires Valid() && count > 0
      ensures x == Elements()[0]
    {
      data[0]
    }

    /** back(): the last element of a non-empty vector. */
    function Back(): (x: T)
      reads this, data
      requires Valid() && count > 0
      ensures x == Elements()[|Elements()| - 1]
    {
      data[count - 1]
    }

    /** empty(): there are no elements. */
    function Empty(): (b: bool)
      reads this, data
      requires Valid()
      ensures b <==> Elements() == []
    {
      count == 0
    }

    /** size(): the number of elements. */
    function Size(): (n: nat)
      reads this, data
      requires Valid()
      ensures n == |Elements()|
    {
      count
    }

    /** capacity(): the recorded capacity, never below the size. */
    function Capacity(): (c: nat)
      reads this, data
      requires Valid()
      ensures c == data.Length && |Elements()| <= c
    {
      capacity
    }

    /**
     * insert(pos, value): `value` goes in before index `pos` (last when
     * `pos` is the size) in a new buffer; the result is `pos`.
     */
    method Insert(pos: nat, value: T) returns (idx: nat)
      requires Valid() && pos <= count
      modifies this
      ensures Valid() && fresh(data)
      ensures idx == pos && Elements() == InsertAt(old(Elements()), pos, value)
      ensures capacity == GrowCapacity(old(capacity), old(count))
    {
      if capacity == 0 {
        capacity := capacity + 1;
      }
      if count >= capacity {
        capacity := capacity * 2;
      }
      data := InsertedCopy(data, count, pos, value, capacity);
      count := count + 1;
      idx := pos;
    }

    /**
     * erase(pos): removes the element at `pos` into a new buffer; the result
     * is `pos`. A vector with no buffer at all (capacity 0) is left alone.
     */
    method Erase(pos: nat) returns (idx: nat)
      requires Valid() && (pos < count || (capacity == 0 && pos == 0))
      modifies this
      ensures Valid() && idx == pos
      ensures old(capacity) == 0 ==> data == old(data) && capacity == 0 && count == 0
      ensures old(capacity) != 0 ==> fresh(data) && Elements() == RemoveAt(old(Elements()), pos)
      ensures capacity == EraseCapacity(old(capacity), old(count))
    {
      if capacity != 0 {
        if count + 1 >= capacity {
          capacity := capacity * 2;
        }
        data := RemovedCopy(data, count, pos, capacity);
        count := count - 1;
      }
      idx := pos;
    }

    /**
     * clear(): no elements are left, and every slot of the buffer is
     * overwritten with `filler` (the source writes the character 'A').
     */
    method Clear(filler: T)
      requires Valid()
      modifies this, data
      ensures Valid() && data == old(data) && capacity == old(capacity)
      ensures Elements() == [] && data[..] == seq(capacity, _ => filler)
    {
      for i := 0 to capacity
        modifies data
        invariant data[..i] == seq(i, _ => filler)
      {
        data[i] := filler;
      }
      count := 0;
    }

    /** push_back(value): `value` becomes the last element, in a new buffer. */
    method PushBack(value: T)
      requires Valid()
      modifies this
      ensures Valid() && fresh(data)
      ensures Elements() == old(Elements()) + [value]
      ensures capacity == GrowCapacity(old(capacity), old(count))
    {
      if capacity == 0 {
        capacity := capacity + 1;
      }
      if count >= capacity {
        capacity := capacity * 2;
      }
      var old_data, n := data, count;
      var newData := new T[capacity];
      for i := 0 to n
        modifies newData
        invariant newData[..i] == old_data[..i]
      {
        newData[i] := old_data[i];
      }
      newData[n] := value;
      data := newData;
      count := n + 1;
    }

    /**
     * pop_back() as written: a capacity of 0 first becomes 1 and a full
     * vector's capacity doubles; then, only when the vector is not empty,
     * the elements but the last move to a new buffer of that capacity and
     * the slot just past the old last element is set to `filler` (the
     * source writes the character 'A'). On an empty vector with capacity 0
     * the recorded capacity becomes 1 while the buffer keeps its 0 slots.
     */
    method PopBackAsWritten(filler: T)
      requires Valid()
      modifies this
      ensures old(count) == 0 ==> data == old(data) && count == 0
      ensures old(count) == 0 ==> capacity == if old(capacity) == 0 then 1 else old(capacity)
      ensures old(count) == 0 && old(capacity) == 0 ==> data.Length < capacity && !Valid()
      ensures old(count) > 0 ==> Valid() && fresh(data) && old(count) < data.Length && data[old(count)] == filler
      ensures old(count) > 0 ==> Elements() == old(Elements())[..old(count) - 1]
      ensures old(count) > 0 ==> capacity == GrowCapacity(old(capacity), old(count))
    {
      if capacity == 0 {
        capacity := capacity + 1;
      }
      if count >= capacity {
        capacity := capacity * 2;
      }
      if count != 0 {
        DropLast(filler);
      }
    }

    /**
     * pop_back() with the emptiness check first: an empty vector is left
     * exactly as it was; otherwise as in PopBackAsWritten.
     */
    method PopBack(filler: T)
      requires Valid()
      modifies this
      ensures Valid()
      ensures old(count) == 0 ==> data == old(data) && capacity == old(capacity) && count == 0
      ensures old(count) > 0 ==> fresh(data) && old(count) < data.Length && data[old(count)] == filler
      ensures old(count) > 0 ==> Elements() == old(Elements())[..old(count) - 1]
      ensures old(count) > 0 ==> capacity == GrowCapacity(old(capacity), old(count))
    {
      if count != 0 {
        if count >= capacity {
          capacity := capacity * 2;
        }
        DropLast(filler);
      }
    }

    /** The elements but the last in a new buffer of the recorded capacity, `filler` just past them. */
    method DropLast(filler: T)
      requires 0 < count < capacity && count <= data.Length
      modifies this
      ensures Valid() && fresh(data) && capacity == old(capacity) && old(count) < capacity
      ensures data[..count] == old(data[..count - 1]) && data[old(count)] == filler
    {
      var old_data, n := data, count;
      var newData := new T[capacity];
      for i := 0 to n
        modifies newData
        invariant newData[..i] == old_data[..i]
      {
        newData[i] := old_data[i];
      }
      newData[n] := filler;
      data := newData;
      count := n - 1;
    }
  }

  /**
   * equal(lhs, rhs) and operator==: the same size and the same element at
   * every position.
   */
  method Equal<T(0, ==)>(lhs: Vector<T>, rhs: Vector<T>) returns (b: bool)
    requires lhs.Valid() && rhs.Valid()
    ensures b <==> lhs.Elements() == rhs.Elements()
  {
    b := true;
    var total := lhs.Size();
    if total == rhs.Size() {
      for i := 0 to total
        invariant b <==> lhs.Elements()[..i] == rhs.Elements()[..i]
      {
        assert lhs.Elements()[..i + 1] == lhs.Elements()[..i] + [lhs.At(i)];
        assert rhs.Elements()[..i + 1] == rhs.Elements()[..i] + [rhs.At(i)];
        if lhs.At(i) != rhs.At(i) {
          b := false;
        }
      }
      assert lhs.Elements()[..total] == lhs.Elements() && rhs.Elements()[..total] == rhs.Elements();
    } else {
      b := false;
    }
  }
}
