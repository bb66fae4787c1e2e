/**
 * The char Vector of the DNA exercise. Its element access, insert, erase,
 * push_back, pop_back, clear and comparison are those of
 * GenericVector.Vector; the operations below are where it differs. Each
 * takes the vector it is called on as `v`.
 */
module CharVector {
  import opened GenericVector

  /** Copies the first `n` characters of `src` into a new buffer of `capacity` slots. */
  method CopyInto(src: array<char>, n: nat, capacity: nat) returns (dst: array<char>)
    requires n <= src.Length && n <= capacity
    ensures fresh(dst) && dst.Length == capacity && dst[..n] == src[..n]
  {
    dst := new char[capacity];
    for i := 0 to n
      modifies dst
      invariant dst[..i] == src[..i]
    {
      dst[i] := src[i];
    }
  }

  /**
   * Vector(Vector&&): copies the elements of `other` into a new buffer of
   * the same capacity, then clears `other` (every slot of its old buffer
   * becomes 'A') and leaves it with no buffer.
   */
  method MoveConstruct(other: Vector<char>) returns (v: Vector<char>)
    requires other.Valid()
    modifies other, other.data
    ensures fresh(v) && fresh(v.data) && v.Valid()
    ensures v.capacity == old(other.capacity) && v.Elements() == old(other.Elements())
    ensures other.Valid() && other.capacity == 0 && other.Elements() == []
    ensures old(other.data)[..] == seq(old(other.capacity), _ => 'A')
  {
    v := new Vector.Copy(other);
    other.Clear('A');
    var none := new char[0];
    other.data, other.capacity, other.count := none, 0, 0;
  }

  /**
   * operator=(const Vector&): unless `other` is `v` itself, a new buffer of
   * other's capacity holding other's elements.
   */
  method AssignCopy(v: Vector<char>, other: Vector<char>)
    requires v.Valid() && other.Valid()
    modifies v
    ensures v.Valid() && v.Elements() == old(other.Elements())
    ensures v != other ==> fresh(v.data) && v.capacity == old(other.capacity)
    ensures v == other ==> v.data == old(v.data) && v.capacity == old(v.capacity)
  {
    if v != other {
      var copy := CopyInto(other.data, other.count, other.capacity);
      v.data, v.count, v.capacity := copy, other.count, other.capacity;
    }
  }

  /**
   * operator=(Vector&&): unless `other` is `v` itself, a copy as in
   * AssignCopy, after which `other` is cleared and left with no buffer.
   */
  method AssignMove(v: Vector<char>, other: Vector<char>)
    requires v.Valid() && other.Valid()
    modifies v, other, other.data
    ensures v.Valid() && other.Valid() && v.Elements() == old(other.Elements())
    ensures v != other ==> fresh(v.data) && v.capacity == old(other.capacity)
    ensures v != other ==> other.capacity == 0 && other.Elements() == []
  {
    if v != other {
      var copy := CopyInto(other.data, other.count, other.capacity);
      v.data, v.count, v.capacity := copy, other.count, other.capacity;
      other.Clear('A');
      var none := new char[0];
      other.data, other.capacity, other.count := none, 0, 0;
    }
  }

  /** The capacity `+=` settles on: the sum of both capacities, doubled when the elements fill it. */
  function AppendCapacity(capacity: nat, count: nat, otherCapacity: nat, otherCount: nat): (c: nat)
    requires count <= capacity && otherCount <= otherCapacity
    ensures count + otherCount <= c
    ensures count + otherCount < capacity + otherCapacity ==> c == capacity + otherCapacity
    ensures c == capacity + otherCapacity || c == 2 * (capacity + otherCapacity)
  {
    var sum := capacity + otherCapacity;
    if count + otherCount >= sum then 2 * sum else sum
  }

  /**
   * operator+=(const Vector&) as written: the capacity grows by other's
   * capacity first, and only when `other` is a different vector are the
   * elements copied into a new buffer. Appending a vector to itself
   * therefore changes no element but doubles the recorded capacity while
   * the buffer stays as it was; a later clear() then writes past its end.
   */
  method AppendAsWritten(v: Vector<char>, other: Vector<char>)
    requires v.Valid() && other.Valid()
    modifies v
    ensures v != other ==> v.Valid() && fresh(v.data)
    ensures v != other ==> v.Elements() == old(v.Elements()) + old(other.Elements())
    ensures v != other ==> v.capacity == AppendCapacity(old(v.capacity), old(v.count), old(other.capacity), old(other.count))
    ensures v == other ==> v.data == old(v.data) && v.count == old(v.count) && v.capacity == 2 * old(v.capacity)
    ensures v == other && old(v.capacity) > 0 ==> v.data.Length < v.capacity && !v.Valid()
  {
    v.capacity := v.capacity + other.capacity;
    if v != other {
      if v.count + other.count >= v.capacity {
        v.capacity := v.capacity * 2;
      }
      var joined := Join(v.data, v.count, other.data, other.count, v.capacity);
      v.data, v.count := joined, v.count + other.count;
    }
  }

  /**
   * operator+=(const Vector&) without the self-check: the elements of `v`
   * and then those of `other` go into a new buffer, which is right for
   * `v += v` too, because `other`'s buffer is read before `v`'s is replaced.
   */
  method Append(v: Vector<char>, other: Vector<char>)
    requires v.Valid() && other.Valid()
    modifies v
    ensures v.Valid() && fresh(v.data)
    ensures v.Elements() == old(v.Elements()) + old(other.Elements())
    ensures v.capacity == AppendCapacity(old(v.capacity), old(v.count), old(other.capacity), old(other.count))
  {
    v.capacity := v.capacity + other.capacity;
    if v.count + other.count >= v.capacity {
      v.capacity := v.capacity * 2;
    }
    var joined := Join(v.data, v.count, other.data, other.count, v.capacity);
    v.data, v.count := joined, v.count + other.count;
  }

  /** A new buffer of `capacity` slots holding the first `n` of `a` followed by the first `m` of `b`. */
  method Join(a: array<char>, n: nat, b: array<char>, m: nat, capacity: nat) returns (r: array<char>)
    requires n <= a.Length && m <= b.Length && n + m <= capacity
    ensures fresh(r) && r.Length == capacity && r[..n + m] == a[..n] + b[..m]
  {
    r := new char[capacity];
    for i := 0 to n
      modifies r
      invariant r[..i] == a[..i]
    {
      r[i] := a[i];
    }
    var j := 0;
    for i := n to n + m
      modifies r
      invariant j == i - n
      invariant r[..i] == a[..n] + b[..j]
    {
      r[i] := b[j];
      j := j + 1;
    }
  }
}
